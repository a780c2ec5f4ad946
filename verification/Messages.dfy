/** The protocol's message types,
    error codes and payload layouts. */
module Messages {
  import opened Bytes
  import opened Wire

  const CLIENT_HELLO: nat := 0x01
  const SERVER_HELLO: nat := 0x02
  const LOGIN_REQUEST: nat := 0x03
  const LOGIN_RESPONSE: nat := 0x04
  const REGISTER_REQUEST: nat := 0x05
  const REGISTER_RESPONSE: nat := 0x06
  const FILE_DATA: nat := 0x09
  const BACKUP_COMPLETE: nat := 0x0A
  const RESTORE_REQUEST: nat := 0x0B
  const RESTORE_FILE_DATA: nat := 0x0C
  const RESTORE_COMPLETE: nat := 0x0D
  const BACKUP_LIST_REQUEST: nat := 0x0E
  const BACKUP_LIST_RESPONSE: nat := 0x0F
  const ERROR_MESSAGE: nat := 0x11
  const LOGOUT: nat := 0x12
  const LOGIN_SALT: nat := 0x13
  const LOGIN_PROOF: nat := 0x14
  const BACKUP_START: nat := 0x15

  const INCOMPATIBLE_VERSION: nat := 1
  const NOT_LOGGED_IN: nat := 5
  const BACKUP_NOT_FOUND: nat := 6
  const INVALID_MESSAGE: nat := 8
  const NAME_EXISTS: nat := 10

  const PROTOCOL_VERSION: nat := 1

  function Ascii(text: string): (r: seq<byte>)
    ensures |r| == |text|
  {
    seq(|text|, i requires 0 <= i < |text| => var b: byte := text[i] as int % 256; b)
  }

  const BAK: seq<byte> := Ascii(".bak")
  const BAK_PAYLOAD: seq<byte> := Ascii(".bak_payload")
  const BAK_METADATA: seq<byte> := Ascii(".bak_metadata")

  function ErrorText(code: nat, text: seq<byte>): Message {
    Message(ERROR_MESSAGE, BE(code, 2) + PutString(text))
  }

  /** The payload of a file message: path, 64-bit length, bytes. */
  function FilePayload(path: seq<byte>, data: seq<byte>): seq<byte> {
    PutString(path) + BE(|data|, 8) + data
  }

  /** Path and bytes of a file message; None when a length reaches past the end. */
  function ParsedFile(payload: seq<byte>): Option<(seq<byte>, seq<byte>)> {
    var (path, o) :- GetString(payload, 0);
    if o + 8 > |payload| then None else
      var n := FromBE(payload[o..o + 8]);
      if o + 8 + n > |payload| then None else Some((path, payload[o + 8..o + 8 + n]))
  }

  lemma {:induction false} FileRoundTrip(path: seq<byte>, data: seq<byte>)
    requires |path| < U16 && |data| < U64
    ensures |FilePayload(path, data)| >= 10
    ensures ParsedFile(FilePayload(path, data)) == Some((path, data))
  {
    var rest := BE(|data|, 8) + data;
    StringRoundTrip(path, rest);
    Widths();
    BERoundTrip(|data|, 8);
    hide BE, FromBE, GetString, PutString;
    var p, o := FilePayload(path, data), 2 + |path|;
    assert p == PutString(path) + rest;
    assert |PutString(path)| == o by { PutLength(path); }
    SliceMid(PutString(path), BE(|data|, 8), data);
    assert p[o..o + 8] == BE(|data|, 8) && p[o + 8..] == data;
    assert p[o + 8..o + 8 + |data|] == data;
  }

  lemma {:induction false} PutLength(s: seq<byte>)
    ensures |PutString(s)| == 2 + |s|
  {
  }

  /** Code and text are read back from an error message. */
  lemma {:induction false} ErrorRoundTrip(code: nat, text: seq<byte>)
    requires code < U16 && |text| < U16
    ensures var p := ErrorText(code, text).payload;
            |p| >= 4 && FromBE(p[..2]) == code && GetString(p, 2) == Some((text, 4 + |text|))
  {
    Widths();
    BERoundTrip(code, 2);
    StringRoundTrip(text, []);
    PutLength(text);
    var p, s := ErrorText(code, text).payload, PutString(text) + [];
    assert s == PutString(text) && p == BE(code, 2) + s;
    hide BE, PutString;
    assert p[..2] == BE(code, 2);
    assert p[2..4] == s[0..2] && p[4..4 + |text|] == s[2..2 + |text|];
    hide FromBE;
  }

  /** The two file messages and the end marker of an upload, in the clear. */
  function UploadMessages(whole: seq<byte>, meta: seq<byte>): seq<Message> {
    [Message(FILE_DATA, FilePayload(BAK_PAYLOAD, whole)),
     Message(FILE_DATA, FilePayload(BAK_METADATA, meta)),
     Message(BACKUP_COMPLETE, [])]
  }

  /** What a restore sends, in the clear. */
  function RestoreMessages(whole: seq<byte>, meta: seq<byte>, count: nat): seq<Message> {
    [Message(FILE_DATA, FilePayload(BAK, whole)),
     Message(FILE_DATA, FilePayload(BAK_METADATA, meta)),
     Message(RESTORE_COMPLETE, BE(count, 4))]
  }
}
