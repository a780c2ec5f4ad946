/** The list of file records as a block of bytes, and the header that carries it at the front of a
    backup file. */
module Metadata {
  import opened Bytes
  import opened Fields
  import opened FileRecords

  // ----- list of records -----

  /** [length: 4][record] for every file. */
  function ListBytes(fs: seq<FileInfo>): seq<byte> {
    if fs == [] then [] else LE(|Serialized(fs[0])|, 4) + Serialized(fs[0]) + ListBytes(fs[1..])
  }

  function MetaBytes(fs: seq<FileInfo>): seq<byte> {
    LE(|fs|, 4) + ListBytes(fs)
  }

  lemma {:induction false} ListBytesAppend(fs: seq<FileInfo>, f: FileInfo)
    ensures ListBytes(fs + [f]) == ListBytes(fs) + (LE(|Serialized(f)|, 4) + Serialized(f))
  {
    hide Serialized, LE;
    if fs == [] {
      assert ([] + [f])[1..] == [];
      assert ListBytes([]) == [];
    } else {
      ListBytesAppend(fs[1..], f);
      assert (fs + [f])[1..] == fs[1..] + [f];
    }
  }

  lemma {:induction false} ListStep(pre: seq<byte>, fs: seq<FileInfo>, i: nat)
    requires i < |fs|
    ensures pre + ListBytes(fs[..i + 1]) == pre + ListBytes(fs[..i]) + LE(|Serialized(fs[i])|, 4) + Serialized(fs[i])
  {
    hide Serialized, LE, ListBytes;
    ListBytesAppend(fs[..i], fs[i]);
    assert fs[..i] + [fs[i]] == fs[..i + 1];
  }

  method SerializeList(files: seq<FileInfo>) returns (buf: seq<byte>)
    ensures buf == MetaBytes(files)
  {
    assert files[..0] == [] && ListBytes([]) == [];
    hide Serialized, LE, ListBytes;
    buf := WriteLE([], |files|, 4);
    assert [] + LE(|files|, 4) == LE(|files|, 4);
    for i := 0 to |files|
      invariant buf == LE(|files|, 4) + ListBytes(files[..i])
    {
      var fb := Serialize(files[i]);
      buf := WriteLE(buf, |fb|, 4);
      buf := buf + fb;
      ListStep(LE(|files|, 4), files, i);
    }
    assert files[..|files|] == files;
  }

  /** Reads count records at offset; every length prefix is read and ignored. */
  function ParsedList(data: seq<byte>, offset: nat, count: nat): Option<seq<FileInfo>>
    decreases count
  {
    if count == 0 then Some([]) else
      var (_, o1) :- GetNum(data, offset, 4);
      var (info, o2) :- ParsedInfo(data, o1);
      var rest :- ParsedList(data, o2, count - 1);
      Some([info] + rest)
  }

  function ParsedMeta(data: seq<byte>): Option<seq<FileInfo>> {
    var (count, o) :- GetNum(data, 0, 4);
    ParsedList(data, o, count)
  }

  /** None of the reads leaves the buffer, so each step's reads do not either. */
  method DeserializeList(data: seq<byte>) returns (result: seq<FileInfo>)
    requires ParsedMeta(data).Some?
    ensures ParsedMeta(data) == Some(result)
  {
    hide ParsedInfo, FromLE;
    result := [];
    var count, offset := ReadLE(data, 0, 4);
    ghost var whole := ParsedMeta(data).value;
    assert [] + whole == whole;
    var i := 0;
    while i < count
      invariant 0 <= i <= count
      invariant ParsedList(data, offset, count - i).Some?
      invariant result + ParsedList(data, offset, count - i).value == whole
    {
      ghost var before, o := result, offset;
      var _, o1 := ReadLE(data, offset, 4);
      var info;
      info, offset := Deserialize(data, o1);
      result := result + [info];
      Regroup(before, info, ParsedList(data, o, count - i).value, ParsedList(data, offset, count - i - 1).value);
      i := i + 1;
    }
    assert result + [] == result;
  }

  ghost predicate AllStorable(fs: seq<FileInfo>) {
    forall k :: 0 <= k < |fs| ==> Storable(fs[k])
  }

  function StoredAll(fs: seq<FileInfo>): (r: seq<FileInfo>)
    ensures |r| == |fs|
    ensures forall k :: 0 <= k < |fs| ==> r[k] == Stored(fs[k])
  {
    seq(|fs|, k requires 0 <= k < |fs| => Stored(fs[k]))
  }

  lemma {:induction false} StoredList(fs: seq<FileInfo>)
    ensures ListBytes(StoredAll(fs)) == ListBytes(fs)
  {
    hide Serialized, LE, Stored;
    if fs == [] {
    } else {
      StoredSame(fs[0]);
      StoredList(fs[1..]);
      assert StoredAll(fs)[1..] == StoredAll(fs[1..]);
    }
  }

  /** A list that has been read back is written as it was. */
  lemma {:induction false} StoredBytes(fs: seq<FileInfo>)
    ensures MetaBytes(StoredAll(fs)) == MetaBytes(fs)
  {
    StoredList(fs);
  }

  lemma {:induction false} ListRoundTrip(fs: seq<FileInfo>, data: seq<byte>, offset: nat, post: seq<byte>)
    requires AllStorable(fs) && offset <= |data| && data[offset..] == ListBytes(fs) + post
    ensures ParsedList(data, offset, |fs|) == Some(StoredAll(fs))
    decreases |fs|
  {
    hide ParsedInfo, Serialized, LE, FromLE, Stored, Storable;
    if fs == [] {
    } else {
      var size, body, rest := LE(|Serialized(fs[0])|, 4), Serialized(fs[0]), ListBytes(fs[1..]) + post;
      assert ListBytes(fs) + post == size + (body + rest);
      TakeAhead(data, offset, size, body + rest);
      InfoRoundTrip(fs[0], data, offset + 4, rest);
      ListRoundTrip(fs[1..], data, offset + 4 + |body|, post);
      assert [Stored(fs[0])] + StoredAll(fs[1..]) == StoredAll(fs);
    }
  }

  /** Metadata round trip: the list comes back in order, without contents. */
  lemma {:induction false} MetaRoundTrip(fs: seq<FileInfo>)
    requires AllStorable(fs) && |fs| < U32
    ensures ParsedMeta(MetaBytes(fs)) == Some(StoredAll(fs))
  {
    hide ListBytes, LE, FromLE;
    var data := MetaBytes(fs);
    TakeAhead(data, 0, LE(|fs|, 4), ListBytes(fs));
    Widths();
    LERoundTrip(|fs|, 4);
    assert ListBytes(fs) + [] == ListBytes(fs);
    ListRoundTrip(fs, data, 4, []);
  }

  // ----- the header -----

  const MAGIC: nat := 0x424B5550
  const VERSION: nat := 1
  const FIXED: nat := 4 + 4 + 4 + 1 + 1 + 1 + 4

  datatype BackupHeader = BackupHeader(flags: nat, packAlgo: byte, compressAlgo: byte, encryptAlgo: byte, metaSize: nat)

  function HeaderFields(h: BackupHeader): Record {
    Next(Num(MAGIC, 4), Next(Num(VERSION, 4), Next(Num(h.flags, 4), Next(Num(h.packAlgo, 1),
    Next(Num(h.compressAlgo, 1), Next(Num(h.encryptAlgo, 1), Next(Num(h.metaSize, 4), End)))))))
  }

  /** saveHeader: fixed fields, then the metadata block. */
  function HeaderBytes(fs: seq<FileInfo>, flags: nat, packAlgo: byte, compressAlgo: byte, encryptAlgo: byte): seq<byte> {
    var meta := MetaBytes(fs);
    PutAll(HeaderFields(BackupHeader(flags, packAlgo, compressAlgo, encryptAlgo, |meta|))) + meta
  }

  method SaveHeader(fs: seq<FileInfo>, flags: nat, packAlgo: byte, compressAlgo: byte, encryptAlgo: byte)
    returns (out: seq<byte>)
    ensures out == HeaderBytes(fs, flags, packAlgo, compressAlgo, encryptAlgo)
  {
    hide MetaBytes, LE;
    var meta := SerializeList(fs);
    ghost var rest := HeaderFields(BackupHeader(flags, packAlgo, compressAlgo, encryptAlgo, |meta|));
    ghost var whole := PutAll(rest);
    PutStep([], rest);
    assert [] + whole == whole;
    out := WriteLE([], MAGIC, 4);
    rest := rest.tail;
    PutStep(out, rest);
    out := WriteLE(out, VERSION, 4);
    rest := rest.tail;
    PutStep(out, rest);
    out := WriteLE(out, flags, 4);
    rest := rest.tail;
    PutStep(out, rest);
    out := WriteLE(out, packAlgo, 1);
    rest := rest.tail;
    PutStep(out, rest);
    out := WriteLE(out, compressAlgo, 1);
    rest := rest.tail;
    PutStep(out, rest);
    out := WriteLE(out, encryptAlgo, 1);
    rest := rest.tail;
    PutStep(out, rest);
    out := WriteLE(out, |meta|, 4);
    assert out + [] == out;
    out := out + meta;
  }

  /** loadHeader on a stream that starts with the right magic number and version. */
  function ParsedHeader(data: seq<byte>): Option<BackupHeader> {
    var (magic, o1) :- GetNum(data, 0, 4);
    var (version, o2) :- GetNum(data, o1, 4);
    var (flags, o3) :- GetNum(data, o2, 4);
    var (packAlgo, o4) :- GetNum(data, o3, 1);
    var (compressAlgo, o5) :- GetNum(data, o4, 1);
    var (encryptAlgo, o6) :- GetNum(data, o5, 1);
    var (metaSize, o7) :- GetNum(data, o6, 4);
    Widths();
    if magic == MAGIC && version == VERSION
    then Some(BackupHeader(flags, packAlgo, compressAlgo, encryptAlgo, metaSize))
    else None
  }

  /** The header is read back field by field, and the metadata block starts at byte 19. */
  lemma {:induction false} HeaderRoundTrip(h: BackupHeader, data: seq<byte>, post: seq<byte>)
    requires h.flags < U32 && h.metaSize < U32
    requires data == PutAll(HeaderFields(h)) + post
    ensures ParsedHeader(data) == Some(h)
    ensures |data| == FIXED + |post| && data[FIXED..] == post
  {
    Widths();
    hide Put, GetNum, LE, PutAll;
    assert data[0..] == data;
    var r, o := HeaderFields(h), 0;
    ReadNum(data, o, r, post);
    r, o := r.tail, o + 4;
    ReadNum(data, o, r, post);
    r, o := r.tail, o + 4;
    ReadNum(data, o, r, post);
    r, o := r.tail, o + 4;
    ReadNum(data, o, r, post);
    r, o := r.tail, o + 1;
    ReadNum(data, o, r, post);
    r, o := r.tail, o + 1;
    ReadNum(data, o, r, post);
    r, o := r.tail, o + 1;
    ReadNum(data, o, r, post);
    r, o := r.tail, o + 4;
    NothingAhead(data, o, post);
  }
}
