/** Messages on the wire: [type: 2][reserved: 2][length: 4][payload], big endian, over a byte stream. */
module Wire {
  import opened Bytes

  datatype Message = Message(kind: nat, payload: seq<byte>)

  const NOTHING := Message(0, [])
  const HEADER: nat := 8

  // ----- big-endian strings -----

  /** writeStringBE: a 16-bit length, then all the bytes. */
  function PutString(s: seq<byte>): seq<byte> {
    BE(|s|, 2) + s
  }

  /** readStringBE at an offset; None when it would read past the end. */
  function GetString(data: seq<byte>, offset: nat): (r: Option<(seq<byte>, nat)>)
    ensures r.Some? ==> r.value.1 <= |data| && |r.value.0| < U16
  {
    if offset + 2 > |data| then None else
      var n := FromBE(data[offset..offset + 2]);
      Widths();
      if offset + 2 + n > |data| then None else Some((data[offset + 2..offset + 2 + n], offset + 2 + n))
  }

  lemma {:induction false} StringRoundTrip(s: seq<byte>, rest: seq<byte>)
    requires |s| < U16
    ensures GetString(PutString(s) + rest, 0) == Some((s, 2 + |s|))
    ensures (PutString(s) + rest)[2 + |s|..] == rest
  {
    Widths();
    BERoundTrip(|s|, 2);
    hide BE, FromBE;
    var data := PutString(s) + rest;
    assert data == BE(|s|, 2) + s + rest;
    assert data[0..2] == BE(|s|, 2);
  }

  // ----- framing -----

  /** serialize, with the reserved field as given; the length is cut to 32 bits. */
  function Framed(m: Message, reserved: nat): seq<byte> {
    BE(m.kind, 2) + BE(reserved, 2) + BE(|m.payload|, 4) + m.payload
  }

  /** One message taken from the front of the stream, and the rest; None when the stream ends first. */
  function Unframed(stream: seq<byte>): Option<(Message, seq<byte>)> {
    if |stream| < HEADER then None else
      var n := FromBE(stream[4..8]);
      if HEADER + n > |stream| then None
      else Some((Message(FromBE(stream[0..2]), stream[HEADER..HEADER + n]), stream[HEADER + n..]))
  }

  lemma {:induction false} FrameSlices(a: seq<byte>, b: seq<byte>, c: seq<byte>, d: seq<byte>, rest: seq<byte>)
    requires |a| == 2 && |b| == 2 && |c| == 4
    ensures var s := a + b + c + d + rest;
            s[0..2] == a && s[4..8] == c && s[HEADER..HEADER + |d|] == d && s[HEADER + |d|..] == rest
  {
  }

  lemma {:induction false} FrameRoundTrip(m: Message, reserved: nat, rest: seq<byte>)
    requires m.kind < U16 && |m.payload| < U32
    ensures Unframed(Framed(m, reserved) + rest) == Some((m, rest))
  {
    Widths();
    BERoundTrip(m.kind, 2);
    BERoundTrip(|m.payload|, 4);
    hide BE, FromBE, Pow256;
    FrameSlices(BE(m.kind, 2), BE(reserved, 2), BE(|m.payload|, 4), m.payload, rest);
  }

  function FramedAll(ms: seq<Message>, reserved: nat): seq<byte> {
    if ms == [] then [] else Framed(ms[0], reserved) + FramedAll(ms[1..], reserved)
  }

  /** Message after message until the stream is used up; a zero type or a cut message ends it. */
  function UnframedAll(stream: seq<byte>): seq<Message>
    decreases |stream|
  {
    var r := Unframed(stream);
    if r.None? || r.value.0.kind == 0 then [] else [r.value.0] + UnframedAll(r.value.1)
  }

  /** Framing: any sequence of messages comes back message by message from the concatenated bytes. */
  lemma {:induction false} StreamRoundTrip(ms: seq<Message>, reserved: nat)
    requires forall k :: 0 <= k < |ms| ==> 0 < ms[k].kind < U16 && |ms[k].payload| < U32
    ensures UnframedAll(FramedAll(ms, reserved)) == ms
    decreases |ms|
  {
    hide Framed, Unframed;
    if ms == [] {
      assert Unframed([]).None? by { NoFrame(); }
    } else {
      FrameRoundTrip(ms[0], reserved, FramedAll(ms[1..], reserved));
      StreamRoundTrip(ms[1..], reserved);
    }
  }

  lemma {:induction false} NoFrame()
    ensures Unframed([]).None?
  {
  }

  lemma {:induction false} UnframedShorter(stream: seq<byte>)
    ensures Unframed(stream).Some? ==> |Unframed(stream).value.1| < |stream|
  {
  }

  /** A front part of a stream holds the same first message, or none that is whole. */
  lemma {:induction false} UnframedFront(part: seq<byte>, stream: seq<byte>)
    requires part <= stream && Unframed(part).Some?
    ensures Unframed(stream).Some? && Unframed(stream).value.0 == Unframed(part).value.0
    ensures Unframed(part).value.1 <= Unframed(stream).value.1
  {
    hide FromBE;
    assert part[4..8] == stream[4..8] && part[0..2] == stream[0..2];
    var end := HEADER + FromBE(part[4..8]);
    assert part[HEADER..end] == stream[HEADER..end];
    assert part == stream[..|part|];
    assert part[end..] == stream[end..][..|part| - end];
  }

  /** ... so the messages of a front part are the first messages of the stream. */
  lemma {:induction false} UnframedAllFront(part: seq<byte>, stream: seq<byte>)
    requires part <= stream
    ensures UnframedAll(part) <= UnframedAll(stream)
    decreases |part|
  {
    hide Unframed;
    var r := Unframed(part);
    if r.None? || r.value.0.kind == 0 {
      assert UnframedAll(part) == [];
    } else {
      UnframedFront(part, stream);
      UnframedShorter(part);
      UnframedAllFront(r.value.1, Unframed(stream).value.1);
    }
  }

  // ----- the socket -----

  /** A connected socket: bytes that have arrived and not been read, bytes written so far. Any system call on it
      may fail; failed says that one has. */
  class Socket {
    var arrived: seq<byte>
    var written: seq<byte>
    var failed: bool

    constructor (arrived: seq<byte>)
      ensures this.arrived == arrived && !failed && written == []
    {
      this.arrived, failed, written := arrived, false, [];
    }

    /** recv: any non-empty front part of what has arrived, up to max bytes; nothing on failure or at the end. */
    method Recv(max: nat) returns (part: seq<byte>)
      requires max > 0
      modifies this`arrived, this`failed
      ensures |part| <= max && old(arrived) == part + arrived
      ensures part == [] ==> failed || old(arrived) == []
      ensures part != [] ==> failed == old(failed)
      ensures old(failed) ==> failed
    {
      var fails: bool := *;
      if fails {
        failed := true;
        return [];
      }
      if arrived == [] {
        return [];
      }
      var n: nat :| 1 <= n <= max && n <= |arrived|;
      part := arrived[..n];
      arrived := arrived[n..];
    }

    /** send: some non-empty front part of the data goes out; nothing on failure. */
    method Send(data: seq<byte>) returns (n: nat)
      requires data != []
      modifies this`written, this`failed
      ensures n <= |data| && written == old(written) + data[..n]
      ensures n == 0 ==> failed
      ensures n > 0 ==> failed == old(failed)
    {
      var fails: bool := *;
      if fails {
        failed := true;
        n := 0;
        assert data[..0] == [];
      } else {
        n :| 1 <= n <= |data|;
        written := written + data[..n];
      }
    }

    /** sendAll: the whole data goes out, however it is split; if a call fails, only a front part of it. */
    method SendAll(data: seq<byte>) returns (ok: bool)
      modifies this`written, this`failed
      ensures old(written) <= written <= old(written) + data
      ensures ok <==> written == old(written) + data
      ensures if ok then failed == old(failed) else failed
    {
      var sent := 0;
      while sent < |data|
        invariant sent <= |data| && written == old(written) + data[..sent]
        invariant failed == old(failed)
      {
        var n := Send(data[sent..]);
        if n <= 0 {
          return false;
        }
        assert data[..sent] + data[sent..][..n] == data[..sent + n];
        sent := sent + n;
      }
      assert data[..|data|] == data;
      ok := true;
    }

    /** recvAll: the next len bytes, however they arrive; if a call fails or the stream ends, fewer. */
    method RecvAll(len: nat) returns (ok: bool, data: seq<byte>)
      modifies this`arrived, this`failed
      ensures |data| <= len && old(arrived) == data + arrived
      ensures ok <==> |data| == len
      ensures if ok then failed == old(failed) else failed || arrived == []
      ensures old(failed) ==> failed
    {
      data := [];
      while |data| < len
        invariant |data| <= len && old(arrived) == data + arrived
        invariant failed == old(failed)
      {
        var part := Recv(len - |data|);
        if part == [] {
          return false, data;
        }
        data := data + part;
      }
      ok := true;
    }

    method SendMessage(m: Message) returns (ok: bool)
      modifies this`written, this`failed
      ensures old(written) <= written <= old(written) + Framed(m, 0)
      ensures ok <==> written == old(written) + Framed(m, 0)
      ensures if ok then failed == old(failed) else failed
    {
      hide Framed;
      ok := SendAll(Framed(m, 0));
    }

    /** receiveMessage: the next message of the stream, for every way it is cut into reads; the empty message
        when a call fails or the stream ends first. */
    method ReceiveMessage() returns (m: Message)
      modifies this`arrived, this`failed
      ensures m == NOTHING || Unframed(old(arrived)) == Some((m, arrived))
      ensures !failed && Unframed(old(arrived)).Some? ==> Unframed(old(arrived)) == Some((m, arrived))
      ensures old(failed) ==> failed
    {
      ghost var stream := arrived;
      var ok, header := RecvAll(HEADER);
      if !ok {
        return NOTHING;
      }
      assert stream[0..2] == header[0..2] && stream[4..8] == header[4..8];
      var kind, payloadLen := FromBE(header[0..2]), FromBE(header[4..8]);
      var payload: seq<byte> := [];
      if payloadLen > 0 {
        ok, payload := RecvAll(payloadLen);
        if !ok {
          return NOTHING;
        }
      }
      assert stream == header + payload + arrived;
      m := Message(kind, payload);
    }

    /** One message after the other, until a call fails. */
    method SendMessages(ms: seq<Message>) returns (ok: bool)
      modifies this`written, this`failed
      ensures old(written) <= written <= old(written) + FramedAll(ms, 0)
      ensures ok ==> written == old(written) + FramedAll(ms, 0)
      ensures !ok ==> failed
    {
      hide Framed;
      ghost var start, all := written, FramedAll(ms, 0);
      assert ms[0..] == ms;
      for i := 0 to |ms|
        invariant start <= written && start + all == written + FramedAll(ms[i..], 0)
      {
        ghost var before := written;
        FramedNext(ms, i);
        ok := SendMessage(ms[i]);
        assert before + FramedAll(ms[i..], 0) == before + Framed(ms[i], 0) + FramedAll(ms[i + 1..], 0);
        if !ok {
          return;
        }
      }
      ok := true;
    }

    /** Messages as long as some come. */
    method ReceiveMessages() returns (ms: seq<Message>)
      modifies this`arrived, this`failed
      ensures ms <= UnframedAll(old(arrived))
      ensures !failed ==> ms == UnframedAll(old(arrived))
    {
      hide Unframed;
      ms := [];
      while true
        invariant ms + UnframedAll(arrived) == UnframedAll(old(arrived))
        decreases |arrived|
      {
        ghost var stream := arrived;
        var m := ReceiveMessage();
        if m.kind == 0 {
          assert !failed ==> UnframedAll(stream) == [];
          assert ms + [] == ms;
          return;
        }
        UnframedShorter(stream);
        Regroup(ms, m, UnframedAll(stream), UnframedAll(arrived));
        ms := ms + [m];
      }
    }
  }

  lemma {:induction false} FramedNext(ms: seq<Message>, i: nat)
    requires i < |ms|
    ensures FramedAll(ms[i..], 0) == Framed(ms[i], 0) + FramedAll(ms[i + 1..], 0)
  {
    hide Framed;
    assert ms[i..][0] == ms[i] && ms[i..][1..] == ms[i + 1..];
  }

  /** A connection carries any sequence of messages, however either end's calls cut the bytes: what one end
      writes is received at the other message by message. If calls fail on the way, or bytes are lost after
      that, what is received is still the first of the messages sent, each of them whole. */
  method Carry(sender: Socket, receiver: Socket, ms: seq<Message>) returns (got: seq<Message>)
    requires sender != receiver && sender.written == []
    requires forall k :: 0 <= k < |ms| ==> 0 < ms[k].kind < U16 && |ms[k].payload| < U32
    modifies sender, receiver
    ensures got <= ms
    ensures !sender.failed && !receiver.failed ==> got == ms
  {
    hide FramedAll, UnframedAll;
    var ok := sender.SendMessages(ms);
    var n: nat :| n <= |sender.written| && (ok ==> n == |sender.written|);
    receiver.arrived := sender.written[..n];
    assert sender.written[..|sender.written|] == sender.written;
    assert [] + FramedAll(ms, 0) == FramedAll(ms, 0);
    UnframedAllFront(receiver.arrived, FramedAll(ms, 0));
    StreamRoundTrip(ms, 0);
    got := receiver.ReceiveMessages();
  }
}
