/** Records made of little-endian numbers and length-prefixed strings, written one after the other
    and read back at any offset of a larger buffer. The formats list their fields once; writing and
    reading are both about that list. */
module Fields {
  import opened Bytes

  datatype Field = Num(value: nat, width: nat) | Text(bytes: seq<byte>)

  datatype Record = End | Next(head: Field, tail: Record)

  function Put(f: Field): seq<byte> {
    match f
    case Num(v, w) => LE(v, w)
    case Text(s) => LE(|s|, 2) + s
  }

  function PutAll(r: Record): seq<byte> {
    match r
    case End => []
    case Next(f, t) => Put(f) + PutAll(t)
  }

  /** A field that its width, or its 16-bit length prefix, can hold. */
  predicate Holds(f: Field) {
    match f
    case Num(v, w) => v < Pow256(w)
    case Text(s) => |s| < U16
  }

  function Size(f: Field): nat {
    match f
    case Num(_, w) => w
    case Text(s) => 2 + |s|
  }

  lemma {:induction false} PutSize(r: Record)
    ensures |PutAll(r)| == if r.Next? then Size(r.head) + |PutAll(r.tail)| else 0
  {
  }

  method WriteText(buf: seq<byte>, s: seq<byte>) returns (r: seq<byte>)
    ensures r == buf + Put(Text(s))
  {
    r := WriteLE(buf, |s|, 2);
    r := r + s;
  }

  lemma {:induction false} PutStep(buf: seq<byte>, r: Record)
    requires r.Next?
    ensures buf + PutAll(r) == (buf + Put(r.head)) + PutAll(r.tail)
  {
  }

  // ----- reading -----

  /** The number in the n bytes at offset, and the offset after it. */
  function GetNum(data: seq<byte>, offset: nat, n: nat): (r: Option<(nat, nat)>)
    ensures r.Some? ==> r.value.1 == offset + n <= |data| && r.value.0 < Pow256(n)
  {
    if offset + n <= |data| then Some((FromLE(data[offset..offset + n]), offset + n)) else None
  }

  function GetRaw(data: seq<byte>, offset: nat, n: nat): (r: Option<(seq<byte>, nat)>)
    ensures r.Some? ==> r.value.1 == offset + n <= |data| && |r.value.0| == n
  {
    if offset + n <= |data| then Some((data[offset..offset + n], offset + n)) else None
  }

  function GetText(data: seq<byte>, offset: nat): (r: Option<(seq<byte>, nat)>)
    ensures r.Some? ==> r.value.1 <= |data|
  {
    var (n, o) :- GetNum(data, offset, 2);
    GetRaw(data, o, n)
  }

  /** data continues at offset with the record and then post. */
  ghost predicate Ahead(data: seq<byte>, offset: nat, r: Record, post: seq<byte>) {
    offset <= |data| && data[offset..] == PutAll(r) + post
  }

  /** A number ahead is read back, and what follows it is ahead next. */
  lemma {:induction false} ReadNum(data: seq<byte>, offset: nat, r: Record, post: seq<byte>)
    requires Ahead(data, offset, r, post) && r.Next? && r.head.Num? && Holds(r.head)
    ensures GetNum(data, offset, r.head.width) == Some((r.head.value, offset + r.head.width))
    ensures Ahead(data, offset + r.head.width, r.tail, post)
  {
    var a := Put(r.head);
    assert PutAll(r) + post == a + (PutAll(r.tail) + post);
    TakeAhead(data, offset, a, PutAll(r.tail) + post);
    LERoundTrip(r.head.value, r.head.width);
  }

  lemma {:induction false} ReadText(data: seq<byte>, offset: nat, r: Record, post: seq<byte>)
    requires Ahead(data, offset, r, post) && r.Next? && r.head.Text? && Holds(r.head)
    ensures GetText(data, offset) == Some((r.head.bytes, offset + 2 + |r.head.bytes|))
    ensures Ahead(data, offset + 2 + |r.head.bytes|, r.tail, post)
  {
    var s, rest := r.head.bytes, PutAll(r.tail) + post;
    PrefixedText(s, PutAll(r.tail), post);
    TakeAhead(data, offset, LE(|s|, 2), s + rest);
    TakeAhead(data, offset + 2, s, rest);
    Widths();
    LERoundTrip(|s|, 2);
  }

  lemma {:induction false} PrefixedText(s: seq<byte>, tail: seq<byte>, post: seq<byte>)
    ensures Put(Text(s)) + tail + post == LE(|s|, 2) + (s + (tail + post))
  {
    hide LE;
  }

  lemma {:induction false} NothingAhead(data: seq<byte>, offset: nat, post: seq<byte>)
    requires Ahead(data, offset, End, post)
    ensures data[offset..] == post
  {
    assert [] + post == post;
  }

  method ReadTextAt(data: seq<byte>, offset: nat) returns (s: seq<byte>, next: nat)
    requires GetText(data, offset).Some?
    ensures GetText(data, offset) == Some((s, next))
  {
    var n, o := ReadLE(data, offset, 2);
    s, next := data[o..o + n], o + n;
  }
}
