module HuffmanStream {
  /** The Huffman stream: [original size: 8][256 counters of 4][number of bits: 8][bits, low bit first]. */

  import opened Bytes
  import opened HuffmanTree
  import opened HuffmanDepth
  import opened PrefixCodes
  import opened HuffmanCodes
  import opened HuffmanCodec

  // ----- bits in bytes -----

  lemma {:induction false} Pow2Monotone(a: nat, b: nat)
    requires a <= b
    ensures Pow2(a) <= Pow2(b)
    decreases b
  {
    if a >= b {
    } else {
      Pow2Monotone(a, b - 1);
    }
  }

  /** A byte from at most eight bits, the first in the lowest position. */
  function ByteOf(p: Bits): byte
    requires |p| <= 8
  {
    Pow2Monotone(|p|, 8);
    assert Pow2(8) == 256 by { assert Pow2(4) == 16; }
    Val(p)
  }

  function Chunk(bits: Bits, k: nat): (p: Bits)
    requires 8 * k <= |bits|
    ensures |p| <= 8
  {
    bits[8 * k..if 8 * k + 8 <= |bits| then 8 * k + 8 else |bits|]
  }

  function PackBits(bits: Bits): (r: seq<byte>)
    ensures |r| == (|bits| + 7) / 8
  {
    seq((|bits| + 7) / 8, k requires 0 <= k < (|bits| + 7) / 8 => ByteOf(Chunk(bits, k)))
  }

  function BitsOf(data: seq<byte>, n: nat): (bits: Bits)
    requires n <= 8 * |data|
    ensures |bits| == n
  {
    seq(n, i requires 0 <= i < n => BitOf(data[i / 8], i % 8))
  }

  /** Reading bit i as bit i % 8 of byte i / 8 undoes the packing; trailing bytes do not matter. */
  lemma {:induction false} BitsOfPackBits(bits: Bits, rest: seq<byte>)
    ensures BitsOf(PackBits(bits) + rest, |bits|) == bits
  {
    forall i | 0 <= i < |bits| ensures BitOf((PackBits(bits) + rest)[i / 8], i % 8) == bits[i] {
      BitOfVal(Chunk(bits, i / 8), i % 8);
    }
  }

  /** The stream s is held in full bytes buf and cnt pending bits cur. */
  ghost predicate Buffered(s: Bits, buf: seq<byte>, cur: nat, cnt: nat) {
    && |s| == 8 * |buf| + cnt && cnt < 8
    && (forall k :: 0 <= k < |buf| ==> buf[k] == ByteOf(Chunk(s, k)))
    && cur == Val(s[8 * |buf|..])
  }

  lemma {:induction false} BufferBit(s: Bits, buf: seq<byte>, cur: nat, cnt: nat, b: bool)
    requires Buffered(s, buf, cur, cnt)
    ensures var cur' := cur + BitValue(b) * Pow2(cnt);
            if cnt == 7 then cur' < 256 && Buffered(s + [b], buf + [cur'], 0, 0)
            else Buffered(s + [b], buf, cur', cnt + 1)
  {
    var n := 8 * |buf|;
    ValSnoc(s[n..], b);
    assert (s + [b])[n..] == s[n..] + [b];
    forall k | 0 <= k < |buf| ensures buf[k] == ByteOf(Chunk(s + [b], k)) {
      assert Chunk(s + [b], k) == Chunk(s, k);
    }
    if cnt == 7 {
      assert Chunk(s + [b], |buf|) == (s + [b])[n..];
      assert ByteOf(Chunk(s + [b], |buf|)) == cur + BitValue(b) * Pow2(cnt);
      assert (s + [b])[n + 8..] == [];
    }
  }

  lemma {:induction false} BufferDone(s: Bits, buf: seq<byte>, cur: nat, cnt: nat)
    requires Buffered(s, buf, cur, cnt)
    ensures cur < 256 && PackBits(s) == if cnt > 0 then buf + [cur] else buf
  {
    var n := 8 * |buf|;
    Pow2Monotone(cnt, 8);
    assert Pow2(8) == 256 by { assert Pow2(4) == 16; }
    if cnt > 0 {
      assert Chunk(s, |buf|) == s[n..];
    }
  }

  /** The codes of the bytes, one after the other. */
  ghost function EncodeBy(codes: seq<HuffmanCode>, data: seq<byte>): Bits
    requires |codes| == 256
  {
    if data == [] then [] else EncodeBy(codes, data[..|data| - 1]) + CodeBits(codes[data[|data| - 1]])
  }

  lemma {:induction false} EncodeByStep(codes: seq<HuffmanCode>, data: seq<byte>, k: nat)
    requires |codes| == 256 && k < |data|
    ensures EncodeBy(codes, data[..k + 1]) == EncodeBy(codes, data[..k]) + CodeBits(codes[data[k]])
  {
    assert data[..k + 1][..k] == data[..k];
  }

  /** The inner emitting loop: bit i of one code for i from 0, eight bits to a byte. */
  method EmitCode(ghost s: Bits, code: HuffmanCode, buf: seq<byte>, cur: nat, cnt: nat)
    returns (bitBuffer: seq<byte>, currentByte: nat, bitCount: nat)
    requires Buffered(s, buf, cur, cnt)
    ensures Buffered(s + CodeBits(code), bitBuffer, currentByte, bitCount)
  {
    bitBuffer, currentByte, bitCount := buf, cur, cnt;
    ghost var p := CodeBits(code);
    assert s + p[..0] == s;
    for i := 0 to code.length
      invariant Buffered(s + p[..i], bitBuffer, currentByte, bitCount)
    {
      BufferBit(s + p[..i], bitBuffer, currentByte, bitCount, p[i]);
      assert s + p[..i] + [p[i]] == s + p[..i + 1];
      hide Val, Chunk, Pow2;
      if BitOf(code.bits, i) {
        currentByte := currentByte + Pow2(bitCount);
      }
      bitCount := bitCount + 1;
      if bitCount == 8 {
        bitBuffer := bitBuffer + [currentByte];
        currentByte, bitCount := 0, 0;
      }
    }
    assert p[..code.length] == p;
  }

  /** The emitting loop of compress. */
  method EmitBits(input: seq<byte>, codes: seq<HuffmanCode>) returns (bitBuffer: seq<byte>)
    requires |codes| == 256
    ensures bitBuffer == PackBits(EncodeBy(codes, input))
  {
    bitBuffer := [];
    var currentByte: nat, bitCount: nat := 0, 0;
    for j := 0 to |input|
      invariant Buffered(EncodeBy(codes, input[..j]), bitBuffer, currentByte, bitCount)
    {
      EncodeByStep(codes, input, j);
      bitBuffer, currentByte, bitCount :=
        EmitCode(EncodeBy(codes, input[..j]), codes[input[j]], bitBuffer, currentByte, bitCount);
    }
    assert input[..|input|] == input;
    BufferDone(EncodeBy(codes, input), bitBuffer, currentByte, bitCount);
    if bitCount > 0 {
      bitBuffer := bitBuffer + [currentByte];
    }
  }

  method TotalBits(input: seq<byte>, codes: seq<HuffmanCode>) returns (totalBits: nat)
    requires |codes| == 256
    ensures totalBits == |EncodeBy(codes, input)|
  {
    totalBits := 0;
    for j := 0 to |input|
      invariant totalBits == |EncodeBy(codes, input[..j])|
    {
      totalBits := totalBits + codes[input[j]].length;
      EncodeByStep(codes, input, j);
    }
    assert input[..|input|] == input;
  }

  // ----- the frequency table as bytes -----

  function TableBytes(freqs: seq<nat>): (r: seq<byte>)
    ensures |r| == 4 * |freqs|
  {
    if freqs == [] then [] else TableBytes(freqs[..|freqs| - 1]) + LE(freqs[|freqs| - 1], 4)
  }

  function TableFrom(data: seq<byte>, n: nat): (f: seq<nat>)
    requires 4 * n <= |data|
    ensures |f| == n
  {
    if n == 0 then [] else TableFrom(data, n - 1) + [FromLE(data[4 * (n - 1)..4 * n])]
  }

  lemma {:induction false} TableRoundTrip(freqs: seq<nat>, rest: seq<byte>)
    requires forall k :: 0 <= k < |freqs| ==> freqs[k] < U32
    ensures TableFrom(TableBytes(freqs) + rest, |freqs|) == freqs
  {
    if freqs == [] {
    } else {
      var n := |freqs| - 1;
      var pre, last := TableBytes(freqs[..n]), LE(freqs[n], 4);
      TableRoundTrip(freqs[..n], last + rest);
      assert TableBytes(freqs) + rest == pre + (last + rest);
      assert (pre + (last + rest))[4 * n..4 * (n + 1)] == last;
      Widths();
      LERoundTrip(freqs[n], 4);
    }
  }

  method WriteTable(buf: seq<byte>, freqs: seq<nat>) returns (r: seq<byte>)
    ensures r == buf + TableBytes(freqs)
  {
    r := buf;
    for i := 0 to |freqs|
      invariant r == buf + TableBytes(freqs[..i])
    {
      r := WriteLE(r, freqs[i], 4);
      assert freqs[..i + 1][..i] == freqs[..i];
    }
    assert freqs[..|freqs|] == freqs;
  }

  method ReadTable(data: seq<byte>, start: nat) returns (freqs: seq<nat>, offset: nat)
    requires start + 1024 <= |data|
    ensures freqs == TableFrom(data[start..], 256) && offset == start + 1024
  {
    freqs, offset := [], start;
    for i := 0 to 256
      invariant offset == start + 4 * i
      invariant freqs == TableFrom(data[start..], i)
    {
      var f;
      ghost var o := offset;
      f, offset := ReadLE(data, offset, 4);
      assert data[o..o + 4] == data[start..][4 * i..4 * (i + 1)];
      freqs := freqs + [f];
    }
  }

  // ----- compress -----

  const HEADER: nat := 8 + 256 * 4 + 8

  /** The code table of the data; a byte without a leaf has an empty code. */
  function Table(tb: TieBreak, data: seq<byte>): (codes: seq<HuffmanCode>)
    ensures |codes| == 256
  {
    FilledCodes(TreeOf(tb, Frequencies(data)), 0, 0, seq(256, _ => HuffmanCode(0, 0)))
  }

  /** What compress writes. The two 64-bit fields keep the low bits of their numbers. */
  ghost function Compressed(tb: TieBreak, data: seq<byte>): seq<byte> {
    if data == [] then LE(0, 8) + Zeros(256 * 4) + Zeros(8) else
      var bits := EncodeBy(Table(tb, data), data);
      LE(|data|, 8) + TableBytes(Frequencies(data)) + LE(|bits|, 8) + PackBits(bits)
  }

  /** No code outgrows its 64-bit word. */
  predicate Shallow(tb: TieBreak, data: seq<byte>) {
    Height(TreeOf(tb, Frequencies(data))) <= 64
  }

  /** compress.  A deeper tree makes the program shift by more than 63, which is undefined; below 2^32 bytes
      there is none. */
  method Compress(tb: TieBreak, input: seq<byte>) returns (result: seq<byte>)
    requires Shallow(tb, input)
    ensures result == Compressed(tb, input)
  {
    result := WriteLE([], |input|, 8);
    assert [] + LE(|input|, 8) == LE(|input|, 8);
    if input == [] {
      result := result + Zeros(256 * 4);
      result := result + Zeros(8);
      return;
    }
    var freqs := CountFrequencies(input);
    result := WriteTable(result, freqs[..]);
    var root := BuildTree(tb, freqs[..]);
    var codes := new HuffmanCode[256](_ => HuffmanCode(0, 0));
    assert codes[..] == seq(256, _ => HuffmanCode(0, 0));
    GenerateCodes(root, 0, 0, codes);
    var bitBuffer := EmitBits(input, codes[..]);
    var totalBits := TotalBits(input, codes[..]);
    result := WriteLE(result, totalBits, 8);
    result := result + bitBuffer;
  }

  // ----- the table and the tree -----

  /** The bytes that have a leaf. */
  ghost function Known(t: Tree, data: seq<byte>): seq<byte> {
    if data == [] then [] else
      var b := data[|data| - 1];
      Known(t, data[..|data| - 1]) + (if b in Symbols(t) then [b] else [])
  }

  lemma {:induction false} KnownAll(t: Tree, data: seq<byte>)
    ensures |Known(t, data)| <= |data| && (Known(t, data) == data <==> Covers(t, data))
  {
    if data == [] {
    } else {
      var n := |data| - 1;
      KnownAll(t, data[..n]);
      assert data == data[..n] + [data[n]];
      assert Covers(t, data) <==> Covers(t, data[..n]) && data[n] in Symbols(t);
    }
  }

  lemma {:induction false} CodeOf(t: Tree, b: byte)
    requires DistinctLeaves(t)
    ensures CodeBits(FilledCodes(t, 0, 0, seq(256, _ => HuffmanCode(0, 0)))[b]) == if b in Symbols(t) then Path(t, b) else []
  {
    var codes := seq(256, _ => HuffmanCode(0, 0));
    if b in Symbols(t) {
      EntryIsPath(t, codes, b);
      CodeBitsOfVal(Path(t, b));
    } else {
      FilledCodesArePaths(t, 0, 0, codes, b);
      assert codes[b] == HuffmanCode(0, 0);
      assert CodeBits(codes[b]) == [];
    }
  }

  /** Coding by the table is coding by the tree what has a leaf. */
  lemma {:induction false} TableEncodes(t: Tree, codes: seq<HuffmanCode>, data: seq<byte>)
    requires DistinctLeaves(t) && codes == FilledCodes(t, 0, 0, seq(256, _ => HuffmanCode(0, 0)))
    ensures Covers(t, Known(t, data)) && EncodeBy(codes, data) == Encode(t, Known(t, data))
  {
    hide FilledCodes, CodeBits, Path;
    if data == [] {
    } else {
      var n := |data| - 1;
      var pre, b := Known(t, data[..n]), data[n];
      TableEncodes(t, codes, data[..n]);
      CodeOf(t, b);
      if b in Symbols(t) {
        assert (pre + [b])[..|pre|] == pre;
        assert Encode(t, pre + [b]) == Encode(t, pre) + Path(t, b);
      } else {
        assert pre + [] == pre && EncodeBy(codes, data[..n]) + [] == EncodeBy(codes, data[..n]);
      }
    }
  }

  // ----- decompress -----

  /** The decoding loop from bit i at node `current`: the bytes produced and the bits consumed. */
  function Decoded(root: Tree, current: Tree, bits: Bits, i: nat, origSize: nat, out: seq<byte>): (r: (seq<byte>, nat))
    requires i <= |bits|
    decreases |bits| - i
  {
    if |out| < origSize && i < |bits| then
      if current.Leaf? then (out, i + 1) else
        var next := if bits[i] then current.right else current.left;
        if next.Leaf? then Decoded(root, root, bits, i + 1, origSize, out + [next.byteValue])
        else Decoded(root, next, bits, i + 1, origSize, out)
    else (out, i)
  }

  /** The bits that the decoding loop may read: as many as announced, if there are so many. */
  function Available(bitData: seq<byte>, totalBits: nat): (bits: Bits)
    ensures |bits| <= totalBits
  {
    BitsOf(bitData, if totalBits <= 8 * |bitData| then totalBits else 8 * |bitData|)
  }

  /** Every bit that the loop reads is there: as many as announced, or as many as it takes to decode the
      announced number of bytes. */
  predicate Enough(root: Tree, bitData: seq<byte>, totalBits: nat, origSize: nat) {
    || totalBits <= 8 * |bitData|
    || (if root.Leaf? then bitData != []
        else |Decoded(root, root, Available(bitData, totalBits), 0, origSize, []).0| >= origSize)
  }

  predicate BitsPresent(tb: TieBreak, input: seq<byte>) {
    |input| < HEADER || FromLE(input[..8]) == 0
    || Enough(TreeOf(tb, TableFrom(input[8..], 256)), input[HEADER..], FromLE(input[1032..1040]), FromLE(input[..8]))
  }

  /** What decompress returns. */
  function Decompressed(tb: TieBreak, input: seq<byte>): seq<byte> {
    if |input| < HEADER then [] else
      var origSize := FromLE(input[..8]);
      if origSize == 0 then [] else
        var root := TreeOf(tb, TableFrom(input[8..], 256));
        Decoded(root, root, Available(input[HEADER..], FromLE(input[1032..1040])), 0, origSize, []).0
  }

  /** The loop over the bits. */
  method DecodeBits(root: Tree, bitData: seq<byte>, totalBits: nat, origSize: nat) returns (result: seq<byte>)
    requires origSize > 0 && Enough(root, bitData, totalBits, origSize)
    ensures result == Decoded(root, root, Available(bitData, totalBits), 0, origSize, []).0
  {
    hide BitOf;
    ghost var bits := Available(bitData, totalBits);
    result := [];
    var bitIndex: nat, current := 0, root;
    while |result| < origSize && bitIndex < totalBits
      invariant bitIndex <= |bits| && (root.Leaf? ==> bitIndex == 0 && current == root)
      invariant Decoded(root, root, bits, 0, origSize, []).0 == Decoded(root, current, bits, bitIndex, origSize, result).0
      decreases totalBits - bitIndex
    {
      assert bitIndex < |bits|;
      var bit := BitOf(bitData[bitIndex / 8], bitIndex % 8);
      assert bit == bits[bitIndex];
      bitIndex := bitIndex + 1;
      if current.Leaf? {
        break;
      }
      current := if bit then current.right else current.left;
      if current.Leaf? {
        result := result + [current.byteValue];
        current := root;
      }
    }
  }

  method Decompress(tb: TieBreak, input: seq<byte>) returns (result: seq<byte>)
    requires BitsPresent(tb, input)
    ensures result == Decompressed(tb, input)
  {
    hide FromLE, Enough, Decoded, Available, TableFrom, TreeOf;
    if |input| < HEADER {
      return [];
    }
    var origSize, offset := ReadLE(input, 0, 8);
    assert input[0..8] == input[..8];
    if origSize == 0 {
      return [];
    }
    var freqs;
    freqs, offset := ReadTable(input, offset);
    var totalBits;
    totalBits, offset := ReadLE(input, offset, 8);
    var root := BuildTree(tb, freqs);
    result := DecodeBits(root, input[offset..], totalBits, origSize);
  }

  // ----- round trip -----

  /** From the root, the path of b leads the decoder to emit b. */
  lemma {:induction false} DecodePath(root: Tree, t: Tree, b: byte, bits: Bits, i: nat, origSize: nat, out: seq<byte>)
    requires t.Node? && b in Symbols(t) && |out| < origSize
    requires i + |Path(t, b)| <= |bits| && bits[i..i + |Path(t, b)|] == Path(t, b)
    ensures Decoded(root, t, bits, i, origSize, out) ==
            Decoded(root, root, bits, i + |Path(t, b)|, origSize, out + [b])
  {
    var p := Path(t, b);
    var next := if b in Symbols(t.left) then t.left else t.right;
    assert p == [b !in Symbols(t.left)] + Path(next, b);
    assert bits[i] == bits[i..i + |p|][0];
    if next.Leaf? {
    } else {
      assert bits[i + 1..i + |p|] == bits[i..i + |p|][1..];
      DecodePath(root, next, b, bits, i + 1, origSize, out);
    }
  }

  /** Where the k-th path sits in the stream. */
  lemma {:induction false} PathInStream(t: Tree, data: seq<byte>, k: nat, i: nat)
    requires Covers(t, data) && k < |data| && i == |Encode(t, data[..k])|
    ensures i + |Path(t, data[k])| == |Encode(t, data[..k + 1])| <= |Encode(t, data)|
    ensures Encode(t, data)[i..i + |Path(t, data[k])|] == Path(t, data[k])
  {
    EncodePrefix(t, data, k + 1);
    EncodeStep(t, data, k);
    var bits, p := Encode(t, data), Path(t, data[k]);
    assert bits[i..i + |p|] == bits[..i + |p|][i..];
  }

  /** The k-th path leads the decoder from the first k bytes to the first k + 1. */
  lemma {:induction false} DecodeNext(t: Tree, data: seq<byte>, bits: Bits, origSize: nat, k: nat, i: nat, j: nat)
    requires t.Node? && Covers(t, data) && bits == Encode(t, data) && |data| <= origSize
    requires k < |data| && i == |Encode(t, data[..k])| && j == |Encode(t, data[..k + 1])|
    ensures i <= j <= |bits|
    ensures Decoded(t, t, bits, i, origSize, data[..k]) == Decoded(t, t, bits, j, origSize, data[..k + 1])
  {
    hide Decoded, Path, Encode;
    PathInStream(t, data, k, i);
    DecodePath(t, t, data[k], bits, i, origSize, data[..k]);
    assert data[..k] + [data[k]] == data[..k + 1];
  }

  /** Decoding k paths emits k bytes. */
  lemma {:induction false} DecodeEncoded(t: Tree, data: seq<byte>, bits: Bits, origSize: nat, k: nat, i: nat)
    requires t.Node? && Covers(t, data) && bits == Encode(t, data) && |data| <= origSize
    requires k <= |data| && i == |Encode(t, data[..k])|
    ensures i <= |bits|
    ensures Decoded(t, t, bits, 0, origSize, []) == Decoded(t, t, bits, i, origSize, data[..k])
    decreases k
  {
    hide Decoded;
    if k > 0 {
      hide Encode;
      var j := |Encode(t, data[..k - 1])|;
      DecodeEncoded(t, data, bits, origSize, k - 1, j);
      DecodeNext(t, data, bits, origSize, k - 1, j, i);
    } else {
      assert data[..0] == [];
    }
  }

  /** Decoding the whole stream gives the data back and consumes exactly its bits, also when more bytes are
      announced. */
  lemma {:induction false} DecodeAll(t: Tree, data: seq<byte>, origSize: nat)
    requires t.Node? && Covers(t, data) && |data| <= origSize
    ensures Decoded(t, t, Encode(t, data), 0, origSize, []) == (data, |Encode(t, data)|)
  {
    assert data[..|data|] == data;
    DecodeEncoded(t, data, Encode(t, data), origSize, |data|, |Encode(t, data)|);
  }

  ghost predicate TwoDistinct(data: seq<byte>) {
    exists i, j :: 0 <= i < j < |data| && data[i] != data[j]
  }

  /** No byte occurs a multiple of 2^32 times, which its counter would take for none. */
  ghost predicate NoCountWraps(data: seq<byte>) {
    forall b: byte :: b in data ==> Count(data, b) % U32 != 0
  }

  lemma {:induction false} SmallCounts(data: seq<byte>)
    requires |data| < U32
    ensures NoCountWraps(data)
  {
    forall b: byte | b in data ensures Count(data, b) % U32 != 0 {
      CountPositive(data, b);
    }
  }

  lemma {:induction false} TwoSymbols(t: Tree, data: seq<byte>)
    requires t.Node? && DistinctLeaves(t) && forall b: byte :: b in Symbols(t) ==> b in data
    ensures TwoDistinct(data)
  {
    var x := SomeSymbol(t.left);
    var y := SomeSymbol(t.right);
    assert x in Symbols(t) && y in Symbols(t);
    var i :| 0 <= i < |data| && data[i] == x;
    var j :| 0 <= j < |data| && data[j] == y;
    assert data[if i < j then i else j] != data[if i < j then j else i];
  }

  /** What comes back through a tree with two leaves is what has a leaf, and that is all exactly if no
      count wraps. */
  lemma {:induction false} TreeKnows(tb: TieBreak, data: seq<byte>, t: Tree)
    requires data != [] && t == TreeOf(tb, Frequencies(data))
    ensures DistinctLeaves(t)
    ensures t.Node? ==> TwoDistinct(data) && (Covers(t, data) <==> NoCountWraps(data))
    ensures t.Leaf? ==> !(TwoDistinct(data) && NoCountWraps(data))
  {
    var freqs := Frequencies(data);
    TreeSymbols(tb, freqs);
    hide TreeOf, Count, TwoDistinct;
    forall b: byte ensures freqs[b] == Count(data, b) % U32 && (freqs[b] > 0 ==> b in data) {
      CountPositive(data, b);
    }
    hide Frequencies;
    if t.Node? {
      TwoSymbols(t, data);
      assert forall k :: 0 <= k < |data| ==> data[k] in data;
      assert forall b: byte :: b in data ==> exists k :: 0 <= k < |data| && data[k] == b;
    } else if TwoDistinct(data) {
      LeafKnowsOne(t, data);
    }
  }

  lemma {:induction false} LeafKnowsOne(t: Tree, data: seq<byte>)
    requires t.Leaf? && TwoDistinct(data)
    ensures exists b: byte :: b in data && b !in Symbols(t)
  {
    var i, j :| 0 <= i < j < |data| && data[i] != data[j];
    assert data[i] in data && data[j] in data;
    assert data[i] !in Symbols(t) || data[j] !in Symbols(t);
  }

  lemma {:induction false} SomeSymbol(t: Tree) returns (b: byte)
    ensures b in Symbols(t)
  {
    match t
    case Leaf(c, _) => b := c;
    case Node(_, l, _) => b := SomeSymbol(l);
  }

  lemma {:induction false} FourFields(size: seq<byte>, table: seq<byte>, count: seq<byte>, packed: seq<byte>)
    requires |size| == 8 && |table| == 1024 && |count| == 8
    ensures var c := size + table + count + packed;
            c[..8] == size && c[8..] == table + (count + packed) && c[1032..1040] == count && c[HEADER..] == packed
  {
  }

  /** The fields of a compressed stream, as decompress slices them. */
  lemma {:induction false} CompressedFields(tb: TieBreak, data: seq<byte>, bits: Bits, c: seq<byte>)
    requires 0 < |data| < U64 && |bits| < U64 && c == Compressed(tb, data) && bits == EncodeBy(Table(tb, data), data)
    ensures |c| >= HEADER && FromLE(c[..8]) == |data|
    ensures TableFrom(c[8..], 256) == Frequencies(data)
    ensures FromLE(c[1032..1040]) == |bits|
    ensures c[HEADER..] == PackBits(bits)
  {
    var freqs := Frequencies(data);
    var count, packed := LE(|bits|, 8), PackBits(bits);
    hide Table, EncodeBy, PackBits;
    FourFields(LE(|data|, 8), TableBytes(freqs), count, packed);
    Widths();
    LERoundTrip(|data|, 8);
    TableRoundTrip(freqs, count + packed);
    LERoundTrip(|bits|, 8);
  }

  /** At most 45 bits a byte, so the number of bits fits its 64-bit field. */
  lemma {:induction false} EncodeBelow64(tb: TieBreak, data: seq<byte>)
    requires 0 < |data| < U32
    ensures var t := TreeOf(tb, Frequencies(data));
            Covers(t, data) && |Encode(t, data)| <= 45 * |data| < U64
  {
    TreeCovers(tb, data);
    TreeProps(tb, data);
    EncodeAtMost(TreeOf(tb, Frequencies(data)), data, 45);
  }

  lemma {:induction false} EncodeAtMost(t: Tree, data: seq<byte>, h: nat)
    requires Covers(t, data) && Height(t) <= h
    ensures |Encode(t, data)| <= h * |data|
  {
    if data == [] {
    } else {
      var n := |data| - 1;
      assert |Encode(t, data)| <= |Encode(t, data[..n])| + h;
      EncodeAtMost(t, data[..n], h);
      hide Encode;
      Distribute(h, n, 1);
    }
  }

  lemma {:induction false} EmptyStream(tb: TieBreak)
    ensures |Compressed(tb, [])| == HEADER && FromLE(Compressed(tb, [])[..8]) == 0
  {
    assert Compressed(tb, [])[..8] == LE(0, 8);
    Widths();
    LERoundTrip(0, 8);
  }

  /** Below 2^32 bytes the codes fit their words. */
  lemma {:induction false} SmallIsShallow(tb: TieBreak, data: seq<byte>)
    requires |data| < U32
    ensures Shallow(tb, data)
  {
    if data != [] {
      TreeProps(tb, data);
    } else {
      assert LeavesBelow(Frequencies([]), 256) == [] by { NoLeaves(256); }
      assert TreeOf(tb, Frequencies([])) == Leaf(0, 1);
    }
  }

  lemma {:induction false} NoLeaves(n: nat)
    requires n <= 256
    ensures LeavesBelow(Frequencies([]), n) == []
  {
    if n == 0 {
    } else {
      NoLeaves(n - 1);
    }
  }

  /** The bits of a stream: the paths of the bytes that have a leaf, in a number that fits its field. */
  lemma {:induction false} StreamBits(tb: TieBreak, data: seq<byte>, t: Tree, bits: Bits)
    requires data != [] && Shallow(tb, data) && 64 * |data| < U64
    requires t == TreeOf(tb, Frequencies(data)) && bits == EncodeBy(Table(tb, data), data)
    ensures Covers(t, Known(t, data)) && bits == Encode(t, Known(t, data)) && |Known(t, data)| <= |data|
    ensures |bits| < U64 && (t.Leaf? ==> bits == [])
  {
    TreeKnows(tb, data, t);
    KnownAll(t, data);
    var known := Known(t, data);
    hide TreeOf, Known, Covers, DistinctLeaves, FilledCodes;
    TableEncodes(t, Table(tb, data), data);
    hide EncodeBy, Table;
    EncodeAtMost(t, known, 64);
    EncodeAtMost(t, known, Height(t));
  }

  /** What compress writes can be read back without running past its end. */
  lemma {:induction false} CompressedBitsPresent(tb: TieBreak, data: seq<byte>)
    requires Shallow(tb, data) && 64 * |data| < U64
    ensures BitsPresent(tb, Compressed(tb, data))
  {
    if data == [] {
      EmptyStream(tb);
    } else {
      var t := TreeOf(tb, Frequencies(data));
      var bits := EncodeBy(Table(tb, data), data);
      StreamBits(tb, data, t, bits);
      hide EncodeBy, Table, Encode, TreeOf, Known, Shallow;
      CompressedFields(tb, data, bits, Compressed(tb, data));
      hide Compressed, Decoded, TableFrom, FromLE;
    }
  }

  /** Round trip, both ways: wherever compress is defined, decompress undoes it exactly for the empty input
      and for inputs with at least two distinct byte values of which none occurs a multiple of 2^32 times.
      A single repeated value comes back as nothing. */
  lemma {:induction false} HuffmanRoundTrip(tb: TieBreak, data: seq<byte>)
    requires Shallow(tb, data) && 64 * |data| < U64
    ensures BitsPresent(tb, Compressed(tb, data))
    ensures Decompressed(tb, Compressed(tb, data)) == data <==> data == [] || (TwoDistinct(data) && NoCountWraps(data))
    ensures !TwoDistinct(data) ==> Decompressed(tb, Compressed(tb, data)) == []
  {
    CompressedBitsPresent(tb, data);
    if data == [] {
      EmptyStream(tb);
    } else {
      var t := TreeOf(tb, Frequencies(data));
      var bits := EncodeBy(Table(tb, data), data);
      TreeKnows(tb, data, t);
      KnownAll(t, data);
      StreamBits(tb, data, t, bits);
      hide EncodeBy, Table, Encode, TreeOf, Known, Shallow, Compressed, TwoDistinct, NoCountWraps, Covers, Decompressed, BitsPresent;
      DecompressedIs(tb, data, t, bits, Compressed(tb, data));
      if t.Node? {
        hide Decoded;
        DecodeAll(t, Known(t, data), |data|);
      }
    }
  }

  /** decompress rebuilds compress's tree and walks it along compress's bits. */
  lemma {:induction false} DecompressedIs(tb: TieBreak, data: seq<byte>, t: Tree, bits: Bits, c: seq<byte>)
    requires 0 < |data| < U64 && |bits| < U64 && c == Compressed(tb, data)
    requires t == TreeOf(tb, Frequencies(data)) && bits == EncodeBy(Table(tb, data), data)
    ensures Decompressed(tb, c) == Decoded(t, t, bits, 0, |data|, []).0
  {
    hide Decoded, TableFrom, Compressed, TreeOf, EncodeBy, Table, FromLE, BitsOf;
    CompressedFields(tb, data, bits, c);
    BitsOfPackBits(bits, []);
    assert PackBits(bits) + [] == PackBits(bits);
  }
}
