/** Run-length strategy: [original size: 8] then blocks, each a control byte and its data. */
module Rle {
  // Control bit 7 set: a run of (low seven bits) + 1 copies of the next byte.
  // Control bit 7 clear: (low seven bits) + 1 literal bytes.

  import opened Bytes

  // ----- compress -----

  predicate Same(s: seq<byte>, pos: nat, n: nat)
    requires pos < |s| && pos + n <= |s|
  {
    forall k :: pos <= k < pos + n ==> s[k] == s[pos]
  }

  /** The inner counting loop: how far the run that starts at pos reaches, 128 at most. */
  function RunLength(s: seq<byte>, pos: nat, n: nat): (r: nat)
    requires 1 <= n <= 128 && pos + n <= |s| && Same(s, pos, n)
    ensures n <= r <= 128 && pos + r <= |s| && Same(s, pos, r)
    ensures r == 128 || pos + r == |s| || s[pos + r] != s[pos]
    decreases 128 - n
  {
    if pos + n < |s| && s[pos + n] == s[pos] && n < 128 then RunLength(s, pos, n + 1) else n
  }

  /** Three equal bytes start at p: what ends a literal block. */
  predicate Triple(s: seq<byte>, p: nat) {
    p + 2 < |s| && s[p] == s[p + 1] == s[p + 2]
  }

  /** The literal-collecting loop: up to the end, 128 bytes, or the next three equal bytes. */
  function LiteralLength(s: seq<byte>, pos: nat, n: nat): (r: nat)
    requires 1 <= n <= 128 && pos + n <= |s|
    ensures n <= r <= 128 && pos + r <= |s|
    ensures r == 128 || pos + r == |s| || Triple(s, pos + r)
    decreases 128 - n
  {
    if pos + n < |s| && n < 128 && !Triple(s, pos + n) then LiteralLength(s, pos, n + 1) else n
  }

  /** How many bytes of s the block at pos covers. */
  function Covered(s: seq<byte>, pos: nat): (n: nat)
    requires pos < |s|
    ensures 1 <= n <= 128 && pos + n <= |s|
  {
    var run := RunLength(s, pos, 1);
    if run < 3 then LiteralLength(s, pos, 1) else run
  }

  /** The block written at pos. */
  function Block(s: seq<byte>, pos: nat): seq<byte>
    requires pos < |s|
  {
    var n := Covered(s, pos);
    if RunLength(s, pos, 1) < 3 then [n - 1] + s[pos..pos + n] else [128 + (n - 1), s[pos]]
  }

  /** The blocks written for s[pos..]. */
  function Blocks(s: seq<byte>, pos: nat): seq<byte>
    requires pos <= |s|
    decreases |s| - pos
  {
    if pos == |s| then [] else Block(s, pos) + Blocks(s, pos + Covered(s, pos))
  }

  function Compressed(s: seq<byte>): seq<byte> {
    LE(|s|, 8) + Blocks(s, 0)
  }

  method CountRun(s: seq<byte>, pos: nat) returns (runLen: nat)
    requires pos < |s|
    ensures runLen == RunLength(s, pos, 1)
  {
    var byteVal := s[pos];
    runLen := 1;
    while pos + runLen < |s| && s[pos + runLen] == byteVal && runLen < 128
      invariant 1 <= runLen <= 128 && pos + runLen <= |s| && Same(s, pos, runLen)
      invariant RunLength(s, pos, runLen) == RunLength(s, pos, 1)
      decreases 128 - runLen
    {
      runLen := runLen + 1;
    }
  }

  method CountLiteral(s: seq<byte>, pos: nat) returns (literalLen: nat)
    requires pos < |s|
    ensures literalLen == LiteralLength(s, pos, 1)
  {
    literalLen := 1;
    while pos + literalLen < |s| && literalLen < 128
      invariant 1 <= literalLen <= 128 && pos + literalLen <= |s|
      invariant LiteralLength(s, pos, literalLen) == LiteralLength(s, pos, 1)
      decreases 128 - literalLen
    {
      var p := pos + literalLen;
      var nextByte := s[p];
      var nextRun := 1;
      while p + nextRun < |s| && s[p + nextRun] == nextByte && nextRun < 3
        invariant 1 <= nextRun <= 3 && p + nextRun <= |s|
        invariant nextRun >= 2 ==> s[p + 1] == nextByte
        invariant nextRun >= 3 ==> s[p + 2] == nextByte
        decreases 3 - nextRun
      {
        nextRun := nextRun + 1;
      }
      assert nextRun >= 3 <==> Triple(s, p);
      if nextRun >= 3 {
        break;
      }
      literalLen := literalLen + 1;
    }
  }

  method WriteBlock(input: seq<byte>, pos: nat, buf: seq<byte>) returns (result: seq<byte>, next: nat)
    requires pos < |input|
    ensures result == buf + Block(input, pos) && next == pos + Covered(input, pos)
  {
    var runLen := CountRun(input, pos);
    if runLen < 3 {
      var literalLen := CountLiteral(input, pos);
      result := buf + ([literalLen - 1] + input[pos..pos + literalLen]);
      next := pos + literalLen;
    } else {
      result := buf + [128 + (runLen - 1), input[pos]];
      next := pos + runLen;
    }
  }

  method Compress(input: seq<byte>) returns (result: seq<byte>)
    ensures result == Compressed(input)
  {
    hide Block, Covered, Blocks, LE;
    result := WriteLE([], |input|, 8);
    assert [] + LE(|input|, 8) == LE(|input|, 8);
    var pos := 0;
    while pos < |input|
      invariant pos <= |input|
      invariant result + Blocks(input, pos) == Compressed(input)
      decreases |input| - pos
    {
      NextBlock(input, pos, result);
      result, pos := WriteBlock(input, pos, result);
    }
    NoMoreBlocks(input, result);
  }

  lemma {:induction false} NoMoreBlocks(s: seq<byte>, pre: seq<byte>)
    ensures pre + Blocks(s, |s|) == pre
  {
  }

  lemma {:induction false} NextBlock(s: seq<byte>, pos: nat, pre: seq<byte>)
    requires pos < |s|
    ensures pre + Blocks(s, pos) == (pre + Block(s, pos)) + Blocks(s, pos + Covered(s, pos))
  {
    hide Block, Covered;
  }

  // ----- decompress -----

  function Min(a: nat, b: nat): (r: nat)
    ensures r <= a && r <= b && (r == a || r == b)
  {
    if a <= b then a else b
  }

  function Repeat(b: byte, n: nat): (r: seq<byte>)
    ensures |r| == n
  {
    seq(n, i => b)
  }

  /** One turn of the decoding loop: the position and the output after the block at pos.
      A truncated block yields what is there. */
  function ExpandOne(data: seq<byte>, pos: nat, origSize: nat, out: seq<byte>): (r: (nat, seq<byte>))
    requires pos < |data| && |out| < origSize
    ensures pos < r.0 <= |data|
  {
    var room := origSize - |out|;
    if data[pos] < 128 then
      var n := Min(Min(data[pos] + 1, |data| - (pos + 1)), room);
      (pos + 1 + n, out + data[pos + 1..pos + 1 + n])
    else if pos + 1 == |data| then
      (|data|, out)
    else
      (pos + 2, out + Repeat(data[pos + 1], Min(data[pos] - 128 + 1, room)))
  }

  /** The decoding loop from position pos with `out` already produced. */
  function Expanded(data: seq<byte>, pos: nat, origSize: nat, out: seq<byte>): seq<byte>
    requires pos <= |data|
    decreases |data| - pos
  {
    if pos < |data| && |out| < origSize then
      var r := ExpandOne(data, pos, origSize, out);
      Expanded(data, r.0, origSize, r.1)
    else out
  }

  function Decompressed(data: seq<byte>): seq<byte> {
    if |data| < 8 then [] else Expanded(data, 8, FromLE(data[..8]), [])
  }

  /** The copying loop of a run block. */
  method PushRun(out: seq<byte>, val: byte, count: nat, origSize: nat) returns (result: seq<byte>)
    requires |out| < origSize
    ensures result == out + Repeat(val, Min(count, origSize - |out|))
  {
    result := out;
    var i := 0;
    while i < count && |result| < origSize
      invariant 0 <= i <= count && i <= origSize - |out|
      invariant result == out + Repeat(val, i)
    {
      result := result + [val];
      i := i + 1;
    }
    assert i == Min(count, origSize - |out|);
  }

  /** The copying loop of a literal block. */
  method PushLiteral(out: seq<byte>, input: seq<byte>, start: nat, count: nat, origSize: nat)
    returns (result: seq<byte>, pos: nat)
    requires |out| < origSize && start <= |input|
    ensures pos == start + Min(Min(count, |input| - start), origSize - |out|)
    ensures result == out + input[start..pos]
  {
    result, pos := out, start;
    var i := 0;
    while i < count && pos < |input| && |result| < origSize
      invariant 0 <= i <= count && i <= origSize - |out|
      invariant pos == start + i <= |input| && result == out + input[start..pos]
      decreases count - i
    {
      result := result + [input[pos]];
      pos := pos + 1;
      i := i + 1;
    }
  }

  method ReadBlock(input: seq<byte>, start: nat, out: seq<byte>, origSize: nat) returns (pos: nat, result: seq<byte>)
    requires start < |input| && |out| < origSize
    ensures (pos, result) == ExpandOne(input, start, origSize, out)
  {
    var ctrl := input[start];
    pos := start + 1;
    if ctrl >= 128 {
      if pos >= |input| {
        return pos, out;
      }
      var val := input[pos];
      pos := pos + 1;
      result := PushRun(out, val, ctrl - 128 + 1, origSize);
    } else {
      result, pos := PushLiteral(out, input, pos, ctrl + 1, origSize);
    }
  }

  method Decompress(input: seq<byte>) returns (result: seq<byte>)
    ensures result == Decompressed(input)
  {
    hide FromLE, ExpandOne;
    if |input| < 8 {
      return [];
    }
    var origSize, pos := ReadLE(input, 0, 8);
    assert input[0..8] == input[..8];
    result := [];
    while pos < |input| && |result| < origSize
      invariant pos <= |input|
      invariant Expanded(input, pos, origSize, result) == Decompressed(input)
      decreases |input| - pos
    {
      pos, result := ReadBlock(input, pos, result, origSize);
    }
  }

  // ----- round trip -----

  lemma {:induction false} RunIsRepeat(s: seq<byte>, pos: nat, n: nat)
    requires pos < |s| && pos + n <= |s| && Same(s, pos, n)
    ensures s[..pos] + Repeat(s[pos], n) == s[..pos + n]
  {
  }

  lemma {:induction false} ExpandLiteral(data: seq<byte>, p: nat, n: nat, origSize: nat, out: seq<byte>)
    requires 1 <= n <= 128 && p + 1 + n <= |data| && data[p] == n - 1 && |out| + n <= origSize
    ensures Expanded(data, p, origSize, out) == Expanded(data, p + 1 + n, origSize, out + data[p + 1..p + 1 + n])
  {
    assert Min(Min(data[p] + 1, |data| - (p + 1)), origSize - |out|) == n;
  }

  lemma {:induction false} ExpandRun(data: seq<byte>, p: nat, n: nat, origSize: nat, out: seq<byte>)
    requires 1 <= n <= 128 && p + 2 <= |data| && data[p] == 128 + (n - 1) && |out| + n <= origSize
    ensures Expanded(data, p, origSize, out) == Expanded(data, p + 2, origSize, out + Repeat(data[p + 1], n))
  {
    assert Min(data[p] - 128 + 1, origSize - |out|) == n;
  }

  /** block encodes the n bytes of s at pos, as a literal block or as a run. */
  predicate Encodes(block: seq<byte>, s: seq<byte>, pos: nat, n: nat) {
    && 1 <= n <= 128 && pos + n <= |s|
    && (block == [n - 1] + s[pos..pos + n] || (block == [128 + (n - 1), s[pos]] && Same(s, pos, n)))
  }

  /** Every block written encodes the 1 to 128 bytes it covers. */
  lemma {:induction false} BlockEncodes(s: seq<byte>, pos: nat)
    requires pos < |s|
    ensures Encodes(Block(s, pos), s, pos, Covered(s, pos))
  {
  }

  /** Expanding one block appends exactly the bytes it encodes. */
  lemma {:induction false} ExpandBlock(s: seq<byte>, pos: nat, n: nat, block: seq<byte>, data: seq<byte>, p: nat)
    requires Encodes(block, s, pos, n)
    requires p + |block| <= |data| && data[p..p + |block|] == block
    ensures Expanded(data, p, |s|, s[..pos]) == Expanded(data, p + |block|, |s|, s[..pos + n])
  {
    hide Expanded;
    assert data[p] == block[0] && data[p + 1] == block[1];
    if data[p] < 128 {
      LiteralCopies(s, pos, n, block, data, p);
      ExpandLiteral(data, p, n, |s|, s[..pos]);
    } else {
      RunIsRepeat(s, pos, n);
      ExpandRun(data, p, n, |s|, s[..pos]);
    }
  }

  lemma {:induction false} LiteralCopies(s: seq<byte>, pos: nat, n: nat, block: seq<byte>, data: seq<byte>, p: nat)
    requires pos + n <= |s| && 1 <= n <= 128 && block == [n - 1] + s[pos..pos + n]
    requires p + |block| <= |data| && data[p..p + |block|] == block
    ensures s[..pos] + data[p + 1..p + 1 + n] == s[..pos + n]
  {
    assert data[p + 1..p + 1 + n] == data[p..p + |block|][1..];
    assert block[1..] == s[pos..pos + n];
  }

  lemma {:induction false} ExpandBlocks(s: seq<byte>, pos: nat, data: seq<byte>, p: nat)
    requires pos <= |s| && p <= |data| && data[p..] == Blocks(s, pos)
    ensures Expanded(data, p, |s|, s[..pos]) == s
    decreases |s| - pos
  {
    hide Block, Covered;
    if pos == |s| {
      assert s[..pos] == s;
    } else {
      var n, block := Covered(s, pos), Block(s, pos);
      var p' := p + |block|;
      assert Expanded(data, p, |s|, s[..pos]) == Expanded(data, p', |s|, s[..pos + n]) && data[p'..] == Blocks(s, pos + n) by {
        hide Expanded;
        BlockEncodes(s, pos);
        TakeAhead(data, p, block, Blocks(s, pos + n));
        ExpandBlock(s, pos, n, block, data, p);
      }
      ExpandBlocks(s, pos + n, data, p');
    }
  }

  /** decompress undoes compress on every input whose size fits the 64-bit field. */
  lemma {:induction false} RleRoundTrip(s: seq<byte>)
    requires |s| < U64
    ensures Decompressed(Compressed(s)) == s
  {
    var size := LE(|s|, 8);
    assert Compressed(s)[..8] == size;
    Widths();
    LERoundTrip(|s|, 8);
    ExpandBlocks(s, 0, Compressed(s), 8);
    assert s[..0] == [];
  }

  // ----- expansion -----

  /** Number of full or started groups of 128. */
  function Groups(n: nat): nat { (n + 127) / 128 }

  lemma {:induction false} TripleStartsRun(s: seq<byte>, pos: nat)
    requires pos < |s|
    ensures Triple(s, pos) <==> RunLength(s, pos, 1) >= 3
  {
    var r := RunLength(s, pos, 1);
    hide RunLength;
    assert r >= 3 ==> s[pos + 1] == s[pos] && s[pos + 2] == s[pos];
  }

  /** What one block costs beyond the bytes it covers. */
  lemma {:induction false} BlockSize(s: seq<byte>, pos: nat)
    requires pos < |s|
    ensures var n := Covered(s, pos);
            if Triple(s, pos) then |Block(s, pos)| < n
            else |Block(s, pos)| == n + 1 && (n == 128 || pos + n == |s| || Triple(s, pos + n))
  {
    hide RunLength, LiteralLength;
    TripleStartsRun(s, pos);
  }

  /** The arithmetic of one block of n of the m remaining bytes; here and next say whether a run
      block starts before and after it. */
  lemma {:induction false} BoundStep(block: nat, rest: nat, m: nat, n: nat, here: bool, next: bool)
    requires 1 <= n <= m && n <= 128 && (next ==> n < m)
    requires if here then block < n else block == n + 1 && (n == 128 || n == m || next)
    requires rest + (if next then 1 else 0) <= (m - n) + Groups(m - n)
    ensures block + rest + (if here then 1 else 0) <= m + Groups(m)
  {
  }

  /** A short literal block is last or is followed by a run, which saves at least one byte. */
  lemma {:induction false} BlocksBound(s: seq<byte>, pos: nat)
    requires pos <= |s|
    ensures |Blocks(s, pos)| + (if Triple(s, pos) then 1 else 0) <= (|s| - pos) + Groups(|s| - pos)
    decreases |s| - pos
  {
    hide Block, Covered;
    assert Groups(0) == 0;
    hide Groups;
    if pos == |s| {
    } else {
      var n, block := Covered(s, pos), Block(s, pos);
      var rest := Blocks(s, pos + n);
      BlockSize(s, pos);
      assert Triple(s, pos + n) ==> pos + n < |s|;
      hide Triple;
      BlocksBound(s, pos + n);
      BoundStep(|block|, |rest|, |s| - pos, n, Triple(s, pos), Triple(s, pos + n));
    }
  }

  /** Expansion bound: n bytes never take more than 8 + n + ceil(n / 128). */
  lemma {:induction false} RleBound(s: seq<byte>)
    ensures |Compressed(s)| <= 8 + |s| + Groups(|s|)
  {
    BlocksBound(s, 0);
  }

  lemma {:induction false} NoTripleSize(s: seq<byte>, pos: nat)
    requires pos <= |s| && forall p :: 0 <= p < |s| ==> !Triple(s, p)
    ensures |Blocks(s, pos)| == (|s| - pos) + Groups(|s| - pos)
    decreases |s| - pos
  {
    hide Block, Covered;
    if pos < |s| {
      var n := Covered(s, pos);
      BlockSize(s, pos);
      NoTripleSize(s, pos + n);
    }
  }

  /** The bound is reached at every length, so it cannot be improved. */
  lemma {:induction false} RleBoundIsTight(n: nat) returns (s: seq<byte>)
    ensures |s| == n && |Compressed(s)| == 8 + n + Groups(n)
  {
    s := seq(n, i requires 0 <= i < n => i % 2);
    NoTripleSize(s, 0);
  }

  // ----- what is saved -----

  /** No three equal bytes start strictly between pos and pos + r. */
  lemma {:induction false} LiteralHasNoTriple(s: seq<byte>, pos: nat, n: nat)
    requires 1 <= n <= 128 && pos + n <= |s|
    ensures forall p :: pos + n <= p < pos + LiteralLength(s, pos, n) ==> !Triple(s, p)
    decreases 128 - n
  {
    if pos + n < |s| && n < 128 && !Triple(s, pos + n) {
      LiteralHasNoTriple(s, pos, n + 1);
      hide Triple;
    }
  }

  /** The blocks are greedy: where three equal bytes start, two bytes stand for the run as far as it goes; elsewhere
      a literal block goes as far as no three equal bytes start in it; no block covers more than 128 bytes. */
  lemma {:induction false} BlockIsGreedy(s: seq<byte>, pos: nat)
    requires pos < |s|
    ensures var n, block := Covered(s, pos), Block(s, pos);
            && pos + n <= |s| && (n == 128 || pos + n == |s| || if Triple(s, pos) then s[pos + n] != s[pos] else Triple(s, pos + n))
            && if Triple(s, pos) then block == [128 + (n - 1), s[pos]] && Same(s, pos, n)
               else block == [n - 1] + s[pos..pos + n] && forall p :: pos <= p < pos + n ==> !Triple(s, p)
  {
    TripleStartsRun(s, pos);
    LiteralHasNoTriple(s, pos, 1);
    hide RunLength, LiteralLength, Triple;
  }

  lemma {:induction false} ConstantBlock(s: seq<byte>, pos: nat)
    requires pos < |s| && Same(s, 0, |s|)
    ensures var n := Covered(s, pos);
            && n == (if |s| - pos < 128 then |s| - pos else 128)
            && |Block(s, pos)| == if |s| - pos == 2 then 3 else 2
  {
    BlockIsGreedy(s, pos);
    assert Triple(s, pos) <==> pos + 2 < |s|;
    assert forall p :: 0 <= p < |s| ==> s[p] == s[0];
    assert Triple(s, pos + Covered(s, pos)) ==> Triple(s, pos);
    hide Block, Covered;
  }

  lemma {:induction false} ConstantBlocks(s: seq<byte>, pos: nat)
    requires s != [] && pos <= |s| && Same(s, 0, |s|)
    ensures |Blocks(s, pos)| == 2 * Groups(|s| - pos) + if (|s| - pos) % 128 == 2 then 1 else 0
    decreases |s| - pos
  {
    hide Block, Covered, Same;
    if pos == |s| {
    } else {
      var n := Covered(s, pos);
      ConstantBlock(s, pos);
      ConstantBlocks(s, pos + n);
      GroupsDrop(|s| - pos, n);
    }
  }

  lemma {:induction false} GroupsDrop(m: nat, n: nat)
    requires m > 0 && n == if m < 128 then m else 128
    ensures Groups(m) == Groups(m - n) + 1
    ensures m >= 128 ==> (m - n) % 128 == m % 128
  {
  }

  /** n equal bytes take two for every started 128 of them; a rest of two takes one more. */
  lemma {:induction false} RleOfConstant(b: byte, n: nat)
    ensures |Compressed(Repeat(b, n))| == 8 + 2 * Groups(n) + if n % 128 == 2 then 1 else 0
  {
    var s := Repeat(b, n);
    if n > 0 {
      assert Same(s, 0, n);
      ConstantBlocks(s, 0);
    } else {
      assert Blocks(s, 0) == [];
    }
  }
}
