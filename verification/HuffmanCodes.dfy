/** Root-to-leaf paths, the code table filled by depth-first search, and the cost of encoding. */
module HuffmanCodes {
  import opened Bytes
  import opened HuffmanTree
  import opened HuffmanDepth
  import opened HuffmanOptimal
  import opened PrefixCodes

  /** Code table entry: the code as an LSB-first number and its length. */
  datatype HuffmanCode = HuffmanCode(bits: nat, length: nat)

  function BitValue(b: bool): nat { if b then 1 else 0 }

  /** The number whose bit i is p[i]. */
  function Val(p: Bits): (v: nat)
    ensures v < Pow2(|p|)
  {
    if p == [] then 0 else BitValue(p[0]) + 2 * Val(p[1..])
  }

  /** Bit i of v, as tested by v & (1 << i). */
  function BitOf(v: nat, i: nat): bool {
    (v / Pow2(i)) % 2 == 1
  }

  lemma {:induction false} BitOfVal(p: Bits, i: nat)
    requires i < |p|
    ensures BitOf(Val(p), i) == p[i]
  {
    if i == 0 {
    } else {
      BitOfVal(p[1..], i - 1);
      DivDiv(Val(p), 2, Pow2(i - 1));
      assert Val(p) / 2 == Val(p[1..]);
    }
  }

  lemma {:induction false} ValSnoc(p: Bits, b: bool)
    ensures Val(p + [b]) == Val(p) + BitValue(b) * Pow2(|p|)
  {
    if p != [] {
      ValSnoc(p[1..], b);
      assert (p + [b])[1..] == p[1..] + [b];
    } else {
      assert Val([b]) == BitValue(b) + 2 * Val([b][1..]);
    }
  }

  // ----- paths -----

  /** The steps from the root to the leaf of b: false to the left, true to the right. */
  function Path(t: Tree, b: byte): (p: Bits)
    requires b in Symbols(t)
    ensures |p| <= Height(t)
    ensures t.Node? ==> p != []
  {
    match t
    case Leaf(_, _) => []
    case Node(_, l, r) => if b in Symbols(l) then [false] + Path(l, b) else [true] + Path(r, b)
  }

  lemma {:induction false} WellBuiltDistinct(t: Tree)
    requires WellBuilt(t)
    ensures DistinctLeaves(t)
  {
    if t.Leaf? {
    } else {
      WellBuiltDistinct(t.left);
      WellBuiltDistinct(t.right);
    }
  }

  /** Paths to different symbols are not prefixes of each other. */
  lemma {:induction false} PathsPrefixFree(t: Tree, b: byte, c: byte)
    requires DistinctLeaves(t) && b in Symbols(t) && c in Symbols(t) && b != c
    ensures !Comparable(Path(t, b), Path(t, c))
  {
    if b in Symbols(t.left) && c in Symbols(t.left) {
      PathsPrefixFree(t.left, b, c);
      ConsIncomparable(false, Path(t.left, b), Path(t.left, c));
    } else if b !in Symbols(t.left) && c !in Symbols(t.left) {
      PathsPrefixFree(t.right, b, c);
      ConsIncomparable(true, Path(t.right, b), Path(t.right, c));
    } else {
      assert Path(t, b)[0] != Path(t, c)[0];
    }
  }

  lemma {:induction false} ConsIncomparable(bit: bool, p: Bits, q: Bits)
    requires !Comparable(p, q)
    ensures !Comparable([bit] + p, [bit] + q)
  {
    assert ([bit] + p)[1..] == p && ([bit] + q)[1..] == q;
  }

  // ----- code table -----

  /** The table after the depth-first search below a node reached by `bits` of the given length. */
  function FilledCodes(t: Tree, bits: nat, length: nat, codes: seq<HuffmanCode>): (r: seq<HuffmanCode>)
    requires |codes| == 256
    ensures |r| == 256
  {
    match t
    case Leaf(b, _) => codes[b := HuffmanCode(bits, length)]
    case Node(_, l, r) =>
      FilledCodes(r, bits + Pow2(length), length + 1, FilledCodes(l, bits, length + 1, codes))
  }

  /** generateCodes.  bits < 2^length, so setting bit `length` is an addition; the shift needs
      length below 64 at every inner node. */
  method GenerateCodes(t: Tree, bits: nat, length: nat, codes: array<HuffmanCode>)
    requires codes.Length == 256
    requires bits < Pow2(length) && length + Height(t) <= 64
    modifies codes
    ensures codes[..] == FilledCodes(t, bits, length, old(codes[..]))
    decreases t
  {
    match t
    case Leaf(b, _) =>
      codes[b] := HuffmanCode(bits, length);
    case Node(_, l, r) =>
      GenerateCodes(l, bits, length + 1, codes);
      GenerateCodes(r, bits + Pow2(length), length + 1, codes);
  }

  /** The entry of b holds exactly the path to b, its first step in the lowest bit. */
  lemma {:induction false} FilledCodesArePaths(t: Tree, bits: nat, length: nat, codes: seq<HuffmanCode>, b: byte)
    requires |codes| == 256 && DistinctLeaves(t)
    ensures FilledCodes(t, bits, length, codes)[b] ==
            if b in Symbols(t)
            then HuffmanCode(bits + Pow2(length) * Val(Path(t, b)), length + |Path(t, b)|)
            else codes[b]
  {
    if t.Leaf? {
    } else {
      var left := FilledCodes(t.left, bits, length + 1, codes);
      FilledCodesArePaths(t.left, bits, length + 1, codes, b);
      FilledCodesArePaths(t.right, bits + Pow2(length), length + 1, left, b);
      if b in Symbols(t.left) {
        ConsVal(false, Path(t.left, b), length);
      } else if b in Symbols(t.right) {
        ConsVal(true, Path(t.right, b), length);
      }
    }
  }

  lemma {:induction false} ConsVal(bit: bool, p: Bits, length: nat)
    ensures Pow2(length) * Val([bit] + p) == BitValue(bit) * Pow2(length) + Pow2(length + 1) * Val(p)
  {
    assert ([bit] + p)[1..] == p;
    assert Val([bit] + p) == BitValue(bit) + 2 * Val(p) && Pow2(length + 1) == 2 * Pow2(length);
    hide Val, Pow2, BitValue;
    ScaleSum(Pow2(length), BitValue(bit), Val(p));
  }

  lemma {:induction false} ScaleSum(s: nat, x: nat, v: nat)
    ensures s * (x + 2 * v) == x * s + (2 * s) * v
  {
    Distribute(s, x, 2 * v);
    Swapped(s, x);
    Doubled(s, v);
  }

  lemma {:induction false} Doubled(s: nat, v: nat)
    ensures s * (2 * v) == (2 * s) * v
  {
  }

  /** The bits that compress emits for an entry: bit i for i from 0 to length - 1. */
  function CodeBits(code: HuffmanCode): (p: Bits)
    ensures |p| == code.length
  {
    seq(code.length, i requires 0 <= i < code.length => BitOf(code.bits, i))
  }

  lemma {:induction false} CodeBitsOfVal(p: Bits)
    ensures CodeBits(HuffmanCode(Val(p), |p|)) == p
  {
    forall i | 0 <= i < |p| ensures BitOf(Val(p), i) == p[i] {
      BitOfVal(p, i);
    }
  }

  /** The table entry of a symbol is its path, as a number. */
  lemma {:induction false} EntryIsPath(t: Tree, codes: seq<HuffmanCode>, b: byte)
    requires |codes| == 256 && DistinctLeaves(t) && b in Symbols(t)
    ensures FilledCodes(t, 0, 0, codes)[b] == HuffmanCode(Val(Path(t, b)), |Path(t, b)|)
  {
    FilledCodesArePaths(t, 0, 0, codes, b);
    assert Pow2(0) == 1;
    OneTimes(Val(Path(t, b)));
  }

  lemma {:induction false} OneTimes(v: nat)
    ensures 0 + 1 * v == v
  {
  }

  // ----- counting -----

  /** Sum of f over the elements of data below n. */
  function Part(f: byte -> nat, data: seq<byte>, n: nat): nat {
    if data == [] then 0
    else Part(f, data[..|data| - 1], n) + (if data[|data| - 1] < n then f(data[|data| - 1]) else 0)
  }

  lemma {:induction false} PartStep(f: byte -> nat, data: seq<byte>, n: byte)
    ensures Part(f, data, n + 1) == Part(f, data, n) + Count(data, n) * f(n)
  {
    if data == [] {
    } else {
      PartStep(f, data[..|data| - 1], n);
      if data[|data| - 1] == n {
        AddOne(Count(data[..|data| - 1], n), f(n));
      }
    }
  }

  lemma {:induction false} AddOne(a: nat, b: nat)
    ensures (a + 1) * b == a * b + b
  {
  }

  lemma {:induction false} PartEmpty(f: byte -> nat, data: seq<byte>)
    ensures Part(f, data, 0) == 0
  {
    if data == [] {
    } else {
      PartEmpty(f, data[..|data| - 1]);
    }
  }

  function One(b: byte): nat { 1 }

  lemma {:induction false} PartOnes(data: seq<byte>)
    ensures Part(One, data, 256) == |data|
  {
    if data == [] {
    } else {
      PartOnes(data[..|data| - 1]);
    }
  }

  lemma {:induction false} CountPositive(data: seq<byte>, b: byte)
    ensures Count(data, b) > 0 <==> b in data
  {
    if data == [] {
    } else {
      CountPositive(data[..|data| - 1], b);
      assert data == data[..|data| - 1] + [data[|data| - 1]];
    }
  }

  lemma {:induction false} FrequencyExact(data: seq<byte>, b: byte)
    requires |data| < U32
    ensures Frequencies(data)[b] == Count(data, b)
    ensures Frequencies(data)[b] > 0 <==> b in data
  {
    CountPositive(data, b);
  }

  // ----- the initial queue -----

  ghost predicate LeafQueue(data: seq<byte>, q: seq<Tree>, n: nat) {
    && (forall i :: 0 <= i < |q| ==> q[i].Leaf? && q[i].byteValue < n && q[i].byteValue in data)
    && (forall i :: 0 <= i < |q| ==> q[i].frequency == Count(data, q[i].byteValue) > 0)
    && (forall i, j :: 0 <= i < j < |q| ==> q[i].byteValue < q[j].byteValue)
  }

  lemma {:induction false} LeavesBelowLeaves(data: seq<byte>, n: nat)
    requires n <= 256 && |data| < U32
    ensures LeafQueue(data, LeavesBelow(Frequencies(data), n), n)
  {
    if n == 0 {
    } else {
      LeavesBelowLeaves(data, n - 1);
      FrequencyExact(data, n - 1);
    }
  }

  lemma {:induction false} LeavesBelowTotal(data: seq<byte>, n: nat)
    requires n <= 256 && |data| < U32
    ensures TotalFrequency(LeavesBelow(Frequencies(data), n)) == Part(One, data, n)
  {
    if n == 0 {
      PartEmpty(One, data);
    } else {
      LeavesBelowTotal(data, n - 1);
      FrequencyExact(data, n - 1);
      PartStep(One, data, n - 1);
      var q := LeavesBelow(Frequencies(data), n - 1);
      AppendTotal(q, Leaf(n - 1, Frequencies(data)[n - 1]));
      assert q + [] == q;
    }
  }

  lemma {:induction false} LeavesBelowSymbols(data: seq<byte>, n: nat, b: byte)
    requires n <= 256 && |data| < U32
    ensures b in QueueSymbols(LeavesBelow(Frequencies(data), n)) <==> b in data && b < n
  {
    if n == 0 {
    } else {
      LeavesBelowSymbols(data, n - 1, b);
      FrequencyExact(data, n - 1);
      var q := LeavesBelow(Frequencies(data), n - 1);
      var l := Leaf(n - 1, Frequencies(data)[n - 1]);
      assert (q + [l])[..|q|] == q;
      assert q + [] == q;
    }
  }

  /** For non-empty data below 2^32 bytes, the initial queue holds one leaf per occurring symbol. */
  lemma {:induction false} InitialQueueLeaves(data: seq<byte>)
    requires 0 < |data| < U32
    ensures var q := InitialQueue(Frequencies(data));
            && q == LeavesBelow(Frequencies(data), 256) && LeafQueue(data, q, 256)
            && TotalFrequency(q) == |data|
  {
    LeavesBelowLeaves(data, 256);
    LeavesBelowTotal(data, 256);
    PartOnes(data);
  }

  lemma {:induction false} LeafQueueWellBuilt(data: seq<byte>, q: seq<Tree>)
    requires LeafQueue(data, q, 256) && TotalFrequency(q) < U32
    ensures WellBuiltQueue(q) && BalancedQueue(q)
  {
    forall i, j | 0 <= i < j < |q| ensures Symbols(q[i]) !! Symbols(q[j]) {
      assert Symbols(q[i]) == {q[i].byteValue} && Symbols(q[j]) == {q[j].byteValue};
    }
  }

  /** The tree built for non-empty data: one leaf per occurring symbol, root weight |data|, and no
      path longer than 45. */
  lemma {:induction false} TreeProps(tb: TieBreak, data: seq<byte>)
    requires 0 < |data| < U32
    ensures var t := TreeOf(tb, Frequencies(data));
            && WellBuilt(t) && t.frequency == |data| && Height(t) <= 45 && Fib(Height(t) + 2) <= |data|
            && forall b :: b in Symbols(t) <==> b in data
  {
    var freqs := Frequencies(data);
    var q := InitialQueue(freqs);
    InitialQueueLeaves(data);
    LeafQueueWellBuilt(data, q);
    MergeLoopWellBuilt(tb, freqs, 0, q);
    DepthBound(tb, freqs, 0, q);
    forall b: byte ensures b in QueueSymbols(q) <==> b in data {
      LeavesBelowSymbols(data, 256, b);
    }
  }

  /** The table that compress uses: different bytes of the data get code words, read bit by bit from
      the lowest, of which none is a prefix of the other. */
  lemma {:induction false} TableIsPrefixFree(tb: TieBreak, data: seq<byte>, codes: seq<HuffmanCode>, b: byte, c: byte)
    requires 0 < |data| < U32 && |codes| == 256 && b in data && c in data && b != c
    ensures var table := FilledCodes(TreeOf(tb, Frequencies(data)), 0, 0, codes);
            !Comparable(CodeBits(table[b]), CodeBits(table[c]))
  {
    var t := TreeOf(tb, Frequencies(data));
    TreeProps(tb, data);
    hide TreeOf, Frequencies, FilledCodes, CodeBits, Comparable, Path, Val, Fib, Height;
    WellBuiltDistinct(t);
    EntryIsPath(t, codes, b);
    EntryIsPath(t, codes, c);
    CodeBitsOfVal(Path(t, b));
    CodeBitsOfVal(Path(t, c));
    PathsPrefixFree(t, b, c);
  }
}
