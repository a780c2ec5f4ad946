module HuffmanCodec {
  /** The bits a Huffman tree gives the data, and why no prefix-free code and no other tree does better. */

  import opened Bytes
  import opened HuffmanTree
  import opened HuffmanDepth
  import opened HuffmanOptimal
  import opened PrefixCodes
  import opened HuffmanCodes

  // ----- the encoded bit stream -----

  ghost predicate Covers(t: Tree, data: seq<byte>) {
    forall k :: 0 <= k < |data| ==> data[k] in Symbols(t)
  }

  /** The paths of the data's bytes, one after the other. */
  ghost function Encode(t: Tree, data: seq<byte>): Bits
    requires Covers(t, data)
  {
    if data == [] then [] else Encode(t, data[..|data| - 1]) + Path(t, data[|data| - 1])
  }

  lemma {:induction false} EncodePrefix(t: Tree, data: seq<byte>, k: nat)
    requires Covers(t, data) && k <= |data|
    ensures |Encode(t, data[..k])| <= |Encode(t, data)|
    ensures Encode(t, data)[..|Encode(t, data[..k])|] == Encode(t, data[..k])
  {
    if k == |data| {
      assert data[..k] == data;
    } else {
      var pre := data[..|data| - 1];
      EncodePrefix(t, pre, k);
      assert pre[..k] == data[..k];
    }
  }

  lemma {:induction false} EncodeStep(t: Tree, data: seq<byte>, k: nat)
    requires Covers(t, data) && k < |data|
    ensures Encode(t, data[..k + 1]) == Encode(t, data[..k]) + Path(t, data[k])
  {
    assert data[..k + 1][..k] == data[..k];
  }

  // ----- cost of the stream -----

  ghost predicate LeafCounts(t: Tree, data: seq<byte>) {
    match t
    case Leaf(b, f) => f == Count(data, b)
    case Node(_, l, r) => LeafCounts(l, data) && LeafCounts(r, data)
  }

  lemma {:induction false} MergeLoopLeafCounts(tb: TieBreak, freqs: seq<nat>, pops: nat, q: seq<Tree>, data: seq<byte>)
    requires q != [] && forall k :: 0 <= k < |q| ==> LeafCounts(q[k], data)
    ensures LeafCounts(MergeLoop(tb, freqs, pops, q), data)
    decreases |q|
  {
    if |q| <= 1 {
    } else {
      var i := PopIndex(tb, freqs, pops, q);
      var q1 := RemoveAt(q, i);
      var j := PopIndex(tb, freqs, pops + 1, q1);
      MergedLeafCounts(q, i, q1, j, RemoveAt(q1, j), data);
      MergeLoopLeafCounts(tb, freqs, pops + 2, MergeStep(tb, freqs, pops, q), data);
    }
  }

  lemma {:induction false} MergedLeafCounts(q: seq<Tree>, i: nat, q1: seq<Tree>, j: nat, q2: seq<Tree>, data: seq<byte>)
    requires forall k :: 0 <= k < |q| ==> LeafCounts(q[k], data)
    requires i < |q| && q1 == RemoveAt(q, i) && j < |q1| && q2 == RemoveAt(q1, j)
    ensures var r := q2 + [Parent(q[i], q1[j])];
            forall k :: 0 <= k < |r| ==> LeafCounts(r[k], data)
  {
    assert forall k :: 0 <= k < |q1| ==> LeafCounts(q1[k], data);
    assert forall k :: 0 <= k < |q2| ==> LeafCounts(q2[k], data);
    assert LeafCounts(Parent(q[i], q1[j]), data);
  }

  /** How many elements of data have a leaf in t. */
  ghost function Inside(t: Tree, data: seq<byte>): nat {
    if data == [] then 0
    else Inside(t, data[..|data| - 1]) + (if data[|data| - 1] in Symbols(t) then 1 else 0)
  }

  /** Sum of the path lengths in t of those elements. */
  ghost function PathCost(t: Tree, data: seq<byte>): nat {
    if data == [] then 0
    else PathCost(t, data[..|data| - 1]) + (if data[|data| - 1] in Symbols(t) then |Path(t, data[|data| - 1])| else 0)
  }

  lemma {:induction false} InsideLeaf(t: Tree, data: seq<byte>)
    requires t.Leaf?
    ensures Inside(t, data) == Count(data, t.byteValue) && PathCost(t, data) == 0
  {
    if data == [] {
    } else {
      InsideLeaf(t, data[..|data| - 1]);
    }
  }

  lemma {:induction false} InsideNode(t: Tree, data: seq<byte>)
    requires t.Node? && WellBuilt(t)
    ensures Inside(t, data) == Inside(t.left, data) + Inside(t.right, data)
    ensures PathCost(t, data) == Inside(t, data) + PathCost(t.left, data) + PathCost(t.right, data)
  {
    if data == [] {
    } else {
      InsideNode(t, data[..|data| - 1]);
    }
  }

  /** The tree's weight counts its occurrences and its cost is the total length of their paths. */
  lemma {:induction false} CostIsPathCost(t: Tree, data: seq<byte>)
    requires WellBuilt(t) && LeafCounts(t, data)
    ensures Inside(t, data) == t.frequency && PathCost(t, data) == Cost(t)
  {
    match t
    case Leaf(_, _) =>
      InsideLeaf(t, data);
    case Node(_, l, r) =>
      CostIsPathCost(l, data);
      CostIsPathCost(r, data);
      InsideNode(t, data);
  }

  lemma {:induction false} EncodeLength(t: Tree, data: seq<byte>)
    requires Covers(t, data)
    ensures |Encode(t, data)| == PathCost(t, data)
  {
    if data == [] {
    } else {
      EncodeLength(t, data[..|data| - 1]);
    }
  }

  // ----- no prefix-free code does better -----

  /** The code lists a word for every byte of data, and no word is a prefix of another's. */
  ghost predicate PrefixCodeFor(code: map<byte, Bits>, data: seq<byte>) {
    && (forall b :: b in data ==> b in code)
    && (forall b, c :: b in data && c in data && b != c ==> !Comparable(code[b], code[c]))
  }

  ghost function CodeLength(code: map<byte, Bits>, b: byte): nat {
    if b in code then |code[b]| else 0
  }

  /** Number of bits of data under the code. */
  ghost function CodedLength(code: map<byte, Bits>, data: seq<byte>): nat {
    if data == [] then 0 else CodedLength(code, data[..|data| - 1]) + CodeLength(code, data[|data| - 1])
  }

  ghost function Words(code: map<byte, Bits>, q: seq<Tree>): seq<Bits>
    requires forall k :: 0 <= k < |q| ==> q[k].Leaf? && q[k].byteValue in code
  {
    seq(|q|, k requires 0 <= k < |q| => code[q[k].byteValue])
  }

  lemma {:induction false} WordsPrefixFree(code: map<byte, Bits>, data: seq<byte>, q: seq<Tree>, n: nat)
    requires LeafQueue(data, q, n) && PrefixCodeFor(code, data)
    ensures PrefixFree(Words(code, q))
  {
    if q == [] {
    } else {
      var pre := q[..|q| - 1];
      WordsPrefixFree(code, data, pre, n);
      assert Words(code, q)[..|q| - 1] == Words(code, pre);
    }
  }

  lemma {:induction false} CodedLengthIsPart(code: map<byte, Bits>, data: seq<byte>)
    ensures CodedLength(code, data) == Part((b: byte) => CodeLength(code, b), data, 256)
  {
    if data == [] {
    } else {
      CodedLengthIsPart(code, data[..|data| - 1]);
    }
  }

  lemma {:induction false} WordsAppend(code: map<byte, Bits>, q: seq<Tree>, l: Tree)
    requires l.Leaf? && l.byteValue in code
    requires forall k :: 0 <= k < |q| ==> q[k].Leaf? && q[k].byteValue in code
    ensures Dot(Weights(q + [l]), Lengths(Words(code, q + [l]))) ==
            Dot(Weights(q), Lengths(Words(code, q))) + l.frequency * CodeLength(code, l.byteValue)
  {
    WeightsAppend(q, l);
    assert Words(code, q + [l]) == Words(code, q) + [code[l.byteValue]];
    assert Lengths(Words(code, q + [l])) == Lengths(Words(code, q)) + [CodeLength(code, l.byteValue)];
    DotAppend(Weights(q), Lengths(Words(code, q)), l.frequency, CodeLength(code, l.byteValue));
  }

  lemma {:induction false} WordsCost(code: map<byte, Bits>, data: seq<byte>, q: seq<Tree>, n: nat, f: byte -> nat)
    requires n <= 256 && |data| < U32 && PrefixCodeFor(code, data)
    requires q == LeavesBelow(Frequencies(data), n) && LeafQueue(data, q, n)
    requires forall b: byte :: f(b) == CodeLength(code, b)
    ensures Dot(Weights(q), Lengths(Words(code, q))) == Part(f, data, n)
    decreases n
  {
    if n == 0 {
      PartEmpty(f, data);
    } else {
      hide Dot, Weights, Lengths, Words, Part, LeavesBelow, Frequencies, LeafQueue, PrefixCodeFor;
      var pre := LeavesBelow(Frequencies(data), n - 1);
      LeavesBelowLeaves(data, n - 1);
      WordsCost(code, data, pre, n - 1, f);
      PartStep(f, data, n - 1);
      WordsNext(code, data, pre, q, n);
    }
  }

  lemma {:induction false} WordsNext(code: map<byte, Bits>, data: seq<byte>, pre: seq<Tree>, q: seq<Tree>, n: nat)
    requires 0 < n <= 256 && |data| < U32 && PrefixCodeFor(code, data)
    requires q == LeavesBelow(Frequencies(data), n) && LeafQueue(data, q, n)
    requires pre == LeavesBelow(Frequencies(data), n - 1) && LeafQueue(data, pre, n - 1)
    ensures Dot(Weights(q), Lengths(Words(code, q))) ==
            Dot(Weights(pre), Lengths(Words(code, pre))) + Count(data, n - 1) * CodeLength(code, n - 1)
  {
    hide Dot, Weights, Lengths, Words;
    FrequencyExact(data, n - 1);
    if Count(data, n - 1) > 0 {
      WordsAppend(code, pre, Leaf(n - 1, Count(data, n - 1)));
    } else {
      assert q == pre;
    }
  }

  function Longest(cs: seq<Bits>): (m: nat)
    ensures forall k :: 0 <= k < |cs| ==> |cs[k]| <= m
  {
    if cs == [] then 0 else
      var m := Longest(cs[..|cs| - 1]);
      if |cs[|cs| - 1]| > m then |cs[|cs| - 1]| else m
  }

  lemma {:induction false} TreeLeafCounts(tb: TieBreak, data: seq<byte>)
    requires 0 < |data| < U32
    ensures LeafCounts(TreeOf(tb, Frequencies(data)), data)
  {
    var q := InitialQueue(Frequencies(data));
    InitialQueueLeaves(data);
    MergeLoopLeafCounts(tb, Frequencies(data), 0, q, data);
  }

  lemma {:induction false} TreeCovers(tb: TieBreak, data: seq<byte>)
    requires 0 < |data| < U32
    ensures Covers(TreeOf(tb, Frequencies(data)), data)
  {
    TreeProps(tb, data);
  }

  lemma {:induction false} TreeEncodes(tb: TieBreak, data: seq<byte>, t: Tree)
    requires 0 < |data| < U32 && t == TreeOf(tb, Frequencies(data))
    ensures Covers(t, data) && |Encode(t, data)| == Cost(t)
  {
    TreeCovers(tb, data);
    assert WellBuilt(t) by { TreeProps(tb, data); }
    TreeLeafCounts(tb, data);
    EncodeLength(t, data);
    CostIsPathCost(t, data);
  }

  /** Optimality: for every data of fewer than 2^32 bytes and every tie-breaking, no prefix-free
      code writes the data in fewer bits than the tree of the merge loop. */
  lemma {:induction false} HuffmanIsOptimal(tb: TieBreak, data: seq<byte>, code: map<byte, Bits>)
    requires 0 < |data| < U32 && PrefixCodeFor(code, data)
    ensures var t := TreeOf(tb, Frequencies(data));
            Covers(t, data) && |Encode(t, data)| <= CodedLength(code, data)
  {
    var freqs := Frequencies(data);
    var q := InitialQueue(freqs);
    InitialQueueLeaves(data);
    LeafQueueWellBuilt(data, q);
    var m := WordsFeasible(code, data, q);
    MergeLoopOptimal(tb, freqs, 0, q, Lengths(Words(code, q)), m);
    LeavesCostNothing(q);
    WordsCost(code, data, q, 256, (b: byte) => CodeLength(code, b));
    CodedLengthIsPart(code, data);
    TreeEncodes(tb, data, TreeOf(tb, freqs));
  }

  lemma {:induction false} WordsFeasible(code: map<byte, Bits>, data: seq<byte>, q: seq<Tree>) returns (m: nat)
    requires LeafQueue(data, q, 256) && PrefixCodeFor(code, data)
    ensures Feasible(Lengths(Words(code, q)), m)
  {
    var words := Words(code, q);
    m := Longest(words);
    WordsPrefixFree(code, data, q, 256);
    KraftInequality(words, m);
    KraftSumIsKraft(words, m);
  }

  lemma {:induction false} LeavesCostNothing(q: seq<Tree>)
    requires forall k :: 0 <= k < |q| ==> q[k].Leaf?
    ensures TotalCost(q) == 0
  {
    if q == [] {
    } else {
      LeavesCostNothing(q[..|q| - 1]);
    }
  }

  // ----- nor does any other tree -----

  ghost function PathCode(t: Tree): map<byte, Bits> {
    map b | b in Symbols(t) :: Path(t, b)
  }

  lemma {:induction false} PathCodeLength(t: Tree, data: seq<byte>)
    ensures CodedLength(PathCode(t), data) == PathCost(t, data)
  {
    if data == [] {
    } else {
      PathCodeLength(t, data[..|data| - 1]);
    }
  }

  /** Optimality among trees: no binary tree with the data's bytes in different leaves, whatever its
      shape, gives the data a shorter total path length. */
  lemma {:induction false} NoTreeIsCheaper(tb: TieBreak, data: seq<byte>, other: Tree)
    requires 0 < |data| < U32 && DistinctLeaves(other) && Covers(other, data)
    ensures var t := TreeOf(tb, Frequencies(data));
            Covers(t, data) && |Encode(t, data)| <= |Encode(other, data)|
  {
    var code := PathCode(other);
    forall b, c | b in data && c in data && b != c ensures !Comparable(code[b], code[c]) {
      PathsPrefixFree(other, b, c);
    }
    PathCodeLength(other, data);
    EncodeLength(other, data);
    hide TreeOf, Frequencies, Encode, CodedLength, PathCost, Comparable, Path;
    HuffmanIsOptimal(tb, data, code);
  }
}
