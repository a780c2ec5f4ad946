/** Frequency table, priority queue and the merge loop that builds the Huffman tree. */
module HuffmanTree {
  import opened Bytes

  datatype Tree =
    | Leaf(byteValue: byte, frequency: nat)
    | Node(frequency: nat, left: Tree, right: Tree)

  // ----- frequencies -----

  function Count(data: seq<byte>, b: byte): (n: nat)
    ensures n <= |data|
  {
    if data == [] then 0
    else Count(data[..|data| - 1], b) + (if data[|data| - 1] == b then 1 else 0)
  }

  /** The table of 32-bit counters: each count is kept modulo 2^32. */
  function Frequencies(data: seq<byte>): (f: seq<nat>)
    ensures |f| == 256
  {
    seq(256, b requires 0 <= b < 256 => Count(data, b) % U32)
  }

  method CountFrequencies(data: seq<byte>) returns (freqs: array<nat>)
    ensures fresh(freqs) && freqs[..] == Frequencies(data)
  {
    freqs := new nat[256](_ => 0);
    for i := 0 to |data|
      invariant freqs.Length == 256
      invariant forall b: byte :: freqs[b] == Count(data[..i], b) % U32
    {
      assert data[..i + 1][..i] == data[..i];
      freqs[data[i]] := (freqs[data[i]] + 1) % U32;
    }
    assert data[..|data|] == data;
  }

  // ----- the priority queue -----

  /** What std::priority_queue does among equal frequencies is not specified.  The queue is
      deterministic, so its choice is some function of the table, of how many pops went before
      and of what is queued; any such function is allowed here. */
  type TieBreak = (seq<nat>, nat, seq<Tree>) -> nat

  predicate IsMinimum(q: seq<Tree>, i: nat) {
    i < |q| && forall j :: 0 <= j < |q| ==> q[i].frequency <= q[j].frequency
  }

  function FirstMinimum(q: seq<Tree>): (i: nat)
    requires q != []
    ensures IsMinimum(q, i)
  {
    if |q| == 1 then 0 else
      var j := FirstMinimum(q[1..]) + 1;
      if q[0].frequency <= q[j].frequency then 0 else j
  }

  /** The index of the element that pop() takes: the tie-break's choice if that is a minimum. */
  function PopIndex(tb: TieBreak, freqs: seq<nat>, pops: nat, q: seq<Tree>): (i: nat)
    requires q != []
    ensures IsMinimum(q, i)
  {
    var i := tb(freqs, pops, q);
    if IsMinimum(q, i) then i else FirstMinimum(q)
  }

  function RemoveAt<T>(s: seq<T>, i: nat): (r: seq<T>)
    requires i < |s|
    ensures |r| == |s| - 1
  {
    s[..i] + s[i + 1..]
  }

  /** parent->frequency = left->frequency + right->frequency in 32 bits. */
  function Parent(left: Tree, right: Tree): Tree {
    Node((left.frequency + right.frequency) % U32, left, right)
  }

  /** One turn of the merge loop: pop twice, push the parent. */
  function MergeStep(tb: TieBreak, freqs: seq<nat>, pops: nat, q: seq<Tree>): (r: seq<Tree>)
    requires |q| > 1
    ensures |r| == |q| - 1
  {
    var i := PopIndex(tb, freqs, pops, q);
    var q1 := RemoveAt(q, i);
    var j := PopIndex(tb, freqs, pops + 1, q1);
    RemoveAt(q1, j) + [Parent(q[i], q1[j])]
  }

  function MergeLoop(tb: TieBreak, freqs: seq<nat>, pops: nat, q: seq<Tree>): Tree
    requires q != []
    decreases |q|
  {
    if |q| == 1 then q[0] else MergeLoop(tb, freqs, pops + 2, MergeStep(tb, freqs, pops, q))
  }

  /** The leaves pushed for the byte values below n. */
  function LeavesBelow(freqs: seq<nat>, n: nat): (q: seq<Tree>)
    requires n <= |freqs| <= 256
  {
    if n == 0 then []
    else LeavesBelow(freqs, n - 1) + (if freqs[n - 1] > 0 then [Leaf(n - 1, freqs[n - 1])] else [])
  }

  function InitialQueue(freqs: seq<nat>): (q: seq<Tree>)
    requires |freqs| == 256
    ensures q != []
  {
    var q := LeavesBelow(freqs, 256);
    if q == [] then [Leaf(0, 1)] else q
  }

  function TreeOf(tb: TieBreak, freqs: seq<nat>): Tree
    requires |freqs| == 256
  {
    MergeLoop(tb, freqs, 0, InitialQueue(freqs))
  }

  method BuildTree(tb: TieBreak, freqs: seq<nat>) returns (root: Tree)
    requires |freqs| == 256
    ensures root == TreeOf(tb, freqs)
  {
    var q: seq<Tree> := [];
    for i := 0 to 256
      invariant q == LeavesBelow(freqs, i)
    {
      if freqs[i] > 0 {
        q := q + [Leaf(i, freqs[i])];
      }
    }
    if q == [] {
      q := [Leaf(0, 1)];
    }
    var pops := 0;
    while |q| > 1
      invariant q != []
      invariant MergeLoop(tb, freqs, pops, q) == TreeOf(tb, freqs)
      decreases |q|
    {
      var i := PopIndex(tb, freqs, pops, q);
      var left := q[i];
      var q1 := RemoveAt(q, i);
      var j := PopIndex(tb, freqs, pops + 1, q1);
      var right := q1[j];
      ghost var q0 := q;
      q := RemoveAt(q1, j) + [Parent(left, right)];
      assert q == MergeStep(tb, freqs, pops, q0);
      pops := pops + 2;
    }
    root := q[0];
  }

  // ----- what every queue of the loop satisfies -----

  function Symbols(t: Tree): set<byte> {
    match t
    case Leaf(b, _) => {b}
    case Node(_, l, r) => Symbols(l) + Symbols(r)
  }

  function QueueSymbols(q: seq<Tree>): set<byte> {
    if q == [] then {} else QueueSymbols(q[..|q| - 1]) + Symbols(q[|q| - 1])
  }

  function TotalFrequency(q: seq<Tree>): nat {
    if q == [] then 0 else TotalFrequency(q[..|q| - 1]) + q[|q| - 1].frequency
  }

  function Height(t: Tree): nat {
    match t
    case Leaf(_, _) => 0
    case Node(_, l, r) => 1 + if Height(l) >= Height(r) then Height(l) else Height(r)
  }

  /** Inner frequencies are exact sums, leaves have positive frequency, no symbol occurs twice. */
  predicate WellBuilt(t: Tree) {
    match t
    case Leaf(_, f) => f > 0
    case Node(f, l, r) =>
      f == l.frequency + r.frequency && Symbols(l) !! Symbols(r) && WellBuilt(l) && WellBuilt(r)
  }

  ghost predicate WellBuiltQueue(q: seq<Tree>) {
    && (forall i :: 0 <= i < |q| ==> WellBuilt(q[i]))
    && (forall i, j :: 0 <= i < j < |q| ==> Symbols(q[i]) !! Symbols(q[j]))
    && TotalFrequency(q) < U32
  }

  lemma {:induction false} RemoveTotal(q: seq<Tree>, i: nat)
    requires i < |q|
    ensures TotalFrequency(q) == q[i].frequency + TotalFrequency(RemoveAt(q, i))
  {
    var n := |q| - 1;
    if i < n {
      RemoveTotal(q[..n], i);
      assert RemoveAt(q, i)[..n - 1] == RemoveAt(q[..n], i);
    } else {
      assert RemoveAt(q, i) == q[..n];
    }
  }

  lemma {:induction false} AppendTotal(q: seq<Tree>, t: Tree)
    ensures TotalFrequency(q + [t]) == TotalFrequency(q) + t.frequency
  {
    assert (q + [t])[..|q|] == q;
  }

  lemma {:induction false} RemoveWellBuilt(q: seq<Tree>, i: nat)
    requires i < |q| && WellBuiltQueue(q)
    ensures WellBuiltQueue(RemoveAt(q, i))
    ensures forall k :: 0 <= k < |q| - 1 ==> Symbols(RemoveAt(q, i)[k]) !! Symbols(q[i])
  {
    RemoveTotal(q, i);
  }

  lemma {:induction false} PushWellBuilt(q: seq<Tree>, t: Tree)
    requires WellBuiltQueue(q) && WellBuilt(t)
    requires TotalFrequency(q) + t.frequency < U32
    requires forall k :: 0 <= k < |q| ==> Symbols(q[k]) !! Symbols(t)
    ensures WellBuiltQueue(q + [t])
  {
    AppendTotal(q, t);
  }

  /** A merge step keeps the queue well built: with a total below 2^32 the parent's sum is exact. */
  lemma {:induction false} MergeStepWellBuilt(tb: TieBreak, freqs: seq<nat>, pops: nat, q: seq<Tree>)
    requires |q| > 1 && WellBuiltQueue(q)
    ensures WellBuiltQueue(MergeStep(tb, freqs, pops, q))
    ensures QueueSymbols(MergeStep(tb, freqs, pops, q)) == QueueSymbols(q)
    ensures TotalFrequency(MergeStep(tb, freqs, pops, q)) == TotalFrequency(q)
  {
    var i := PopIndex(tb, freqs, pops, q);
    var q1 := RemoveAt(q, i);
    var j := PopIndex(tb, freqs, pops + 1, q1);
    MergeAtWellBuilt(q, i, j);
    MergeStepSymbols(q, i, j);
  }

  lemma {:induction false} ParentWellBuilt(l: Tree, r: Tree)
    requires WellBuilt(l) && WellBuilt(r) && Symbols(l) !! Symbols(r)
    requires l.frequency + r.frequency < U32
    ensures WellBuilt(Parent(l, r)) && Parent(l, r).frequency == l.frequency + r.frequency
  {
  }

  lemma {:induction false} MergeAtWellBuilt(q: seq<Tree>, i: nat, j: nat)
    requires i < |q| && j < |q| - 1 && WellBuiltQueue(q)
    ensures var q1 := RemoveAt(q, i);
            var r := RemoveAt(q1, j) + [Parent(q[i], q1[j])];
            WellBuiltQueue(r) && TotalFrequency(r) == TotalFrequency(q)
  {
    var q1 := RemoveAt(q, i);
    var q2, left, right := RemoveAt(q1, j), q[i], q1[j];
    RemoveTotal(q, i);
    RemoveTotal(q1, j);
    assert WellBuiltQueue(q1) && WellBuilt(left) && Symbols(right) !! Symbols(left) by { RemoveWellBuilt(q, i); }
    assert WellBuiltQueue(q2) && WellBuilt(right) by { RemoveWellBuilt(q1, j); }
    ParentWellBuilt(left, right);
    assert forall k :: 0 <= k < |q1| ==> Symbols(q1[k]) !! Symbols(left) by { RemoveWellBuilt(q, i); }
    assert forall k :: 0 <= k < |q2| ==> Symbols(q2[k]) !! Symbols(right) by { RemoveWellBuilt(q1, j); }
    ParentDisjoint(q1, q2, j, Parent(left, right), left);
    PushWellBuilt(q2, Parent(left, right));
    AppendTotal(q2, Parent(left, right));
  }

  lemma {:induction false} ParentDisjoint(q1: seq<Tree>, q2: seq<Tree>, j: nat, p: Tree, left: Tree)
    requires j < |q1| && q2 == RemoveAt(q1, j) && p == Parent(left, q1[j])
    requires forall k :: 0 <= k < |q1| ==> Symbols(q1[k]) !! Symbols(left)
    requires forall k :: 0 <= k < |q2| ==> Symbols(q2[k]) !! Symbols(q1[j])
    ensures forall k :: 0 <= k < |q2| ==> Symbols(q2[k]) !! Symbols(p)
  {
    forall k | 0 <= k < |q2| ensures Symbols(q2[k]) !! Symbols(p) {
      var k1 := if k < j then k else k + 1;
      assert q2[k] == q1[k1];
    }
  }

  lemma {:induction false} MergeStepSymbols(q: seq<Tree>, i: nat, j: nat)
    requires i < |q| && j < |q| - 1
    ensures QueueSymbols(RemoveAt(RemoveAt(q, i), j) + [Parent(q[i], RemoveAt(q, i)[j])]) == QueueSymbols(q)
  {
    var q1 := RemoveAt(q, i);
    var q2 := RemoveAt(q1, j);
    var p := Parent(q[i], q1[j]);
    RemoveSymbols(q, i);
    RemoveSymbols(q1, j);
    assert (q2 + [p])[..|q2|] == q2;
  }

  lemma {:induction false} RemoveSymbols(q: seq<Tree>, i: nat)
    requires i < |q|
    ensures QueueSymbols(q) == Symbols(q[i]) + QueueSymbols(RemoveAt(q, i))
  {
    var n := |q| - 1;
    if i < n {
      RemoveSymbols(q[..n], i);
      assert RemoveAt(q, i)[..n - 1] == RemoveAt(q[..n], i);
    } else {
      assert RemoveAt(q, i) == q[..n];
    }
  }

  lemma {:induction false} MergeLoopWellBuilt(tb: TieBreak, freqs: seq<nat>, pops: nat, q: seq<Tree>)
    requires q != [] && WellBuiltQueue(q)
    ensures var t := MergeLoop(tb, freqs, pops, q);
            WellBuilt(t) && Symbols(t) == QueueSymbols(q) && t.frequency == TotalFrequency(q)
    decreases |q|
  {
    if |q| == 1 {
      assert q[..0] == [];
    } else {
      MergeStepWellBuilt(tb, freqs, pops, q);
      MergeLoopWellBuilt(tb, freqs, pops + 2, MergeStep(tb, freqs, pops, q));
    }
  }

  // ----- trees of any frequencies -----

  /** A tree with no symbol in two leaves, whatever its weights. */
  predicate DistinctLeaves(t: Tree) {
    t.Node? ==> Symbols(t.left) !! Symbols(t.right) && DistinctLeaves(t.left) && DistinctLeaves(t.right)
  }

  ghost predicate DistinctQueue(q: seq<Tree>) {
    && (forall i :: 0 <= i < |q| ==> DistinctLeaves(q[i]))
    && (forall i, j :: 0 <= i < j < |q| ==> Symbols(q[i]) !! Symbols(q[j]))
  }

  lemma {:induction false} RemoveDistinct(q: seq<Tree>, i: nat)
    requires i < |q| && DistinctQueue(q)
    ensures DistinctQueue(RemoveAt(q, i))
    ensures forall k :: 0 <= k < |q| - 1 ==> Symbols(RemoveAt(q, i)[k]) !! Symbols(q[i])
  {
  }

  lemma {:induction false} MergeDistinct(q: seq<Tree>, i: nat, j: nat)
    requires i < |q| && j < |q| - 1 && DistinctQueue(q)
    ensures DistinctQueue(RemoveAt(RemoveAt(q, i), j) + [Parent(q[i], RemoveAt(q, i)[j])])
  {
    var q1 := RemoveAt(q, i);
    var q2, left, right := RemoveAt(q1, j), q[i], q1[j];
    RemoveDistinct(q, i);
    RemoveDistinct(q1, j);
    hide DistinctLeaves;
    assert DistinctLeaves(left) && DistinctLeaves(right);
    ParentDistinct(left, right);
    ParentDisjoint(q1, q2, j, Parent(left, right), left);
    hide Parent, Symbols;
  }

  lemma {:induction false} ParentDistinct(l: Tree, r: Tree)
    requires DistinctLeaves(l) && DistinctLeaves(r) && Symbols(l) !! Symbols(r)
    ensures DistinctLeaves(Parent(l, r))
  {
  }

  /** Counters that have wrapped around may spoil the sums, but never mix up the symbols. */
  lemma {:induction false} MergeLoopDistinct(tb: TieBreak, freqs: seq<nat>, pops: nat, q: seq<Tree>)
    requires q != [] && DistinctQueue(q)
    ensures var t := MergeLoop(tb, freqs, pops, q); DistinctLeaves(t) && Symbols(t) == QueueSymbols(q)
    decreases |q|
  {
    if |q| == 1 {
      assert q[..0] == [];
    } else {
      var i := PopIndex(tb, freqs, pops, q);
      var q1 := RemoveAt(q, i);
      var j := PopIndex(tb, freqs, pops + 1, q1);
      MergeDistinct(q, i, j);
      MergeStepSymbols(q, i, j);
      MergeLoopDistinct(tb, freqs, pops + 2, MergeStep(tb, freqs, pops, q));
    }
  }

  /** One leaf for each byte below n with a positive counter. */
  ghost predicate LeavesFor(q: seq<Tree>, freqs: seq<nat>, n: nat)
    requires n <= |freqs| <= 256
  {
    && DistinctQueue(q) && (forall i :: 0 <= i < |q| ==> q[i].Leaf? && q[i].byteValue < n)
    && forall b: byte :: b in QueueSymbols(q) <==> b < n && freqs[b] > 0
  }

  lemma {:induction false} LeavesBelowDistinct(freqs: seq<nat>, n: nat)
    requires n <= |freqs| <= 256
    ensures LeavesFor(LeavesBelow(freqs, n), freqs, n)
  {
    if n == 0 {
      assert LeavesBelow(freqs, 0) == [];
    } else {
      LeavesBelowDistinct(freqs, n - 1);
      var q := LeavesBelow(freqs, n - 1);
      if freqs[n - 1] > 0 {
        hide LeavesFor;
        PushLeaf(q, freqs, n);
      } else {
        assert LeavesBelow(freqs, n) == q + [] == q;
        hide DistinctQueue, LeavesBelow;
      }
    }
  }

  lemma {:induction false} PushLeaf(q: seq<Tree>, freqs: seq<nat>, n: nat)
    requires 0 < n <= |freqs| <= 256 && freqs[n - 1] > 0 && LeavesFor(q, freqs, n - 1)
    ensures LeavesFor(q + [Leaf(n - 1, freqs[n - 1])], freqs, n)
  {
    var l := Leaf(n - 1, freqs[n - 1]);
    assert (q + [l])[..|q|] == q;
    assert QueueSymbols(q + [l]) == QueueSymbols(q) + {l.byteValue};
    hide QueueSymbols;
  }

  /** The tree of any table: one leaf for each byte with a positive counter, or the sentinel alone. */
  lemma {:induction false} TreeSymbols(tb: TieBreak, freqs: seq<nat>)
    requires |freqs| == 256
    ensures var t := TreeOf(tb, freqs);
            && DistinctLeaves(t)
            && (forall b: byte :: freqs[b] > 0 ==> b in Symbols(t))
            && (t.Node? ==> forall b: byte :: b in Symbols(t) <==> freqs[b] > 0)
  {
    var q := InitialQueue(freqs);
    LeavesBelowDistinct(freqs, 256);
    if LeavesBelow(freqs, 256) == [] {
      assert MergeLoop(tb, freqs, 0, q) == q[0];
    } else {
      MergeLoopDistinct(tb, freqs, 0, q);
    }
  }
}
