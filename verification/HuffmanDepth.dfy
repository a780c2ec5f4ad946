/** Why a 64-bit code word is enough: a Huffman tree of height h weighs at least Fib(h + 2). */
module HuffmanDepth {
  import opened Bytes
  import opened HuffmanTree

  function Fib(n: nat): nat {
    if n < 2 then n else Fib(n - 2) + Fib(n - 1)
  }

  function HeaviestChild(t: Tree): nat {
    match t
    case Leaf(_, _) => 0
    case Node(_, l, r) => if l.frequency >= r.frequency then l.frequency else r.frequency
  }

  /** Neither child is lighter than a child of its sibling. */
  predicate Balanced(t: Tree) {
    match t
    case Leaf(_, _) => true
    case Node(_, l, r) =>
      HeaviestChild(l) <= r.frequency && HeaviestChild(r) <= l.frequency && Balanced(l) && Balanced(r)
  }

  /** What was merged earlier was never heavier than anything still queued beside it. */
  ghost predicate BalancedQueue(q: seq<Tree>) {
    && (forall i :: 0 <= i < |q| ==> Balanced(q[i]))
    && (forall i, j :: 0 <= i < |q| && 0 <= j < |q| && i != j ==> HeaviestChild(q[i]) <= q[j].frequency)
  }

  lemma {:induction false} FibMonotone(m: nat, n: nat)
    requires m <= n
    ensures Fib(m) <= Fib(n)
    decreases n
  {
    if m >= n {
    } else {
      FibMonotone(m, n - 1);
    }
  }

  /** A balanced tree of height h has weight at least Fib(h + 2). */
  lemma {:induction false} WeightAtLeastFib(t: Tree)
    requires WellBuilt(t) && Balanced(t)
    ensures t.frequency >= Fib(Height(t) + 2)
  {
    if t.Leaf? {
    } else {
      WeightAtLeastFib(t.left);
      WeightAtLeastFib(t.right);
      var (tall, other) := if Height(t.left) >= Height(t.right) then (t.left, t.right) else (t.right, t.left);
      var h := Height(tall);
      assert Height(t) == h + 1;
      if tall.Node? {
        TallGrandchild(tall);
        assert other.frequency >= Fib(h + 1);
      } else {
        FibMonotone(2, Height(other) + 2);
      }
    }
  }

  /** The taller child of a balanced tree of height h weighs at least Fib(h + 1). */
  lemma {:induction false} TallGrandchild(t: Tree)
    requires t.Node? && WellBuilt(t) && Balanced(t)
    ensures HeaviestChild(t) >= Fib(Height(t) + 1)
  {
    WeightAtLeastFib(t.left);
    WeightAtLeastFib(t.right);
  }

  lemma {:induction false} RemoveBalanced(q: seq<Tree>, i: nat)
    requires i < |q| && BalancedQueue(q)
    ensures BalancedQueue(RemoveAt(q, i)) && Balanced(q[i])
    ensures forall k :: 0 <= k < |q| - 1 ==> HeaviestChild(RemoveAt(q, i)[k]) <= q[i].frequency
    ensures forall k :: 0 <= k < |q| - 1 ==> HeaviestChild(q[i]) <= RemoveAt(q, i)[k].frequency
  {
  }

  lemma {:induction false} MergeStepBalanced(tb: TieBreak, freqs: seq<nat>, pops: nat, q: seq<Tree>)
    requires |q| > 1 && TotalFrequency(q) < U32 && BalancedQueue(q)
    ensures BalancedQueue(MergeStep(tb, freqs, pops, q))
  {
    var i := PopIndex(tb, freqs, pops, q);
    var q1 := RemoveAt(q, i);
    var j := PopIndex(tb, freqs, pops + 1, q1);
    RemoveBalanced(q, i);
    RemoveTotal(q, i);
    RemoveTotal(q1, j);
    PushBalanced(q1, j, q[i]);
  }

  /** The parent of the two lightest elements fits beside what remains. */
  lemma {:induction false} PushBalanced(q1: seq<Tree>, j: nat, left: Tree)
    requires j < |q1| && BalancedQueue(q1) && IsMinimum(q1, j) && Balanced(left)
    requires left.frequency + q1[j].frequency < U32
    requires forall k :: 0 <= k < |q1| ==> HeaviestChild(q1[k]) <= left.frequency <= q1[k].frequency
    requires forall k :: 0 <= k < |q1| ==> HeaviestChild(left) <= q1[k].frequency
    ensures BalancedQueue(RemoveAt(q1, j) + [Parent(left, q1[j])])
  {
    var right := q1[j];
    var q2, p := RemoveAt(q1, j), Parent(left, right);
    RemoveBalanced(q1, j);
    ParentBalanced(left, right);
    forall k | 0 <= k < |q2|
      ensures HeaviestChild(q2[k]) <= p.frequency && HeaviestChild(p) <= q2[k].frequency
    {
      assert q2[k] == q1[if k < j then k else k + 1];
    }
    AppendBalanced(q2, p);
  }

  lemma {:induction false} ParentBalanced(left: Tree, right: Tree)
    requires Balanced(left) && Balanced(right) && left.frequency <= right.frequency
    requires HeaviestChild(left) <= right.frequency && HeaviestChild(right) <= left.frequency
    requires left.frequency + right.frequency < U32
    ensures var p := Parent(left, right);
            Balanced(p) && HeaviestChild(p) == right.frequency && left.frequency <= p.frequency
  {
  }

  lemma {:induction false} AppendBalanced(q: seq<Tree>, p: Tree)
    requires BalancedQueue(q) && Balanced(p)
    requires forall k :: 0 <= k < |q| ==> HeaviestChild(q[k]) <= p.frequency && HeaviestChild(p) <= q[k].frequency
    ensures BalancedQueue(q + [p])
  {
  }

  lemma {:induction false} MergeLoopBalanced(tb: TieBreak, freqs: seq<nat>, pops: nat, q: seq<Tree>)
    requires q != [] && WellBuiltQueue(q) && BalancedQueue(q)
    ensures Balanced(MergeLoop(tb, freqs, pops, q))
    decreases |q|
  {
    if |q| <= 1 {
    } else {
      MergeStepWellBuilt(tb, freqs, pops, q);
      MergeStepBalanced(tb, freqs, pops, q);
      MergeLoopBalanced(tb, freqs, pops + 2, MergeStep(tb, freqs, pops, q));
    }
  }

  /** Fib(48) is the first Fibonacci number above 2^32, by doubling. */
  lemma {:induction false} Fib48()
    ensures Fib(48) > U32
  {
    FibStep(0); FibStep(4); FibStep(8); FibStep(12); FibStep(16); FibStep(20);
    FibStep(24); FibStep(28); FibStep(32); FibStep(36); FibStep(40); FibStep(44);
  }

  lemma {:induction false} FibStep(n: nat)
    ensures Fib(n + 4) == 2 * Fib(n) + 3 * Fib(n + 1)
    ensures Fib(n + 5) == 3 * Fib(n) + 5 * Fib(n + 1)
  {
    assert Fib(n + 2) == Fib(n) + Fib(n + 1);
    assert Fib(n + 3) == Fib(n + 1) + Fib(n + 2);
    assert Fib(n + 4) == Fib(n + 2) + Fib(n + 3);
  }

  lemma {:induction false} LightIsShallow(t: Tree)
    requires WellBuilt(t) && Balanced(t) && t.frequency < U32
    ensures Fib(Height(t) + 2) <= t.frequency && Height(t) <= 45
  {
    WeightAtLeastFib(t);
    hide WellBuilt, Balanced;
    assert Fib(48) > U32 by { Fib48(); }
    hide Fib, Height;
    if Height(t) > 45 {
      FibMonotone(48, Height(t) + 2);
    }
  }

  lemma {:induction false} LoopWeight(tb: TieBreak, freqs: seq<nat>, pops: nat, q: seq<Tree>)
    requires q != [] && WellBuiltQueue(q)
    ensures var t := MergeLoop(tb, freqs, pops, q); WellBuilt(t) && t.frequency == TotalFrequency(q) && t.frequency < U32
  {
    MergeLoopWellBuilt(tb, freqs, pops, q);
    hide MergeLoop;
  }

  /** Depth bound: with a total below 2^32 no leaf of the tree is deeper than 45, whatever the
      queue does among equal frequencies. */
  lemma {:induction false} DepthBound(tb: TieBreak, freqs: seq<nat>, pops: nat, q: seq<Tree>)
    requires q != [] && WellBuiltQueue(q) && BalancedQueue(q)
    ensures var t := MergeLoop(tb, freqs, pops, q);
            Fib(Height(t) + 2) <= TotalFrequency(q) && Height(t) <= 45
  {
    hide *;
    LoopWeight(tb, freqs, pops, q);
    MergeLoopBalanced(tb, freqs, pops, q);
    LightIsShallow(MergeLoop(tb, freqs, pops, q));
  }
}
