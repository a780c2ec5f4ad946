/** Optimality of the merge loop, through Kraft sums. */
module HuffmanOptimal {
  // A list of code lengths ds is feasible at scale m when no length exceeds m and the lengths use at
  // most the 2^m leaves of the full tree of depth m.

  import opened Bytes
  import opened HuffmanTree

  /** Sum of 2^(m - d). */
  function Kraft(ds: seq<nat>, m: nat): nat
    requires forall i :: 0 <= i < |ds| ==> ds[i] <= m
  {
    if ds == [] then 0 else Kraft(ds[..|ds| - 1], m) + Pow2(m - ds[|ds| - 1])
  }

  ghost predicate Feasible(ds: seq<nat>, m: nat) {
    (forall i :: 0 <= i < |ds| ==> ds[i] <= m) && Kraft(ds, m) <= Pow2(m)
  }

  /** Sum of weight times length. */
  function Dot(ws: seq<nat>, ds: seq<nat>): nat
    requires |ws| == |ds|
  {
    if ws == [] then 0 else Dot(ws[..|ws| - 1], ds[..|ds| - 1]) + ws[|ws| - 1] * ds[|ds| - 1]
  }

  lemma {:induction false} KraftRemove(ds: seq<nat>, m: nat, i: nat)
    requires i < |ds| && forall k :: 0 <= k < |ds| ==> ds[k] <= m
    ensures Kraft(ds, m) == Pow2(m - ds[i]) + Kraft(RemoveAt(ds, i), m)
  {
    var n := |ds| - 1;
    if i < n {
      KraftRemove(ds[..n], m, i);
      assert RemoveAt(ds, i)[..n - 1] == RemoveAt(ds[..n], i);
    } else {
      assert RemoveAt(ds, i) == ds[..n];
    }
  }

  lemma {:induction false} DotRemove(ws: seq<nat>, ds: seq<nat>, i: nat)
    requires |ws| == |ds| && i < |ds|
    ensures Dot(ws, ds) == ws[i] * ds[i] + Dot(RemoveAt(ws, i), RemoveAt(ds, i))
  {
    var n := |ds| - 1;
    if i < n {
      DotRemove(ws[..n], ds[..n], i);
      assert RemoveAt(ds, i)[..n - 1] == RemoveAt(ds[..n], i);
      assert RemoveAt(ws, i)[..n - 1] == RemoveAt(ws[..n], i);
    } else {
      assert RemoveAt(ds, i) == ds[..n];
      assert RemoveAt(ws, i) == ws[..n];
    }
  }

  /** Changing the scale from m to big multiplies the sum by 2^(big - m). */
  lemma {:induction false} KraftRescale(ds: seq<nat>, m: nat, big: nat)
    requires m <= big && forall k :: 0 <= k < |ds| ==> ds[k] <= m
    ensures Kraft(ds, big) == Pow2(big - m) * Kraft(ds, m)
  {
    if ds == [] {
    } else {
      var pre, d := ds[..|ds| - 1], ds[|ds| - 1];
      assert d <= m;
      KraftRescale(pre, m, big);
      Pow2Add(big - m, m - d);
      assert big - m + (m - d) == big - d;
      Distribute(Pow2(big - m), Kraft(pre, m), Pow2(m - d));
    }
  }

  lemma {:induction false} Pow2Add(a: nat, b: nat)
    ensures Pow2(a + b) == Pow2(a) * Pow2(b)
  {
    if a == 0 {
    } else {
      Pow2Add(a - 1, b);
    }
  }

  // ----- exchange -----

  function LongestIndex(ds: seq<nat>): (p: nat)
    requires ds != []
    ensures p < |ds| && forall k :: 0 <= k < |ds| ==> ds[k] <= ds[p]
  {
    if |ds| == 1 then 0 else
      var p := LongestIndex(ds[..|ds| - 1]);
      if ds[p] >= ds[|ds| - 1] then p else |ds| - 1
  }

  /** Giving the longest length to a lightest weight never costs more. */
  lemma {:induction false} GiveLongest(ws: seq<nat>, ds: seq<nat>, m: nat, i: nat) returns (es: seq<nat>)
    requires |ws| == |ds| && i < |ds|
    requires forall k :: 0 <= k < |ws| ==> ws[i] <= ws[k]
    requires forall k :: 0 <= k < |ds| ==> ds[k] <= m
    ensures |es| == |ds| && forall k :: 0 <= k < |es| ==> es[k] <= es[i] <= m
    ensures es[i] in ds
    ensures Kraft(es, m) == Kraft(ds, m)
    ensures Dot(ws, es) <= Dot(ws, ds)
  {
    var p := LongestIndex(ds);
    es := ds[i := ds[p]][p := ds[i]];
    if p != i {
      KraftSwap(ds, es, m, i, p);
      DotSwap(ws, ds, es, i, p);
    } else {
      assert es == ds;
    }
  }

  lemma {:induction false} KraftUpdate(ds: seq<nat>, m: nat, i: nat, x: nat)
    requires i < |ds| && x <= m && forall k :: 0 <= k < |ds| ==> ds[k] <= m
    ensures Kraft(ds[i := x], m) + Pow2(m - ds[i]) == Kraft(ds, m) + Pow2(m - x)
  {
    var n := |ds| - 1;
    if i < n {
      KraftUpdate(ds[..n], m, i, x);
      assert ds[i := x][..n] == ds[..n][i := x];
    } else {
      assert ds[i := x][..n] == ds[..n];
    }
  }

  lemma {:induction false} DotUpdate(ws: seq<nat>, ds: seq<nat>, i: nat, x: nat)
    requires |ws| == |ds| && i < |ds|
    ensures Dot(ws, ds[i := x]) + ws[i] * ds[i] == Dot(ws, ds) + ws[i] * x
  {
    var n := |ds| - 1;
    if i < n {
      DotUpdate(ws[..n], ds[..n], i, x);
      assert ds[i := x][..n] == ds[..n][i := x];
    } else {
      assert ds[i := x][..n] == ds[..n];
    }
  }

  lemma {:induction false} KraftSwap(ds: seq<nat>, es: seq<nat>, m: nat, i: nat, p: nat)
    requires i < |ds| && p < |ds| && i != p && es == ds[i := ds[p]][p := ds[i]]
    requires forall k :: 0 <= k < |ds| ==> ds[k] <= m
    ensures Kraft(es, m) == Kraft(ds, m)
  {
    KraftUpdate(ds, m, i, ds[p]);
    KraftUpdate(ds[i := ds[p]], m, p, ds[i]);
  }

  lemma {:induction false} DotSwap(ws: seq<nat>, ds: seq<nat>, es: seq<nat>, i: nat, p: nat)
    requires |ws| == |ds| && i < |ds| && p < |ds| && i != p && es == ds[i := ds[p]][p := ds[i]]
    requires ws[i] <= ws[p] && ds[i] <= ds[p]
    ensures Dot(ws, es) <= Dot(ws, ds)
  {
    DotUpdate(ws, ds, i, ds[p]);
    DotUpdate(ws, ds[i := ds[p]], p, ds[i]);
    SwapCost(ws[i], ws[p], ds[i], ds[p]);
  }

  lemma {:induction false} SwapCost(w: nat, v: nat, d: nat, e: nat)
    requires w <= v && d <= e
    ensures w * e + v * d <= w * d + v * e
  {
    assert (v - w) * (e - d) >= 0;
    assert (v - w) * (e - d) == v * e - v * d - w * e + w * d;
  }

  // ----- contraction -----

  /** If a list with one more, longer, length is feasible, then the rest, all at most m, leave room
      for one more length m. */
  lemma {:induction false} RoomForSibling(rest: seq<nat>, longest: nat, m: nat, big: nat)
    requires m <= longest <= big
    requires forall k :: 0 <= k < |rest| ==> rest[k] <= m
    requires Pow2(big - longest) + Kraft(rest, big) <= Pow2(big)
    ensures Kraft(rest, m) + 1 <= Pow2(m)
  {
    KraftRescale(rest, m, big);
    Pow2Add(big - m, m);
    assert big - m + m == big;
    StrictlyLess(Pow2(big - m), Kraft(rest, m), Pow2(m));
  }

  lemma {:induction false} StrictlyLess(s: nat, a: nat, b: nat)
    requires s * a < s * b
    ensures a < b
  {
    if a >= b {
      MulMonotone(b, a, s);
    }
  }

  /** The two lightest weights, at i and then at j of what remains, can be made siblings and
      merged: feasible lengths for ws give feasible lengths for the merged weights at a cost lower
      by at least ws[i] + ws[j]. */
  lemma {:induction false} Contract(ws: seq<nat>, ds: seq<nat>, m: nat, i: nat, j: nat) returns (es: seq<nat>, m': nat)
    requires |ws| == |ds| && i < |ws| && j < |ws| - 1 && Feasible(ds, m)
    requires forall k :: 0 <= k < |ws| ==> ws[i] <= ws[k]
    requires forall k :: 0 <= k < |ws| - 1 ==> RemoveAt(ws, i)[j] <= RemoveAt(ws, i)[k]
    ensures |es| == |ds| - 1 && Feasible(es, m')
    ensures var ws1 := RemoveAt(ws, i);
            Dot(RemoveAt(ws1, j) + [ws[i] + ws1[j]], es) + ws[i] + ws1[j] <= Dot(ws, ds)
  {
    var ds0 := GiveLongest(ws, ds, m, i);
    var ws1, ds1 := RemoveAt(ws, i), RemoveAt(ds0, i);
    var ds2 := GiveLongest(ws1, ds1, m, j);
    m' := ds2[j];
    var d := MergedLength(ds0, ds1, ds2, m, i, j);
    es := RemoveAt(ds2, j) + [d];
    MergedCost(ws, ds0, i, ws1, ds1, ds2, j, RemoveAt(ws1, j), RemoveAt(ds2, j));
  }

  /** The length left for the merged pair, one less than the siblings' common length. */
  lemma {:induction false} MergedLength(ds0: seq<nat>, ds1: seq<nat>, ds2: seq<nat>, m: nat, i: nat, j: nat) returns (d: nat)
    requires i < |ds0| && j < |ds0| - 1 && ds1 == RemoveAt(ds0, i) && |ds2| == |ds1|
    requires forall k :: 0 <= k < |ds0| ==> ds0[k] <= ds0[i] <= m
    requires forall k :: 0 <= k < |ds2| ==> ds2[k] <= ds2[j] <= m
    requires ds2[j] in ds1 && Kraft(ds2, m) == Kraft(ds1, m) && Kraft(ds0, m) <= Pow2(m)
    ensures d + 1 == ds2[j] <= ds0[i] && Feasible(RemoveAt(ds2, j) + [d], ds2[j])
  {
    var n := ds2[j];
    KraftRemove(ds0, m, i);
    RoomForSibling(ds2, ds0[i], n, m);
    KraftRemove(ds2, n, j);
    d := n - 1;
    var rest := RemoveAt(ds2, j);
    assert (rest + [d])[..|rest|] == rest;
  }

  /** The arithmetic of MergedCost: a keeps length big, b has length n, the merged pair n - 1. */
  lemma {:induction false} CombineCosts(a: nat, b: nat, n: nat, big: nat, whole: nat, rest: nat, swapped: nat, others: nat, merged: nat)
    requires 0 < n <= big && swapped <= rest
    requires whole == a * big + rest && swapped == b * n + others && merged == others + (a + b) * (n - 1)
    ensures merged + a + b <= whole
  {
    MulMonotone(n, big, a);
    assert (a + b) * (n - 1) == a * n + b * n - a - b;
  }

  lemma {:induction false} MergedCost(ws: seq<nat>, ds0: seq<nat>, i: nat, ws1: seq<nat>, ds1: seq<nat>, ds2: seq<nat>, j: nat,
                   wr: seq<nat>, dr: seq<nat>)
    requires |ws| == |ds0| && i < |ws| && ws1 == RemoveAt(ws, i) && ds1 == RemoveAt(ds0, i)
    requires |ws1| == |ds2| && j < |ds2| && wr == RemoveAt(ws1, j) && dr == RemoveAt(ds2, j)
    requires 0 < ds2[j] <= ds0[i] && Dot(ws1, ds2) <= Dot(ws1, ds1)
    ensures Dot(wr + [ws[i] + ws1[j]], dr + [ds2[j] - 1]) + ws[i] + ws1[j] <= Dot(ws, ds0)
  {
    var a, b, n := ws[i], ws1[j], ds2[j];
    DotRemove(ws, ds0, i);
    DotRemove(ws1, ds2, j);
    DotAppend(wr, dr, a + b, n - 1);
    CombineCosts(a, b, n, ds0[i], Dot(ws, ds0), Dot(ws1, ds1), Dot(ws1, ds2), Dot(wr, dr),
                 Dot(wr + [a + b], dr + [n - 1]));
  }

  lemma {:induction false} DotAppend(ws: seq<nat>, ds: seq<nat>, w: nat, d: nat)
    requires |ws| == |ds|
    ensures Dot(ws + [w], ds + [d]) == Dot(ws, ds) + w * d
  {
    assert (ws + [w])[..|ws|] == ws && (ds + [d])[..|ds|] == ds;
  }

  // ----- the merge loop is optimal -----

  /** Total coded length of a tree: every inner node adds its weight once for each level below it. */
  function Cost(t: Tree): nat {
    match t
    case Leaf(_, _) => 0
    case Node(f, l, r) => f + Cost(l) + Cost(r)
  }

  function TotalCost(q: seq<Tree>): nat {
    if q == [] then 0 else TotalCost(q[..|q| - 1]) + Cost(q[|q| - 1])
  }

  function Weights(q: seq<Tree>): (ws: seq<nat>)
    ensures |ws| == |q|
    ensures forall k :: 0 <= k < |q| ==> ws[k] == q[k].frequency
  {
    seq(|q|, k requires 0 <= k < |q| => q[k].frequency)
  }

  lemma {:induction false} CostRemove(q: seq<Tree>, i: nat)
    requires i < |q|
    ensures TotalCost(q) == Cost(q[i]) + TotalCost(RemoveAt(q, i))
  {
    var n := |q| - 1;
    if i < n {
      CostRemove(q[..n], i);
      assert RemoveAt(q, i)[..n - 1] == RemoveAt(q[..n], i);
    } else {
      assert RemoveAt(q, i) == q[..n];
    }
  }

  /** Two pops and a push, with the pair's weight added to the cost. */
  lemma {:induction false} StepCost(q: seq<Tree>, q1: seq<Tree>, q2: seq<Tree>, i: nat, j: nat, p: Tree)
    requires i < |q| && q1 == RemoveAt(q, i)
    requires j < |q1| && q2 == RemoveAt(q1, j)
    requires p == Parent(q[i], q1[j]) && TotalFrequency(q) < U32
    ensures p.frequency == q[i].frequency + q1[j].frequency
    ensures TotalCost(q2 + [p]) == TotalCost(q) + p.frequency
  {
    RemoveTotal(q, i);
    RemoveTotal(q1, j);
    CostRemove(q, i);
    CostRemove(q1, j);
    CostAppend(q2, p);
  }

  lemma {:induction false} CostAppend(q: seq<Tree>, t: Tree)
    ensures TotalCost(q + [t]) == TotalCost(q) + Cost(t)
  {
    assert (q + [t])[..|q|] == q;
  }

  lemma {:induction false} WeightsRemove(q: seq<Tree>, i: nat)
    requires i < |q|
    ensures Weights(RemoveAt(q, i)) == RemoveAt(Weights(q), i)
  {
  }

  lemma {:induction false} WeightsAppend(q: seq<Tree>, t: Tree)
    ensures Weights(q + [t]) == Weights(q) + [t.frequency]
  {
  }

  lemma {:induction false} StepWeights(q: seq<Tree>, i: nat, j: nat, p: Tree)
    requires i < |q| && j < |q| - 1
    ensures Weights(RemoveAt(RemoveAt(q, i), j) + [p]) == RemoveAt(RemoveAt(Weights(q), i), j) + [p.frequency]
  {
    WeightsRemove(q, i);
    WeightsRemove(RemoveAt(q, i), j);
    WeightsAppend(RemoveAt(RemoveAt(q, i), j), p);
  }

  lemma {:induction false} ContractQueue(q: seq<Tree>, i: nat, q1: seq<Tree>, j: nat, ds: seq<nat>, m: nat)
    returns (es: seq<nat>, m': nat)
    requires |q| == |ds| && IsMinimum(q, i) && q1 == RemoveAt(q, i) && IsMinimum(q1, j) && Feasible(ds, m)
    ensures |es| == |q| - 1 && Feasible(es, m')
    ensures var f := q[i].frequency + q1[j].frequency;
            Dot(RemoveAt(RemoveAt(Weights(q), i), j) + [f], es) + f <= Dot(Weights(q), ds)
  {
    WeightsRemove(q, i);
    MinimumWeight(q, i);
    MinimumWeight(q1, j);
    assert Weights(q)[i] == q[i].frequency && Weights(q1)[j] == q1[j].frequency;
    hide Dot, RemoveAt, Feasible, IsMinimum, Weights;
    es, m' := Contract(Weights(q), ds, m, i, j);
  }

  lemma {:induction false} MinimumWeight(q: seq<Tree>, i: nat)
    requires IsMinimum(q, i)
    ensures i < |Weights(q)| == |q|
    ensures forall k :: 0 <= k < |q| ==> Weights(q)[i] <= Weights(q)[k]
  {
  }

  /** Feasible lengths for a queue give feasible lengths for the queue after one merge, at a cost
      lower by at least what the merge adds. */
  lemma {:induction false} StepLengths(q: seq<Tree>, i: nat, q1: seq<Tree>, j: nat, r: seq<Tree>, ds: seq<nat>, m: nat)
    returns (es: seq<nat>, m': nat)
    requires |q| == |ds| && IsMinimum(q, i) && q1 == RemoveAt(q, i)
    requires IsMinimum(q1, j) && r == RemoveAt(q1, j) + [Parent(q[i], q1[j])]
    requires TotalFrequency(q) < U32 && Feasible(ds, m)
    ensures |es| == |r| && Feasible(es, m') && TotalCost(r) + Dot(Weights(r), es) <= TotalCost(q) + Dot(Weights(q), ds)
  {
    es, m' := ContractQueue(q, i, q1, j, ds, m);
    hide Feasible, IsMinimum, Weights, Dot, RemoveAt, TotalCost;
    var p := Parent(q[i], q1[j]);
    StepCost(q, q1, RemoveAt(q1, j), i, j, p);
    StepWeights(q, i, j, p);
  }

  /** For every feasible assignment of lengths to the queued weights, the merge loop adds no more
      than its cost, whatever the queue does among equal frequencies. */
  lemma {:induction false} MergeLoopOptimal(tb: TieBreak, freqs: seq<nat>, pops: nat, q: seq<Tree>,
                                            ds: seq<nat>, m: nat)
    requires q != [] && WellBuiltQueue(q)
    requires |ds| == |q| && Feasible(ds, m)
    ensures Cost(MergeLoop(tb, freqs, pops, q)) <= TotalCost(q) + Dot(Weights(q), ds)
    decreases |q|
  {
    if |q| == 1 {
      assert q[..0] == [];
    } else {
      var i := PopIndex(tb, freqs, pops, q);
      var q1 := RemoveAt(q, i);
      var j := PopIndex(tb, freqs, pops + 1, q1);
      var r := MergeStep(tb, freqs, pops, q);
      var es, m' := StepLengths(q, i, q1, j, r, ds, m);
      MergeStepWellBuilt(tb, freqs, pops, q);
      MergeLoopOptimal(tb, freqs, pops + 2, r, es, m');
    }
  }
}
