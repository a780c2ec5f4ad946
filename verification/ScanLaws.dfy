/** Consequences of the scan rule: unique ordered paths,
    and how results change with the filter. */
module ScanLaws {
  import opened Bytes
  import opened FileRecords
  import opened Filter
  import opened Scanner

  // ----- monotonicity -----

  /** a is what remains of b after leaving some elements out. */
  ghost predicate SubSequence(a: seq<FileInfo>, b: seq<FileInfo>) {
    a == [] || (b != [] && ((a[0] == b[0] && SubSequence(a[1..], b[1..])) || SubSequence(a, b[1..])))
  }

  lemma {:induction false} PickSubSequence(f: FilterOption, g: FilterOption, vs: seq<Visit>)
    requires forall v :: Selected(f, v) ==> Selected(g, v)
    ensures SubSequence(Pick(f, vs), Pick(g, vs))
  {
    hide Selected;
    if vs == [] {
    } else {
      PickSubSequence(f, g, vs[1..]);
      ConsSubSequence(Selected(f, vs[0]), Selected(g, vs[0]), vs[0].info, Pick(f, vs[1..]), Pick(g, vs[1..]));
    }
  }

  lemma {:induction false} ConsSubSequence(inA: bool, inB: bool, x: FileInfo, a: seq<FileInfo>, b: seq<FileInfo>)
    requires SubSequence(a, b) && (inA ==> inB)
    ensures SubSequence((if inA then [x] else []) + a, (if inB then [x] else []) + b)
  {
    assert ([x] + a)[1..] == a && ([x] + b)[1..] == b;
    assert [] + a == a && [] + b == b;
  }

  /** A stricter filter: whatever the second excludes the first excludes, whatever the first matches
      the second matches. */
  ghost predicate Stricter(a: seq<Rule>, b: seq<Rule>) {
    forall info :: (Excluded(b, info) ==> Excluded(a, info)) && (Matches(a, info) ==> Matches(b, info))
  }

  lemma {:induction false} StricterSelects(a: seq<Rule>, b: seq<Rule>, v: Visit)
    requires Stricter(a, b) && Selected(Some(a), v)
    ensures Selected(Some(b), v)
  {
    hide Excluded, Matches;
    assert forall i :: 0 <= i < |v.ancestors| && Excluded(b, v.ancestors[i]) ==> Excluded(a, v.ancestors[i]);
    assert forall i :: 0 <= i < |v.ancestors| && Matches(a, v.ancestors[i]) ==> Matches(b, v.ancestors[i]);
  }

  lemma {:induction false} StricterScan(a: seq<Rule>, b: seq<Rule>, es: seq<Entry>)
    requires Stricter(a, b)
    ensures SubSequence(Scan(Some(a), es), Scan(Some(b), es))
  {
    ScanIsPick(Some(a), es);
    ScanIsPick(Some(b), es);
    forall v | Selected(Some(a), v) ensures Selected(Some(b), v) {
      StricterSelects(a, b, v);
    }
    PickSubSequence(Some(a), Some(b), Visits(es, [], []));
  }

  /** Adding an exclude rule never adds or reorders anything. */
  lemma {:induction false} ExcludeShrinksScan(rules: seq<Rule>, r: Rule, es: seq<Entry>)
    requires r.action.Exclude?
    ensures SubSequence(Scan(Some(rules + [r]), es), Scan(Some(rules), es))
  {
    forall info
      ensures (Excluded(rules, info) ==> Excluded(rules + [r], info)) && (Matches(rules + [r], info) ==> Matches(rules, info))
    {
      AddingExclude(rules, r, info);
    }
    StricterScan(rules + [r], rules, es);
  }

  /** Adding an include rule to a dimension that has one never removes or reorders anything. */
  lemma {:induction false} IncludeGrowsScan(rules: seq<Rule>, r: Rule, es: seq<Entry>)
    requires r.action.Include? && Restricts(rules, r.dim)
    ensures SubSequence(Scan(Some(rules), es), Scan(Some(rules + [r]), es))
  {
    forall info
      ensures (Excluded(rules + [r], info) ==> Excluded(rules, info)) && (Matches(rules, info) ==> Matches(rules + [r], info))
    {
      AddingInclude(rules, r, info);
    }
    StricterScan(rules, rules + [r], es);
  }

  /** Rule order does not matter to a scan. */
  lemma {:induction false} ScanIgnoresRuleOrder(a: seq<Rule>, b: seq<Rule>, es: seq<Entry>)
    requires forall r :: r in a <==> r in b
    ensures Scan(Some(a), es) == Scan(Some(b), es)
  {
    ScanIsPick(Some(a), es);
    ScanIsPick(Some(b), es);
    forall v ensures Selected(Some(a), v) == Selected(Some(b), v) {
      forall info ensures Matches(a, info) == Matches(b, info) && Excluded(a, info) == Excluded(b, info) {
        OrderDoesNotMatter(a, b, info);
      }
      if Selected(Some(a), v) { StricterSelects(a, b, v); }
      if Selected(Some(b), v) { StricterSelects(b, a, v); }
    }
    SamePick(Some(a), Some(b), Visits(es, [], []));
  }

  lemma {:induction false} SamePick(f: FilterOption, g: FilterOption, vs: seq<Visit>)
    requires forall v :: Selected(f, v) == Selected(g, v)
    ensures Pick(f, vs) == Pick(g, vs)
  {
    hide Selected;
    if vs == [] {
    } else {
      SamePick(f, g, vs[1..]);
    }
  }

  // ----- paths -----

  /** Names as directories hold them: not empty, no slash, different within a directory. */
  ghost predicate GoodName(name: seq<byte>) {
    name != [] && 47 !in name
  }

  ghost predicate GoodEntry(e: Entry)
    decreases e, 1
  {
    GoodName(e.name) && (e.Found? ==> GoodTree(e.children))
  }

  ghost predicate GoodTree(es: seq<Entry>)
    decreases es, 0
  {
    es == [] || (GoodEntry(es[0]) && GoodTree(es[1..]) && forall k :: 1 <= k < |es| ==> es[k].name != es[0].name)
  }

  /** p is the path of the directory entry d or of something below it. */
  ghost predicate AtOrBelow(p: seq<byte>, d: seq<byte>) {
    p == d || (|p| > |d| && p[..|d|] == d && p[|d|] == 47)
  }

  lemma {:induction false} BelowTransitive(p: seq<byte>, d: seq<byte>, c: seq<byte>)
    requires AtOrBelow(p, d) && AtOrBelow(d, c)
    ensures AtOrBelow(p, c)
  {
    if p != d && d != c {
      assert p[..|c|] == p[..|d|][..|c|];
      assert p[|c|] == p[..|d|][|c|];
    }
  }

  lemma {:induction false} NameBelow(rel: seq<byte>, name: seq<byte>)
    requires rel != []
    ensures AtOrBelow(EntryPath(rel, name), rel)
  {
    var p := rel + [47] + name;
    assert p[..|rel|] == rel;
  }

  /** Paths below two different names of one directory are not comparable. */
  lemma {:induction false} SiblingsApart(rel: seq<byte>, m: seq<byte>, n: seq<byte>, p: seq<byte>)
    requires GoodName(m) && GoodName(n) && AtOrBelow(p, EntryPath(rel, m)) && AtOrBelow(p, EntryPath(rel, n))
    ensures m == n
  {
    var a, b := EntryPath(rel, m), EntryPath(rel, n);
    var start := if rel == [] then 0 else |rel| + 1;
    assert a[start..] == m && b[start..] == n && |a| == start + |m| && |b| == start + |n|;
    assert p[..|a|] == a && p[..|b|] == b;
    NameAt(p, a, start, m);
    NameAt(p, b, start, n);
  }

  lemma {:induction false} NameAt(p: seq<byte>, a: seq<byte>, start: nat, m: seq<byte>)
    requires |a| == start + |m| <= |p| && p[..|a|] == a && a[start..] == m
    ensures forall i :: 0 <= i < |m| ==> m[i] == p[start + i]
  {
    forall i | 0 <= i < |m| ensures m[i] == p[start + i] {
      assert p[..|a|][start + i] == a[start..][i];
    }
  }

  /** No record comes after one whose path it is at or above: paths are unique and a directory comes
      before everything in it. */
  ghost predicate InTreeOrder(vs: seq<Visit>) {
    forall j, k :: 0 <= j < k < |vs| ==> !AtOrBelow(vs[j].info.relativePath, vs[k].info.relativePath)
  }

  lemma {:induction false} VisitsBelowPaths(e: Entry, rel: seq<byte>, ancestors: seq<FileInfo>, k: nat)
    requires GoodEntry(e) && k < |VisitsBelow(e, rel, ancestors)|
    ensures AtOrBelow(VisitsBelow(e, rel, ancestors)[k].info.relativePath, EntryPath(rel, e.name))
    decreases e, 1
  {
    if k > 0 {
      var path := EntryPath(rel, e.name);
      var n := VisitsPaths(e.children, path, ancestors + [Prelim(e, rel)], k - 1);
      NameBelow(path, e.children[n].name);
      BelowTransitive(VisitsBelow(e, rel, ancestors)[k].info.relativePath, EntryPath(path, e.children[n].name), path);
    }
  }

  /** Each visit belongs to one of the entries. */
  lemma {:induction false} VisitsPaths(es: seq<Entry>, rel: seq<byte>, ancestors: seq<FileInfo>, k: nat) returns (n: nat)
    requires GoodTree(es) && k < |Visits(es, rel, ancestors)|
    ensures n < |es| && GoodName(es[n].name)
    ensures AtOrBelow(Visits(es, rel, ancestors)[k].info.relativePath, EntryPath(rel, es[n].name))
    decreases es, 0
  {
    var first := VisitsBelow(es[0], rel, ancestors);
    if k < |first| {
      VisitsBelowPaths(es[0], rel, ancestors, k);
      n := 0;
    } else {
      var m := VisitsPaths(es[1..], rel, ancestors, k - |first|);
      n := m + 1;
    }
  }

  lemma {:induction false} EntryInOrder(e: Entry, rel: seq<byte>, ancestors: seq<FileInfo>)
    requires GoodEntry(e)
    ensures InTreeOrder(VisitsBelow(e, rel, ancestors))
    decreases e, 1
  {
    if e.Found? && e.attributes.IsDirectory() && e.opens {
      var path, chain := EntryPath(rel, e.name), ancestors + [Prelim(e, rel)];
      var below := Visits(e.children, path, chain);
      TreeInOrder(e.children, path, chain);
      forall k | 0 <= k < |below| ensures !AtOrBelow(path, below[k].info.relativePath) {
        var n := VisitsPaths(e.children, path, chain, k);
        assert |EntryPath(path, e.children[n].name)| > |path|;
      }
      assert VisitsBelow(e, rel, ancestors) == [Visit(Full(e, rel), Prelim(e, rel), ancestors)] + below;
    }
  }

  lemma {:induction false} TreeInOrder(es: seq<Entry>, rel: seq<byte>, ancestors: seq<FileInfo>)
    requires GoodTree(es)
    ensures InTreeOrder(Visits(es, rel, ancestors))
    decreases es, 0
  {
    if es == [] {
    } else {
      var first, rest := VisitsBelow(es[0], rel, ancestors), Visits(es[1..], rel, ancestors);
      EntryInOrder(es[0], rel, ancestors);
      TreeInOrder(es[1..], rel, ancestors);
      forall j, k | 0 <= j < |first| && 0 <= k < |rest|
        ensures !AtOrBelow(first[j].info.relativePath, rest[k].info.relativePath)
      {
        BranchesApart(es, rel, ancestors, j, k);
      }
      hide AtOrBelow, VisitsBelow, Visits;
      ConcatInOrder(first, rest);
    }
  }

  lemma {:induction false} BranchesApart(es: seq<Entry>, rel: seq<byte>, ancestors: seq<FileInfo>, j: nat, k: nat)
    requires es != [] && GoodTree(es)
    requires j < |VisitsBelow(es[0], rel, ancestors)| && k < |Visits(es[1..], rel, ancestors)|
    ensures !AtOrBelow(VisitsBelow(es[0], rel, ancestors)[j].info.relativePath, Visits(es[1..], rel, ancestors)[k].info.relativePath)
  {
    var p := VisitsBelow(es[0], rel, ancestors)[j].info.relativePath;
    var q := Visits(es[1..], rel, ancestors)[k].info.relativePath;
    VisitsBelowPaths(es[0], rel, ancestors, j);
    var n := VisitsPaths(es[1..], rel, ancestors, k);
    var other := es[1..][n].name;
    assert other == es[n + 1].name;
    if AtOrBelow(p, q) {
      BelowTransitive(p, q, EntryPath(rel, other));
      SiblingsApart(rel, es[0].name, other, p);
    }
  }

  lemma {:induction false} ConcatInOrder(a: seq<Visit>, b: seq<Visit>)
    requires InTreeOrder(a) && InTreeOrder(b)
    requires forall j, k :: 0 <= j < |a| && 0 <= k < |b| ==> !AtOrBelow(a[j].info.relativePath, b[k].info.relativePath)
    ensures InTreeOrder(a + b)
  {
    hide AtOrBelow;
    var c := a + b;
    forall j, k | 0 <= j < k < |c| ensures !AtOrBelow(c[j].info.relativePath, c[k].info.relativePath) {
      assert j < |a| ==> c[j] == a[j];
      assert j >= |a| ==> c[j] == b[j - |a|];
      assert k < |a| ==> c[k] == a[k];
      assert k >= |a| ==> c[k] == b[k - |a|];
    }
  }

  ghost predicate OrderedPaths(fs: seq<FileInfo>) {
    forall j, k :: 0 <= j < k < |fs| ==> !AtOrBelow(fs[j].relativePath, fs[k].relativePath)
  }

  lemma {:induction false} PickMember(f: FilterOption, vs: seq<Visit>, k: nat) returns (n: nat)
    requires k < |Pick(f, vs)|
    ensures n < |vs| && Pick(f, vs)[k] == vs[n].info
  {
    hide Selected;
    var taken := if Selected(f, vs[0]) then 1 else 0;
    if k < taken {
      n := 0;
    } else {
      var m := PickMember(f, vs[1..], k - taken);
      n := m + 1;
    }
  }

  lemma {:induction false} PickInOrder(f: FilterOption, vs: seq<Visit>)
    requires InTreeOrder(vs)
    ensures OrderedPaths(Pick(f, vs))
  {
    hide Selected, AtOrBelow;
    if vs == [] {
    } else {
      var rest := vs[1..];
      assert forall j :: 0 <= j < |rest| ==> rest[j] == vs[j + 1];
      PickInOrder(f, rest);
      var picked := Pick(f, rest);
      forall k | 0 <= k < |picked| ensures !AtOrBelow(vs[0].info.relativePath, picked[k].relativePath) {
        var n := PickMember(f, rest, k);
        assert rest[n] == vs[n + 1];
      }
    }
  }

  /** Scan order: with any filter, every path occurs once and each directory comes before everything
      below it. */
  lemma {:induction false} ScanInOrder(f: FilterOption, es: seq<Entry>)
    requires GoodTree(es)
    ensures OrderedPaths(Scan(f, es))
  {
    ScanIsPick(f, es);
    TreeInOrder(es, [], []);
    PickInOrder(f, Visits(es, [], []));
  }

  lemma {:induction false} OrderedIsDistinct(fs: seq<FileInfo>)
    requires OrderedPaths(fs)
    ensures forall j, k :: 0 <= j < k < |fs| ==> fs[j].relativePath != fs[k].relativePath
  {
  }
}
