/** A scan told by the tree alone: which paths it returns, and what is in their records. */
module ScanTree {
  import opened Bytes
  import opened FileRecords
  import opened Filter
  import opened Scanner
  import opened ScanLaws
  import opened Paths

  // ----- the tree by names -----

  function EntryNamed(es: seq<Entry>, name: seq<byte>): (r: Option<Entry>)
    ensures r.Some? ==> r.value in es && r.value.name == name
  {
    if es == [] then None else if es[0].name == name then Some(es[0]) else EntryNamed(es[1..], name)
  }

  predicate Enters(e: Entry) {
    e.Found? && e.attributes.IsDirectory() && e.opens
  }

  /** The names lead, through directories that can be opened, to an entry that can be read. */
  predicate Reaches(es: seq<Entry>, names: Path)
    decreases |names|
  {
    && names != [] && EntryNamed(es, names[0]).Some?
    && var e := EntryNamed(es, names[0]).value;
       if |names| == 1 then e.Found? else Enters(e) && Reaches(e.children, names[1..])
  }

  function EntryAt(es: seq<Entry>, names: Path): (e: Entry)
    requires Reaches(es, names)
    ensures e.Found?
    decreases |names|
  {
    var e := EntryNamed(es, names[0]).value;
    if |names| == 1 then e else EntryAt(e.children, names[1..])
  }

  /** The names with a slash between them. */
  function PathOf(names: Path): seq<byte> {
    if names == [] then [] else if |names| == 1 then names[0] else PathOf(names[..|names| - 1]) + [47] + names[|names| - 1]
  }

  /** The record of the entry that the names lead to. */
  function RecordAt(es: seq<Entry>, names: Path): FileInfo
    requires Reaches(es, names)
  {
    EntryAt(es, names).attributes.(relativePath := PathOf(names))
  }

  /** What a filter sees of it: path, type and times, not what has to be read in. */
  function ViewAt(es: seq<Entry>, names: Path): FileInfo
    requires Reaches(es, names)
  {
    RecordAt(es, names).(content := [], symlinkTarget := [], deviceId := 0)
  }

  /** Nothing below an excluded directory; a directory if it or one above it matches; anything else if besides
      it is not excluded itself. */
  ghost predicate Chosen(f: FilterOption, es: seq<Entry>, names: Path)
    requires Reaches(es, names)
  {
    f.Some? ==>
      && (forall i :: 0 < i < |names| ==> Reaches(es, names[..i]) && !Excluded(f.value, ViewAt(es, names[..i])))
      && (exists i :: 0 < i <= |names| && Reaches(es, names[..i]) && Matches(f.value, ViewAt(es, names[..i])))
      && (ViewAt(es, names).IsDirectory() || !Excluded(f.value, ViewAt(es, names)))
  }

  // ----- visits by names -----

  /** The visit that the walk makes where the names lead. */
  function VisitAt(es: seq<Entry>, rel: seq<byte>, ancestors: seq<FileInfo>, names: Path): Visit
    requires Reaches(es, names)
    decreases |names|
  {
    var e := EntryNamed(es, names[0]).value;
    if |names| == 1 then Visit(Full(e, rel), Prelim(e, rel), ancestors)
    else VisitAt(e.children, EntryPath(rel, e.name), ancestors + [Prelim(e, rel)], names[1..])
  }

  lemma {:induction false} TreeMember(es: seq<Entry>, e: Entry)
    requires GoodTree(es) && e in es
    ensures GoodEntry(e)
    decreases |es|
  {
    if e != es[0] {
      assert es == [es[0]] + es[1..];
      TreeMember(es[1..], e);
    }
  }

  /** A name of the rest of a directory is not that of its first entry. */
  lemma {:induction false} NamedInRest(es: seq<Entry>, name: seq<byte>)
    requires es != [] && GoodTree(es) && EntryNamed(es[1..], name).Some?
    ensures EntryNamed(es, name) == EntryNamed(es[1..], name)
  {
    var e := EntryNamed(es[1..], name).value;
    var k :| 0 <= k < |es[1..]| && es[1..][k] == e;
    assert es[k + 1].name == name;
  }

  lemma {:induction false} VisitIn(es: seq<Entry>, rel: seq<byte>, ancestors: seq<FileInfo>, k: nat) returns (names: Path)
    requires GoodTree(es) && k < |Visits(es, rel, ancestors)|
    ensures Reaches(es, names) && Visits(es, rel, ancestors)[k] == VisitAt(es, rel, ancestors, names)
    decreases es, 0
  {
    var first := VisitsBelow(es[0], rel, ancestors);
    hide Full, Prelim, EntryPath;
    if k < |first| {
      hide Visits;
      names := VisitBelowIn(es[0], rel, ancestors, k);
      assert EntryNamed(es, es[0].name) == Some(es[0]);
      assert EntryNamed([es[0]], names[0]) == EntryNamed(es, names[0]);
    } else {
      names := VisitIn(es[1..], rel, ancestors, k - |first|);
      NamedInRest(es, names[0]);
    }
  }

  lemma {:induction false} VisitBelowIn(e: Entry, rel: seq<byte>, ancestors: seq<FileInfo>, k: nat) returns (names: Path)
    requires GoodEntry(e) && k < |VisitsBelow(e, rel, ancestors)|
    ensures Reaches([e], names) && names[0] == e.name
    ensures VisitsBelow(e, rel, ancestors)[k] == VisitAt([e], rel, ancestors, names)
    decreases e, 1
  {
    hide Full, Prelim, EntryPath;
    assert EntryNamed([e], e.name) == Some(e);
    if k == 0 {
      names := [e.name];
    } else {
      var rest := VisitIn(e.children, EntryPath(rel, e.name), ancestors + [Prelim(e, rel)], k - 1);
      names := [e.name] + rest;
      assert names[1..] == rest;
    }
  }

  lemma {:induction false} VisitOf(es: seq<Entry>, rel: seq<byte>, ancestors: seq<FileInfo>, names: Path) returns (k: nat)
    requires GoodTree(es) && Reaches(es, names)
    ensures k < |Visits(es, rel, ancestors)| && Visits(es, rel, ancestors)[k] == VisitAt(es, rel, ancestors, names)
    decreases es, 0
  {
    var first := VisitsBelow(es[0], rel, ancestors);
    hide Full, Prelim, EntryPath;
    if es[0].name == names[0] {
      hide Visits;
      k := VisitBelowOf(es[0], rel, ancestors, names);
      assert EntryNamed([es[0]], names[0]) == EntryNamed(es, names[0]);
    } else {
      k := VisitOf(es[1..], rel, ancestors, names);
      k := k + |first|;
    }
  }

  lemma {:induction false} VisitBelowOf(e: Entry, rel: seq<byte>, ancestors: seq<FileInfo>, names: Path) returns (k: nat)
    requires GoodEntry(e) && names != [] && names[0] == e.name
    requires if |names| == 1 then e.Found? else Enters(e) && Reaches(e.children, names[1..])
    ensures Reaches([e], names) && k < |VisitsBelow(e, rel, ancestors)|
    ensures VisitsBelow(e, rel, ancestors)[k] == VisitAt([e], rel, ancestors, names)
    decreases e, 1
  {
    hide Full, Prelim, EntryPath;
    assert EntryNamed([e], e.name) == Some(e);
    if |names| == 1 {
      k := 0;
    } else {
      k := VisitOf(e.children, EntryPath(rel, e.name), ancestors + [Prelim(e, rel)], names[1..]);
      k := k + 1;
    }
  }

  // ----- what a visit holds -----

  /** The path that the walk builds. */
  function Joined(rel: seq<byte>, names: Path): seq<byte>
    decreases |names|
  {
    if names == [] then rel else Joined(EntryPath(rel, names[0]), names[1..])
  }

  function Cleared(info: FileInfo): FileInfo {
    info.(content := [], symlinkTarget := [], deviceId := 0)
  }

  lemma {:induction false} VisitHolds(es: seq<Entry>, rel: seq<byte>, ancestors: seq<FileInfo>, names: Path)
    requires Reaches(es, names)
    ensures var v := VisitAt(es, rel, ancestors, names);
            && v.info == EntryAt(es, names).attributes.(relativePath := Joined(rel, names)) && v.prelim == Cleared(v.info)
            && |v.ancestors| == |ancestors| + |names| - 1 && v.ancestors[..|ancestors|] == ancestors
    decreases |names|
  {
    hide EntryPath, Enters;
    var e := EntryNamed(es, names[0]).value;
    assert e.Found? by { EntersFound(e); }
    if |names| == 1 {
      assert names[1..] == [];
      assert Joined(rel, names) == EntryPath(rel, e.name);
    } else {
      hide EntryNamed;
      var more := ancestors + [Prelim(e, rel)];
      VisitHolds(e.children, EntryPath(rel, e.name), more, names[1..]);
      var v := VisitAt(es, rel, ancestors, names);
      assert v.ancestors[..|ancestors|] == v.ancestors[..|more|][..|ancestors|];
    }
  }

  lemma {:induction false} EntersFound(e: Entry)
    ensures Enters(e) ==> e.Found?
  {
  }

  /** What the filter sees on the way to an entry. */
  predicate SeenAt(es: seq<Entry>, rel: seq<byte>, names: Path, view: FileInfo) {
    Reaches(es, names) && view == Cleared(EntryAt(es, names).attributes.(relativePath := Joined(rel, names)))
  }

  lemma {:induction false} SeenFirst(es: seq<Entry>, rel: seq<byte>, names: Path)
    requires Reaches(es, names) && |names| > 1
    ensures SeenAt(es, rel, names[..1], Prelim(EntryNamed(es, names[0]).value, rel))
  {
    hide EntryPath, EntryNamed;
    var e := EntryNamed(es, names[0]).value;
    assert names[..1][1..] == [];
    assert Joined(rel, names[..1]) == EntryPath(rel, e.name);
  }

  lemma {:induction false} SeenNext(es: seq<Entry>, rel: seq<byte>, names: Path, i: nat, view: FileInfo)
    requires Reaches(es, names) && 1 < i < |names|
    requires var e := EntryNamed(es, names[0]).value; SeenAt(e.children, EntryPath(rel, e.name), names[1..][..i - 1], view)
    ensures SeenAt(es, rel, names[..i], view)
  {
    hide EntryPath, EntryNamed, Cleared;
    assert names[..i][1..] == names[1..][..i - 1];
  }

  /** The ancestors of a visit are what the filter saw on the way there. */
  lemma {:induction false} AncestorHolds(es: seq<Entry>, rel: seq<byte>, ancestors: seq<FileInfo>, names: Path, i: nat)
    requires Reaches(es, names) && 0 < i < |names|
    ensures var above := VisitAt(es, rel, ancestors, names).ancestors;
            |above| == |ancestors| + |names| - 1 && SeenAt(es, rel, names[..i], above[|ancestors| + i - 1])
    decreases |names|
  {
    var e := EntryNamed(es, names[0]).value;
    var more := ancestors + [Prelim(e, rel)];
    VisitHolds(es, rel, ancestors, names);
    VisitHolds(e.children, EntryPath(rel, e.name), more, names[1..]);
    hide EntryPath, EntryNamed, SeenAt, Prelim, EntryAt, Joined, Cleared;
    var v := VisitAt(es, rel, ancestors, names);
    assert v == VisitAt(e.children, EntryPath(rel, e.name), more, names[1..]);
    if i == 1 {
      SeenFirst(es, rel, names);
      hide VisitAt;
      assert v.ancestors[|ancestors|] == v.ancestors[..|more|][|ancestors|];
    } else {
      AncestorHolds(e.children, EntryPath(rel, e.name), more, names[1..], i - 1);
      hide VisitAt;
      SeenNext(es, rel, names, i, v.ancestors[|ancestors| + i - 1]);
    }
  }

  // ----- paths -----

  lemma {:induction false} JoinedSnoc(rel: seq<byte>, names: Path, name: seq<byte>)
    ensures Joined(rel, names + [name]) == EntryPath(Joined(rel, names), name)
    decreases |names|
  {
    hide EntryPath;
    if names == [] {
      assert ([] + [name])[1..] == [];
      assert Joined(rel, [] + [name]) == Joined(EntryPath(rel, name), []);
    } else {
      JoinedSnoc(EntryPath(rel, names[0]), names[1..], name);
      assert (names + [name])[1..] == names[1..] + [name];
    }
  }

  lemma {:induction false} ReachesGood(es: seq<Entry>, names: Path)
    requires GoodTree(es) && Reaches(es, names)
    ensures forall k :: 0 <= k < |names| ==> GoodName(names[k])
    decreases |names|
  {
    var e := EntryNamed(es, names[0]).value;
    TreeMember(es, e);
    if |names| > 1 {
      ReachesGood(e.children, names[1..]);
      assert forall k :: 1 <= k < |names| ==> names[k] == names[1..][k - 1];
    }
  }

  /** The path of good names, and the names as its pieces. */
  lemma {:induction false} GoodPath(names: Path)
    requires names != [] && forall k :: 0 <= k < |names| ==> GoodName(names[k])
    ensures Joined([], names) == PathOf(names) && PathOf(names) != [] && Split(PathOf(names)) == names
  {
    var front, last := names[..|names| - 1], names[|names| - 1];
    assert names == front + [last];
    JoinedSnoc([], front, last);
    SplitWhole(last);
    hide Split;
    if front == [] {
      assert Joined([], []) == [];
    } else {
      GoodPath(front);
      hide Joined;
      SplitJoined(PathOf(front), last);
    }
  }

  // ----- the scan -----

  lemma {:induction false} SeenView(es: seq<Entry>, names: Path, view: FileInfo)
    requires GoodTree(es) && SeenAt(es, [], names, view)
    ensures Reaches(es, names) && view == ViewAt(es, names)
  {
    hide EntryAt;
    ReachesGood(es, names);
    GoodPath(names);
    hide Joined, PathOf;
  }

  /** A visit is selected exactly if its names are chosen. */
  lemma {:induction false} SelectedIffChosen(f: FilterOption, es: seq<Entry>, names: Path)
    requires GoodTree(es) && Reaches(es, names)
    ensures var v := VisitAt(es, [], [], names);
            v.info == RecordAt(es, names) && (Selected(f, v) <==> Chosen(f, es, names))
  {
    var v := VisitAt(es, [], [], names);
    VisitHolds(es, [], [], names);
    ReachesGood(es, names);
    GoodPath(names);
    assert v.info == RecordAt(es, names) && v.prelim == ViewAt(es, names);
    hide VisitAt, EntryAt, Joined, PathOf, RecordAt;
    if f.Some? {
      forall i | 0 < i < |names| ensures Reaches(es, names[..i]) && v.ancestors[i - 1] == ViewAt(es, names[..i]) {
        AncestorHolds(es, [], [], names, i);
        SeenView(es, names[..i], v.ancestors[i - 1]);
      }
      hide ViewAt, Reaches, GoodTree;
      assert names[..|names|] == names;
      ChosenOf(f.value, es, names, v);
    }
  }

  lemma {:induction false} ChosenOf(rules: seq<Rule>, es: seq<Entry>, names: Path, v: Visit)
    requires Reaches(es, names) && |v.ancestors| == |names| - 1 && v.prelim == ViewAt(es, names)
    requires forall i :: 0 < i < |names| ==> Reaches(es, names[..i]) && v.ancestors[i - 1] == ViewAt(es, names[..i])
    ensures Selected(Some(rules), v) <==> Chosen(Some(rules), es, names)
  {
    hide ViewAt, Reaches, Excluded, Matches;
    assert names[..|names|] == names;
    if AnyMatches(rules, v.ancestors) {
      var j :| 0 <= j < |v.ancestors| && Matches(rules, v.ancestors[j]);
      assert Matches(rules, ViewAt(es, names[..j + 1]));
    }
    forall j | 0 <= j < |v.ancestors| ensures v.ancestors[j] == ViewAt(es, names[..j + 1]) {
    }
  }

  lemma {:induction false} PickFrom(f: FilterOption, vs: seq<Visit>, rec: FileInfo) returns (n: nat)
    requires rec in Pick(f, vs)
    ensures n < |vs| && Selected(f, vs[n]) && vs[n].info == rec
  {
    hide Selected;
    if Selected(f, vs[0]) && vs[0].info == rec {
      n := 0;
    } else {
      n := PickFrom(f, vs[1..], rec);
      n := n + 1;
    }
  }

  lemma {:induction false} PickHas(f: FilterOption, vs: seq<Visit>, n: nat)
    requires n < |vs| && Selected(f, vs[n])
    ensures vs[n].info in Pick(f, vs)
  {
    hide Selected;
    if n > 0 {
      PickHas(f, vs[1..], n - 1);
    }
  }

  /** A returned record is that of the entry at its path. */
  lemma {:induction false} ScanGives(f: FilterOption, es: seq<Entry>, rec: FileInfo)
    requires GoodTree(es) && rec in Scan(f, es)
    ensures var names := Split(rec.relativePath); Reaches(es, names) && Chosen(f, es, names) && rec == RecordAt(es, names)
  {
    ScanIsPick(f, es);
    var n := PickFrom(f, Visits(es, [], []), rec);
    var names := VisitIn(es, [], [], n);
    SelectedIffChosen(f, es, names);
    ReachesGood(es, names);
    GoodPath(names);
    assert rec.relativePath == PathOf(names) by { hide *; RecordPath(es, names); }
    hide *;
  }

  lemma {:induction false} RecordPath(es: seq<Entry>, names: Path)
    requires Reaches(es, names)
    ensures RecordAt(es, names).relativePath == PathOf(names)
  {
    hide PathOf;
  }

  lemma {:induction false} ScanHas(f: FilterOption, es: seq<Entry>, names: Path)
    requires GoodTree(es) && Reaches(es, names) && Chosen(f, es, names)
    ensures RecordAt(es, names) in Scan(f, es) && Split(RecordAt(es, names).relativePath) == names
  {
    ScanIsPick(f, es);
    var n := VisitOf(es, [], [], names);
    SelectedIffChosen(f, es, names);
    ReachesGood(es, names);
    GoodPath(names);
    RecordPath(es, names);
    hide *;
    PickHas(f, Visits(es, [], []), n);
  }

  /** The scan by the tree alone: a path is returned exactly if its pieces lead to an entry that can be read
      and is chosen, and its record holds that entry's own attributes and content. */
  lemma {:induction false} ScanHolds(f: FilterOption, es: seq<Entry>, names: Path)
    requires GoodTree(es)
    ensures Reaches(es, names) && Chosen(f, es, names) <==> exists rec :: rec in Scan(f, es) && Split(rec.relativePath) == names
    ensures forall rec :: rec in Scan(f, es) && Split(rec.relativePath) == names ==>
              Reaches(es, names) && rec == RecordAt(es, names)
  {
    forall rec | rec in Scan(f, es) && Split(rec.relativePath) == names
      ensures Reaches(es, names) && Chosen(f, es, names) && rec == RecordAt(es, names)
    {
      hide *;
      ScanGives(f, es, rec);
    }
    hide *;
    if Reaches(es, names) && Chosen(f, es, names) {
      ScanHas(f, es, names);
    }
  }
}
