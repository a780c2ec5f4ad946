/** The recursive directory walk with its inherited "included subtree" flag. */
module Scanner {
  import opened Bytes
  import opened FileRecords
  import opened Filter

  /** A directory entry as the system reports it: one whose lstat fails, or one with its attributes
      and content; for a directory, whether it can be opened and what is in it, in readdir order. */
  datatype Entry =
    | Unreadable(name: seq<byte>)
    | Found(name: seq<byte>, attributes: FileInfo, opens: bool, children: seq<Entry>)

  type FilterOption = Option<seq<Rule>>

  function EntryPath(rel: seq<byte>, name: seq<byte>): seq<byte> {
    if rel == [] then name else rel + [47] + name
  }

  /** The record of the entry with everything read in. */
  function Full(e: Entry, rel: seq<byte>): FileInfo
    requires e.Found?
  {
    e.attributes.(relativePath := EntryPath(rel, e.name))
  }

  /** fromStat: what the filter sees, before content, link target and device number are read. */
  function Prelim(e: Entry, rel: seq<byte>): FileInfo
    requires e.Found?
  {
    Full(e, rel).(content := [], symlinkTarget := [], deviceId := 0)
  }

  // ----- the walk -----

  /** What becomes of an entry: emitted or not, descended into or not, and the flag for its children. */
  function Decide(f: FilterOption, info: FileInfo, inIncluded: bool): (bool, bool, bool) {
    var isDir := info.IsDirectory();
    if f.None? then (true, isDir, inIncluded)
    else if !isDir then
      (if inIncluded then !Excluded(f.value, info) else Matches(f.value, info), false, inIncluded)
    else if inIncluded then (true, !Excluded(f.value, info), true)
    else (Matches(f.value, info), !Excluded(f.value, info), Matches(f.value, info))
  }

  function ScanEntry(f: FilterOption, e: Entry, rel: seq<byte>, inIncluded: bool): seq<FileInfo>
    decreases e, 1
  {
    if e.Unreadable? then [] else
      var (emit, descend, included) := Decide(f, Prelim(e, rel), inIncluded);
      (if emit then [Full(e, rel)] else [])
      + (if descend && e.opens then ScanAll(f, e.children, EntryPath(rel, e.name), included) else [])
  }

  function ScanAll(f: FilterOption, es: seq<Entry>, rel: seq<byte>, inIncluded: bool): seq<FileInfo>
    decreases es, 0
  {
    if es == [] then [] else ScanEntry(f, es[0], rel, inIncluded) + ScanAll(f, es[1..], rel, inIncluded)
  }

  /** One turn of the directory loop: the three decisions as the nested tests take them. */
  method DecideEntry(f: FilterOption, prelim: FileInfo, inIncluded: bool)
    returns (emit: bool, descend: bool, subtreeIncluded: bool)
    ensures (emit, descend, subtreeIncluded) == Decide(f, prelim, inIncluded)
  {
    var isDir := prelim.IsDirectory();
    var filteredOut, excluded := false, false;
    subtreeIncluded := inIncluded;
    if f.Some? && !isDir {
      if inIncluded {
        if Excluded(f.value, prelim) {
          return false, false, subtreeIncluded;
        }
      } else if !Matches(f.value, prelim) {
        return false, false, subtreeIncluded;
      }
    } else if f.Some? {
      if inIncluded {
        excluded := Excluded(f.value, prelim);
      } else {
        filteredOut := !Matches(f.value, prelim);
        excluded := Excluded(f.value, prelim);
        if !filteredOut {
          subtreeIncluded := true;
        }
      }
    }
    emit, descend := !filteredOut, isDir && !excluded;
  }

  /** scanRecursive on an opened directory: pushes into the shared result. */
  method ScanRecursive(f: FilterOption, es: seq<Entry>, rel: seq<byte>, result: seq<FileInfo>, inIncluded: bool)
    returns (r: seq<FileInfo>)
    ensures r == result + ScanAll(f, es, rel, inIncluded)
    decreases es, 0
  {
    r := result;
    assert es[0..] == es;
    for i := 0 to |es|
      invariant r + ScanAll(f, es[i..], rel, inIncluded) == result + ScanAll(f, es, rel, inIncluded)
    {
      hide ScanEntry;
      HeadOfScan(f, es, i, rel, inIncluded, r);
      r := ScanOne(f, es[i], rel, r, inIncluded);
    }
    assert es[|es|..] == [] && r + [] == r;
  }

  method ScanOne(f: FilterOption, e: Entry, rel: seq<byte>, result: seq<FileInfo>, inIncluded: bool)
    returns (r: seq<FileInfo>)
    ensures r == result + ScanEntry(f, e, rel, inIncluded)
    decreases e, 1
  {
    r := result;
    if e.Unreadable? {
      assert r + [] == r;
      return;
    }
    hide Decide, ScanAll;
    var emit, descend, subtreeIncluded := DecideEntry(f, Prelim(e, rel), inIncluded);
    if emit {
      r := r + [Full(e, rel)];
    }
    if descend && e.opens {
      r := ScanRecursive(f, e.children, EntryPath(rel, e.name), r, subtreeIncluded);
    }
  }

  lemma {:induction false} HeadOfScan(f: FilterOption, es: seq<Entry>, i: nat, rel: seq<byte>, inIncluded: bool, r: seq<FileInfo>)
    requires i < |es|
    ensures r + ScanAll(f, es[i..], rel, inIncluded) ==
            (r + ScanEntry(f, es[i], rel, inIncluded)) + ScanAll(f, es[i + 1..], rel, inIncluded)
  {
    hide ScanEntry;
    assert es[i..][0] == es[i] && es[i..][1..] == es[i + 1..];
  }

  // ----- the declarative rule -----

  /** An entry of the tree with the filter's view of it and of its ancestor directories. */
  datatype Visit = Visit(info: FileInfo, prelim: FileInfo, ancestors: seq<FileInfo>)

  /** Every entry that can be read, each directory before what is in it. */
  function VisitsBelow(e: Entry, rel: seq<byte>, ancestors: seq<FileInfo>): seq<Visit>
    decreases e, 1
  {
    if e.Unreadable? then [] else
      [Visit(Full(e, rel), Prelim(e, rel), ancestors)]
      + (if e.attributes.IsDirectory() && e.opens
         then Visits(e.children, EntryPath(rel, e.name), ancestors + [Prelim(e, rel)]) else [])
  }

  function Visits(es: seq<Entry>, rel: seq<byte>, ancestors: seq<FileInfo>): seq<Visit>
    decreases es, 0
  {
    if es == [] then [] else VisitsBelow(es[0], rel, ancestors) + Visits(es[1..], rel, ancestors)
  }

  ghost predicate AnyExcluded(rules: seq<Rule>, infos: seq<FileInfo>) {
    exists i :: 0 <= i < |infos| && Excluded(rules, infos[i])
  }

  ghost predicate AnyMatches(rules: seq<Rule>, infos: seq<FileInfo>) {
    exists i :: 0 <= i < |infos| && Matches(rules, infos[i])
  }

  /** The rule: nothing below an excluded directory; a directory if it or an ancestor matches, even if
      it is itself excluded; anything else if it is not excluded and it or an ancestor matches. */
  ghost predicate Selected(f: FilterOption, v: Visit) {
    f.Some? ==>
      && !AnyExcluded(f.value, v.ancestors)
      && (Matches(f.value, v.prelim) || AnyMatches(f.value, v.ancestors))
      && (v.prelim.IsDirectory() || !Excluded(f.value, v.prelim))
  }

  /** The records of the selected visits, in order. */
  ghost function Pick(f: FilterOption, vs: seq<Visit>): seq<FileInfo> {
    if vs == [] then [] else (if Selected(f, vs[0]) then [vs[0].info] else []) + Pick(f, vs[1..])
  }

  lemma {:induction false} PickAppend(f: FilterOption, a: seq<Visit>, b: seq<Visit>)
    ensures Pick(f, a + b) == Pick(f, a) + Pick(f, b)
  {
    hide Selected;
    if a == [] {
      assert a + b == b;
    } else {
      PickAppend(f, a[1..], b);
      assert (a + b)[1..] == a[1..] + b;
      var first := if Selected(f, a[0]) then [a[0].info] else [];
      assert first + (Pick(f, a[1..]) + Pick(f, b)) == (first + Pick(f, a[1..])) + Pick(f, b);
    }
  }

  /** The flag says that some ancestor matches, and the walk is here because none is excluded. */
  ghost predicate Entered(f: FilterOption, ancestors: seq<FileInfo>, inIncluded: bool) {
    f.Some? ==> !AnyExcluded(f.value, ancestors) && inIncluded == AnyMatches(f.value, ancestors)
  }

  lemma {:induction false} AnySnoc(rules: seq<Rule>, infos: seq<FileInfo>, x: FileInfo)
    ensures AnyExcluded(rules, infos + [x]) <==> AnyExcluded(rules, infos) || Excluded(rules, x)
    ensures AnyMatches(rules, infos + [x]) <==> AnyMatches(rules, infos) || Matches(rules, x)
  {
    hide Excluded, Matches;
    var all := infos + [x];
    assert all[|infos|] == x;
    assert forall i :: 0 <= i < |infos| ==> all[i] == infos[i];
  }

  /** The decisions follow the rule. */
  lemma {:induction false} DecideFollowsRule(f: FilterOption, info: FileInfo, prelim: FileInfo, ancestors: seq<FileInfo>, inIncluded: bool)
    requires Entered(f, ancestors, inIncluded)
    ensures var (emit, descend, included) := Decide(f, prelim, inIncluded);
            && emit == Selected(f, Visit(info, prelim, ancestors))
            && (prelim.IsDirectory() ==> (descend <==> f.Some? ==> !AnyExcluded(f.value, ancestors + [prelim])))
            && (descend ==> prelim.IsDirectory() && Entered(f, ancestors + [prelim], included))
  {
    if f.Some? {
      AnySnoc(f.value, ancestors, prelim);
      assert Matches(f.value, prelim) ==> !Excluded(f.value, prelim);
      hide Excluded, AnyExcluded, AnyMatches, Matches;
    }
  }

  lemma {:induction false} NothingBelowEntry(f: FilterOption, e: Entry, rel: seq<byte>, ancestors: seq<FileInfo>)
    requires f.Some? && AnyExcluded(f.value, ancestors)
    ensures Pick(f, VisitsBelow(e, rel, ancestors)) == []
    decreases e, 1
  {
    hide Excluded, Matches, AnyExcluded, AnyMatches;
    if e.Found? {
      var v := [Visit(Full(e, rel), Prelim(e, rel), ancestors)];
      assert Pick(f, v) == [];
      if e.attributes.IsDirectory() && e.opens {
        AnySnoc(f.value, ancestors, Prelim(e, rel));
        var below := Visits(e.children, EntryPath(rel, e.name), ancestors + [Prelim(e, rel)]);
        NothingBelow(f, e.children, EntryPath(rel, e.name), ancestors + [Prelim(e, rel)]);
        PickAppend(f, v, below);
      } else {
        assert v + [] == v;
      }
    }
  }

  /** Below an excluded directory the rule selects nothing. */
  lemma {:induction false} NothingBelow(f: FilterOption, es: seq<Entry>, rel: seq<byte>, ancestors: seq<FileInfo>)
    requires f.Some? && AnyExcluded(f.value, ancestors)
    ensures Pick(f, Visits(es, rel, ancestors)) == []
    decreases es, 0
  {
    hide AnyExcluded;
    if es == [] {
    } else {
      NothingBelowEntry(f, es[0], rel, ancestors);
      NothingBelow(f, es[1..], rel, ancestors);
      PickAppend(f, VisitsBelow(es[0], rel, ancestors), Visits(es[1..], rel, ancestors));
    }
  }

  lemma {:induction false} ScanEntryPicks(f: FilterOption, e: Entry, rel: seq<byte>, ancestors: seq<FileInfo>, inIncluded: bool)
    requires Entered(f, ancestors, inIncluded)
    ensures ScanEntry(f, e, rel, inIncluded) == Pick(f, VisitsBelow(e, rel, ancestors))
    decreases e, 1
  {
    if e.Found? {
      var full, prelim := Full(e, rel), Prelim(e, rel);
      var v := [Visit(full, prelim, ancestors)];
      DecideFollowsRule(f, full, prelim, ancestors, inIncluded);
      assert Pick(f, v) == (if Selected(f, v[0]) then [full] else []) + Pick(f, []);
      hide Selected, Decide, Entered, Pick, AnyExcluded;
      var (emit, descend, included) := Decide(f, prelim, inIncluded);
      if e.attributes.IsDirectory() && e.opens {
        var path, chain := EntryPath(rel, e.name), ancestors + [prelim];
        PickAppend(f, v, Visits(e.children, path, chain));
        if descend {
          ScanPicks(f, e.children, path, chain, included);
        } else {
          NothingBelow(f, e.children, path, chain);
        }
      } else {
        assert v + [] == v;
      }
    }
  }

  /** Scan characterisation: the walk emits exactly the selected entries of the tree, each once, in
      tree order with directories before their contents. */
  lemma {:induction false} ScanPicks(f: FilterOption, es: seq<Entry>, rel: seq<byte>, ancestors: seq<FileInfo>, inIncluded: bool)
    requires Entered(f, ancestors, inIncluded)
    ensures ScanAll(f, es, rel, inIncluded) == Pick(f, Visits(es, rel, ancestors))
    decreases es, 0
  {
    hide Entered;
    if es == [] {
    } else {
      ScanEntryPicks(f, es[0], rel, ancestors, inIncluded);
      ScanPicks(f, es[1..], rel, ancestors, inIncluded);
      PickAppend(f, VisitsBelow(es[0], rel, ancestors), Visits(es[1..], rel, ancestors));
    }
  }

  /** FileScanner::scan of a root whose entries are es. */
  function Scan(f: FilterOption, es: seq<Entry>): seq<FileInfo> {
    ScanAll(f, es, [], false)
  }

  lemma {:induction false} ScanIsPick(f: FilterOption, es: seq<Entry>)
    ensures Scan(f, es) == Pick(f, Visits(es, [], []))
  {
    ScanPicks(f, es, [], [], false);
  }
}
