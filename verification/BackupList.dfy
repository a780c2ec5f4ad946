/** The answer to a list request as the client reads it. */
module BackupList {
  import opened Bytes
  import opened Wire
  import opened Messages
  import opened BackupIds
  import opened Storage
  import opened Session

  /** One line of a list: the id, the name, empty without one, and the time. */
  datatype Line = Line(id: seq<byte>, name: seq<byte>, time: nat)

  // ----- reading -----

  function ReadLine(data: seq<byte>, offset: nat): Option<(Line, nat)> {
    var (id, o) :- GetString(data, offset);
    var (name, p) :- GetString(data, o);
    if p + 8 > |data| then None else Some((Line(id, name, FromBE(data[p..p + 8])), p + 8))
  }

  function ReadLines(data: seq<byte>, offset: nat, count: nat): Option<seq<Line>>
    decreases count
  {
    if count == 0 then Some([]) else
      var (line, o) :- ReadLine(data, offset);
      var rest :- ReadLines(data, o, count - 1);
      Some([line] + rest)
  }

  /** A 32-bit count, then so many lines; None where a read leaves the payload. */
  function ReadList(data: seq<byte>): Option<seq<Line>> {
    if |data| < 4 then None else ReadLines(data, 4, FromBE(data[..4]))
  }

  // ----- what is listed -----

  function TimeOf(stamps: map<Id, word64>, id: Id): nat {
    if id in stamps then stamps[id] else 0
  }

  /** Exactly the listed backups, in strict text order, each with its own name and time. */
  ghost predicate Shows(lines: seq<Line>, dirs: Dirs, stamps: map<Id, word64>) {
    && (forall k :: 0 <= k < |lines| ==>
          lines[k].id in Listed(dirs) && lines[k].name == NameOf(dirs, lines[k].id) && lines[k].time == TimeOf(stamps, lines[k].id))
    && (forall id :: id in Listed(dirs) ==> exists k :: 0 <= k < |lines| && lines[k].id == id)
    && (forall i, j :: 0 <= i < j < |lines| ==> AtMost(lines[i].id, lines[j].id) && lines[i].id != lines[j].id)
  }

  /** Ids, names and their number fit the fields of a list. */
  ghost predicate Fits(dirs: Dirs) {
    && |Listed(dirs)| < U32
    && forall id :: id in Listed(dirs) ==> |id| < U16 && |NameOf(dirs, id)| < U16
  }

  /** The lines of these ids. */
  function LinesOf(dirs: Dirs, ids: seq<Id>, stamps: map<Id, word64>): (r: seq<Line>)
    ensures |r| == |ids|
    ensures forall k :: 0 <= k < |ids| ==> r[k] == Line(ids[k], NameOf(dirs, ids[k]), TimeOf(stamps, ids[k]))
  {
    seq(|ids|, k requires 0 <= k < |ids| => Line(ids[k], NameOf(dirs, ids[k]), TimeOf(stamps, ids[k])))
  }

  // ----- the sorted ids -----

  predicate Ascending(r: seq<Id>) {
    forall i, j :: 0 <= i < j < |r| ==> AtMost(r[i], r[j]) && r[i] != r[j]
  }

  lemma {:induction false} AscendingFront(m: Id, rest: seq<Id>)
    requires Ascending(rest) && forall id :: id in rest ==> AtMost(m, id) && m != id
    ensures Ascending([m] + rest)
  {
    hide AtMost;
    var r := [m] + rest;
    forall i, j | 0 <= i < j < |r| ensures AtMost(r[i], r[j]) && r[i] != r[j] {
      assert r[j] == rest[j - 1] && rest[j - 1] in rest;
      if i > 0 {
        assert r[i] == rest[i - 1];
      }
    }
  }

  lemma {:induction false} SortedFront(s: set<Id>)
    requires s != {}
    ensures SortedIds(s) == [Least(s)] + SortedIds(s - {Least(s)})
    ensures forall id :: id in SortedIds(s - {Least(s)}) ==> AtMost(Least(s), id) && Least(s) != id
  {
    hide AtMost;
  }

  lemma {:induction false} SortedAscend(s: set<Id>)
    ensures |SortedIds(s)| == |s| && Ascending(SortedIds(s))
    decreases |s|
  {
    if s == {} {
      assert SortedIds(s) == [];
    } else {
      var m := Least(s);
      SortedFront(s);
      hide SortedIds, Least, Ascending;
      SortedAscend(s - {m});
      AscendingFront(m, SortedIds(s - {m}));
    }
  }

  // ----- reading back -----

  lemma {:induction false} StringFound(data: seq<byte>, offset: nat, s: seq<byte>, rest: seq<byte>)
    requires |s| < U16 && offset <= |data| && data[offset..] == PutString(s) + rest
    ensures GetString(data, offset) == Some((s, offset + 2 + |s|)) && data[offset + 2 + |s|..] == rest
  {
    StringRoundTrip(s, rest);
    PutLength(s);
    hide PutString, FromBE;
    var tail := data[offset..];
    assert data[offset..offset + 2] == tail[0..2];
    assert data[offset + 2..offset + 2 + |s|] == tail[2..2 + |s|];
    assert data[offset + 2 + |s|..] == tail[2 + |s|..];
  }

  lemma {:induction false} TimeFound(data: seq<byte>, offset: nat, time: nat, rest: seq<byte>)
    requires time < U64 && offset <= |data| && data[offset..] == BE(time, 8) + rest
    ensures offset + 8 <= |data| && FromBE(data[offset..offset + 8]) == time && data[offset + 8..] == rest
  {
    Widths();
    BERoundTrip(time, 8);
    hide BE, FromBE;
    assert data[offset..offset + 8] == data[offset..][..8] == BE(time, 8);
    assert data[offset + 8..] == data[offset..][8..];
  }

  lemma {:induction false} EntryParts(dirs: Dirs, id: Id, stamps: map<Id, word64>, rest: seq<byte>)
    ensures ListEntry(dirs, id, stamps) + rest == PutString(id) + (PutString(NameOf(dirs, id)) + (BE(TimeOf(stamps, id), 8) + rest))
  {
    hide PutString, BE, NameOf;
  }

  lemma {:induction false} TimeFits(stamps: map<Id, word64>, id: Id)
    ensures TimeOf(stamps, id) < U64
  {
  }

  lemma {:induction false} LineFound(data: seq<byte>, offset: nat, dirs: Dirs, id: Id, stamps: map<Id, word64>, rest: seq<byte>)
    requires |id| < U16 && |NameOf(dirs, id)| < U16
    requires offset <= |data| && data[offset..] == ListEntry(dirs, id, stamps) + rest
    ensures var r := ReadLine(data, offset);
            && r.Some? && r.value.0 == Line(id, NameOf(dirs, id), TimeOf(stamps, id))
            && r.value.1 <= |data| && data[r.value.1..] == rest
  {
    var name, time := NameOf(dirs, id), TimeOf(stamps, id);
    EntryParts(dirs, id, stamps, rest);
    assert time < U64 by { hide *; TimeFits(stamps, id); }
    hide PutString, BE, FromBE, GetString, ListEntry, NameOf, TimeOf;
    StringFound(data, offset, id, PutString(name) + (BE(time, 8) + rest));
    StringFound(data, offset + 2 + |id|, name, BE(time, 8) + rest);
    TimeFound(data, offset + 2 + |id| + 2 + |name|, time, rest);
  }

  lemma {:induction false} EntriesFront(dirs: Dirs, ids: seq<Id>, stamps: map<Id, word64>)
    requires ids != []
    ensures ListEntries(dirs, ids, stamps) == ListEntry(dirs, ids[0], stamps) + ListEntries(dirs, ids[1..], stamps)
    decreases |ids|
  {
    hide ListEntry;
    var front, last := ids[..|ids| - 1], ids[|ids| - 1];
    if front == [] {
      assert ids[1..] == [];
    } else {
      EntriesFront(dirs, front, stamps);
      assert front[1..] == ids[1..][..|ids[1..]| - 1] && ids[1..][|ids[1..]| - 1] == last;
      assert ListEntries(dirs, ids[1..], stamps) == ListEntries(dirs, front[1..], stamps) + ListEntry(dirs, last, stamps);
    }
  }

  lemma {:induction false} OneMore(data: seq<byte>, offset: nat, count: nat, line: Line, o: nat, lines: seq<Line>)
    requires ReadLine(data, offset) == Some((line, o)) && ReadLines(data, o, count) == Some(lines)
    ensures ReadLines(data, offset, count + 1) == Some([line] + lines)
  {
    hide ReadLine;
  }

  lemma {:induction false} LinesFront(dirs: Dirs, ids: seq<Id>, stamps: map<Id, word64>)
    requires ids != []
    ensures LinesOf(dirs, ids, stamps)
         == [Line(ids[0], NameOf(dirs, ids[0]), TimeOf(stamps, ids[0]))] + LinesOf(dirs, ids[1..], stamps)
  {
    hide NameOf, TimeOf;
  }

  lemma {:induction false} LinesFound(data: seq<byte>, offset: nat, dirs: Dirs, ids: seq<Id>, stamps: map<Id, word64>)
    requires forall id :: id in ids ==> |id| < U16 && |NameOf(dirs, id)| < U16
    requires offset <= |data| && data[offset..] == ListEntries(dirs, ids, stamps)
    ensures ReadLines(data, offset, |ids|) == Some(LinesOf(dirs, ids, stamps))
    decreases |ids|
  {
    hide NameOf, TimeOf, ListEntry, ReadLine;
    if ids == [] {
      assert LinesOf(dirs, ids, stamps) == [];
    } else {
      var first, rest := ids[0], ids[1..];
      assert first in ids && (forall id :: id in rest ==> id in ids);
      EntriesFront(dirs, ids, stamps);
      LinesFront(dirs, ids, stamps);
      hide ListEntries, LinesOf;
      LineFound(data, offset, dirs, first, stamps, ListEntries(dirs, rest, stamps));
      var o := ReadLine(data, offset).value.1;
      hide GetString;
      LinesFound(data, o, dirs, rest, stamps);
      hide ReadLines;
      OneMore(data, offset, |rest|, Line(first, NameOf(dirs, first), TimeOf(stamps, first)), o, LinesOf(dirs, rest, stamps));
    }
  }

  /** What a server writes for the backups of a directory. */
  ghost function ListPayload(dirs: Dirs, stamps: map<Id, word64>): seq<byte> {
    var ids := SortedIds(Listed(dirs));
    BE(|ids|, 4) + ListEntries(dirs, ids, stamps)
  }

  lemma {:induction false} SortedShown(dirs: Dirs, stamps: map<Id, word64>)
    ensures Shows(LinesOf(dirs, SortedIds(Listed(dirs)), stamps), dirs, stamps)
  {
    var ids := SortedIds(Listed(dirs));
    var lines := LinesOf(dirs, ids, stamps);
    SortedAscend(Listed(dirs));
    forall id | id in Listed(dirs) ensures exists k :: 0 <= k < |lines| && lines[k].id == id {
      assert id in ids;
      var k :| 0 <= k < |ids| && ids[k] == id;
      assert lines[k].id == id;
    }
    hide SortedIds, Listed, NameOf, TimeOf, AtMost;
  }

  /** Reading the list gives exactly the listed backups, in text order, each with its own name and time. */
  lemma {:induction false} ListReadBack(dirs: Dirs, stamps: map<Id, word64>)
    requires Fits(dirs)
    ensures var r := ReadList(ListPayload(dirs, stamps)); r.Some? && Shows(r.value, dirs, stamps)
  {
    var ids := SortedIds(Listed(dirs));
    var data := ListPayload(dirs, stamps);
    SortedAscend(Listed(dirs));
    SortedShown(dirs, stamps);
    Widths();
    BERoundTrip(|ids|, 4);
    assert |BE(|ids|, 4)| == 4;
    assert forall id :: id in ids ==> |id| < U16 && |NameOf(dirs, id)| < U16;
    hide BE, FromBE, SortedIds, Listed, NameOf, ListEntries, Shows;
    assert data[..4] == BE(|ids|, 4) && data[4..] == ListEntries(dirs, ids, stamps);
    LinesFound(data, 4, dirs, ids, stamps);
  }
}
