/** The index archive: all contents, then one directory entry per file, then a 32-byte end record. */
module IndexPack {
  import opened Bytes
  import opened Fields
  import opened FileRecords

  const SIGNATURE: nat := 0x49445831
  const END_RECORD: nat := 32

  datatype DirEntry = DirEntry(path: seq<byte>, offset: nat, size: nat, fileType: nat, permissions: nat,
                               uid: nat, gid: nat, mtime: nat, linkTarget: seq<byte>)

  // ----- directory entries -----

  function PlaceFields(e: DirEntry): Record {
    Next(Num(e.gid, 4), Next(Num(e.mtime, 8), Next(Text(e.linkTarget), End)))
  }

  function EntryFields(e: DirEntry): Record {
    Next(Text(e.path), Next(Num(e.offset, 8), Next(Num(e.size, 8), Next(Num(e.fileType, 2),
    Next(Num(e.permissions, 2), Next(Num(e.uid, 4), PlaceFields(e)))))))
  }

  function EntryBytes(e: DirEntry): seq<byte> {
    PutAll(EntryFields(e))
  }

  method SerializeEntry(e: DirEntry, buf: seq<byte>) returns (r: seq<byte>)
    ensures r == buf + EntryBytes(e)
  {
    hide LE;
    ghost var rest := EntryFields(e);
    PutStep(buf, rest);
    r := WriteText(buf, e.path);
    rest := rest.tail;
    PutStep(r, rest);
    r := WriteLE(r, e.offset, 8);
    rest := rest.tail;
    PutStep(r, rest);
    r := WriteLE(r, e.size, 8);
    rest := rest.tail;
    PutStep(r, rest);
    r := WriteLE(r, e.fileType, 2);
    rest := rest.tail;
    PutStep(r, rest);
    r := WriteLE(r, e.permissions, 2);
    rest := rest.tail;
    PutStep(r, rest);
    r := WriteLE(r, e.uid, 4);
    rest := rest.tail;
    PutStep(r, rest);
    r := WriteLE(r, e.gid, 4);
    rest := rest.tail;
    PutStep(r, rest);
    r := WriteLE(r, e.mtime, 8);
    rest := rest.tail;
    PutStep(r, rest);
    r := WriteText(r, e.linkTarget);
    assert r + [] == r;
  }

  /** The last three fields of an entry. */
  function ParsedPlace(data: seq<byte>, start: nat, e: DirEntry): (r: Option<(DirEntry, nat)>)
    ensures r.Some? ==> r.value.1 <= |data| && r.value.0.gid < U32 && r.value.0.mtime < U64
    ensures r.Some? ==> r.value.0 == e.(gid := r.value.0.gid, mtime := r.value.0.mtime, linkTarget := r.value.0.linkTarget)
  {
    var (gid, o1) :- GetNum(data, start, 4);
    var (mtime, o2) :- GetNum(data, o1, 8);
    var (link, o3) :- GetText(data, o2);
    Widths();
    Some((e.(gid := gid, mtime := mtime, linkTarget := link), o3))
  }

  /** DirEntry::deserialize; None when it would read past the end. */
  function ParsedEntry(data: seq<byte>, start: nat): (r: Option<(DirEntry, nat)>)
    ensures r.Some? ==> r.value.1 <= |data| && r.value.0.fileType < U16 && r.value.0.permissions < U16
                        && r.value.0.uid < U32 && r.value.0.gid < U32 && r.value.0.mtime < U64 && r.value.0.size < U64
  {
    var (path, o1) :- GetText(data, start);
    var (offset, o2) :- GetNum(data, o1, 8);
    var (size, o3) :- GetNum(data, o2, 8);
    var (fileType, o4) :- GetNum(data, o3, 2);
    var (permissions, o5) :- GetNum(data, o4, 2);
    var (uid, o6) :- GetNum(data, o5, 4);
    Widths();
    ParsedPlace(data, o6, DirEntry(path, offset, size, fileType, permissions, uid, 0, 0, []))
  }

  method DeserializeEntry(data: seq<byte>, start: nat) returns (e: DirEntry, next: nat)
    requires ParsedEntry(data, start).Some?
    ensures ParsedEntry(data, start) == Some((e, next))
  {
    hide FromLE;
    var path, offset, size, fileType, permissions, uid, gid, mtime, link;
    path, next := ReadTextAt(data, start);
    offset, next := ReadLE(data, next, 8);
    size, next := ReadLE(data, next, 8);
    fileType, next := ReadLE(data, next, 2);
    permissions, next := ReadLE(data, next, 2);
    uid, next := ReadLE(data, next, 4);
    gid, next := ReadLE(data, next, 4);
    mtime, next := ReadLE(data, next, 8);
    link, next := ReadTextAt(data, next);
    e := DirEntry(path, offset, size, fileType, permissions, uid, gid, mtime, link);
  }

  predicate EntryHolds(e: DirEntry) {
    && |e.path| < U16 && |e.linkTarget| < U16 && e.offset < U64 && e.size < U64
    && e.fileType < U16 && e.permissions < U16 && e.uid < U32 && e.gid < U32 && e.mtime < U64
  }

  lemma {:induction false} PlaceRoundTrip(e: DirEntry, data: seq<byte>, start: nat, post: seq<byte>) returns (end: nat)
    requires EntryHolds(e) && Ahead(data, start, PlaceFields(e), post)
    ensures ParsedPlace(data, start, e.(gid := 0, mtime := 0, linkTarget := [])) == Some((e, end))
    ensures end <= |data| && data[end..] == post
  {
    Widths();
    hide Put, GetNum, GetText, LE, PutAll;
    var r := PlaceFields(e);
    end := start;
    ReadNum(data, end, r, post);
    r, end := r.tail, end + 4;
    ReadNum(data, end, r, post);
    r, end := r.tail, end + 8;
    ReadText(data, end, r, post);
    r, end := r.tail, end + 2 + |e.linkTarget|;
    NothingAhead(data, end, post);
  }

  lemma {:induction false} FrontRoundTrip(e: DirEntry, data: seq<byte>, start: nat, post: seq<byte>) returns (o: nat)
    requires EntryHolds(e) && Ahead(data, start, EntryFields(e), post)
    ensures Ahead(data, o, PlaceFields(e), post)
    ensures ParsedEntry(data, start) == ParsedPlace(data, o, e.(gid := 0, mtime := 0, linkTarget := []))
  {
    Widths();
    hide Put, GetNum, GetText, LE, PutAll, ParsedPlace, PlaceFields;
    var r := EntryFields(e);
    o := start;
    ReadText(data, o, r, post);
    r, o := r.tail, o + 2 + |e.path|;
    ReadNum(data, o, r, post);
    r, o := r.tail, o + 8;
    ReadNum(data, o, r, post);
    r, o := r.tail, o + 8;
    ReadNum(data, o, r, post);
    r, o := r.tail, o + 2;
    ReadNum(data, o, r, post);
    r, o := r.tail, o + 2;
    ReadNum(data, o, r, post);
    r, o := r.tail, o + 4;
  }

  lemma {:induction false} EntryRoundTrip(e: DirEntry, data: seq<byte>, start: nat, post: seq<byte>)
    requires EntryHolds(e) && start <= |data| && data[start..] == EntryBytes(e) + post
    ensures ParsedEntry(data, start) == Some((e, start + |EntryBytes(e)|))
    ensures start + |EntryBytes(e)| <= |data| && data[start + |EntryBytes(e)|..] == post
  {
    hide ParsedPlace, ParsedEntry, EntryFields, PlaceFields, PutAll, EntryHolds;
    TakeAhead(data, start, EntryBytes(e), post);
    var o := FrontRoundTrip(e, data, start, post);
    var end := PlaceRoundTrip(e, data, o, post);
    assert |data| - end == |post|;
  }

  // ----- layout -----

  function Data(f: FileInfo): seq<byte> {
    if f.IsRegular() then f.content else []
  }

  function DataArea(fs: seq<FileInfo>): seq<byte> {
    if fs == [] then [] else DataArea(fs[..|fs| - 1]) + Data(fs[|fs| - 1])
  }

  function EntryFor(f: FileInfo, offset: nat): DirEntry {
    DirEntry(f.relativePath, offset, |Data(f)|, f.fileType % U16, f.permissions % U16, f.owner, f.group,
             ToU64(f.mtime), f.symlinkTarget)
  }

  /** The k-th entry starts where the data of the first k files ends. */
  function Entries(fs: seq<FileInfo>): (es: seq<DirEntry>)
    ensures |es| == |fs|
    ensures forall k :: 0 <= k < |fs| ==> es[k] == EntryFor(fs[k], |DataArea(fs[..k])|)
  {
    seq(|fs|, k requires 0 <= k < |fs| => EntryFor(fs[k], |DataArea(fs[..k])|))
  }

  function DirBytes(es: seq<DirEntry>): seq<byte> {
    if es == [] then [] else EntryBytes(es[0]) + DirBytes(es[1..])
  }

  function EndRecord(count: nat, start: nat, size: nat): (r: seq<byte>)
    ensures |r| == END_RECORD
  {
    LE(SIGNATURE, 4) + LE(count, 4) + LE(start, 8) + LE(size, 8) + Zeros(8)
  }

  function Packed(fs: seq<FileInfo>): seq<byte> {
    var dir := DirBytes(Entries(fs));
    DataArea(fs) + dir + EndRecord(|fs|, |DataArea(fs)|, |dir|)
  }

  lemma {:induction false} DirBytesAppend(es: seq<DirEntry>, e: DirEntry)
    ensures DirBytes(es + [e]) == DirBytes(es) + EntryBytes(e)
  {
    hide EntryBytes;
    if es == [] {
      assert ([] + [e])[1..] == [] && DirBytes([]) == [];
    } else {
      DirBytesAppend(es[1..], e);
      assert (es + [e])[1..] == es[1..] + [e];
    }
  }

  ghost predicate LaidOut(files: seq<FileInfo>, i: nat, dataArea: seq<byte>, entries: seq<DirEntry>)
    requires i <= |files|
  {
    dataArea == DataArea(files[..i]) && entries == Entries(files[..i])
  }

  lemma {:induction false} LayoutStep(files: seq<FileInfo>, i: nat, dataArea: seq<byte>, entries: seq<DirEntry>)
    requires i < |files| && LaidOut(files, i, dataArea, entries)
    ensures LaidOut(files, i + 1, dataArea + Data(files[i]), entries + [EntryFor(files[i], |dataArea|)])
  {
    var pre, next := files[..i], files[..i + 1];
    assert next[..i] == pre && next[i] == files[i];
    assert DataArea(next) == DataArea(pre) + Data(files[i]);
    var es := entries + [EntryFor(files[i], |dataArea|)];
    forall k | 0 <= k < i + 1 ensures es[k] == Entries(next)[k] {
      assert k < i ==> pre[..k] == next[..k];
    }
  }

  /** The first loop of pack: contents into the data area, one entry with the running offset each. */
  method Layout(files: seq<FileInfo>) returns (dataArea: seq<byte>, entries: seq<DirEntry>)
    ensures dataArea == DataArea(files) && entries == Entries(files)
  {
    dataArea, entries := [], [];
    var currentOffset := 0;
    assert files[..0] == [] && LaidOut(files, 0, [], []);
    hide LaidOut, ToU64;
    for i := 0 to |files|
      invariant LaidOut(files, i, dataArea, entries) && currentOffset == |dataArea|
    {
      LayoutStep(files, i, dataArea, entries);
      var info := files[i];
      var e := DirEntry(info.relativePath, currentOffset, 0, info.fileType % U16, info.permissions % U16,
                        info.owner, info.group, ToU64(info.mtime), info.symlinkTarget);
      ghost var before := dataArea;
      if info.IsRegular() {
        e := e.(size := |info.content|);
        dataArea := dataArea + info.content;
      }
      assert before + [] == before;
      currentOffset := currentOffset + e.size;
      entries := entries + [e];
    }
    AllLaidOut(files, dataArea, entries);
  }

  lemma {:induction false} AllLaidOut(files: seq<FileInfo>, dataArea: seq<byte>, entries: seq<DirEntry>)
    requires LaidOut(files, |files|, dataArea, entries)
    ensures dataArea == DataArea(files) && entries == Entries(files)
  {
    assert files[..|files|] == files;
  }

  method WriteDirectory(entries: seq<DirEntry>) returns (centralDir: seq<byte>)
    ensures centralDir == DirBytes(entries)
  {
    centralDir := [];
    assert entries[..0] == [] && DirBytes([]) == [];
    hide EntryBytes, DirBytes;
    for i := 0 to |entries|
      invariant centralDir == DirBytes(entries[..i])
    {
      centralDir := SerializeEntry(entries[i], centralDir);
      DirBytesAppend(entries[..i], entries[i]);
      assert entries[..i] + [entries[i]] == entries[..i + 1];
    }
    assert entries[..|entries|] == entries;
  }

  method WriteEndRecord(count: nat, start: nat, size: nat) returns (eocd: seq<byte>)
    ensures eocd == EndRecord(count, start, size)
  {
    hide LE;
    eocd := WriteLE([], SIGNATURE, 4);
    eocd := WriteLE(eocd, count, 4);
    eocd := WriteLE(eocd, start, 8);
    eocd := WriteLE(eocd, size, 8);
    assert [] + LE(SIGNATURE, 4) == LE(SIGNATURE, 4);
    eocd := eocd + Zeros(8);
  }

  method Pack(files: seq<FileInfo>) returns (result: seq<byte>)
    ensures result == Packed(files)
  {
    hide DirBytes, EndRecord;
    var dataArea, entries := Layout(files);
    var centralDir := WriteDirectory(entries);
    var eocd := WriteEndRecord(|entries|, |dataArea|, |centralDir|);
    result := dataArea + centralDir + eocd;
  }

  // ----- tiling -----

  lemma {:induction false} AreaPrefix(fs: seq<FileInfo>, k: nat)
    requires k <= |fs|
    ensures |DataArea(fs[..k])| <= |DataArea(fs)| && DataArea(fs)[..|DataArea(fs[..k])|] == DataArea(fs[..k])
  {
    if k == |fs| {
      assert fs[..k] == fs;
    } else {
      var pre := fs[..|fs| - 1];
      AreaPrefix(pre, k);
      assert pre[..k] == fs[..k];
    }
  }

  /** Where the data of the first k files ends. */
  ghost function EndOf(fs: seq<FileInfo>, k: nat): nat
    requires k <= |fs|
  {
    |DataArea(fs[..k])|
  }

  /** Each entry's range holds its file's content and ends where the next one starts. */
  lemma {:induction false} RangeHoldsContent(fs: seq<FileInfo>, k: nat, e: DirEntry)
    requires k < |fs| && e == Entries(fs)[k]
    ensures e.offset == EndOf(fs, k) && e.offset + e.size == EndOf(fs, k + 1) <= |DataArea(fs)|
    ensures DataArea(fs)[e.offset..e.offset + e.size] == Data(fs[k])
  {
    AreaPrefix(fs, k + 1);
    var pre, area := fs[..k + 1], DataArea(fs);
    assert pre[..k] == fs[..k] && pre[k] == fs[k];
    assert DataArea(pre) == DataArea(fs[..k]) + Data(fs[k]);
    hide DataArea;
    assert area[e.offset..e.offset + e.size] == area[..e.offset + e.size][e.offset..];
  }

  ghost predicate InRange(p: nat, e: DirEntry) {
    e.offset <= p < e.offset + e.size
  }

  lemma {:induction false} EndsGrow(fs: seq<FileInfo>, j: nat, k: nat)
    requires j <= k <= |fs|
    ensures EndOf(fs, j) <= EndOf(fs, k)
    decreases k
  {
    hide EndOf, DataArea;
    if j >= k {
    } else {
      EndsGrow(fs, j, k - 1);
      RangeHoldsContent(fs, k - 1, Entries(fs)[k - 1]);
    }
  }

  lemma {:induction false} SomeRange(fs: seq<FileInfo>, p: nat, n: nat) returns (k: nat)
    requires n <= |fs| && p < EndOf(fs, n)
    ensures k < |fs| && InRange(p, Entries(fs)[k])
    decreases n
  {
    assert EndOf(fs, 0) == 0 by { assert fs[..0] == []; }
    hide EndOf, DataArea;
    RangeHoldsContent(fs, n - 1, Entries(fs)[n - 1]);
    if p >= EndOf(fs, n - 1) {
      k := n - 1;
    } else {
      k := SomeRange(fs, p, n - 1);
    }
  }

  /** Tiling: every byte of the data area lies in the range of exactly one entry. */
  lemma {:induction false} RangesTile(fs: seq<FileInfo>, p: nat)
    requires p < |DataArea(fs)|
    ensures exists k :: 0 <= k < |fs| && InRange(p, Entries(fs)[k]) &&
                        forall j :: 0 <= j < |fs| && InRange(p, Entries(fs)[j]) ==> j == k
  {
    assert fs[..|fs|] == fs;
    var k := SomeRange(fs, p, |fs|);
    hide EndOf, DataArea;
    RangeHoldsContent(fs, k, Entries(fs)[k]);
    forall j | 0 <= j < |fs| && InRange(p, Entries(fs)[j]) ensures j == k {
      RangeHoldsContent(fs, j, Entries(fs)[j]);
      if j < k {
        EndsGrow(fs, j + 1, k);
      } else if k < j {
        EndsGrow(fs, k + 1, j);
      }
    }
  }

  // ----- unpack -----

  /** Reads count directory entries one after the other. */
  function ParsedDir(data: seq<byte>, start: nat, count: nat): (r: Option<seq<DirEntry>>)
    ensures r.Some? ==> |r.value| == count
    ensures r.Some? ==> forall k :: 0 <= k < count ==> InFields(r.value[k])
    decreases count
  {
    if count == 0 then Some([]) else
      var (e, next) :- ParsedEntry(data, start);
      var rest :- ParsedDir(data, next, count - 1);
      Some([e] + rest)
  }

  predicate InFields(e: DirEntry) {
    e.fileType < U16 && e.permissions < U16 && e.uid < U32 && e.gid < U32 && e.mtime < U64 && e.size < U64
  }

  /** The record an entry describes, without content. */
  function EntryInfo(e: DirEntry): FileInfo
    requires InFields(e)
  {
    var mtime := FromU64(e.mtime);
    FileInfo(e.path, e.fileType, e.permissions, e.uid, e.gid, FromU64(e.size), mtime, mtime, mtime, e.linkTarget, 0, [])
  }

  /** The content range of an entry lies inside the archive. */
  predicate ContentPresent(data: seq<byte>, e: DirEntry) {
    e.fileType == S_IFREG && e.size > 0 ==> e.offset + e.size <= |data|
  }

  function Restored(data: seq<byte>, e: DirEntry): FileInfo
    requires InFields(e) && ContentPresent(data, e)
  {
    if e.fileType == S_IFREG && e.size > 0 then EntryInfo(e).(content := data[e.offset..e.offset + e.size])
    else EntryInfo(e)
  }

  /** The files read back; None when a directory entry or a content range leaves the archive. */
  function Unpacked(data: seq<byte>): Option<seq<FileInfo>> {
    if |data| < END_RECORD then Some([]) else
      var eocd := data[|data| - END_RECORD..];
      if FromLE(eocd[0..4]) != SIGNATURE then Some([]) else
        var es :- ParsedDir(data, FromLE(eocd[8..16]), FromLE(eocd[4..8]));
        if forall k :: 0 <= k < |es| ==> ContentPresent(data, es[k])
        then Some(seq(|es|, k requires 0 <= k < |es| => Restored(data, es[k])))
        else None
  }

  method ReadDirectory(data: seq<byte>, start: nat, count: nat) returns (entries: seq<DirEntry>)
    requires ParsedDir(data, start, count).Some?
    ensures ParsedDir(data, start, count) == Some(entries)
  {
    hide ParsedEntry, InFields;
    entries := [];
    var cdOff := start;
    ghost var whole := ParsedDir(data, start, count).value;
    assert [] + whole == whole;
    for i := 0 to count
      invariant ParsedDir(data, cdOff, count - i).Some?
      invariant entries + ParsedDir(data, cdOff, count - i).value == whole
    {
      ghost var before, o := entries, cdOff;
      var e;
      e, cdOff := DeserializeEntry(data, cdOff);
      Regroup(before, e, ParsedDir(data, o, count - i).value, ParsedDir(data, cdOff, count - i - 1).value);
      entries := entries + [e];
    }
    assert entries + [] == entries;
  }

  /** The fields of the end record that unpack reads; the directory size is read and ignored. */
  method ReadEndRecord(data: seq<byte>) returns (signature: nat, entryCount: nat, centralDirStart: nat)
    requires |data| >= END_RECORD
    ensures var eocd := data[|data| - END_RECORD..];
            signature == FromLE(eocd[0..4]) && entryCount == FromLE(eocd[4..8]) && centralDirStart == FromLE(eocd[8..16])
  {
    hide FromLE;
    var start := |data| - END_RECORD;
    var off;
    signature, off := ReadLE(data, start, 4);
    entryCount, off := ReadLE(data, off, 4);
    centralDirStart, off := ReadLE(data, off, 8);
    ghost var eocd := data[start..];
    assert data[start..start + 4] == eocd[0..4];
    assert data[start + 4..start + 8] == eocd[4..8];
    assert data[start + 8..start + 16] == eocd[8..16];
  }

  method Unpack(data: seq<byte>) returns (outFiles: seq<FileInfo>)
    requires Unpacked(data).Some?
    ensures Unpacked(data) == Some(outFiles)
  {
    outFiles := [];
    if |data| < END_RECORD {
      return;
    }
    hide FromLE, ParsedDir, Restored, ContentPresent;
    var signature, entryCount, centralDirStart := ReadEndRecord(data);
    if signature != SIGNATURE {
      return;
    }
    var entries := ReadDirectory(data, centralDirStart, entryCount);
    outFiles := RestoreEntries(data, entries);
  }

  method RestoreEntries(data: seq<byte>, entries: seq<DirEntry>) returns (outFiles: seq<FileInfo>)
    requires forall k :: 0 <= k < |entries| ==> InFields(entries[k]) && ContentPresent(data, entries[k])
    ensures outFiles == seq(|entries|, k requires 0 <= k < |entries| => Restored(data, entries[k]))
  {
    outFiles := [];
    for i := 0 to |entries|
      invariant |outFiles| == i && forall k :: 0 <= k < i ==> outFiles[k] == Restored(data, entries[k])
    {
      var e := entries[i];
      var info := EntryInfo(e);
      if info.IsRegular() && e.size > 0 {
        info := info.(content := data[e.offset..e.offset + e.size]);
      }
      outFiles := outFiles + [info];
    }
  }

  // ----- round trip -----

  /** What comes back: mode fields cut to 16 bits, one time stamp, no device, content of regular files only. */
  function IndexView(f: FileInfo): FileInfo {
    FileInfo(f.relativePath, f.fileType % U16, f.permissions % U16, f.owner, f.group, FromU64(|Data(f)| % U64),
             f.mtime, f.mtime, f.mtime, f.symlinkTarget, 0, Data(f))
  }

  /** The limits of the fields: 16-bit string lengths, a 32-bit count, 64-bit offsets. */
  ghost predicate WithinIndex(fs: seq<FileInfo>) {
    && |fs| < U32 && |DataArea(fs)| < U64
    && (forall k :: 0 <= k < |fs| ==> |fs[k].relativePath| < U16 && |fs[k].symlinkTarget| < U16)
  }

  function IndexViews(fs: seq<FileInfo>): (r: seq<FileInfo>)
    ensures |r| == |fs|
    ensures forall k :: 0 <= k < |fs| ==> r[k] == IndexView(fs[k])
  {
    seq(|fs|, k requires 0 <= k < |fs| => IndexView(fs[k]))
  }

  lemma {:induction false} DirRoundTrip(es: seq<DirEntry>, data: seq<byte>, start: nat, post: seq<byte>)
    requires forall k :: 0 <= k < |es| ==> EntryHolds(es[k])
    requires start <= |data| && data[start..] == DirBytes(es) + post
    ensures ParsedDir(data, start, |es|) == Some(es)
    decreases |es|
  {
    hide EntryHolds, EntryBytes, ParsedEntry, InFields;
    if es == [] {
    } else {
      var rest := DirBytes(es[1..]) + post;
      assert DirBytes(es) + post == EntryBytes(es[0]) + rest;
      EntryRoundTrip(es[0], data, start, rest);
      DirRoundTrip(es[1..], data, start + |EntryBytes(es[0])|, post);
      assert [es[0]] + es[1..] == es;
    }
  }

  lemma {:induction false} EntriesHold(fs: seq<FileInfo>, k: nat, e: DirEntry)
    requires WithinIndex(fs) && k < |fs| && e == Entries(fs)[k]
    ensures EntryHolds(e)
  {
    hide DataArea;
    RangeHoldsContent(fs, k, e);
  }

  lemma {:induction false} EntryInfoIsView(f: FileInfo, offset: nat)
    requires |Data(f)| < U64
    ensures InFields(EntryFor(f, offset)) && EntryInfo(EntryFor(f, offset)) == IndexView(f).(content := [])
  {
    SignedRoundTrip(f.mtime);
    hide ToU64, FromU64;
  }

  lemma {:induction false} SliceOfPrefix(area: seq<byte>, data: seq<byte>, from: nat, to: nat)
    requires |area| <= |data| && data[..|area|] == area && from <= to <= |area|
    ensures data[from..to] == area[from..to]
  {
    assert data == area + data[|area|..];
  }

  /** A stored entry and its range give the view of its file. */
  lemma {:induction false} RestoredIsView(fs: seq<FileInfo>, k: nat, e: DirEntry, data: seq<byte>)
    requires WithinIndex(fs) && k < |fs| && e == Entries(fs)[k]
    requires |DataArea(fs)| <= |data| && data[..|DataArea(fs)|] == DataArea(fs)
    ensures InFields(e) && ContentPresent(data, e) && Restored(data, e) == IndexView(fs[k])
  {
    hide DataArea, EndOf, EntryInfo, InFields, EntryHolds;
    RangeHoldsContent(fs, k, e);
    EntryInfoIsView(fs[k], e.offset);
    SliceOfPrefix(DataArea(fs), data, e.offset, e.offset + e.size);
    assert data[e.offset..e.offset + e.size] == Data(fs[k]);
    assert e.size == 0 ==> Data(fs[k]) == [];
  }

  lemma {:induction false} EndRecordSlices(a: seq<byte>, b: seq<byte>, c: seq<byte>, d: seq<byte>)
    requires |a| == 4 && |b| == 4 && |c| == 8
    ensures (a + b + c + d)[0..4] == a && (a + b + c + d)[4..8] == b && (a + b + c + d)[8..16] == c
  {
  }

  lemma {:induction false} EndRecordFields(count: nat, start: nat, size: nat)
    requires count < U32 && start < U64
    ensures var r := EndRecord(count, start, size);
            FromLE(r[0..4]) == SIGNATURE && FromLE(r[4..8]) == count && FromLE(r[8..16]) == start
  {
    Widths();
    LERoundTrip(SIGNATURE, 4);
    LERoundTrip(count, 4);
    LERoundTrip(start, 8);
    hide LE, FromLE, Pow256;
    EndRecordSlices(LE(SIGNATURE, 4), LE(count, 4), LE(start, 8), LE(size, 8) + Zeros(8));
    assert EndRecord(count, start, size) == LE(SIGNATURE, 4) + LE(count, 4) + LE(start, 8) + (LE(size, 8) + Zeros(8));
  }

  lemma {:induction false} ThreeParts(area: seq<byte>, dir: seq<byte>, eocd: seq<byte>, data: seq<byte>)
    requires data == area + dir + eocd && |eocd| == END_RECORD
    ensures |data| >= END_RECORD && |area| <= |data| && data[..|area|] == area
    ensures data[|area|..] == dir + eocd && data[|data| - END_RECORD..] == eocd
  {
  }

  /** Within the field limits, unpacking gives back the view of every file, in order. */
  lemma {:induction false} IndexRoundTrip(fs: seq<FileInfo>)
    requires WithinIndex(fs)
    ensures Unpacked(Packed(fs)) == Some(IndexViews(fs))
  {
    var es, data := Entries(fs), Packed(fs);
    var dir := DirBytes(es);
    var eocd := EndRecord(|fs|, |DataArea(fs)|, |dir|);
    ThreeParts(DataArea(fs), dir, eocd, data);
    EndRecordFields(|fs|, |DataArea(fs)|, |dir|);
    AllHold(fs, es);
    hide DirBytes, DataArea, EndRecord, FromLE, EntryHolds, Restored, IndexView, WithinIndex, Entries, ContentPresent;
    DirRoundTrip(es, data, |DataArea(fs)|, eocd);
    AllRestored(fs, es, data);
  }

  lemma {:induction false} AllHold(fs: seq<FileInfo>, es: seq<DirEntry>)
    requires WithinIndex(fs) && es == Entries(fs)
    ensures forall k :: 0 <= k < |es| ==> EntryHolds(es[k])
  {
    forall k | 0 <= k < |es| ensures EntryHolds(es[k]) {
      EntriesHold(fs, k, es[k]);
    }
  }

  lemma {:induction false} AllRestored(fs: seq<FileInfo>, es: seq<DirEntry>, data: seq<byte>)
    requires WithinIndex(fs) && es == Entries(fs)
    requires |DataArea(fs)| <= |data| && data[..|DataArea(fs)|] == DataArea(fs)
    ensures forall k :: 0 <= k < |es| ==> InFields(es[k]) && ContentPresent(data, es[k])
    ensures seq(|es|, k requires 0 <= k < |es| => Restored(data, es[k])) == IndexViews(fs)
  {
    hide DataArea, Restored, IndexView, InFields, ContentPresent;
    forall k | 0 <= k < |es|
      ensures InFields(es[k]) && ContentPresent(data, es[k]) && Restored(data, es[k]) == IndexView(fs[k])
    {
      RestoredIsView(fs, k, es[k], data);
    }
  }
}
