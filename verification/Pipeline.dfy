/** What a backup followed by a restore brings back, for every combination of stages. */
module Pipeline {
  import opened Bytes
  import opened FileRecords
  import opened Engine
  import Metadata
  import TarPack
  import IndexPack
  import Raw
  import HuffmanTree
  import HuffmanStream

  // ----- when Huffman loses the payload -----

  lemma {:induction false} TwoBytesDiffer(data: seq<byte>, i: nat, j: nat)
    requires i < |data| && j < |data| && data[i] != data[j]
    ensures HuffmanStream.TwoDistinct(data)
  {
    assert data[if i < j then i else j] != data[if i < j then j else i];
  }

  lemma {:induction false} TarPayloadVaries(fs: seq<FileInfo>)
    ensures HuffmanStream.TwoDistinct(TarPack.Packed(fs)) <==> fs != []
  {
    var data := TarPack.Packed(fs);
    if fs != [] {
      var h := TarPack.Header(fs[0]);
      TarPack.HeaderDigitAndNul(fs[0]);
      assert data[..TarPack.BLOCK] == h;
      assert data[100] == h[100] && data[107] == h[107];
      TwoBytesDiffer(data, 100, 107);
    } else {
      assert data == Zeros(2 * TarPack.BLOCK);
    }
  }

  lemma {:induction false} IndexPayloadVaries(fs: seq<FileInfo>)
    ensures HuffmanStream.TwoDistinct(IndexPack.Packed(fs))
  {
    hide IndexPack.DataArea, IndexPack.DirBytes;
    var data, n := IndexPack.Packed(fs), |IndexPack.Packed(fs)| - IndexPack.END_RECORD;
    var r := IndexPack.EndRecord(|fs|, |IndexPack.DataArea(fs)|, |IndexPack.DirBytes(IndexPack.Entries(fs))|);
    SignatureBytes();
    assert data[n] == r[0] == LE(IndexPack.SIGNATURE, 4)[0] && data[n + 1] == r[1] == LE(IndexPack.SIGNATURE, 4)[1];
    TwoBytesDiffer(data, n, n + 1);
  }

  lemma {:induction false} SignatureBytes()
    ensures LE(IndexPack.SIGNATURE, 4)[0] == 0x31 && LE(IndexPack.SIGNATURE, 4)[1] == 0x58
  {
    assert LE(IndexPack.SIGNATURE, 4) == [0x31] + LE(0x494458, 3);
    assert LE(0x494458, 3) == [0x58] + LE(0x4944, 2);
  }

  lemma {:induction false} CountBytes(n: nat)
    requires n <= Raw.MOST_FILES
    ensures LE(n, 4)[3] == 0
    ensures n > 0 ==> LE(n, 4)[0] != 0 || LE(n, 4)[1] != 0 || LE(n, 4)[2] != 0
    ensures n == 0 ==> LE(n, 4) == [0, 0, 0, 0]
  {
    assert LE(n, 4) == [n % 256] + LE(n / 256, 3);
    assert LE(n / 256, 3) == [n / 256 % 256] + LE(n / 256 / 256, 2);
    assert LE(n / 256 / 256, 2) == [n / 256 / 256 % 256] + LE(n / 256 / 256 / 256, 1);
    assert LE(n / 256 / 256 / 256, 1) == [n / 256 / 256 / 256 % 256] + LE(n / 256 / 256 / 256 / 256, 0);
  }

  lemma {:induction false} RawPayloadVaries(fs: seq<FileInfo>)
    requires Raw.CountKept(fs) <= Raw.MOST_FILES
    ensures HuffmanStream.TwoDistinct(Raw.Concatenated(fs)) <==> Raw.CountKept(fs) > 0
  {
    var n, data := Raw.CountKept(fs), Raw.Concatenated(fs);
    CountBytes(n);
    assert data[..4] == LE(n, 4);
    assert data[0] == LE(n, 4)[0] && data[1] == LE(n, 4)[1] && data[2] == LE(n, 4)[2] && data[3] == LE(n, 4)[3];
    if n > 0 {
      TwoBytesDiffer(data, if data[0] != 0 then 0 else if data[1] != 0 then 1 else 2, 3);
    } else {
      assert data == [0, 0, 0, 0];
    }
  }

  // ----- outcome by packing -----

  lemma {:induction false} RestoreTar(tb: HuffmanTree.TieBreak, c: Compression, e: Encryption, fs: seq<FileInfo>, password: seq<byte>)
    requires Admissible(tb, Tar, c, fs) && TarPack.SizesFit(fs)
    ensures RestoreOf(tb, BackupOf(tb, Tar, c, e, fs, password), password) ==
            if !Keyed(e, password) then UnkeyedOutcome(tb, Tar, c, fs)
            else Done(Metadata.StoredAll(fs), Written(Metadata.StoredAll(fs), TarPack.TarViews(fs)))
  {
    RestoreOfBackup(tb, Tar, c, e, fs, password);
    hide RestoreOf, Written, TarPack.Packed, Admissible, UnkeyedOutcome, Keyed;
    TarPayloadVaries(fs);
    TarPack.TarRoundTrip(fs);
    assert TarPack.Unpacked([], 0) == [];
    if fs == [] {
      assert TarPack.TarViews(fs) == [];
    }
  }

  lemma {:induction false} RestoreIndex(tb: HuffmanTree.TieBreak, c: Compression, e: Encryption, fs: seq<FileInfo>, password: seq<byte>)
    requires Admissible(tb, Index, c, fs) && IndexPack.WithinIndex(fs)
    ensures RestoreOf(tb, BackupOf(tb, Index, c, e, fs, password), password) ==
            if !Keyed(e, password) then UnkeyedOutcome(tb, Index, c, fs)
            else Done(Metadata.StoredAll(fs), Written(Metadata.StoredAll(fs), IndexPack.IndexViews(fs)))
  {
    RestoreOfBackup(tb, Index, c, e, fs, password);
    hide RestoreOf, Written, IndexPack.Packed, IndexPack.Unpacked, Admissible, UnkeyedOutcome, Keyed;
    IndexPayloadVaries(fs);
    IndexPack.IndexRoundTrip(fs);
  }

  /** Raw mode: refused above a million non-empty files, and under Huffman when there is none. */
  lemma {:induction false} RestoreRaw(tb: HuffmanTree.TieBreak, c: Compression, e: Encryption, fs: seq<FileInfo>, password: seq<byte>)
    requires Admissible(tb, NoPacking, c, fs) && Raw.FitRaw(fs)
    ensures RestoreOf(tb, BackupOf(tb, NoPacking, c, e, fs, password), password) ==
            var n := Raw.CountKept(fs);
            if !Keyed(e, password) then UnkeyedOutcome(tb, NoPacking, c, fs)
            else if n > Raw.MOST_FILES || (c.Huffman? && n == 0) then Refused
            else Done(Metadata.StoredAll(fs), Written(Metadata.StoredAll(fs), Raw.RawViews(Raw.KeptOnly(fs))))
  {
    RestoreOfBackup(tb, NoPacking, c, e, fs, password);
    Raw.RawRoundTrip(fs);
    assert Raw.Parsed([]).Refused?;
    hide RestoreOf, Written, Raw.Concatenated, Raw.Parsed, UnkeyedOutcome, Keyed;
    if Raw.CountKept(fs) <= Raw.MOST_FILES {
      RawPayloadVaries(fs);
    }
  }

  // ----- contents by path -----

  /** The path of every regular file with its content. */
  ghost function Contents(fs: seq<FileInfo>): map<seq<byte>, seq<byte>> {
    if fs == [] then map[] else
      var m := Contents(fs[..|fs| - 1]);
      var f := fs[|fs| - 1];
      if f.IsRegular() then m[f.relativePath := f.content] else m
  }

  ghost predicate DistinctPaths(fs: seq<FileInfo>) {
    forall j, k :: 0 <= j < k < |fs| ==> fs[j].relativePath != fs[k].relativePath
  }

  ghost predicate RegularAt(fs: seq<FileInfo>, path: seq<byte>, k: nat) {
    k < |fs| && fs[k].IsRegular() && fs[k].relativePath == path
  }

  lemma {:induction false} WrittenMember(entries: seq<FileInfo>, restored: seq<FileInfo>, path: seq<byte>)
    ensures path in Written(entries, restored) <==> (exists k: nat :: RegularAt(entries, path, k)) && Find(restored, path).Some?
    ensures path in Written(entries, restored) ==> Written(entries, restored)[path] == Find(restored, path).value.content
  {
    if entries == [] {
    } else {
      var n := |entries| - 1;
      var pre := entries[..n];
      WrittenMember(pre, restored, path);
      hide Find;
      assert forall k: nat :: RegularAt(pre, path, k) ==> RegularAt(entries, path, k);
      assert forall k: nat :: RegularAt(entries, path, k) ==> k == n || RegularAt(pre, path, k);
      assert entries[n].IsRegular() && entries[n].relativePath == path ==> RegularAt(entries, path, n);
    }
  }

  lemma {:induction false} ContentsMember(fs: seq<FileInfo>, path: seq<byte>)
    requires DistinctPaths(fs)
    ensures path in Contents(fs) <==> exists k: nat :: RegularAt(fs, path, k)
    ensures forall k: nat :: RegularAt(fs, path, k) ==> path in Contents(fs) && Contents(fs)[path] == fs[k].content
  {
    if fs == [] {
    } else {
      var n := |fs| - 1;
      var pre := fs[..n];
      ContentsMember(pre, path);
      assert forall k: nat :: RegularAt(pre, path, k) ==> RegularAt(fs, path, k);
      assert forall k: nat :: RegularAt(fs, path, k) ==> k == n || RegularAt(pre, path, k);
      assert fs[n].IsRegular() && fs[n].relativePath == path ==> RegularAt(fs, path, n);
    }
  }

  lemma {:induction false} FindDistinct(views: seq<FileInfo>, k: nat)
    requires k < |views| && DistinctPaths(views)
    ensures Find(views, views[k].relativePath) == Some(views[k])
    decreases k
  {
    if k == 0 {
    } else {
      assert views[0].relativePath != views[k].relativePath;
      var rest := views[1..];
      assert forall j :: 0 <= j < |rest| ==> rest[j] == views[j + 1];
      FindDistinct(rest, k - 1);
    }
  }

  /** Records with the same distinct paths and the same regular contents write exactly the contents. */
  lemma {:induction false} WrittenIsContents(fs: seq<FileInfo>, views: seq<FileInfo>)
    requires DistinctPaths(fs) && |views| == |fs|
    requires forall k :: 0 <= k < |fs| ==> views[k].relativePath == fs[k].relativePath
    requires forall k :: 0 <= k < |fs| && fs[k].IsRegular() ==> views[k].content == fs[k].content
    ensures Written(Metadata.StoredAll(fs), views) == Contents(fs)
  {
    var w, m := Written(Metadata.StoredAll(fs), views), Contents(fs);
    assert DistinctPaths(views);
    forall path ensures (path in w <==> path in m) && (path in w ==> w[path] == m[path]) {
      WrittenMember(Metadata.StoredAll(fs), views, path);
      ContentsMember(fs, path);
      SameRegular(fs, path);
      if k: nat :| RegularAt(fs, path, k) {
        FindDistinct(views, k);
      }
    }
    hide Written, Contents;
    assert w == m;
  }

  lemma {:induction false} SameRegular(fs: seq<FileInfo>, path: seq<byte>)
    ensures (exists k: nat :: RegularAt(Metadata.StoredAll(fs), path, k)) <==> exists k: nat :: RegularAt(fs, path, k)
  {
    assert forall k: nat :: RegularAt(Metadata.StoredAll(fs), path, k) <==> RegularAt(fs, path, k);
  }

  // ----- the identity -----

  /** The limits of each packing. */
  ghost predicate Fits(p: Packing, fs: seq<FileInfo>) {
    match p
    case Tar => TarPack.SizesFit(fs)
    case Index => |IndexPack.DataArea(fs)| < U64
    case NoPacking => Raw.FitRaw(fs)
  }

  /** What tar packs for a record. */
  function Carried(f: FileInfo): seq<byte> {
    if f.IsRegular() then f.content else []
  }

  /** The first record whose path, cut to what a tar header holds, is this one. */
  ghost predicate FirstCut(fs: seq<FileInfo>, path: seq<byte>, j: nat) {
    && j < |fs| && TarPack.Cut(fs[j].relativePath) == path
    && forall i :: 0 <= i < j ==> TarPack.Cut(fs[i].relativePath) != path
  }

  /** The record that the restore takes for record k's path carries k's content. */
  ghost predicate OwnContentFirst(fs: seq<FileInfo>, k: nat)
    requires k < |fs|
  {
    exists j: nat :: FirstCut(fs, fs[k].relativePath, j) && Carried(fs[j]) == fs[k].content
  }

  /** No regular file loses its place to another. */
  ghost predicate Preserved(p: Packing, fs: seq<FileInfo>) {
    p.Tar? ==> forall k :: 0 <= k < |fs| && fs[k].IsRegular() ==> OwnContentFirst(fs, k)
  }

  lemma {:induction false} FindCut(fs: seq<FileInfo>, path: seq<byte>)
    ensures var r := Find(TarPack.TarViews(fs), path);
            r.Some? <==> exists j: nat :: FirstCut(fs, path, j)
    ensures var r := Find(TarPack.TarViews(fs), path);
            r.Some? ==> forall j: nat :: FirstCut(fs, path, j) ==> r.value.content == Carried(fs[j])
  {
    hide TarPack.Cut;
    if fs == [] {
    } else {
      var rest := fs[1..];
      var views := TarPack.TarViews(fs);
      assert views[0] == TarPack.TarView(fs[0]) && views[1..] == TarPack.TarViews(rest);
      assert Find(views, path) == if views[0].relativePath == path then Some(views[0]) else Find(views[1..], path);
      hide Find;
      if TarPack.Cut(fs[0].relativePath) == path {
        assert FirstCut(fs, path, 0);
      } else {
        FindCut(rest, path);
        assert forall i :: 0 <= i < |rest| ==> rest[i] == fs[i + 1];
        forall j: nat ensures FirstCut(fs, path, j) <==> j > 0 && FirstCut(rest, path, j - 1) {
          FirstCutLater(fs, rest, path, j);
        }
        if j: nat :| FirstCut(rest, path, j) {
          assert FirstCut(fs, path, j + 1);
        }
      }
    }
  }

  lemma {:induction false} FirstCutLater(fs: seq<FileInfo>, rest: seq<FileInfo>, path: seq<byte>, j: nat)
    requires fs != [] && rest == fs[1..] && TarPack.Cut(fs[0].relativePath) != path
    ensures FirstCut(fs, path, j) <==> j > 0 && FirstCut(rest, path, j - 1)
  {
    hide TarPack.Cut;
    assert forall i :: 0 <= i < |rest| ==> rest[i] == fs[i + 1];
    if j > 0 && FirstCut(rest, path, j - 1) {
      forall i | 0 <= i < j ensures TarPack.Cut(fs[i].relativePath) != path {
        assert i > 0 ==> fs[i] == rest[i - 1];
      }
    }
  }

  lemma {:induction false} FirstCutUnique(fs: seq<FileInfo>, path: seq<byte>, i: nat, j: nat)
    requires FirstCut(fs, path, i) && FirstCut(fs, path, j)
    ensures i == j
  {
    hide TarPack.Cut;
  }

  /** Under tar a regular file comes back with its own content exactly if the first record whose cut path is
      its path carries that content.  Its path is then free of NULs and at most 100 bytes long; but that alone
      is not enough, since an earlier longer path may be cut to it. */
  lemma {:induction false} TarBringsBackIff(fs: seq<FileInfo>, k: nat)
    requires k < |fs| && fs[k].IsRegular()
    ensures var w, path := Written(Metadata.StoredAll(fs), TarPack.TarViews(fs)), fs[k].relativePath;
            && ((path in w && w[path] == fs[k].content) <==> OwnContentFirst(fs, k))
            && (path in w <==> 0 !in path && |path| <= 100)
  {
    var path, views := fs[k].relativePath, TarPack.TarViews(fs);
    WrittenMember(Metadata.StoredAll(fs), views, path);
    assert RegularAt(Metadata.StoredAll(fs), path, k);
    FindCut(fs, path);
    CutFound(fs, k);
    hide Written, Find, TarPack.Cut, Carried, RegularAt;
    if j: nat :| FirstCut(fs, path, j) {
      forall i: nat | FirstCut(fs, path, i) ensures i == j {
        FirstCutUnique(fs, path, i, j);
      }
    }
  }

  /** Some cut path is this path exactly if the path is not changed by cutting. */
  lemma {:induction false} CutFound(fs: seq<FileInfo>, k: nat)
    requires k < |fs|
    ensures var path := fs[k].relativePath;
            (exists j: nat :: FirstCut(fs, path, j)) <==> 0 !in path && |path| <= 100
  {
    var path := fs[k].relativePath;
    TarPack.CutWhole(path);
    if j: nat :| FirstCut(fs, path, j) {
      TarPack.CutClean(fs[j].relativePath);
    }
    hide TarPack.Cut;
    if TarPack.Cut(path) == path {
      var j := LeastCut(fs, path, k);
    }
  }

  lemma {:induction false} LeastCut(fs: seq<FileInfo>, path: seq<byte>, k: nat) returns (j: nat)
    requires k < |fs| && TarPack.Cut(fs[k].relativePath) == path
    ensures FirstCut(fs, path, j)
    decreases k
  {
    hide TarPack.Cut;
    if i: nat :| i < k && TarPack.Cut(fs[i].relativePath) == path {
      j := LeastCut(fs, path, i);
    } else {
      j := k;
    }
  }

  /** With one record per path, what tar writes is every regular path with its content exactly if no file
      loses its place. */
  lemma {:induction false} TarWritesAllIff(fs: seq<FileInfo>)
    requires DistinctPaths(fs)
    ensures Written(Metadata.StoredAll(fs), TarPack.TarViews(fs)) == Contents(fs) <==> Preserved(Tar, fs)
  {
    var w, m := Written(Metadata.StoredAll(fs), TarPack.TarViews(fs)), Contents(fs);
    hide Written, Contents, OwnContentFirst, Metadata.StoredAll, TarPack.TarViews;
    forall k: nat | k < |fs| && fs[k].IsRegular()
      ensures fs[k].relativePath in m
      ensures OwnContentFirst(fs, k) <==> fs[k].relativePath in w && w[fs[k].relativePath] == m[fs[k].relativePath]
    {
      TarBringsBackIff(fs, k);
      assert RegularAt(fs, fs[k].relativePath, k);
      ContentsMember(fs, fs[k].relativePath);
    }
    if Preserved(Tar, fs) {
      forall path ensures (path in w <==> path in m) && (path in w ==> w[path] == m[path]) {
        WrittenMember(Metadata.StoredAll(fs), TarPack.TarViews(fs), path);
        SameRegular(fs, path);
        ContentsMember(fs, path);
      }
      assert w == m;
    }
  }

  /** Short paths are enough, when no two are the same and none is longer. */
  lemma {:induction false} ShortPathsPreserved(fs: seq<FileInfo>)
    requires DistinctPaths(fs)
    requires forall k :: 0 <= k < |fs| ==> 0 !in fs[k].relativePath && |fs[k].relativePath| <= 100
    ensures Preserved(Tar, fs)
  {
    hide TarPack.Cut;
    forall k | 0 <= k < |fs| ensures TarPack.Cut(fs[k].relativePath) == fs[k].relativePath {
      TarPack.CutWhole(fs[k].relativePath);
    }
    forall k: nat | k < |fs| && fs[k].IsRegular() ensures OwnContentFirst(fs, k) {
      assert FirstCut(fs, fs[k].relativePath, k);
    }
  }

  function PlainFile(path: seq<byte>, content: seq<byte>): FileInfo {
    FileInfo(path, S_IFREG, 0, 0, 0, 0, 0, 0, 0, [], 0, content)
  }

  /** A failing input: a file whose path is another file's 100-byte path with one byte more, and comes first.
      The short path gets the long one's content, and the long path nothing. */
  lemma {:induction false} CutNameTakesOver(short: seq<byte>, c: byte, a: seq<byte>, b: seq<byte>)
    requires |short| == 100 && 0 !in short && a != b
    ensures var fs := [PlainFile(short + [c], a), PlainFile(short, b)];
            && DistinctPaths(fs) && !Preserved(Tar, fs)
            && Written(Metadata.StoredAll(fs), TarPack.TarViews(fs)) == map[short := a]
  {
    var long := short + [c];
    var fs := [PlainFile(long, a), PlainFile(short, b)];
    TarPack.CutPrefix(short, [c]);
    TarPack.CutWhole(short);
    hide TarPack.Cut;
    assert FirstCut(fs, short, 0);
    forall i: nat | FirstCut(fs, short, i) ensures i == 0 {
      FirstCutUnique(fs, short, i, 0);
    }
    assert fs[1].relativePath == short && !OwnContentFirst(fs, 1);
    var w := Written(Metadata.StoredAll(fs), TarPack.TarViews(fs));
    FindCut(fs, short);
    WrittenMember(Metadata.StoredAll(fs), TarPack.TarViews(fs), short);
    assert RegularAt(Metadata.StoredAll(fs), short, 1);
    TarBringsBackIff(fs, 0);
    hide Written, Find, FirstCut, OwnContentFirst, Preserved;
    forall path | path in w ensures path == short {
      WrittenMember(Metadata.StoredAll(fs), TarPack.TarViews(fs), path);
    }
    assert w == map[short := a];
  }

  /** Pipeline identity: tar or index, any compression, any encryption with a key.  The metadata list comes
      back in order and every regular path gets its own content, empty files included: under index always,
      under tar exactly if no file loses its place. */
  lemma {:induction false} BackupThenRestore(tb: HuffmanTree.TieBreak, p: Packing, c: Compression, e: Encryption,
                                             fs: seq<FileInfo>, password: seq<byte>)
    requires !p.NoPacking? && Admissible(tb, p, c, fs) && Keyed(e, password) && Fits(p, fs) && DistinctPaths(fs)
    ensures RestoreOf(tb, BackupOf(tb, p, c, e, fs, password), password) == Done(Metadata.StoredAll(fs), Contents(fs)) <==> Preserved(p, fs)
  {
    hide RestoreOf, BackupOf, Written, Contents, Metadata.StoredAll, Preserved;
    if p.Tar? {
      RestoreTar(tb, c, e, fs, password);
      TarWritesAllIff(fs);
    } else {
      assert IndexPack.WithinIndex(fs);
      RestoreIndex(tb, c, e, fs, password);
      WrittenIsContents(fs, IndexPack.IndexViews(fs));
      IndexPreserves(fs);
    }
  }

  lemma {:induction false} IndexPreserves(fs: seq<FileInfo>)
    ensures Preserved(Index, fs)
  {
  }

  /** Raw mode brings back exactly the non-empty regular files, when it is not refused. */
  lemma {:induction false} RawBackupThenRestore(tb: HuffmanTree.TieBreak, c: Compression, e: Encryption,
                                                fs: seq<FileInfo>, password: seq<byte>)
    requires Admissible(tb, NoPacking, c, fs) && Keyed(e, password) && Fits(NoPacking, fs) && DistinctPaths(fs)
    ensures RestoreOf(tb, BackupOf(tb, NoPacking, c, e, fs, password), password) ==
            if Raw.CountKept(fs) > Raw.MOST_FILES || (c.Huffman? && Raw.CountKept(fs) == 0) then Refused
            else Done(Metadata.StoredAll(fs), Contents(Raw.KeptOnly(fs)))
  {
    RestoreRaw(tb, c, e, fs, password);
    hide RestoreOf, BackupOf;
    WrittenIsKept(fs);
  }

  lemma {:induction false} KeptDistinct(fs: seq<FileInfo>)
    requires DistinctPaths(fs)
    ensures DistinctPaths(Raw.KeptOnly(fs))
  {
    if fs == [] {
    } else {
      var rest := fs[1..];
      assert forall j :: 0 <= j < |rest| ==> rest[j] == fs[j + 1];
      KeptDistinct(rest);
      var kept := Raw.KeptOnly(rest);
      forall j | 0 <= j < |kept| ensures kept[j].relativePath != fs[0].relativePath {
        assert kept[j] in rest;
      }
    }
  }

  lemma {:induction false} FindRaw(kept: seq<FileInfo>, path: seq<byte>)
    ensures Find(kept, path).Some? <==> Find(Raw.RawViews(kept), path).Some?
    ensures Find(kept, path).Some? ==> Find(Raw.RawViews(kept), path).value.content == Find(kept, path).value.content
  {
    if kept == [] {
    } else {
      FindRaw(kept[1..], path);
      assert Raw.RawViews(kept)[1..] == Raw.RawViews(kept[1..]);
    }
  }

  lemma {:induction false} WrittenAtPath(fs: seq<FileInfo>, kept: seq<FileInfo>, path: seq<byte>)
    requires DistinctPaths(fs) && kept == Raw.KeptOnly(fs)
    ensures var w, m := Written(Metadata.StoredAll(fs), Raw.RawViews(kept)), Contents(kept);
            (path in w <==> path in m) && (path in w ==> w[path] == m[path])
  {
    KeptDistinct(fs);
    WrittenMember(Metadata.StoredAll(fs), Raw.RawViews(kept), path);
    SameRegular(fs, path);
    ContentsMember(kept, path);
    FindRaw(kept, path);
    KeptAtPath(fs, kept, path);
    hide Written, Contents, Find, Raw.KeptOnly, RegularAt;
  }

  lemma {:induction false} WrittenIsKept(fs: seq<FileInfo>)
    requires DistinctPaths(fs)
    ensures Written(Metadata.StoredAll(fs), Raw.RawViews(Raw.KeptOnly(fs))) == Contents(Raw.KeptOnly(fs))
  {
    hide Written, Contents, Raw.KeptOnly;
    var kept := Raw.KeptOnly(fs);
    var w, m := Written(Metadata.StoredAll(fs), Raw.RawViews(kept)), Contents(kept);
    forall path ensures (path in w <==> path in m) && (path in w ==> w[path] == m[path]) {
      WrittenAtPath(fs, kept, path);
    }
    assert w == m;
  }

  lemma {:induction false} KeptAtPath(fs: seq<FileInfo>, kept: seq<FileInfo>, path: seq<byte>)
    requires kept == Raw.KeptOnly(fs) && DistinctPaths(kept)
    ensures Find(kept, path).Some? <==> exists k: nat :: RegularAt(kept, path, k)
    ensures forall k: nat :: RegularAt(kept, path, k) ==> Find(kept, path) == Some(kept[k])
    ensures (exists k: nat :: RegularAt(kept, path, k)) ==> exists k: nat :: RegularAt(fs, path, k)
  {
    forall k: nat | RegularAt(kept, path, k)
      ensures Find(kept, path) == Some(kept[k]) && exists j: nat :: RegularAt(fs, path, j)
    {
      FindDistinct(kept, k);
      var j: nat :| j < |fs| && fs[j] == kept[k];
      assert RegularAt(fs, path, j);
    }
    if Find(kept, path).Some? {
      var f := Find(kept, path).value;
      var k: nat :| k < |kept| && kept[k] == f;
      assert RegularAt(kept, path, k);
    }
  }

  // ----- an empty password -----

  ghost predicate NoFiles(fs: seq<FileInfo>) {
    forall k :: 0 <= k < |fs| ==> !fs[k].IsRegular()
  }

  lemma {:induction false} NoFilesWritten(fs: seq<FileInfo>, restored: seq<FileInfo>)
    requires NoFiles(fs)
    ensures Written(Metadata.StoredAll(fs), restored) == map[] && Contents(fs) == map[]
  {
    hide Find;
    if fs == [] {
    } else {
      var pre := fs[..|fs| - 1];
      NoFilesWritten(pre, restored);
      assert Metadata.StoredAll(fs)[..|fs| - 1] == Metadata.StoredAll(pre);
    }
  }

  lemma {:induction false} UnpackNoFiles(p: Packing, d: Option<seq<byte>>, fs: seq<FileInfo>)
    requires NoFiles(fs)
    ensures var o := Unstaged(p, d, Metadata.StoredAll(fs));
            (o.Done? ==> o == Done(Metadata.StoredAll(fs), Contents(fs))) && (p.Tar? && d.Some? ==> o.Done?)
  {
    if d.Some? {
      NoFilesWritten(fs, TarPack.Unpacked(d.value, 0));
      if IndexPack.Unpacked(d.value).Some? {
        NoFilesWritten(fs, IndexPack.Unpacked(d.value).value);
      }
      if Raw.Parsed(d.value).Read? {
        NoFilesWritten(fs, Raw.Parsed(d.value).value);
      }
    }
    hide Written, Contents, TarPack.Unpacked, IndexPack.Unpacked, Raw.Parsed, NoFiles;
  }

  lemma {:induction false} DecompressesAlways(tb: HuffmanTree.TieBreak, c: Compression, data: seq<byte>)
    requires !c.Huffman?
    ensures DecompressedPayload(tb, c, data).Some?
  {
  }

  /** A list without regular files comes back under every password, the empty one included, exactly when the
      restore reaches its end; under tar, where Huffman does not come in, it always does. */
  lemma {:induction false} NoFilesSurvive(tb: HuffmanTree.TieBreak, p: Packing, c: Compression, e: Encryption,
                                          fs: seq<FileInfo>, password: seq<byte>)
    requires Admissible(tb, p, c, fs) && NoFiles(fs)
    ensures var o := RestoreOf(tb, BackupOf(tb, p, c, e, fs, password), password);
            && (o == Done(Metadata.StoredAll(fs), Contents(fs)) <==> o.Done?)
            && (p.Tar? && !c.Huffman? ==> o.Done?)
  {
    var data := PackedPayload(p, fs);
    var rest := WithoutSize(CompressedPayload(tb, c, data));
    RestoreOfBackup(tb, p, c, e, fs, password);
    UnpackNoFiles(p, Some(if Lossy(c, data) then [] else data), fs);
    UnpackNoFiles(p, DecompressedPayload(tb, c, rest), fs);
    if !c.Huffman? {
      DecompressesAlways(tb, c, rest);
    }
    hide RestoreOf, BackupOf, Contents, Admissible, PackedPayload, CompressedPayload, DecompressedPayload, UnpackedPayload, Lossy, Keyed, WithoutSize, NoFiles;
  }

  lemma {:induction false} OneFileContents(path: seq<byte>)
    ensures Contents([PlainFile(path, [])]) == map[path := []]
  {
    var fs := [PlainFile(path, [])];
    assert fs[..0] == [];
    assert Contents([]) == map[];
  }

  lemma {:induction false} OneFileLost(path: seq<byte>, restored: seq<FileInfo>)
    requires path != [] && forall k :: 0 <= k < |restored| ==> restored[k].relativePath == []
    ensures Written(Metadata.StoredAll([PlainFile(path, [])]), restored) == map[]
  {
    var fs := [PlainFile(path, [])];
    var w := Written(Metadata.StoredAll(fs), restored);
    hide Written, Find;
    forall q ensures q !in w {
      WrittenMember(Metadata.StoredAll(fs), restored, q);
      NeverFound(fs, path, q, restored);
    }
    assert w == map[];
  }

  /** A failing input for the empty password: one empty file with a path of at most eight bytes. Every path
      that the restore reads is empty then, and the file is not written. */
  lemma {:induction false} EmptyPasswordLoses(tb: HuffmanTree.TieBreak, path: seq<byte>)
    requires 0 < |path| <= 8
    ensures var fs := [PlainFile(path, [])];
            && RestoreOf(tb, BackupOf(tb, Tar, NoCompression, Vigenere, fs, []), []) == Done(Metadata.StoredAll(fs), map[])
            && Contents(fs) == map[path := []]
  {
    var fs := [PlainFile(path, [])];
    OneFileFits(path);
    OneFileContents(path);
    assert Admissible(tb, Tar, NoCompression, fs);
    RestoreOfBackup(tb, Tar, NoCompression, Vigenere, fs, []);
    BlankOutcome(tb, path);
    hide RestoreOf, BackupOf, Admissible, UnkeyedOutcome, Contents;
  }

  lemma {:induction false} BlankOutcome(tb: HuffmanTree.TieBreak, path: seq<byte>)
    requires 0 < |path| <= 8
    ensures var fs := [PlainFile(path, [])];
            UnkeyedOutcome(tb, Tar, NoCompression, fs) == Done(Metadata.StoredAll(fs), map[])
  {
    var f := PlainFile(path, []);
    var data := WithoutSize(TarPack.Packed([f]));
    assert TarPack.Body(f) == [];
    TarPack.BlankPacked(f);
    hide TarPack.Packed;
    TarPack.BlankNames(data, 0);
    OneFileLost(path, TarPack.Unpacked(data, 0));
    hide Written, TarPack.Unpacked, WithoutSize, Metadata.StoredAll;
  }

  lemma {:induction false} OneFileFits(path: seq<byte>)
    requires |path| <= 8
    ensures Metadata.AllStorable([PlainFile(path, [])]) && |Metadata.MetaBytes([PlainFile(path, [])])| < U32
  {
    var f := PlainFile(path, []);
    SerializedSize(f);
    hide Serialized, LE;
    assert [f][1..] == [] && Metadata.ListBytes([]) == [];
    assert |Metadata.ListBytes([f])| == 4 + |Serialized(f)|;
  }

  lemma {:induction false} NeverFound(fs: seq<FileInfo>, path: seq<byte>, q: seq<byte>, restored: seq<FileInfo>)
    requires fs == [PlainFile(path, [])] && path != []
    requires forall k :: 0 <= k < |restored| ==> restored[k].relativePath == []
    ensures !(exists k: nat :: RegularAt(Metadata.StoredAll(fs), q, k)) || Find(restored, q).None?
  {
    if k: nat :| RegularAt(Metadata.StoredAll(fs), q, k) {
      assert k == 0 && q == path;
    }
  }

  /** The prefix put in front of every path keeps different paths different. */
  lemma {:induction false} PrefixKeepsDistinct(base: seq<byte>, fs: seq<FileInfo>)
    requires DistinctPaths(fs)
    ensures DistinctPaths(Prefixed(base, fs))
  {
    if base != [] && base != [46] {
      forall j, k | 0 <= j < k < |fs| ensures Prefixed(base, fs)[j].relativePath != Prefixed(base, fs)[k].relativePath {
        var n := |base + [47]|;
        assert (base + [47] + fs[j].relativePath)[n..] == fs[j].relativePath;
        assert (base + [47] + fs[k].relativePath)[n..] == fs[k].relativePath;
      }
    }
  }
}
