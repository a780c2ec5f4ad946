/** The server's store: backup directories at the paths that user names and backup ids resolve to. */
module Storage {
  import opened Bytes
  import opened Paths
  import opened BackupIds
  import opened FileRecords
  import Metadata

  /** The files a backup directory may hold; metadata.bin stands for the list it serializes. */
  datatype Dir = Dir(header: Option<seq<byte>>, payload: Option<seq<byte>>,
                     metadata: Option<seq<FileInfo>>, name: Option<seq<byte>>)

  const EMPTY_DIR := Dir(None, None, None, None)

  type Dirs = map<Id, Dir>

  /** The storage directory, and all backup directories by their resolved paths. */
  datatype Store = Store(base: Path, dirs: map<Path, Dir>)

  /** userDir. */
  function UserPath(store: Store, user: seq<byte>): Path {
    Resolve(store.base, user)
  }

  /** backupDir: user name and id joined by a slash, then resolved. */
  function BackupPath(store: Store, user: seq<byte>, id: Id): Path {
    Resolve(store.base, user + [SLASH] + id)
  }

  predicate IsChild(up: Path, p: Path) {
    |p| == |up| + 1 && p[..|up|] == up
  }

  function ChildNames(dirs: map<Path, Dir>, up: Path): set<Id> {
    set p | p in dirs && IsChild(up, p) :: p[|up|]
  }

  /** What is in a directory, by name. */
  function ChildrenOf(dirs: map<Path, Dir>, up: Path): Dirs {
    map id | id in ChildNames(dirs, up) && up + [id] in dirs :: dirs[up + [id]]
  }

  /** The backup directories in a user's directory. */
  function DirsOf(store: Store, user: seq<byte>): Dirs {
    ChildrenOf(store.dirs, UserPath(store, user))
  }

  function DirAt(dirs: Dirs, id: Id): Dir {
    if id in dirs then dirs[id] else EMPTY_DIR
  }

  /** What is at the path that a user name and an id resolve to. */
  function DirFor(store: Store, user: seq<byte>, id: Id): Dir {
    var p := BackupPath(store, user, id);
    if p in store.dirs then store.dirs[p] else EMPTY_DIR
  }

  function Put(store: Store, user: seq<byte>, id: Id, d: Dir): Store {
    store.(dirs := store.dirs[BackupPath(store, user, id) := d])
  }

  function OrEmpty(o: Option<seq<byte>>): seq<byte> {
    if o.Some? then o.value else []
  }

  lemma {:induction false} ChildrenMember(dirs: map<Path, Dir>, up: Path, id: Id)
    ensures id in ChildrenOf(dirs, up) <==> up + [id] in dirs
    ensures id in ChildrenOf(dirs, up) ==> ChildrenOf(dirs, up)[id] == dirs[up + [id]]
  {
    var p := up + [id];
    assert p[|up|] == id && IsChild(up, p);
  }

  lemma {:induction false} ChildPath(up: Path, id: Id, q: Path, other: Id)
    ensures up + [id] == q + [other] <==> up == q && id == other
  {
    assert (up + [id])[..|up|] == up && (q + [other])[..|q|] == q;
    assert (up + [id])[|up|] == id && (q + [other])[|q|] == other;
  }

  /** A new child is seen in its parent directory and nowhere else. */
  lemma {:induction false} NewChild(dirs: map<Path, Dir>, up: Path, id: Id, d: Dir, q: Path)
    ensures ChildrenOf(dirs[up + [id] := d], q) == if q == up then ChildrenOf(dirs, up)[id := d] else ChildrenOf(dirs, q)
  {
    var after := dirs[up + [id] := d];
    var c := ChildrenOf(after, q);
    var want := if q == up then ChildrenOf(dirs, up)[id := d] else ChildrenOf(dirs, q);
    hide ChildrenOf;
    forall other ensures (other in c <==> other in want) && (other in c ==> c[other] == want[other]) {
      ChildrenMember(after, q, other);
      ChildrenMember(dirs, q, other);
      ChildPath(up, id, q, other);
    }
    assert c == want;
  }

  /** A plain id leads to the directory of that name in the user's own directory. */
  lemma {:induction false} PlainId(store: Store, user: seq<byte>, id: Id)
    requires Plain(id)
    ensures BackupPath(store, user, id) == UserPath(store, user) + [id]
    ensures DirFor(store, user, id) == DirAt(DirsOf(store, user), id)
  {
    hide ChildrenOf, Resolve;
    ResolveJoined(store.base, user, id);
    ResolvePlain(UserPath(store, user), id);
    ChildrenMember(store.dirs, UserPath(store, user), id);
  }

  /** What a write under a plain id means for a user: seen under the same directory, not under another. */
  lemma {:induction false} PutSeen(store: Store, user: seq<byte>, id: Id, d: Dir, u: seq<byte>)
    requires Plain(id)
    ensures DirsOf(Put(store, user, id, d), u)
         == if UserPath(store, u) == UserPath(store, user) then DirsOf(store, user)[id := d] else DirsOf(store, u)
  {
    hide ChildrenOf, Resolve;
    PlainId(store, user, id);
    NewChild(store.dirs, UserPath(store, user), id, d, UserPath(store, u));
  }

  /** Ids made by the server are plain. */
  lemma {:induction false} IdIsPlain(n: nat)
    ensures Plain(IdOf(n))
  {
    var id := IdOf(n);
    assert id[0] == 98;
    forall k | 0 <= k < |id| ensures id[k] != SLASH {
      if k < 7 {
        assert id[k] == PREFIX[k];
      } else {
        assert id[k] == Digits(n, Width(n))[k - 7];
      }
    }
  }

  function NameOf(dirs: Dirs, id: Id): seq<byte> {
    OrEmpty(DirAt(dirs, id).name)
  }

  // ----- listing -----

  /** Directories with a header are backups; others are not listed. */
  function Listed(dirs: Dirs): set<Id> {
    set id | id in dirs && dirs[id].header.Some?
  }

  ghost predicate IsLeast(s: set<Id>, m: Id) {
    m in s && forall id :: id in s ==> AtMost(m, id)
  }

  lemma {:induction false} LeastExists(s: set<Id>) returns (m: Id)
    requires s != {}
    ensures IsLeast(s, m)
    decreases |s|
  {
    var x :| x in s;
    if s == {x} {
      AtMostSelf(x);
      m := x;
    } else {
      var rest := s - {x};
      assert rest == {} ==> s == {x};
      var y := LeastExists(rest);
      AtMostTotal(x, y);
      if AtMost(x, y) {
        m := x;
        AtMostSelf(x);
        forall id | id in s ensures AtMost(x, id) {
          if id != x { AtMostTransitive(x, y, id); }
        }
      } else {
        m := y;
      }
    }
  }

  lemma {:induction false} LeastUnique(s: set<Id>, m: Id, n: Id)
    requires IsLeast(s, m) && IsLeast(s, n)
    ensures m == n
  {
    AtMostTotal(m, n);
  }

  ghost function Least(s: set<Id>): (m: Id)
    requires s != {}
    ensures IsLeast(s, m)
  {
    assert exists m :: IsLeast(s, m) by { var m := LeastExists(s); }
    var m :| IsLeast(s, m);
    m
  }

  /** The ids in text order. */
  ghost function SortedIds(s: set<Id>): (r: seq<Id>)
    ensures forall id :: id in r <==> id in s
    decreases |s|
  {
    if s == {} then [] else [Least(s)] + SortedIds(s - {Least(s)})
  }

  /** The last id in text order, or the empty text. */
  ghost function Latest(ids: seq<Id>): Id {
    if ids == [] then [] else ids[|ids| - 1]
  }

  lemma {:induction false} LastIsGreatest(s: set<Id>, id: Id)
    requires id in s
    ensures Latest(SortedIds(s)) in s && AtMost(id, Latest(SortedIds(s)))
    decreases |s|
  {
    var m := Least(s);
    var rest := s - {m};
    if rest == {} {
      assert SortedIds(rest) == [];
      assert s == {m};
      AtMostSelf(m);
    } else {
      var y :| y in rest;
      LastIsGreatest(rest, if id == m then y else id);
      assert Latest(SortedIds(s)) == Latest(SortedIds(rest));
    }
  }

  /** The loop of getNextBackupNumber: the highest number read from the ids. */
  function HighestNumber(ids: seq<Id>): (n: nat)
    ensures n <= INT_MAX
    ensures forall id :: id in ids && NumberOf(id).Some? ==> NumberOf(id).value <= n
    ensures n > 0 ==> exists id :: id in ids && NumberOf(id) == Some(n)
  {
    if ids == [] then 0 else
      var h := HighestNumber(ids[..|ids| - 1]);
      var last := ids[|ids| - 1];
      assert ids == ids[..|ids| - 1] + [last];
      if NumberOf(last).Some? && NumberOf(last).value > h then NumberOf(last).value else h
  }

  /** The id of the next backup; None where the number would leave the int range. */
  ghost function NextId(dirs: Dirs): Option<Id> {
    var n := HighestNumber(SortedIds(Listed(dirs)));
    if n == INT_MAX then None else Some(IdOf(n + 1))
  }

  /** A new id is never that of a listed backup. */
  lemma {:induction false} NextIdIsFresh(dirs: Dirs)
    requires NextId(dirs).Some?
    ensures NextId(dirs).value !in Listed(dirs)
  {
    var ids := SortedIds(Listed(dirs));
    NumberOfId(HighestNumber(ids) + 1);
  }

  lemma {:induction false} NextIdPlain(dirs: Dirs)
    requires NextId(dirs).Some?
    ensures 0 < |NextId(dirs).value| < U16 && Plain(NextId(dirs).value)
  {
    IdIsPlain(HighestNumber(SortedIds(Listed(dirs))) + 1);
    var n := HighestNumber(SortedIds(Listed(dirs))) + 1;
    var w := Width(n);
    assert Pow10(5) == 100000;
    assert Pow10(10) == 10000000000;
    if w > 10 {
      Pow10Monotone(10, w - 1);
    }
  }

  /** The first listed id with the name, or the empty text. */
  function FindByName(dirs: Dirs, ids: seq<Id>, name: seq<byte>): (r: Id)
    ensures r == [] || (r in ids && OrEmpty(DirAt(dirs, r).name) == name)
  {
    if ids == [] then []
    else if OrEmpty(DirAt(dirs, ids[0]).name) == name then ids[0]
    else FindByName(dirs, ids[1..], name)
  }

  // ----- uploads -----

  /** Where the header of an uploaded file ends, from its little-endian size field at byte 15. */
  function SplitPoint(whole: seq<byte>): nat
    requires |whole| >= 19
  {
    19 + FromLE(whole[15..19])
  }

  /** The reads of the save step stay inside the uploaded bytes. */
  predicate Saveable(whole: seq<byte>, meta: seq<byte>) {
    && (|whole| >= 19 ==> SplitPoint(whole) <= |whole| && SplitPoint(whole) < U32)
    && (meta != [] ==> Metadata.ParsedMeta(meta).Some?)
  }

  /** What an upload leaves in its directory, over what was there. */
  function SavedDir(d: Dir, custom: seq<byte>, whole: seq<byte>, meta: seq<byte>): Dir
    requires Saveable(whole, meta)
  {
    var d1 := if |whole| >= 19 then d.(header := Some(whole[..SplitPoint(whole)]), payload := Some(whole[SplitPoint(whole)..]))
              else d;
    var d2 := if meta != [] then d1.(metadata := Some(Metadata.ParsedMeta(meta).value)) else d1;
    if custom != [] then d2.(name := Some(custom)) else d2
  }

  function SavedDirs(dirs: Dirs, id: Id, custom: seq<byte>, whole: seq<byte>, meta: seq<byte>): Dirs
    requires Saveable(whole, meta)
  {
    dirs[id := SavedDir(DirAt(dirs, id), custom, whole, meta)]
  }

  /** The store with the directory of a backup made, or kept as it is if it was there. */
  function CreatedStore(store: Store, user: seq<byte>, id: Id): Store {
    Put(store, user, id, DirFor(store, user, id))
  }

  function SavedStore(store: Store, user: seq<byte>, id: Id, custom: seq<byte>, whole: seq<byte>, meta: seq<byte>): Store
    requires Saveable(whole, meta)
  {
    Put(store, user, id, SavedDir(DirFor(store, user, id), custom, whole, meta))
  }

  lemma {:induction false} CreatedSeen(store: Store, user: seq<byte>, id: Id, u: seq<byte>)
    requires Plain(id)
    ensures DirsOf(CreatedStore(store, user, id), u)
         == if UserPath(store, u) == UserPath(store, user) then DirsOf(store, user)[id := DirAt(DirsOf(store, user), id)]
            else DirsOf(store, u)
  {
    hide ChildrenOf, Resolve;
    PlainId(store, user, id);
    PutSeen(store, user, id, DirFor(store, user, id), u);
  }

  lemma {:induction false} SavedSeen(store: Store, user: seq<byte>, id: Id, custom: seq<byte>, whole: seq<byte>, meta: seq<byte>, u: seq<byte>)
    requires Plain(id) && Saveable(whole, meta)
    ensures DirsOf(SavedStore(store, user, id, custom, whole, meta), u)
         == if UserPath(store, u) == UserPath(store, user) then SavedDirs(DirsOf(store, user), id, custom, whole, meta)
            else DirsOf(store, u)
  {
    hide ChildrenOf, Resolve, Saveable, SavedDir;
    PlainId(store, user, id);
    PutSeen(store, user, id, SavedDir(DirFor(store, user, id), custom, whole, meta), u);
  }

  /** An upload of a listed backup under the next id changes what a user sees exactly if the two names
      resolve to one directory. */
  lemma {:induction false} UploadSeenIff(store: Store, user: seq<byte>, id: Id, custom: seq<byte>, whole: seq<byte>, meta: seq<byte>, u: seq<byte>)
    requires NextId(DirsOf(store, user)) == Some(id) && Saveable(whole, meta) && |whole| >= 19
    ensures DirsOf(SavedStore(store, user, id, custom, whole, meta), u) != DirsOf(store, u)
       <==> UserPath(store, u) == UserPath(store, user)
  {
    var dirs := DirsOf(store, user);
    NextIdIsFresh(dirs);
    NextIdPlain(dirs);
    SavedSeen(store, user, id, custom, whole, meta, u);
    hide UserPath, ChildrenOf, SavedStore, NextId, Saveable;
    assert SavedDirs(dirs, id, custom, whole, meta)[id].header.Some?;
    assert id in dirs ==> dirs[id].header.None?;
    SamePathSameDirs(store, u, user);
  }

  lemma {:induction false} SamePathSameDirs(store: Store, u: seq<byte>, v: seq<byte>)
    ensures UserPath(store, u) == UserPath(store, v) ==> DirsOf(store, u) == DirsOf(store, v)
  {
  }

  /** For plain names that is exactly the user's own name; with a trailing slash it is not. */
  lemma {:induction false} PlainUsersApart(store: Store, u: seq<byte>, v: seq<byte>)
    requires Plain(u) && Plain(v)
    ensures UserPath(store, u) == UserPath(store, v) <==> u == v
  {
    PlainNeverAlias(store.base, u, v);
  }

  /** Plain names and plain ids lead to the same backup only if both are the same. */
  lemma {:induction false} PlainPairsApart(store: Store, u: seq<byte>, i: Id, v: seq<byte>, j: Id)
    requires Plain(u) && Plain(v) && Plain(i) && Plain(j)
    ensures BackupPath(store, u, i) == BackupPath(store, v, j) <==> u == v && i == j
  {
    hide Resolve, ChildrenOf;
    PlainId(store, u, i);
    PlainId(store, v, j);
    PlainUsersApart(store, u, v);
    ChildPath(UserPath(store, u), i, UserPath(store, v), j);
  }

  lemma {:induction false} SlashShares(store: Store, user: seq<byte>)
    ensures UserPath(store, user + [SLASH]) == UserPath(store, user)
    ensures DirsOf(store, user + [SLASH]) == DirsOf(store, user)
  {
    TrailingSlash(store.base, user);
  }

  /** An id with two dots and another user's name leads to that user's backup. */
  lemma {:induction false} IdLeadsOut(store: Store, user: seq<byte>, other: seq<byte>, id: Id)
    requires Plain(user) && Plain(other) && Plain(id)
    ensures DirFor(store, user, DOT_DOT + [SLASH] + other + [SLASH] + id) == DirFor(store, other, id)
  {
    var base, up := store.base, DOT_DOT + [SLASH] + other;
    hide Resolve;
    ResolveJoined(base, user, up + [SLASH] + id);
    ResolveJoined(Resolve(base, user), up, id);
    UpAndOver(base, user, other);
    ResolveJoined(base, other, id);
  }

  /** The bytes a restore sends: header and payload joined. */
  function RestoreBytes(d: Dir): seq<byte> {
    OrEmpty(d.header) + OrEmpty(d.payload)
  }

  /** An upload of at least 19 bytes is listed, and its bytes come back whole. */
  lemma {:induction false} UploadComesBack(d: Dir, custom: seq<byte>, whole: seq<byte>, meta: seq<byte>)
    requires Saveable(whole, meta) && |whole| >= 19
    ensures SavedDir(d, custom, whole, meta).header.Some? && RestoreBytes(SavedDir(d, custom, whole, meta)) == whole
  {
    assert whole[..SplitPoint(whole)] + whole[SplitPoint(whole)..] == whole;
  }

  /** A shorter upload is never listed by itself, and its id is given out again. */
  lemma {:induction false} ShortUploadReusesId(dirs: Dirs, custom: seq<byte>, whole: seq<byte>, meta: seq<byte>)
    requires Saveable(whole, meta) && |whole| < 19 && NextId(dirs).Some?
    ensures var after := SavedDirs(dirs, NextId(dirs).value, custom, whole, meta);
            Listed(after) == Listed(dirs) && NextId(after) == NextId(dirs)
  {
    NextIdIsFresh(dirs);
    assert Listed(SavedDirs(dirs, NextId(dirs).value, custom, whole, meta)) == Listed(dirs);
  }

  /** ... so a name sent with it stays in the directory and becomes the name of the next nameless upload. */
  lemma {:induction false} StaleName(dirs: Dirs, custom: seq<byte>, short: seq<byte>, whole: seq<byte>, meta: seq<byte>)
    requires Saveable(short, []) && |short| < 19 && Saveable(whole, meta) && |whole| >= 19 && NextId(dirs).Some?
    ensures var id := NextId(dirs).value;
            var between := SavedDirs(dirs, id, custom, short, []);
            var after := SavedDirs(between, NextId(between).value, [], whole, meta);
            id in Listed(after) && OrEmpty(after[id].name) == (if custom != [] then custom else OrEmpty(DirAt(dirs, id).name))
  {
    ShortUploadReusesId(dirs, custom, short, []);
  }

  // ----- the latest backup -----

  ghost predicate Contiguous(dirs: Dirs, m: nat) {
    forall id :: id in Listed(dirs) <==> exists n: nat :: 1 <= n <= m && id == IdOf(n)
  }

  lemma {:induction false} HighestOfContiguous(dirs: Dirs, m: nat)
    requires Contiguous(dirs, m) && m <= INT_MAX
    ensures HighestNumber(SortedIds(Listed(dirs))) == m
  {
    hide IdOf, NumberOf, Listed;
    var ids := SortedIds(Listed(dirs));
    hide SortedIds;
    var h := HighestNumber(ids);
    if h > 0 {
      var id :| id in ids && NumberOf(id) == Some(h);
      var n: nat :| 1 <= n <= m && id == IdOf(n);
      NumberOfId(n);
    }
    if m > 0 {
      assert IdOf(m) in Listed(dirs);
      NumberOfId(m);
    }
  }

  lemma {:induction false} ListedAfterUpload(dirs: Dirs, id: Id, custom: seq<byte>, whole: seq<byte>, meta: seq<byte>)
    requires Saveable(whole, meta)
    requires id !in Listed(dirs)
    ensures Listed(SavedDirs(dirs, id, custom, whole, meta)) == if |whole| >= 19 then Listed(dirs) + {id} else Listed(dirs)
  {
  }

  lemma {:induction false} ContiguousNext(before: Dirs, after: Dirs, m: nat)
    requires Contiguous(before, m) && Listed(after) == Listed(before) + {IdOf(m + 1)}
    ensures Contiguous(after, m + 1)
  {
    hide Listed, IdOf;
    forall id ensures id in Listed(after) <==> exists n: nat :: 1 <= n <= m + 1 && id == IdOf(n) {
      if id in Listed(before) {
        var n: nat :| 1 <= n <= m && id == IdOf(n);
        assert 1 <= n <= m + 1;
      }
      if n: nat :| 1 <= n <= m + 1 && id == IdOf(n) && n <= m {
        assert id in Listed(before);
      }
    }
  }

  /** Starting from a store without backups, the listed backups are always numbered 1 to some m:
      a listed upload adds m + 1, a short one adds nothing. */
  lemma {:induction false} UploadKeepsContiguous(dirs: Dirs, m: nat, custom: seq<byte>, whole: seq<byte>, meta: seq<byte>)
    requires Contiguous(dirs, m) && m < INT_MAX && Saveable(whole, meta)
    ensures NextId(dirs) == Some(IdOf(m + 1))
    ensures Contiguous(SavedDirs(dirs, IdOf(m + 1), custom, whole, meta), if |whole| >= 19 then m + 1 else m)
  {
    HighestOfContiguous(dirs, m);
    NextIdIsFresh(dirs);
    hide IdOf, Saveable, Listed, SortedIds, HighestNumber, SavedDirs;
    var after := SavedDirs(dirs, IdOf(m + 1), custom, whole, meta);
    ListedAfterUpload(dirs, IdOf(m + 1), custom, whole, meta);
    if |whole| >= 19 {
      ContiguousNext(dirs, after, m);
    }
  }

  /** With backups 1 to m listed, the latest id is that of the most recent backup exactly when m is
      aligned: always up to 999999, then first wrong at 1000000. */
  lemma {:induction false} LatestIsNewestIff(dirs: Dirs, m: nat)
    requires Contiguous(dirs, m) && m >= 1
    ensures Latest(SortedIds(Listed(dirs))) == IdOf(m) <==> Aligned(m)
  {
    var s := Listed(dirs);
    assert IdOf(m) in s;
    var last := Latest(SortedIds(s));
    LastIsGreatest(s, IdOf(m));
    LastAsTextIff(m);
    if last == IdOf(m) {
      forall n: nat | 1 <= n <= m ensures AtMost(IdOf(n), IdOf(m)) {
        LastIsGreatest(s, IdOf(n));
      }
    }
    if LastAsText(m) {
      var n: nat :| 1 <= n <= m && last == IdOf(n);
      AtMostTotal(last, IdOf(m));
    }
  }

  /** With backups 1 to m listed, the latest id is that of m, or of the last number that is one digit
      shorter; with none listed there is none. */
  lemma {:induction false} LatestNumber(dirs: Dirs, m: nat)
    requires Contiguous(dirs, m)
    ensures Latest(SortedIds(Listed(dirs))) == if m >= 1 then IdOf(LastNumber(m)) else []
    ensures m >= 1 ==> IdOf(LastNumber(m)) in Listed(dirs)
  {
    var s := Listed(dirs);
    if m == 0 {
      assert s == {};
      assert SortedIds(s) == [];
    } else {
      LastNumberIsLast(m, m);
      var n := LastNumber(m);
      assert IdOf(n) in s;
      var last := Latest(SortedIds(s));
      LastIsGreatest(s, IdOf(n));
      var k: nat :| 1 <= k <= m && last == IdOf(k);
      LastNumberIsLast(m, k);
      AtMostTotal(last, IdOf(n));
    }
  }

  lemma {:induction false} SortedNext(s: set<Id>, m: Id)
    requires IsLeast(s, m)
    ensures m in s && SortedIds(s) == [m] + SortedIds(s - {m})
  {
    LeastUnique(s, m, Least(s));
  }

  // ----- the class -----

  class ServerStorage {
    var store: Store

    constructor (store: Store)
      ensures this.store == store
    {
      this.store := store;
    }

    /** Directory entries with a header, sorted: here by taking the least of the remaining ones. */
    method ListBackups(user: seq<byte>) returns (ids: seq<Id>)
      ensures ids == SortedIds(Listed(DirsOf(store, user)))
    {
      hide DirsOf, Listed, IsLeast;
      var rest := Listed(DirsOf(store, user));
      ids := [];
      ghost var all := SortedIds(rest);
      while rest != {}
        invariant ids + SortedIds(rest) == all
        decreases |rest|
      {
        var m := PickLeast(rest);
        SortedNext(rest, m);
        hide SortedIds;
        Regroup(ids, m, SortedIds(rest), SortedIds(rest - {m}));
        ids := ids + [m];
        rest := rest - {m};
      }
      assert SortedIds({}) == [] && ids + [] == ids;
    }

    method PickLeast(s: set<Id>) returns (m: Id)
      requires s != {}
      ensures IsLeast(s, m)
    {
      m :| m in s;
      var rest := s - {m};
      AtMostSelf(m);
      while rest != {}
        invariant rest <= s && m in s
        invariant forall id :: id in s - rest ==> AtMost(m, id)
        decreases |rest|
      {
        var x :| x in rest;
        AtMostTotal(x, m);
        AtMostSelf(x);
        if AtMost(x, m) {
          forall id | id in s - rest ensures AtMost(x, id) { AtMostTransitive(x, m, id); }
          m := x;
        }
        rest := rest - {x};
      }
    }

    method GetNextBackupNumber(user: seq<byte>) returns (n: nat)
      ensures n == HighestNumber(SortedIds(Listed(DirsOf(store, user)))) + 1
    {
      var backups := ListBackups(user);
      var maxNum := 0;
      for i := 0 to |backups|
        invariant maxNum == HighestNumber(backups[..i])
      {
        assert backups[..i + 1][..i] == backups[..i];
        var num := NumberOf(backups[i]);
        if num.Some? && num.value > maxNum {
          maxNum := num.value;
        }
      }
      assert backups[..|backups|] == backups;
      n := maxNum + 1;
    }

    /** createBackup: the directory is made, or kept as it is if it was there. */
    method CreateBackup(user: seq<byte>) returns (id: Id)
      requires NextId(DirsOf(store, user)).Some?
      modifies this
      ensures Some(id) == old(NextId(DirsOf(store, user)))
      ensures store == CreatedStore(old(store), user, id)
    {
      hide DirsOf, ChildrenOf, Resolve;
      var n := GetNextBackupNumber(user);
      id := IdOf(n);
      var path := BackupPath(store, user, id);
      if path !in store.dirs {
        store := store.(dirs := store.dirs[path := EMPTY_DIR]);
      } else {
        assert store.dirs[path := store.dirs[path]] == store.dirs;
      }
    }

    method FindBackupByName(user: seq<byte>, name: seq<byte>) returns (id: Id)
      ensures id == FindByName(DirsOf(store, user), SortedIds(Listed(DirsOf(store, user))), name)
    {
      var backups := ListBackups(user);
      var dirs := DirsOf(store, user);
      for i := 0 to |backups|
        invariant FindByName(dirs, backups, name) == FindByName(dirs, backups[i..], name)
      {
        if OrEmpty(DirAt(dirs, backups[i]).name) == name {
          return backups[i];
        }
      }
      id := [];
    }

    method GetLatestBackupId(user: seq<byte>) returns (id: Id)
      ensures id == Latest(SortedIds(Listed(DirsOf(store, user))))
    {
      var backups := ListBackups(user);
      id := if backups == [] then [] else backups[|backups| - 1];
    }

    /** saveHeader, savePayload, saveMetadata and saveBackupName as the end of an upload calls them. */
    method SaveUpload(user: seq<byte>, id: Id, custom: seq<byte>, whole: seq<byte>, meta: seq<byte>)
      requires Saveable(whole, meta)
      modifies this
      ensures store == SavedStore(old(store), user, id, custom, whole, meta)
    {
      hide Resolve;
      var d := DirFor(store, user, id);
      if |whole| >= 19 {
        var headerTotalSize := SplitPoint(whole);
        d := d.(header := Some(whole[..headerTotalSize]));
        d := d.(payload := Some(whole[headerTotalSize..]));
      }
      if meta != [] {
        var files := Metadata.DeserializeList(meta);
        d := d.(metadata := Some(files));
      }
      if custom != [] {
        d := d.(name := Some(custom));
      }
      store := Put(store, user, id, d);
    }
  }
}
