module Inventory {
  /** The latest backup and the list of backups as any client gets them, over all runs from an empty store. */

  import opened Bytes
  import opened Wire
  import opened Messages
  import opened Paths
  import opened BackupIds
  import opened Storage
  import opened BackupList
  import opened Session
  import opened SessionSafety
  import opened Answers
  import opened StoreIntegrity
  import opened Newest
  import opened Lockstep
  import opened Entry
  import opened Delivery
  import opened Users

  // ----- a tidy directory -----

  /** The ids of the numbers 1 to m. */
  function IdsUpTo(m: nat): (s: set<Id>)
    ensures |s| <= m
  {
    if m == 0 then {} else IdsUpTo(m - 1) + {IdOf(m)}
  }

  lemma {:induction false} IdsMember(m: nat, n: nat)
    requires 1 <= n <= m
    ensures IdOf(n) in IdsUpTo(m)
    decreases m
  {
    hide IdOf;
    if n < m {
      IdsMember(m - 1, n);
    } else {
      assert IdOf(m) in IdsUpTo(m);
    }
  }

  lemma {:induction false} Within(s: set<Id>, all: set<Id>)
    requires s <= all
    ensures |s| <= |all|
    decreases |s|
  {
    if s == {} {
    } else {
      var x :| x in s;
      Within(s - {x}, all - {x});
    }
  }

  lemma {:induction false} TidyFits(dirs: Dirs, m: nat)
    requires Tidy(dirs, m)
    ensures Fits(dirs)
  {
    hide UniqueNames, IdOf, Listed, NameOf;
    forall id | id in Listed(dirs) ensures id in IdsUpTo(m) && |id| < U16 {
      var n: nat :| 1 <= n <= m && id == IdOf(n);
      IdsMember(m, n);
      ShortId(n);
    }
    hide IdsUpTo, Contiguous, Tidy;
    assert Listed(dirs) <= IdsUpTo(m);
    Within(Listed(dirs), IdsUpTo(m));
    assert forall id :: id in Listed(dirs) ==> id in dirs by { ListedThere(dirs); }
    assert forall id :: id in dirs ==> |NameOf(dirs, id)| < U16 && m <= INT_MAX by { hide *; SoundNames(dirs, m); }
  }

  lemma {:induction false} ListedThere(dirs: Dirs)
    ensures forall id :: id in Listed(dirs) ==> id in dirs
  {
  }

  lemma {:induction false} SoundNames(dirs: Dirs, m: nat)
    requires Tidy(dirs, m)
    ensures m <= INT_MAX && forall id :: id in dirs ==> |NameOf(dirs, id)| < U16
  {
    hide Contiguous, UniqueNames, NameOf, IdOf, Listed, RestoreBytes;
  }

  lemma {:induction false} ShortId(n: nat)
    requires n <= INT_MAX
    ensures |IdOf(n)| < U16
  {
    assert Pow10(5) == 100000;
    assert Pow10(10) == 10000000000;
    if Width(n) > 10 {
      Pow10Monotone(10, Width(n) - 1);
    }
  }

  /** What there is of the last of the backups 1 to m, as text orders them. */
  function LastDir(dirs: Dirs, m: nat): Dir {
    DirAt(dirs, IdOf(LastNumber(m)))
  }

  /** Asked for the latest of the backups 1 to m, a session answers with that one, and with none listed by
      an error. */
  lemma {:induction false} LatestAnswer(store: Store, user: seq<byte>, m: nat)
    requires Tidy(DirsOf(store, user), m)
    ensures var dirs := DirsOf(store, user);
            if m == 0 then
              && RestoreAnswer(store, user, []) == [ErrorText(BACKUP_NOT_FOUND, Ascii("No backup found."))]
              && AskedBytes(store, user, []) == []
            else
              && RestoreAnswer(store, user, []) == RestoreReply(LastDir(dirs, m))
              && AskedBytes(store, user, []) == RestoreBytes(LastDir(dirs, m)) && RestoreBytes(LastDir(dirs, m)) != []
  {
    var dirs := DirsOf(store, user);
    hide DirsOf, RestoreBytes, RestoreReply, IdOf, LastNumber, Contiguous, UniqueNames, SortedIds, NameOf, ErrorText, DirFor;
    LatestNumber(dirs, m);
    if m >= 1 {
      var id := IdOf(LastNumber(m));
      IdIsPlain(LastNumber(m));
      PlainId(store, user, id);
      IdNotEmpty(LastNumber(m));
      ListedThere(dirs);
    }
    hide Tidy;
  }

  lemma {:induction false} IdNotEmpty(n: nat)
    ensures IdOf(n) != []
  {
  }

  // ----- over all runs -----

  lemma {:induction false} UnfoldInOrder(z: System, events: seq<Event>)
    requires InOrder(z.server)
    ensures InOrder(Unfold(z, events).server)
    decreases |events|
  {
    hide InOrder, Happen;
    if events == [] {
    } else {
      HappenInOrder(z, events[0]);
      UnfoldInOrder(Happen(z, events[0]), events[1..]);
    }
  }

  lemma {:induction false} HappenInOrder(z: System, e: Event)
    requires InOrder(z.server)
    ensures InOrder(Happen(z, e).server)
  {
    ServerSide(z, e);
    hide Happen, Step;
    if Arriving(z, e).Some? {
      hide InOrder;
      StepInOrder(z.server, Arriving(z, e).value);
    } else {
      hide AllTidy, NextId, DirsOf, FreeName;
    }
  }

  /** Disk after any sessions, from an empty store on. */
  ghost function DiskAfter(file: seq<byte>, base: Path, sessions: seq<seq<Arrival>>): World {
    Serve(World(file, Store(base, map[])), sessions)
  }

  lemma {:induction false} DiskTidy(file: seq<byte>, base: Path, sessions: seq<seq<Arrival>>)
    ensures AllTidy(DiskAfter(file, base, sessions).store)
  {
    EmptyTidy(base);
    hide Serve, AllTidy;
    ServeTidy(World(file, Store(base, map[])), sessions);
  }

  /** Restore of the latest, at a session: after any sessions on an initially empty store, in any session that
      is ready, the backups listed for its user are numbered 1 to some m; a request without an id is answered
      with backup m, from m = 1000000 on with the last one of a shorter number unless m is aligned, and with
      an error if there is none. */
  lemma {:induction false} LatestRestored(file: seq<byte>, base: Path, sessions: seq<seq<Arrival>>, last: seq<Arrival>, ask: Arrival)
      returns (m: nat)
    requires DistinctNames(Loaded(file)) && |Loaded(file)| + |sessions| + 1 < U32
    requires var w := DiskAfter(file, base, sessions);
             var r := Run(Fresh(w.file, w.store), last);
             r.phase.Ready? && Opened(r, ask.message) == Request(RestoreQuery([]))
    ensures var w := DiskAfter(file, base, sessions);
            var r := Run(Fresh(w.file, w.store), last);
            var dirs := DirsOf(r.store, r.user);
            && Contiguous(dirs, m) && (Aligned(m) ==> LastNumber(m) == m) && (m <= 999999 ==> Aligned(m))
            && Step(r, ask).said == r.said + (if m == 0 then [ErrorText(BACKUP_NOT_FOUND, Ascii("No backup found."))]
                                              else RestoreReply(LastDir(dirs, m)))
  {
    var w := DiskAfter(file, base, sessions);
    var start := Fresh(w.file, w.store);
    var r := Run(start, last);
    hide Serve, Run, Loaded, DistinctNames, Opened, Step, Request, ErrorText, RestoreReply, DirsOf, LastDir, Contiguous, LastNumber, AllTidy;
    ServeKeeps(World(file, Store(base, map[])), sessions);
    FreshSafe(w);
    RunGood(start, last);
    ActiveWhileWaiting(r);
    DiskTidy(file, base, sessions);
    RunInOrder(start, last);
    m := TidyNow(r);
    hide *;
    QueryAnswered(r, ask, RestoreQuery([]));
    LatestAnswer(r.store, r.user, m);
    AnswerOf(r.store, r.user, [], ask.stamps);
    LastWhenAligned(m);
    TidyListed(DirsOf(r.store, r.user), m);
  }

  lemma {:induction false} TidyNow(s: Server) returns (m: nat)
    requires InOrder(s)
    ensures Tidy(DirsOf(s.store, s.user), m)
  {
    assert TidyDirs(DirsOf(s.store, s.user)) by { hide TidyDirs; }
    m :| Tidy(DirsOf(s.store, s.user), m);
  }

  lemma {:induction false} LastWhenAligned(m: nat)
    ensures (Aligned(m) ==> LastNumber(m) == m) && (m <= 999999 ==> Aligned(m))
  {
  }

  lemma {:induction false} TidyListed(dirs: Dirs, m: nat)
    requires Tidy(dirs, m)
    ensures Contiguous(dirs, m)
  {
  }

  /** A client in its session, after any others on an initially empty store. */
  ghost function Visitor(file: seq<byte>, base: Path, sessions: seq<seq<Arrival>>, user: seq<byte>, password: seq<byte>, registers: bool,
                         entry: seq<Event>): System
  {
    Unfold(Connected(user, password, registers, DiskAfter(file, base, sessions)), entry)
  }

  lemma {:induction false} VisitorSynced(file: seq<byte>, base: Path, sessions: seq<seq<Arrival>>, user: seq<byte>, password: seq<byte>, registers: bool,
                                         entry: seq<Event>)
    requires DistinctNames(Loaded(file)) && |Loaded(file)| + |sessions| < U32 && |user| < U16
    ensures var y := Visitor(file, base, sessions, user, password, registers, entry);
            Synced(y) && InOrder(y.server) && y.client.name == user
  {
    var w := DiskAfter(file, base, sessions);
    var start := Connected(user, password, registers, w);
    hide Serve, Loaded, DistinctNames, Synced, Unfold, AllTidy;
    ServeKeeps(World(file, Store(base, map[])), sessions);
    StartSynced(user, password, registers, w.file, w.store);
    UnfoldSynced(start, entry);
    DiskTidy(file, base, sessions);
    UnfoldInOrder(start, entry);
    ClientNameStays(user, password, registers, w, entry);
  }

  /** Restore of the latest, client to client: at any point of a session in which the client asks for the latest
      backup, what it has collected is not complete yet, or the bytes of the user's backup m, under the same
      exception for numbers that are not aligned, and a refusal if none is listed. */
  lemma {:induction false} LatestFetched(file: seq<byte>, base: Path, sessions: seq<seq<Arrival>>, user: seq<byte>, password: seq<byte>,
                                         registers: bool, entry: seq<Event>, down: seq<Event>) returns (m: nat)
    requires DistinctNames(Loaded(file)) && |Loaded(file)| + |sessions| < U32 && |user| < U16
    requires var y := Visitor(file, base, sessions, user, password, registers, entry);
             && y.client.active && y.server.phase.Ready? && Sendable(RestoreAnswer(y.server.store, user, []))
             && Says(Unfold(y, down).client.said, |y.server.heard|, [Request(RestoreQuery([]))])
    ensures var y := Visitor(file, base, sessions, user, password, registers, entry);
            var dirs := DirsOf(y.server.store, user);
            && Contiguous(dirs, m) && (Aligned(m) ==> LastNumber(m) == m) && (m <= 999999 ==> Aligned(m))
            && (m >= 1 ==> RestoreBytes(LastDir(dirs, m)) != [])
            && Collects(Unfold(y, down).client.heard, |y.server.said|, if m == 0 then [] else RestoreBytes(LastDir(dirs, m)))
  {
    var y := Visitor(file, base, sessions, user, password, registers, entry);
    VisitorSynced(file, base, sessions, user, password, registers, entry);
    hide *;
    ChannelLength(y);
    m := TidyNow(y.server);
    LatestAnswer(y.server.store, user, m);
    RestoreArrivesAny(y, down, []);
    LastWhenAligned(m);
    TidyListed(DirsOf(y.server.store, user), m);
  }

  lemma {:induction false} RestoreArrivesAny(z: System, events: seq<Event>, asked: Id)
    requires Synced(z) && z.client.active && z.server.phase.Ready? && |asked| < U16
    requires Sendable(RestoreAnswer(z.server.store, z.server.user, asked))
    requires Says(Unfold(z, events).client.said, |z.server.heard|, [Request(RestoreQuery(asked))])
    ensures Collects(Unfold(z, events).client.heard, |z.server.said|, AskedBytes(z.server.store, z.server.user, asked))
  {
    assert Awaits(z.server, RestoreQuery(asked));
    hide Synced, Sendable, Says, Unfold, Request, RestoreAnswer, Collects, AskedBytes;
    RestoreArrives(z, events, asked);
  }

  /** The list, client to client: at any point of a session in which the client asks for the list, it has been
      shown nothing yet, or exactly the user's listed backups, in text order, each with its own name and time. */
  lemma {:induction false} ListFetched(file: seq<byte>, base: Path, sessions: seq<seq<Arrival>>, user: seq<byte>, password: seq<byte>,
                                       registers: bool, entry: seq<Event>, down: seq<Event>)
    requires DistinctNames(Loaded(file)) && |Loaded(file)| + |sessions| < U32 && |user| < U16
    requires var y := Visitor(file, base, sessions, user, password, registers, entry);
             && y.client.active && y.server.phase.Ready?
             && Says(Unfold(y, down).client.said, |y.server.heard|, [Request(ListQuery)])
    ensures var y := Visitor(file, base, sessions, user, password, registers, entry);
            ShowsList(Unfold(y, down).client.heard, |y.server.said|, DirsOf(y.server.store, user))
  {
    var y := Visitor(file, base, sessions, user, password, registers, entry);
    VisitorSynced(file, base, sessions, user, password, registers, entry);
    hide *;
    ChannelLength(y);
    var m := TidyNow(y.server);
    TidyFits(DirsOf(y.server.store, user), m);
    ListArrives(y, down);
  }
}
