/** Backup numbers and names over all runs.
    When the latest id is the newest backup. */
module Newest {
  import opened Bytes
  import opened Wire
  import opened Messages
  import opened Paths
  import opened BackupIds
  import opened Storage
  import opened Transport
  import opened Users
  import opened Session
  import opened SessionSafety
  import opened StoreIntegrity

  // ----- a user's directory -----

  /** No two directories carry the same name. */
  ghost predicate UniqueNames(dirs: Dirs) {
    forall a, b :: a in dirs && b in dirs && a != b && NameOf(dirs, a) != [] ==> NameOf(dirs, a) != NameOf(dirs, b)
  }

  /** The listed backups are numbered 1 to m, there is at most the next directory besides, and names are
      unique, a name left in that one included. */
  ghost predicate Tidy(dirs: Dirs, m: nat) {
    && m <= INT_MAX && Contiguous(dirs, m)
    && (forall id :: id in dirs ==> id in Listed(dirs) || id == IdOf(m + 1))
    && UniqueNames(dirs) && Sound(dirs)
  }

  /** Every listed backup has bytes, and every name fits its field. */
  ghost predicate Sound(dirs: Dirs) {
    && (forall id :: id in Listed(dirs) ==> RestoreBytes(dirs[id]) != [])
    && (forall id :: id in dirs ==> |NameOf(dirs, id)| < U16)
  }

  ghost predicate TidyDirs(dirs: Dirs) {
    exists m: nat :: Tidy(dirs, m)
  }

  /** The name fits its field, and no listed backup has it, or it is empty. */
  predicate FreeName(dirs: Dirs, name: seq<byte>) {
    |name| < U16 && (name != [] ==> forall id :: id in Listed(dirs) ==> NameOf(dirs, id) != name)
  }

  lemma {:induction false} NextNumber(dirs: Dirs, m: nat)
    requires Contiguous(dirs, m) && m <= INT_MAX
    ensures NextId(dirs) == if m < INT_MAX then Some(IdOf(m + 1)) else None
  {
    HighestOfContiguous(dirs, m);
    hide Contiguous, SortedIds, HighestNumber, Listed, IdOf;
  }

  lemma {:induction false} MadeTidy(dirs: Dirs, m: nat, id: Id)
    requires Tidy(dirs, m) && NextId(dirs) == Some(id)
    ensures var made := dirs[id := DirAt(dirs, id)];
            Tidy(made, m) && NextId(made) == Some(id) && forall name :: FreeName(dirs, name) ==> FreeName(made, name)
  {
    var made := dirs[id := DirAt(dirs, id)];
    MadeListed(dirs, id);
    NextNumber(dirs, m);
    hide IdOf, NextId, Listed, NameOf, Sound, UniqueNames;
    MadeSound(dirs, id);
    assert Contiguous(made, m);
    NextNumber(made, m);
    hide Contiguous, DirAt;
  }

  lemma {:induction false} MadeSound(dirs: Dirs, id: Id)
    requires Sound(dirs) && UniqueNames(dirs) && NextId(dirs) == Some(id)
    ensures Sound(dirs[id := DirAt(dirs, id)]) && UniqueNames(dirs[id := DirAt(dirs, id)])
  {
    var made := dirs[id := DirAt(dirs, id)];
    MadeListed(dirs, id);
    assert forall other :: other in Listed(made) ==> made[other] == dirs[other];
    assert id in dirs || NameOf(dirs, id) == [];
    hide NextId, Listed, RestoreBytes, NameOf;
  }

  lemma {:induction false} MadeListed(dirs: Dirs, id: Id)
    requires NextId(dirs) == Some(id)
    ensures var made := dirs[id := DirAt(dirs, id)];
            Listed(made) == Listed(dirs) && forall other :: NameOf(made, other) == NameOf(dirs, other)
  {
    var made := dirs[id := DirAt(dirs, id)];
    NextIdIsFresh(dirs);
    hide NextId;
    assert forall other :: DirAt(made, other) == DirAt(dirs, other);
    assert forall other :: other in Listed(made) <==> other in Listed(dirs);
  }

  /** A finished upload under the next id and a free name keeps the directory tidy. */
  lemma {:induction false} SavedTidy(dirs: Dirs, m: nat, id: Id, custom: seq<byte>, whole: seq<byte>, meta: seq<byte>)
    requires Tidy(dirs, m) && NextId(dirs) == Some(id) && Saveable(whole, meta) && FreeName(dirs, custom)
    ensures Tidy(SavedDirs(dirs, id, custom, whole, meta), if |whole| >= 19 then m + 1 else m)
  {
    NextNumber(dirs, m);
    NextIdIsFresh(dirs);
    var after := SavedDirs(dirs, id, custom, whole, meta);
    hide IdOf, NextId, Saveable, SavedDirs, Contiguous, UniqueNames, FreeName, Listed;
    UploadKeepsContiguous(dirs, m, custom, whole, meta);
    ListedAfterUpload(dirs, id, custom, whole, meta);
    SavedMembers(dirs, id, custom, whole, meta);
    NamesStay(dirs, after, id, custom);
    assert Sound(after) by { hide NameOf; SavedSound(dirs, id, custom, whole, meta); }
    hide Sound;
  }

  lemma {:induction false} SavedSound(dirs: Dirs, id: Id, custom: seq<byte>, whole: seq<byte>, meta: seq<byte>)
    requires Sound(dirs) && Saveable(whole, meta) && |custom| < U16 && id !in Listed(dirs)
    ensures Sound(SavedDirs(dirs, id, custom, whole, meta))
  {
    var after := SavedDirs(dirs, id, custom, whole, meta);
    SavedMembers(dirs, id, custom, whole, meta);
    ListedAfterUpload(dirs, id, custom, whole, meta);
    if |whole| >= 19 {
      UploadComesBack(DirAt(dirs, id), custom, whole, meta);
    }
    assert after[id] == SavedDir(DirAt(dirs, id), custom, whole, meta);
    assert forall other :: other in dirs && other != id ==> other in after && after[other] == dirs[other];
    hide Saveable, SavedDir, SavedDirs, RestoreBytes, NameOf, DirAt, Listed;
  }

  lemma {:induction false} SavedMembers(dirs: Dirs, id: Id, custom: seq<byte>, whole: seq<byte>, meta: seq<byte>)
    requires Saveable(whole, meta)
    ensures var after := SavedDirs(dirs, id, custom, whole, meta);
            && (forall other :: other in after <==> other in dirs || other == id)
            && (forall other :: other != id ==> NameOf(after, other) == NameOf(dirs, other))
            && NameOf(after, id) == (if custom != [] then custom else NameOf(dirs, id))
            && (id !in dirs ==> NameOf(dirs, id) == [])
  {
    NameAfter(DirAt(dirs, id), custom, whole, meta);
    hide Saveable, SavedDir;
  }

  lemma {:induction false} NamesStay(before: Dirs, after: Dirs, id: Id, custom: seq<byte>)
    requires UniqueNames(before) && FreeName(before, custom)
    requires forall other :: other in before ==> other in Listed(before) || other == id
    requires forall other :: other in after ==> other in before || other == id
    requires forall other :: other != id ==> NameOf(after, other) == NameOf(before, other)
    requires NameOf(after, id) == if custom != [] then custom else NameOf(before, id)
    requires id !in before ==> NameOf(before, id) == []
    ensures UniqueNames(after)
  {
    hide NameOf, Listed;
    forall a, b | a in after && b in after && a != b && NameOf(after, a) != [] ensures NameOf(after, a) != NameOf(after, b) {
      if a != id && b != id {
        assert a in before && b in before;
      } else if custom == [] {
        assert NameOf(after, a) == NameOf(before, a) && NameOf(after, b) == NameOf(before, b);
      } else {
        var other := if a == id then b else a;
        assert other in Listed(before);
      }
    }
  }

  // ----- all directories -----

  ghost predicate AllTidy(store: Store) {
    forall user :: TidyDirs(DirsOf(store, user))
  }

  /** An upload under way is under the next id, and its name, or the one waited with, is free. */
  ghost predicate Awaited(s: Server) {
    match s.phase
    case AwaitData(custom) => FreeName(DirsOf(s.store, s.user), custom)
    case Receiving(id, custom, _, _) =>
      NextId(DirsOf(s.store, s.user)) == Some(id) && FreeName(DirsOf(s.store, s.user), custom)
    case _ => true
  }

  ghost predicate InOrder(s: Server) {
    AllTidy(s.store) && Awaited(s)
  }

  lemma {:induction false} SavedAllTidy(store: Store, user: seq<byte>, id: Id, custom: seq<byte>, whole: seq<byte>, meta: seq<byte>)
    requires AllTidy(store) && NextId(DirsOf(store, user)) == Some(id) && FreeName(DirsOf(store, user), custom) && Saveable(whole, meta)
    ensures AllTidy(SavedStore(store, user, id, custom, whole, meta))
  {
    var dirs, after := DirsOf(store, user), SavedStore(store, user, id, custom, whole, meta);
    NextIdPlain(dirs);
    var m: nat :| Tidy(dirs, m);
    hide Tidy, NextId, Saveable, SavedStore, SavedDirs, DirsOf, UserPath, FreeName;
    SavedTidy(dirs, m, id, custom, whole, meta);
    forall u ensures TidyDirs(DirsOf(after, u)) {
      SavedSeen(store, user, id, custom, whole, meta, u);
      assert TidyDirs(DirsOf(store, u));
    }
  }

  lemma {:induction false} CreatedInOrder(s: Server, custom: seq<byte>, id: Id)
    requires AllTidy(s.store) && NextId(DirsOf(s.store, s.user)) == Some(id) && FreeName(DirsOf(s.store, s.user), custom)
    ensures InOrder(s.(store := CreatedStore(s.store, s.user, id), phase := Receiving(id, custom, [], [])))
  {
    var dirs, after := DirsOf(s.store, s.user), CreatedStore(s.store, s.user, id);
    NextIdPlain(dirs);
    var m: nat :| Tidy(dirs, m);
    CreatedSeen(s.store, s.user, id, s.user);
    hide Tidy, NextId, CreatedStore, DirsOf, UserPath, FreeName;
    MadeTidy(dirs, m, id);
    forall u ensures TidyDirs(DirsOf(after, u)) {
      CreatedSeen(s.store, s.user, id, u);
      assert TidyDirs(DirsOf(s.store, u));
    }
  }

  // ----- the machine -----

  lemma {:induction false} FinishInOrder(s: Server)
    requires InOrder(s) && s.phase.Receiving?
    ensures InOrder(FinishBackup(s))
  {
    var Receiving(id, custom, whole, meta) := s.phase;
    hide Saveable, SavedStore, NextId, DirsOf, FreeName, AllTidy, SendSealed;
    if Saveable(whole, meta) {
      SavedAllTidy(s.store, s.user, id, custom, whole, meta);
      QuietSend(s.(store := SavedStore(s.store, s.user, id, custom, whole, meta)), Message(BACKUP_COMPLETE, PutString(id)));
    }
  }

  lemma {:induction false} DataInOrder(s: Server, m: Message)
    requires InOrder(s) && s.phase.Receiving?
    ensures InOrder(HandleData(s, m))
  {
    hide AllTidy, NextId, ParsedFile, DirsOf, FreeName;
    if m.kind == BACKUP_COMPLETE {
      FinishInOrder(s);
    }
  }

  lemma {:induction false} BeginInOrder(s: Server, custom: seq<byte>, m: Message)
    requires InOrder(s) && !s.phase.Receiving? && FreeName(DirsOf(s.store, s.user), custom)
    ensures InOrder(BeginBackup(s, custom, m))
  {
    hide AllTidy, NextId, DirsOf, FreeName, HandleData, CreatedStore;
    if NextId(DirsOf(s.store, s.user)).Some? {
      var id := NextId(DirsOf(s.store, s.user)).value;
      CreatedInOrder(s, custom, id);
      DataInOrder(s.(store := CreatedStore(s.store, s.user, id), phase := Receiving(id, custom, [], [])), m);
    }
  }

  /** The store is left alone and no upload begins. */
  predicate Leaves(s: Server, t: Server) {
    t.store == s.store && !t.phase.Receiving? && !t.phase.AwaitData?
  }

  lemma {:induction false} SameStore(s: Server, t: Server)
    requires InOrder(s) && Leaves(s, t)
    ensures InOrder(t)
  {
    hide AllTidy;
  }

  lemma {:induction false} CommandInOrder(s: Server, m: Message, stamps: map<Id, word64>)
    requires InOrder(s) && s.phase.Ready?
    ensures InOrder(HandleCommand(s, m, stamps))
  {
    var t := HandleCommand(s, m, stamps);
    hide InOrder, HandleBackup, HandleRestore, HandleList, SendError;
    if m.kind == FILE_DATA || m.kind == BACKUP_COMPLETE || m.kind == BACKUP_START {
      BackupInOrder(s, m);
    } else if m.kind == RESTORE_REQUEST {
      RestoreStore(s, m.payload);
      SameStore(s, t);
    } else {
      ListQuiet(s, stamps);
      ErrorStore(s, INVALID_MESSAGE, Ascii("Unknown command."));
      SameStore(s, t);
    }
  }

  lemma {:induction false} ErrorStore(s: Server, code: nat, text: seq<byte>)
    ensures SendError(s, code, text).store == s.store && SendError(s, code, text).phase == s.phase
  {
    QuietSend(s, ErrorText(code, text));
  }

  lemma {:induction false} BackupInOrder(s: Server, m: Message)
    requires InOrder(s) && s.phase.Ready?
    ensures InOrder(HandleBackup(s, m))
  {
    if m.kind != BACKUP_START {
      assert FreeName(DirsOf(s.store, s.user), []);
      hide InOrder, FreeName, BeginBackup, DirsOf;
      BeginInOrder(s, [], m);
    } else {
      StartInOrder(s, m);
    }
  }

  lemma {:induction false} StartInOrder(s: Server, m: Message)
    requires InOrder(s) && s.phase.Ready? && m.kind == BACKUP_START
    ensures InOrder(HandleBackup(s, m))
  {
    var t := HandleBackup(s, m);
    StartQuiet(s, m);
    assert t.store == s.store && t.user == s.user;
    if t.phase.AwaitData? {
      StartFree(s, m);
    }
    hide HandleBackup, AllTidy, FreeName, DirsOf, NextId, Quiet;
  }

  lemma {:induction false} StartUntaken(s: Server, m: Message)
    requires s.phase.Ready? && m.kind == BACKUP_START && HandleBackup(s, m).phase.AwaitData?
    ensures var custom := HandleBackup(s, m).phase.custom; |custom| < U16 && (custom != [] ==> !NameTaken(s, custom))
  {
    hide NameTaken, GetString, ErrorText;
    if |m.payload| >= 2 && GetString(m.payload, 0).Some? {
      QuietSend(s, ErrorText(NAME_EXISTS, TakenText(GetString(m.payload, 0).value.0)));
    }
    hide SendSealed;
  }

  /** The name check lets only free names through. */
  lemma {:induction false} StartFree(s: Server, m: Message)
    requires InOrder(s) && s.phase.Ready? && m.kind == BACKUP_START && HandleBackup(s, m).phase.AwaitData?
    ensures FreeName(DirsOf(s.store, s.user), HandleBackup(s, m).phase.custom)
  {
    var custom := HandleBackup(s, m).phase.custom;
    var dirs := DirsOf(s.store, s.user);
    assert TidyDirs(dirs);
    StartUntaken(s, m);
    hide HandleBackup, AllTidy, DirsOf, NextId, TidyDirs, InOrder;
    if custom != [] {
      EmptyUnlisted(dirs);
      NotFound(dirs, SortedIds(Listed(dirs)), custom);
    }
  }

  lemma {:induction false} EmptyUnlisted(dirs: Dirs)
    requires TidyDirs(dirs)
    ensures [] !in Listed(dirs)
  {
    var m: nat :| Tidy(dirs, m);
    assert forall n: nat :: IdOf(n) != [];
  }

  lemma {:induction false} NotFound(dirs: Dirs, ids: seq<Id>, name: seq<byte>)
    requires FindByName(dirs, ids, name) == [] && [] !in ids
    ensures forall id :: id in ids ==> NameOf(dirs, id) != name
    decreases |ids|
  {
    if ids == [] {
    } else {
      assert ids[0] in ids && (forall id :: id in ids[1..] ==> id in ids);
      assert ids == [ids[0]] + ids[1..];
      NotFound(dirs, ids[1..], name);
    }
  }

  lemma {:induction false} RestoreStore(s: Server, payload: seq<byte>)
    requires s.phase.Ready?
    ensures Leaves(s, HandleRestore(s, payload))
  {
    hide RestoreId, SendError, GetString, Latest, SortedIds, Listed, Quiet;
    ErrorStore(s, BACKUP_NOT_FOUND, Ascii("No backup found."));
    RestoreIdStore(s, Latest(SortedIds(Listed(DirsOf(s.store, s.user)))));
    var asked := if |payload| >= 2 then GetString(payload, 0) else Some(([], 0));
    if asked.Some? {
      RestoreIdStore(s, asked.value.0);
    }
  }

  lemma {:induction false} RestoreIdStore(s: Server, id: Id)
    ensures RestoreId(s, id).store == s.store && RestoreId(s, id).phase == s.phase
  {
    RestoreQuiet(s, id);
    hide RestoreId;
  }


  lemma {:induction false} LoginLeaves(s: Server, payload: seq<byte>)
    requires s.phase.Auth?
    ensures Leaves(s, HandleLogin(s, payload)) && Leaves(s, HandleRegister(s, payload))
  {
    hide GetString, Lookup, SessionKey, TableFile, SendError;
    ErrorStore(s, INVALID_MESSAGE, Ascii("Invalid LOGIN_REQUEST."));
    ErrorStore(s, INVALID_MESSAGE, Ascii("Invalid REGISTER_REQUEST."));
    ErrorStore(s, INVALID_MESSAGE, Ascii("Invalid REGISTER_REQUEST payload."));
  }

  lemma {:induction false} AuthLeaves(s: Server, m: Message)
    requires s.phase.Auth?
    ensures Leaves(s, HandleAuth(s, m))
  {
    hide HandleLogin, HandleRegister, SendError;
    LoginLeaves(s, m.payload);
    ErrorStore(s, NOT_LOGGED_IN, Ascii("Please login or register first."));
  }

  lemma {:induction false} ProofLeaves(s: Server, m: Message)
    requires s.phase.AwaitProof?
    ensures Leaves(s, HandleProof(s, s.phase.name, s.phase.hash, m))
  {
    hide SessionKey, SendError;
    ErrorStore(s, INVALID_MESSAGE, Ascii("Invalid login proof."));
  }

  lemma {:induction false} HelloLeaves(s: Server, m: Message, drawn: Challenge)
    requires s.phase.Hello?
    ensures Leaves(s, HandleHandshake(s, m, drawn))
  {
    hide BE, FromBE, SendError;
    ErrorStore(s, INCOMPATIBLE_VERSION, Ascii("Expected CLIENT_HELLO."));
    ErrorStore(s, INCOMPATIBLE_VERSION, Ascii("Protocol version mismatch."));
  }

  /** Before login nothing is received, and nothing stored. */
  lemma {:induction false} OutsideInOrder(s: Server, a: Arrival)
    requires InOrder(s) && (s.phase.Hello? || s.phase.Auth? || s.phase.AwaitProof?)
    ensures InOrder(Step(s, a))
  {
    var r, m := Received(s, a.message), Opened(s, a.message);
    assert r.store == s.store && r.phase == s.phase by { hide Opened; }
    hide InOrder, HandleAuth, HandleProof, HandleHandshake, Received, Opened;
    match s.phase {
      case Hello => HelloLeaves(s, a.message, a.drawn);
      case Auth => AuthLeaves(r, m);
      case AwaitProof(_, _) => ProofLeaves(r, m);
    }
    SameStore(s, Step(s, a));
  }

  lemma {:induction false} StepInOrder(s: Server, a: Arrival)
    requires InOrder(s)
    ensures InOrder(Step(s, a))
  {
    var r, m := Received(s, a.message), Opened(s, a.message);
    if s.phase.Hello? || s.phase.Auth? || s.phase.AwaitProof? {
      OutsideInOrder(s, a);
    } else {
      assert InOrder(r) && r.phase == s.phase by { hide Opened, AllTidy, NextId, FreeName, DirsOf; }
      hide InOrder, HandleCommand, BeginBackup, HandleData, Received, Opened;
      match s.phase {
        case Ready => CommandInOrder(r, m, a.stamps);
        case AwaitData(custom) =>
          AwaitedFree(r);
          BeginInOrder(r, custom, m);
          SameStore(r, At(r, Closed));
        case Receiving(_, _, _, _) => DataInOrder(r, m);
        case _ =>
      }
    }
  }

  lemma {:induction false} RunInOrder(s: Server, arrivals: seq<Arrival>)
    requires InOrder(s)
    ensures InOrder(Run(s, arrivals))
    decreases |arrivals|
  {
    hide InOrder, Step;
    if arrivals == [] {
    } else {
      StepInOrder(s, arrivals[0]);
      RunInOrder(Step(s, arrivals[0]), arrivals[1..]);
    }
  }

  lemma {:induction false} AwaitedFree(s: Server)
    requires InOrder(s) && s.phase.AwaitData?
    ensures FreeName(DirsOf(s.store, s.user), s.phase.custom)
  {
    hide AllTidy, FreeName, DirsOf;
  }

  lemma {:induction false} ServeTidy(w: World, sessions: seq<seq<Arrival>>)
    requires AllTidy(w.store)
    ensures AllTidy(Serve(w, sessions).store)
    decreases |sessions|
  {
    if sessions == [] {
    } else {
      RunInOrder(Fresh(w.file, w.store), sessions[0]);
      hide Run, AllTidy;
      ServeTidy(After(w, sessions[0]), sessions[1..]);
    }
  }

  lemma {:induction false} EmptyTidy(base: Path)
    ensures AllTidy(Store(base, map[]))
  {
    forall user: seq<byte> ensures TidyDirs(DirsOf(Store(base, map[]), user)) {
      assert Tidy(map[], 0);
      assert DirsOf(Store(base, map[]), user) == map[];
    }
  }

  // ----- over all runs -----

  /** What any sessions leave in a user's directory, on a store that was empty before them. */
  ghost function DirsAfter(file: seq<byte>, base: Path, sessions: seq<seq<Arrival>>, user: seq<byte>): Dirs {
    DirsOf(Serve(World(file, Store(base, map[])), sessions).store, user)
  }

  lemma {:induction false} DirsAfterTidy(file: seq<byte>, base: Path, sessions: seq<seq<Arrival>>, user: seq<byte>)
    ensures TidyDirs(DirsAfter(file, base, sessions, user))
  {
    EmptyTidy(base);
    ServeTidy(World(file, Store(base, map[])), sessions);
    hide Serve, TidyDirs;
  }

  /** Latest backup over all runs: after any sessions on an initially empty store, each user's listed
      backups are numbered 1 to some m (and since a listed backup stays listed, one listed later has a
      higher number); the latest id is that of number m exactly when m is aligned: always up to 999999,
      not at 1000000. */
  lemma {:induction false} LatestOverRuns(file: seq<byte>, base: Path, sessions: seq<seq<Arrival>>, user: seq<byte>) returns (m: nat)
    ensures var dirs := DirsAfter(file, base, sessions, user);
            && m <= INT_MAX && Contiguous(dirs, m)
            && (m >= 1 ==> (Latest(SortedIds(Listed(dirs))) == IdOf(m) <==> Aligned(m)))
            && (m <= 999999 ==> Aligned(m)) && !Aligned(1000000)
  {
    DirsAfterTidy(file, base, sessions, user);
    var dirs := DirsAfter(file, base, sessions, user);
    hide DirsAfter;
    m :| Tidy(dirs, m);
    NotAligned();
    assert m <= INT_MAX && Contiguous(dirs, m);
    hide Tidy, Contiguous, SortedIds, Latest, IdOf, Listed, Aligned;
    if m >= 1 {
      LatestIsNewestIff(dirs, m);
    }
    SmallAligned(m);
  }

  /** Unique names over all runs: after any sessions on an initially empty store, no two listed backups
      of a user carry the same name, and a name left in the next directory is none of theirs. */
  lemma {:induction false} NamesOverRuns(file: seq<byte>, base: Path, sessions: seq<seq<Arrival>>, user: seq<byte>, a: Id, b: Id)
    requires var dirs := DirsAfter(file, base, sessions, user);
             a in Listed(dirs) && b != a && (b in Listed(dirs) || NextId(dirs) == Some(b))
    ensures var dirs := DirsAfter(file, base, sessions, user);
            NameOf(dirs, a) != [] ==> NameOf(dirs, b) != NameOf(dirs, a)
  {
    DirsAfterTidy(file, base, sessions, user);
    var dirs := DirsAfter(file, base, sessions, user);
    hide DirsAfter, NextId;
    var m: nat :| Tidy(dirs, m);
    hide IdOf, Contiguous;
    assert a in dirs && (b !in dirs ==> NameOf(dirs, b) == []);
  }

  lemma {:induction false} SmallAligned(m: nat)
    ensures m <= 999999 ==> Aligned(m)
  {
  }

  lemma {:induction false} NotAligned()
    ensures !Aligned(1000000)
  {
    MillionIs();
    assert Pow10(7) == 10000000;
    assert Width(100000) == 6;
    assert Width(1000000) == 7;
  }
}
