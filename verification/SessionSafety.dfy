/** What every step of a server session keeps, and so what holds over all runs, whatever the client sends;
    and when other users see nothing of it. */
module SessionSafety {
  import opened Bytes
  import opened Wire
  import opened Messages
  import opened Transport
  import opened Users
  import opened Paths
  import opened BackupIds
  import opened Storage
  import opened Session

  // ----- the invariant -----

  /** The counters count the messages of the histories, modulo their 64 bits. */
  predicate Counted(s: Server) {
    && s.sendSeq == |s.said| % U64
    && s.recvSeq == |s.heard| % U64
    && (!s.active ==> s.said == [] && s.heard == [])
  }

  /** One entry per name, entries that the file format holds, and the file up to date. */
  ghost predicate TableFits(s: Server) {
    && DistinctNames(s.users)
    && (forall u :: u in s.users ==> Users.Storable(u))
    && (|s.users| < U32 ==> Loaded(s.file) == s.users)
  }

  predicate HasHash(users: seq<User>, name: seq<byte>, hash: seq<byte>) {
    Lookup(users, name).Some? && Lookup(users, name).value.hash == hash
  }

  predicate PhaseFits(s: Server) {
    match s.phase
    case Hello => !s.active
    case Auth => !s.active
    case AwaitProof(name, hash) => !s.active && HasHash(s.users, name, hash)
    case Ready => s.active
    case AwaitData(_) => s.active
    case Receiving(id, _, _, _) => s.active && |id| < U16 && Plain(id) && id !in Listed(DirsOf(s.store, s.user))
    case _ => true
  }

  predicate LoginFits(s: Server) {
    && s.authenticated == s.active
    && (s.active ==> s.key == SessionKey(s.user, s.challenge) && Lookup(s.users, s.user).Some?)
  }

  ghost predicate Safe(s: Server) {
    Counted(s) && TableFits(s) && LoginFits(s) && PhaseFits(s)
  }

  // ----- what a step may change -----

  /** Only directories in the user's own one change, and of these only such as are not listed. */
  ghost predicate StoreKept(a: Store, b: Store, user: seq<byte>) {
    && b.base == a.base
    && (forall p :: p in a.dirs ==> p in b.dirs)
    && (forall p :: p in b.dirs && !IsChild(UserPath(a, user), p) ==> p in a.dirs && b.dirs[p] == a.dirs[p])
    && (forall p :: p in a.dirs && a.dirs[p].header.Some? ==> b.dirs[p] == a.dirs[p])
  }

  /** From s to t: once logged in, user, key and table are fixed; until then the store is. */
  ghost predicate Kept(s: Server, t: Server) {
    && s.users <= t.users && |t.users| <= |s.users| + 1
    && (s.authenticated ==> t.authenticated && t.user == s.user && t.key == s.key && t.users == s.users && t.file == s.file)
    && (!t.authenticated ==> t.users == s.users && t.file == s.file)
    && (!t.authenticated ==> t.store == s.store)
    && StoreKept(s.store, t.store, t.user)
  }

  /** A proof equal to the stored hash, or a new name with its own entry appended. */
  ghost predicate Earned(s: Server, m: Message, t: Server) {
    || (s.phase.AwaitProof? && t.user == s.phase.name && m.kind != 0 && t.users == s.users
        && |m.payload| >= 32 && HasHash(s.users, t.user, m.payload[..32]))
    || (s.phase.Auth? && m.kind == REGISTER_REQUEST && Lookup(s.users, t.user).None?
        && |t.users| == |s.users| + 1 && t.users[..|s.users|] == s.users && t.users[|s.users|].name == t.user)
  }

  ghost predicate GoodStep(s: Server, m: Message, t: Server) {
    && Safe(t) && Kept(s, t)
    && (t.store != s.store ==> s.authenticated)
    && (!s.authenticated && t.authenticated ==> Earned(s, m, t))
  }

  /** Everything but phase, channel, counters and histories is as before. */
  predicate Quiet(s: Server, t: Server) {
    && t == s.(phase := t.phase, outbox := t.outbox, sendSeq := t.sendSeq, said := t.said, recvSeq := t.recvSeq, heard := t.heard)
    && (Counted(s) ==> Counted(t))
  }

  lemma {:induction false} QuietSend(s: Server, m: Message)
    ensures Quiet(s, SendSealed(s, m)) && SendSealed(s, m).phase == s.phase
    ensures !s.active ==> Quiet(s, Send(s, m))
  {
    hide Sealed;
  }

  lemma {:induction false} QuietAt(s: Server, phase: Phase)
    ensures Quiet(s, At(s, phase))
  {
  }

  lemma {:induction false} QuietSendAll(s: Server, ms: seq<Message>)
    ensures Quiet(s, SendAllSealed(s, ms)) && SendAllSealed(s, ms).phase == s.phase
    decreases |ms|
  {
    if ms == [] {
    } else {
      QuietSend(s, ms[0]);
      QuietSendAll(SendSealed(s, ms[0]), ms[1..]);
    }
  }

  lemma {:induction false} QuietReceive(s: Server, m: Message)
    ensures Quiet(s, Received(s, m)) && Received(s, m).phase == s.phase
  {
    hide Opened;
  }

  lemma {:induction false} QuietGood(s: Server, m: Message, t: Server)
    requires Safe(s) && Quiet(s, t) && PhaseFits(t)
    ensures GoodStep(s, m, t)
  {
    StoreKeptSelf(s.store, t.user);
    hide Loaded, DistinctNames, SessionKey, Lookup, HasHash, Listed, StoreKept;
  }

  lemma {:induction false} StoreKeptSelf(store: Store, user: seq<byte>)
    ensures StoreKept(store, store, user)
  {
  }

  // ----- handlers -----

  lemma {:induction false} HandshakeGood(s: Server, m: Message, drawn: Challenge)
    requires Safe(s) && s.phase.Hello?
    ensures GoodStep(s, m, HandleHandshake(s, m, drawn))
  {
    StoreKeptSelf(s.store, s.user);
    hide Loaded, DistinctNames, SessionKey, Lookup, HasHash, Listed, FromBE, BE, StoreKept;
    QuietSend(s, ErrorText(INCOMPATIBLE_VERSION, Ascii("Expected CLIENT_HELLO.")));
    QuietSend(s, ErrorText(INCOMPATIBLE_VERSION, Ascii("Protocol version mismatch.")));
  }

  lemma {:induction false} LoginGood(s: Server, m: Message)
    requires Safe(s) && s.phase.Auth?
    ensures GoodStep(s, m, HandleLogin(s, m.payload))
  {
    var t := HandleLogin(s, m.payload);
    QuietSend(s, ErrorText(INVALID_MESSAGE, Ascii("Invalid LOGIN_REQUEST.")));
    assert Quiet(s, t) && PhaseFits(t) by {
      hide Loaded, DistinctNames, SessionKey, Listed, Lookup, GetString, ErrorText;
    }
    hide *;
    QuietGood(s, m, t);
  }

  lemma {:induction false} ProofGood(s: Server, m: Message)
    requires Safe(s) && s.phase.AwaitProof?
    ensures GoodStep(s, m, HandleProof(s, s.phase.name, s.phase.hash, m))
  {
    QuietSend(s, ErrorText(INVALID_MESSAGE, Ascii("Invalid login proof.")));
    QuietSend(s, Message(LOGIN_RESPONSE, [1]));
    hide Loaded, DistinctNames, SessionKey, Lookup, Listed, ErrorText;
  }

  lemma {:induction false} AppendedTable(users: seq<User>, u: User)
    requires DistinctNames(users) && Lookup(users, u.name).None?
    requires Users.Storable(u) && forall v :: v in users ==> Users.Storable(v)
    ensures DistinctNames(users + [u]) && Lookup(users + [u], u.name) == Some(u)
    ensures forall v :: v in users + [u] ==> Users.Storable(v)
    ensures |users + [u]| < U32 ==> Loaded(TableFile(users + [u])) == users + [u]
  {
    var all := users + [u];
    hide Users.Storable, Loaded, TableFile, Lookup;
    assert forall k :: 0 <= k < |users| ==> all[k] == users[k];
    assert all[|users|] == u;
    LookupFinds(all, |users|);
    if |all| < U32 {
      TableRoundTrip(all);
    }
  }

  /** The fields that registering and entering leave behind. */
  lemma {:induction false} RegisteredFields(s: Server, u: User, t: Server)
    requires Counted(s) && !s.active && t == At(Send(Enter(Register(s, u), u.name), Message(REGISTER_RESPONSE, [0])), Ready)
    ensures Counted(t) && t.users == s.users + [u] && t.file == TableFile(s.users + [u]) && t.store == s.store
    ensures t.active && t.authenticated && t.user == u.name && t.challenge == s.challenge && t.phase.Ready?
    ensures t.key == SessionKey(t.user, t.challenge)
  {
    hide SessionKey, TableFile;
  }

  lemma {:induction false} EnterRegistered(s: Server, m: Message, u: User)
    requires Safe(s) && s.phase.Auth? && m.kind == REGISTER_REQUEST && Lookup(s.users, u.name).None? && Users.Storable(u)
    ensures GoodStep(s, m, At(Send(Enter(Register(s, u), u.name), Message(REGISTER_RESPONSE, [0])), Ready))
  {
    var t := At(Send(Enter(Register(s, u), u.name), Message(REGISTER_RESPONSE, [0])), Ready);
    RegisteredFields(s, u, t);
    hide At, Send, Enter, Register;
    RegisteredFits(s, u, t);
    RegisteredKept(s, m, u, t);
    hide Safe, Kept, Earned, Counted, TableFile, SessionKey;
  }

  lemma {:induction false} RegisteredFits(s: Server, u: User, t: Server)
    requires Safe(s) && Lookup(s.users, u.name).None? && Users.Storable(u) && Counted(t)
    requires t.users == s.users + [u] && t.file == TableFile(s.users + [u])
    requires t.active && t.authenticated && t.user == u.name && t.phase.Ready? && t.key == SessionKey(t.user, t.challenge)
    ensures Safe(t)
  {
    AppendedTable(s.users, u);
    hide Loaded, DistinctNames, SessionKey, Lookup, Listed, TableFile, Users.Storable, Counted;
  }

  lemma {:induction false} RegisteredKept(s: Server, m: Message, u: User, t: Server)
    requires Safe(s) && s.phase.Auth? && m.kind == REGISTER_REQUEST && Lookup(s.users, u.name).None?
    requires t.users == s.users + [u] && t.store == s.store && t.authenticated && t.user == u.name
    ensures Kept(s, t) && Earned(s, m, t) && !s.authenticated
  {
    StoreKeptSelf(s.store, u.name);
    assert (s.users + [u])[..|s.users|] == s.users;
    hide Counted, TableFits, Lookup, StoreKept;
  }

  lemma {:induction false} RegisterGood(s: Server, m: Message)
    requires Safe(s) && s.phase.Auth? && m.kind == REGISTER_REQUEST
    ensures GoodStep(s, m, HandleRegister(s, m.payload))
  {
    var p := m.payload;
    hide Safe, GoodStep, GetString, Lookup, Register, Enter;
    if NewEntry(s, p) {
      var (name, o) := GetString(p, 0).value;
      NameFits(p);
      EnterRegistered(s, m, User(name, p[o..o + 8], p[o + 8..o + 40]));
    } else {
      RegisterRefused(s, p);
      hide *;
      QuietGood(s, m, HandleRegister(s, p));
    }
  }

  /** The payload registers a name that is not taken. */
  predicate NewEntry(s: Server, payload: seq<byte>) {
    |payload| >= 2 && GetString(payload, 0).Some?
    && var (name, o) := GetString(payload, 0).value;
       |payload| - o >= 40 && Lookup(s.users, name).None?
  }

  lemma {:induction false} NameFits(payload: seq<byte>)
    requires |payload| >= 2 && GetString(payload, 0).Some?
    ensures |GetString(payload, 0).value.0| < U16
  {
    Widths();
  }

  lemma {:induction false} RegisterRefused(s: Server, payload: seq<byte>)
    requires Safe(s) && s.phase.Auth? && !NewEntry(s, payload)
    ensures var t := HandleRegister(s, payload); Quiet(s, t) && PhaseFits(t)
  {
    QuietSend(s, ErrorText(INVALID_MESSAGE, Ascii("Invalid REGISTER_REQUEST.")));
    QuietSend(s, ErrorText(INVALID_MESSAGE, Ascii("Invalid REGISTER_REQUEST payload.")));
    QuietSend(s, Message(REGISTER_RESPONSE, [1]));
    QuietAt(s, Undefined);
    hide GetString, Lookup, ErrorText, TableFits, Counted, LoginFits, SendSealed;
  }

  lemma {:induction false} AuthGood(s: Server, m: Message)
    requires Safe(s) && s.phase.Auth?
    ensures GoodStep(s, m, HandleAuth(s, m))
  {
    var t := HandleAuth(s, m);
    LoginGood(s, m);
    if m.kind == REGISTER_REQUEST {
      RegisterGood(s, m);
    }
    QuietSend(s, ErrorText(NOT_LOGGED_IN, Ascii("Please login or register first.")));
    hide HandleLogin, HandleRegister, GoodStep, Safe, ErrorText;
    if m.kind != LOGIN_REQUEST && m.kind != REGISTER_REQUEST {
      QuietGood(s, m, t);
    }
  }

  lemma {:induction false} PutKept(store: Store, user: seq<byte>, id: Id, d: Dir)
    requires Plain(id) && id !in Listed(DirsOf(store, user))
    ensures StoreKept(store, Put(store, user, id, d), user)
  {
    var p := UserPath(store, user) + [id];
    hide Resolve, ChildrenOf;
    PlainId(store, user, id);
    assert IsChild(UserPath(store, user), p);
    ChildrenMember(store.dirs, UserPath(store, user), id);
  }

  /** What a session keeps is seen by every user whose name resolves to another directory. */
  lemma {:induction false} OthersKept(a: Store, b: Store, user: seq<byte>, u: seq<byte>)
    requires StoreKept(a, b, user) && UserPath(a, u) != UserPath(a, user)
    ensures DirsOf(b, u) == DirsOf(a, u)
  {
    var up, own := UserPath(a, u), UserPath(a, user);
    var c, d := ChildrenOf(a.dirs, up), ChildrenOf(b.dirs, up);
    assert DirsOf(a, u) == c && DirsOf(b, u) == d;
    hide ChildrenOf, UserPath, DirsOf;
    forall id ensures (id in c <==> id in d) && (id in c ==> c[id] == d[id]) {
      ChildrenMember(a.dirs, up, id);
      ChildrenMember(b.dirs, up, id);
      assert (up + [id])[..|up|] == up;
      assert !IsChild(own, up + [id]);
    }
    assert c == d;
  }

  /** ... which every other plain name does. */
  lemma {:induction false} OtherPlainKept(a: Store, b: Store, user: seq<byte>, u: seq<byte>)
    requires StoreKept(a, b, user) && Plain(user) && Plain(u) && u != user
    ensures DirsOf(b, u) == DirsOf(a, u)
  {
    PlainUsersApart(a, u, user);
    OthersKept(a, b, user, u);
  }

  lemma {:induction false} StoreKeptTransitive(a: Store, b: Store, c: Store, user: seq<byte>)
    requires StoreKept(a, b, user) && StoreKept(b, c, user)
    ensures StoreKept(a, c, user)
  {
  }

  lemma {:induction false} DataGood(s: Server, m: Message)
    requires Safe(s) && s.phase.Receiving?
    ensures GoodStep(s, m, HandleData(s, m))
  {
    if m.kind == BACKUP_COMPLETE {
      hide Safe, GoodStep, FinishBackup;
      assert m.kind != 0 && HandleData(s, m) == FinishBackup(s);
      FinishGood(s, m);
    } else {
      DataQuiet(s, m);
      hide *;
      QuietGood(s, m, HandleData(s, m));
    }
  }

  lemma {:induction false} DataQuiet(s: Server, m: Message)
    requires Safe(s) && s.phase.Receiving? && m.kind != BACKUP_COMPLETE
    ensures var t := HandleData(s, m); Quiet(s, t) && PhaseFits(t)
  {
    var t := HandleData(s, m);
    ReceivingFits(s);
    QuietAt(s, t.phase);
    hide ParsedFile, Safe, Quiet, Plain, Listed, DirsOf;
    assert t == At(s, t.phase) && (t.phase.Receiving? ==> t.phase.id == s.phase.id);
    hide HandleData;
    assert PhaseFits(s);
  }

  /** After login, a kept store and a fitting phase make a good step. */
  lemma {:induction false} StoreGood(s: Server, m: Message, store: Store, phase: Phase)
    requires Safe(s) && s.active && StoreKept(s.store, store, s.user) && PhaseFits(s.(store := store, phase := phase))
    ensures GoodStep(s, m, s.(store := store, phase := phase))
  {
    hide Loaded, DistinctNames, SessionKey, Lookup, StoreKept, PhaseFits, HasHash;
  }

  lemma {:induction false} ReceivingFits(s: Server)
    requires Safe(s) && s.phase.Receiving?
    ensures s.active && Plain(s.phase.id) && s.phase.id !in Listed(DirsOf(s.store, s.user))
  {
    hide Counted, TableFits, LoginFits, Plain, Listed, DirsOf;
  }

  lemma {:induction false} SaveGood(s: Server, m: Message, d: Dir)
    requires Safe(s) && s.phase.Receiving?
    ensures GoodStep(s, m, s.(store := Put(s.store, s.user, s.phase.id, d), phase := Ready))
  {
    var store := Put(s.store, s.user, s.phase.id, d);
    ReceivingFits(s);
    ReadyFits(s, store);
    hide *;
    PutKept(s.store, s.user, s.phase.id, d);
    StoreGood(s, m, store, Ready);
  }

  lemma {:induction false} ReadyFits(s: Server, store: Store)
    requires s.active
    ensures PhaseFits(s.(store := store, phase := Ready))
  {
  }

  lemma {:induction false} SendWhenReady(s: Server, m: Message)
    ensures At(SendSealed(s, m), Ready) == SendSealed(At(s, Ready), m)
  {
    hide Sealed;
  }

  lemma {:induction false} FinishGood(s: Server, m: Message)
    requires Safe(s) && s.phase.Receiving?
    ensures GoodStep(s, m, FinishBackup(s))
  {
    var Receiving(id, custom, whole, meta) := s.phase;
    hide Safe, GoodStep, Saveable;
    if Saveable(whole, meta) {
      assert s.authenticated by { ActiveWhileWaiting(s); }
      var saved := SavedStore(s.store, s.user, id, custom, whole, meta);
      var t := s.(store := saved, phase := Ready);
      SaveGood(s, m, SavedDir(DirFor(s.store, s.user, id), custom, whole, meta));
      var ack := Message(BACKUP_COMPLETE, PutString(id));
      QuietSend(t, ack);
      SendWhenReady(s.(store := saved), ack);
      hide SavedStore, PutString, SendSealed, Quiet;
      SafeOf(s, m, t);
      QuietReady(t, m, SendSealed(t, ack));
      GoodSteps(s, m, t, SendSealed(t, ack));
    } else {
      QuietAt(s, Undefined);
      hide Quiet;
      QuietLeave(s, m, At(s, Undefined));
    }
  }

  lemma {:induction false} SafeOf(s: Server, m: Message, t: Server)
    requires GoodStep(s, m, t)
    ensures Safe(t)
  {
  }

  lemma {:induction false} ActiveWhileWaiting(s: Server)
    requires Safe(s) && (s.phase.AwaitData? || s.phase.Receiving? || s.phase.Ready?)
    ensures s.active && s.authenticated
  {
  }

  lemma {:induction false} QuietLeave(s: Server, m: Message, t: Server)
    requires Safe(s) && Quiet(s, t) && (t.phase.Closed? || t.phase.Undefined?)
    ensures GoodStep(s, m, t)
  {
    hide TableFits, Counted, LoginFits, Quiet;
    QuietGood(s, m, t);
  }

  lemma {:induction false} QuietReady(s: Server, m: Message, t: Server)
    requires Safe(s) && Quiet(s, t) && s.phase.Ready?
    requires t.phase.Ready? || t.phase.AwaitData? || t.phase.Closed? || t.phase.Undefined?
    ensures GoodStep(s, m, t)
  {
    hide TableFits, Counted, LoginFits;
    assert t.active == s.active;
    hide Quiet;
    QuietGood(s, m, t);
  }

  lemma {:induction false} GoodSteps(s: Server, m: Message, t: Server, u: Server)
    requires GoodStep(s, m, t) && GoodStep(t, m, u) && s.authenticated
    ensures GoodStep(s, m, u)
  {
    StoreKeptTransitive(s.store, t.store, u.store, s.user);
    hide Safe, StoreKept, Earned;
  }

  lemma {:induction false} CreatedKept(store: Store, user: seq<byte>, id: Id)
    requires NextId(DirsOf(store, user)) == Some(id)
    ensures StoreKept(store, CreatedStore(store, user, id), user)
    ensures |id| < U16 && Plain(id) && id !in Listed(DirsOf(CreatedStore(store, user, id), user))
  {
    var dirs := DirsOf(store, user);
    NextIdIsFresh(dirs);
    NextIdPlain(dirs);
    PutKept(store, user, id, DirFor(store, user, id));
    CreatedSeen(store, user, id, user);
    hide NextId, DirsOf, Put, DirFor, Plain, StoreKept;
    assert id !in Listed(dirs[id := DirAt(dirs, id)]);
  }

  lemma {:induction false} CreateGood(s: Server, custom: seq<byte>, m: Message, id: Id)
    requires Safe(s) && s.active && NextId(DirsOf(s.store, s.user)) == Some(id)
    ensures GoodStep(s, m, s.(store := CreatedStore(s.store, s.user, id), phase := Receiving(id, custom, [], [])))
  {
    hide NextId, StoreKept, DirsOf, Listed, Plain, CreatedStore, Safe, GoodStep;
    CreatedKept(s.store, s.user, id);
    StoreGood(s, m, CreatedStore(s.store, s.user, id), Receiving(id, custom, [], []));
  }

  /** The directory is made, and the message taken as the first of the upload. */
  lemma {:induction false} TakeGood(s: Server, custom: seq<byte>, m: Message, id: Id)
    requires Safe(s) && s.active && NextId(DirsOf(s.store, s.user)) == Some(id)
    ensures GoodStep(s, m, HandleData(s.(store := CreatedStore(s.store, s.user, id), phase := Receiving(id, custom, [], [])), m))
  {
    var t := s.(store := CreatedStore(s.store, s.user, id), phase := Receiving(id, custom, [], []));
    assert s.authenticated by { hide NextId, DirsOf, TableFits, PhaseFits, Counted; }
    hide NextId, GoodStep, HandleData, CreatedStore, DirsOf;
    CreateGood(s, custom, m, id);
    DataGood(t, m);
    SafeOf(s, m, t);
    hide Safe;
    GoodSteps(s, m, t, HandleData(t, m));
  }

  lemma {:induction false} BeginGood(s: Server, custom: seq<byte>, m: Message)
    requires Safe(s) && s.active
    ensures GoodStep(s, m, BeginBackup(s, custom, m))
  {
    var dirs := DirsOf(s.store, s.user);
    if NextId(dirs).Some? {
      hide NextId, GoodStep, HandleData, CreatedStore, DirsOf, Safe;
      TakeGood(s, custom, m, NextId(dirs).value);
    } else {
      QuietAt(s, Undefined);
      hide NextId;
      QuietGood(s, m, At(s, Undefined));
    }
  }

  lemma {:induction false} StartQuiet(s: Server, m: Message)
    requires m.kind == BACKUP_START && s.phase.Ready?
    ensures var t := HandleBackup(s, m);
            Quiet(s, t) && (t.phase.Ready? || t.phase.AwaitData? || t.phase.Undefined?)
  {
    var t := HandleBackup(s, m);
    QuietAt(s, t.phase);
    if |m.payload| >= 2 && GetString(m.payload, 0).Some? {
      var custom := GetString(m.payload, 0).value.0;
      QuietSend(s, ErrorText(NAME_EXISTS, Ascii("Backup name '") + custom + Ascii("' already exists. Please use a different name.")));
    }
    hide GetString, NameTaken, ErrorText, Quiet, SendSealed;
  }

  lemma {:induction false} BackupGood(s: Server, m: Message)
    requires Safe(s) && s.phase.Ready?
    ensures GoodStep(s, m, HandleBackup(s, m))
  {
    hide GoodStep, Safe;
    if m.kind != BACKUP_START {
      ActiveWhileWaiting(s);
      BeginGood(s, [], m);
    } else {
      StartQuiet(s, m);
      hide HandleBackup, Quiet;
      QuietReady(s, m, HandleBackup(s, m));
    }
  }

  lemma {:induction false} RestoreQuiet(s: Server, id: Id)
    ensures Quiet(s, RestoreId(s, id)) && RestoreId(s, id).phase == s.phase
  {
    var d := DirFor(s.store, s.user, id);
    QuietSend(s, ErrorText(BACKUP_NOT_FOUND, Ascii("Backup not found: ") + id));
    QuietSendAll(s, RestoreReply(d));
    hide Quiet, SendAllSealed, SendSealed, RestoreReply, ErrorText, RestoreBytes;
  }

  lemma {:induction false} RestoreGood(s: Server, m: Message)
    requires Safe(s) && s.phase.Ready?
    ensures GoodStep(s, m, HandleRestore(s, m.payload))
  {
    hide GoodStep, Safe, RestoreId, ErrorText, Quiet, SendSealed, Latest, SortedIds, Listed, GetString;
    var t := HandleRestore(s, m.payload);
    QuietSend(s, ErrorText(BACKUP_NOT_FOUND, Ascii("No backup found.")));
    RestoreQuiet(s, Latest(SortedIds(Listed(DirsOf(s.store, s.user)))));
    var asked := if |m.payload| >= 2 then GetString(m.payload, 0) else Some(([], 0));
    if asked.Some? {
      RestoreQuiet(s, asked.value.0);
    }
    QuietAt(s, Undefined);
    QuietReady(s, m, t);
  }

  lemma {:induction false} CommandGood(s: Server, m: Message, stamps: map<Id, word64>)
    requires Safe(s) && s.phase.Ready?
    ensures GoodStep(s, m, HandleCommand(s, m, stamps))
  {
    hide GoodStep, Safe, ErrorText, Quiet, SendSealed, HandleList, HandleBackup, HandleRestore;
    if m.kind == FILE_DATA || m.kind == BACKUP_COMPLETE || m.kind == BACKUP_START {
      BackupGood(s, m);
    } else if m.kind == RESTORE_REQUEST {
      RestoreGood(s, m);
    } else {
      ListQuiet(s, stamps);
      QuietAt(s, Closed);
      QuietSend(s, ErrorText(INVALID_MESSAGE, Ascii("Unknown command.")));
      QuietReady(s, m, HandleCommand(s, m, stamps));
    }
  }

  lemma {:induction false} ListQuiet(s: Server, stamps: map<Id, word64>)
    ensures Quiet(s, HandleList(s, stamps)) && HandleList(s, stamps).phase == s.phase
  {
    var dirs := DirsOf(s.store, s.user);
    var ids := SortedIds(Listed(dirs));
    QuietSend(s, Message(BACKUP_LIST_RESPONSE, BE(|ids|, 4) + ListEntries(dirs, ids, stamps)));
    hide Quiet, SendSealed, Listed, SortedIds, ListEntries, BE;
  }

  lemma {:induction false} HandleGood(s: Server, m: Message, stamps: map<Id, word64>)
    requires Safe(s)
    ensures GoodStep(s, m, Handle(s, m, stamps))
  {
    hide GoodStep, Safe, HandleAuth, HandleProof, HandleCommand, BeginBackup, HandleData;
    match s.phase {
      case Auth => AuthGood(s, m);
      case AwaitProof(_, _) => ProofGood(s, m);
      case Ready => CommandGood(s, m, stamps);
      case AwaitData(custom) =>
        if m.kind == 0 {
          CloseGood(s, m);
        } else {
          ActiveWhileWaiting(s);
          BeginGood(s, custom, m);
        }
      case Receiving(_, _, _, _) => DataGood(s, m);
      case _ => StayGood(s, m);
    }
  }

  lemma {:induction false} CloseGood(s: Server, m: Message)
    requires Safe(s)
    ensures GoodStep(s, m, At(s, Closed))
  {
    QuietAt(s, Closed);
    QuietLeave(s, m, At(s, Closed));
  }

  lemma {:induction false} StayGood(s: Server, m: Message)
    requires Safe(s)
    ensures GoodStep(s, m, s)
  {
    QuietAt(s, s.phase);
    assert At(s, s.phase) == s;
    QuietGood(s, m, s);
  }

  // ----- steps and runs -----

  lemma {:induction false} ReceiveGood(s: Server, m: Message)
    requires Safe(s)
    ensures Safe(Received(s, m))
  {
    QuietReceive(s, m);
    hide Received;
    QuietGood(s, m, Received(s, m));
  }

  lemma {:induction false} ReceiveFirst(s: Server, r: Server, m: Message, t: Server)
    requires Quiet(s, r) && r.phase == s.phase && GoodStep(r, m, t)
    ensures GoodStep(s, m, t)
  {
    hide Safe, StoreKept, Lookup, Counted;
  }

  /** Session safety for one arriving message, encrypted or not: the invariant stays, storage is
      touched only after login and only in the user's own unlisted directories, the user never
      changes, and login is earned. */
  lemma {:induction false} StepGood(s: Server, a: Arrival)
    requires Safe(s)
    ensures GoodStep(s, Opened(s, a.message), Step(s, a))
  {
    var m := Opened(s, a.message);
    if s.phase.Closed? || s.phase.Undefined? {
      hide GoodStep, Safe;
      StayGood(s, m);
    } else if s.phase.Hello? {
      assert m == a.message;
      hide GoodStep, Safe, HandleHandshake;
      HandshakeGood(s, m, a.drawn);
    } else {
      hide GoodStep, Safe, Handle, Received, Opened, Quiet;
      var r := Received(s, a.message);
      QuietReceive(s, a.message);
      ReceiveGood(s, a.message);
      HandleGood(r, m, a.stamps);
      ReceiveFirst(s, r, m, Handle(r, m, a.stamps));
    }
  }

  lemma {:induction false} KeptTransitive(s: Server, t: Server, u: Server)
    requires Kept(s, t) && Kept(t, u)
    ensures Kept(s, u)
  {
    if t.authenticated {
      StoreKeptTransitive(s.store, t.store, u.store, u.user);
    }
    hide StoreKept;
  }

  /** ... and so over every run of a session, whatever the client sends. */
  lemma {:induction false} RunGood(s: Server, arrivals: seq<Arrival>)
    requires Safe(s)
    ensures Safe(Run(s, arrivals)) && Kept(s, Run(s, arrivals))
    decreases |arrivals|
  {
    hide Step, Safe, Kept;
    if arrivals == [] {
      StayKept(s);
    } else {
      var t := Step(s, arrivals[0]);
      assert Safe(t) && Kept(s, t) by { StepGood(s, arrivals[0]); }
      RunGood(t, arrivals[1..]);
      KeptTransitive(s, t, Run(t, arrivals[1..]));
    }
  }

  lemma {:induction false} StayKept(s: Server)
    requires Safe(s)
    ensures Kept(s, s)
  {
    hide Safe;
    StayGood(s, NOTHING);
  }
}
