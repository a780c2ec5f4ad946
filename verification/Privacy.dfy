/** What a session lets its user see: exactly when that is fixed by the user's own backups. */
module Privacy {
  import opened Bytes
  import opened Wire
  import opened Messages
  import opened Transport
  import opened Paths
  import opened BackupIds
  import opened Storage
  import opened Session
  import opened SessionSafety
  import opened Answers
  import opened StoreIntegrity

  // ----- where an id leads -----

  /** The id climbs some levels, comes down again by the names it climbed, and one name more. */
  predicate ComesBack(own: Path, w: Way) {
    var k := if w.ups <= |own| then w.ups else |own|;
    |w.downs| == k + 1 && w.downs[..k] == own[|own| - k..]
  }

  lemma {:induction false} ChildIff(own: Path, w: Way)
    ensures IsChild(own, Along(own, w)) <==> ComesBack(own, w)
  {
    var k := if w.ups <= |own| then w.ups else |own|;
    var p := Along(own, w);
    assert own == own[..|own| - k] + own[|own| - k..];
    if ComesBack(own, w) {
      assert p == own[..|own| - k] + (own[|own| - k..] + [w.downs[k]]);
    }
    if IsChild(own, p) {
      assert w.downs[..k] == p[|own| - k..|own|] == own[|own| - k..];
    }
  }

  /** The id leads to a backup directory in the user's own one. */
  predicate StaysOwn(own: Path, id: Id) {
    IsChild(own, Resolve(own, id))
  }

  /** Read off the pieces of the id and the names above the user's directory. */
  lemma {:induction false} StaysOwnIff(own: Path, id: Id)
    ensures StaysOwn(own, id) <==> ComesBack(own, WayOf(HERE, Split(id)))
  {
    ResolveAlong(own, id);
    ChildIff(own, WayOf(HERE, Split(id)));
    hide Resolve, Along, WayOf, ComesBack, IsChild, Split;
  }

  /** An id without a slash that climbs, like every id the server makes, stays. */
  lemma {:induction false} PlainStays(own: Path, id: Id)
    requires Plain(id)
    ensures StaysOwn(own, id)
  {
    ResolvePlain(own, id);
  }

  /** A slash at the end changes nothing. */
  lemma {:induction false} SlashStays(own: Path, id: Id)
    ensures StaysOwn(own, id + [SLASH]) <==> StaysOwn(own, id)
  {
    TrailingSlash(own, id);
  }

  /** Two dots and another user's name stray. */
  lemma {:induction false} OtherStrays(base: Path, user: seq<byte>, other: seq<byte>, id: Id)
    requires Plain(user) && Plain(other) && Plain(id) && user != other
    ensures !StaysOwn(Resolve(base, user), DOT_DOT + [SLASH] + other + [SLASH] + id)
  {
    var own, up := Resolve(base, user), DOT_DOT + [SLASH] + other;
    var p := base + [other] + [id];
    hide Resolve;
    ResolveJoined(own, up, id);
    UpAndOver(base, user, other);
    ResolvePlain(base, user);
    ResolvePlain(base, other);
    ResolvePlain(base + [other], id);
    assert p[|base|] == other && (base + [user])[|base|] == user;
  }

  // ----- one read -----

  /** Both stores look the same to the user. */
  ghost predicate LooksSame(a: Store, b: Store, user: seq<byte>) {
    b.base == a.base && DirsOf(b, user) == DirsOf(a, user)
  }

  /** Whatever the rest of the store holds, the same is found under the id. */
  ghost predicate ReadFixed(base: Path, user: seq<byte>, id: Id) {
    forall a: Store, b: Store :: a.base == base && LooksSame(a, b, user) ==> DirFor(b, user, id) == DirFor(a, user, id)
  }

  /** What is found under an id is fixed by the user's own backups exactly if the id leads to one of them. */
  lemma {:induction false} ReadFixedIff(base: Path, user: seq<byte>, id: Id)
    ensures ReadFixed(base, user, id) <==> StaysOwn(Resolve(base, user), id)
  {
    if StaysOwn(Resolve(base, user), id) {
      forall a: Store, b: Store | a.base == base && LooksSame(a, b, user) ensures DirFor(b, user, id) == DirFor(a, user, id) {
        OwnRead(a, user, id);
        OwnRead(b, user, id);
        hide ChildrenOf, Resolve, DirFor, DirsOf;
      }
    } else {
      ForeignRead(base, user, id, DIR_ONE);
      hide DirFor, LooksSame;
    }
  }

  const DIR_ONE: Dir := Dir(Some([1]), None, None, None)

  /** An id that stays names a directory among the user's own. */
  lemma {:induction false} OwnRead(store: Store, user: seq<byte>, id: Id)
    requires StaysOwn(UserPath(store, user), id)
    ensures BackupPath(store, user, id) != []
    ensures var p := BackupPath(store, user, id); DirFor(store, user, id) == DirAt(DirsOf(store, user), p[|p| - 1])
  {
    var own, p := UserPath(store, user), BackupPath(store, user, id);
    ResolveJoined(store.base, user, id);
    hide Resolve, ChildrenOf;
    assert p == own + [p[|p| - 1]];
    ChildrenMember(store.dirs, own, p[|p| - 1]);
  }

  /** Any other id finds what the user does not see. */
  lemma {:induction false} ForeignRead(base: Path, user: seq<byte>, id: Id, d: Dir)
    requires !StaysOwn(Resolve(base, user), id)
    ensures var a, b := Store(base, map[]), Store(base, map[Resolve(base, user + [SLASH] + id) := d]);
            LooksSame(a, b, user) && DirFor(a, user, id) == EMPTY_DIR && DirFor(b, user, id) == d
  {
    var own, p := Resolve(base, user), Resolve(base, user + [SLASH] + id);
    var a, b := Store(base, map[]), Store(base, map[p := d]);
    ResolveJoined(base, user, id);
    hide Resolve, ChildrenOf;
    var before, after := ChildrenOf(a.dirs, own), ChildrenOf(b.dirs, own);
    forall other ensures other !in before && other !in after {
      ChildrenMember(a.dirs, own, other);
      ChildrenMember(b.dirs, own, other);
      assert IsChild(own, own + [other]);
    }
    assert before == after;
  }

  // ----- two sessions that look the same -----

  /** Every directory has a name as a file system has them. */
  ghost predicate Genuine(store: Store) {
    Names(store.base) && forall p :: p in store.dirs && p != [] ==> Plain(p[|p| - 1])
  }

  /** The same session over stores that look the same to its user. */
  ghost predicate Twins(s: Server, t: Server) {
    && t == s.(store := t.store) && LooksSame(s.store, t.store, s.user)
    && Genuine(s.store) && Genuine(t.store)
  }

  function AskedId(payload: seq<byte>): Option<Id> {
    if |payload| < 2 then Some([]) else
      match GetString(payload, 0)
      case None => None
      case Some((id, _)) => Some(id)
  }

  /** If the message asks for a backup, it names none, or one among the user's own. */
  predicate AsksOwn(s: Server, m: Message) {
    m.kind == RESTORE_REQUEST && AskedId(m.payload).Some? ==>
      AskedId(m.payload).value == [] || StaysOwn(UserPath(s.store, s.user), AskedId(m.payload).value)
  }

  lemma {:induction false} TwinSend(s: Server, x: Store, m: Message)
    ensures SendSealed(s.(store := x), m) == SendSealed(s, m).(store := x)
  {
    hide Sealed;
  }

  lemma {:induction false} TwinSendAll(s: Server, x: Store, ms: seq<Message>)
    ensures SendAllSealed(s.(store := x), ms) == SendAllSealed(s, ms).(store := x)
    decreases |ms|
  {
    hide SendSealed;
    if ms == [] {
    } else {
      TwinSend(s, x, ms[0]);
      TwinSendAll(SendSealed(s, ms[0]), x, ms[1..]);
    }
  }

  /** Sending, waiting and closing do not look at the store. */
  lemma {:induction false} TwinsKept(s: Server, t: Server, u: Server)
    requires Twins(s, t) && Quiet(s, u)
    ensures Twins(u, u.(store := t.store))
  {
    hide LooksSame, Genuine, Counted;
  }

  lemma {:induction false} PutGenuine(store: Store, user: seq<byte>, id: Id, d: Dir)
    requires Genuine(store) && Plain(id)
    ensures Genuine(Put(store, user, id, d))
  {
    PlainId(store, user, id);
    hide Resolve, ChildrenOf, Names;
    var p := UserPath(store, user) + [id];
    assert p[|p| - 1] == id;
  }

  lemma {:induction false} SameDir(a: Store, b: Store, user: seq<byte>, id: Id)
    requires LooksSame(a, b, user) && Plain(id)
    ensures DirFor(a, user, id) == DirFor(b, user, id)
  {
    PlainId(a, user, id);
    PlainId(b, user, id);
    hide DirFor, DirsOf, Resolve;
  }

  lemma {:induction false} SavedTwins(s: Server, t: Server, id: Id, custom: seq<byte>, whole: seq<byte>, meta: seq<byte>)
    requires Twins(s, t) && Plain(id) && Saveable(whole, meta)
    ensures Twins(s.(store := SavedStore(s.store, s.user, id, custom, whole, meta)), t.(store := SavedStore(t.store, s.user, id, custom, whole, meta)))
  {
    SavedSeen(s.store, s.user, id, custom, whole, meta, s.user);
    SavedSeen(t.store, s.user, id, custom, whole, meta, s.user);
    PutGenuine(s.store, s.user, id, SavedDir(DirFor(s.store, s.user, id), custom, whole, meta));
    PutGenuine(t.store, s.user, id, SavedDir(DirFor(t.store, s.user, id), custom, whole, meta));
    hide Genuine, SavedDirs, SavedDir, DirFor, DirsOf, Resolve, Saveable, Plain;
  }

  lemma {:induction false} CreatedTwins(s: Server, t: Server, id: Id)
    requires Twins(s, t) && Plain(id)
    ensures Twins(s.(store := CreatedStore(s.store, s.user, id)), t.(store := CreatedStore(t.store, s.user, id)))
  {
    CreatedSeen(s.store, s.user, id, s.user);
    CreatedSeen(t.store, s.user, id, s.user);
    PutGenuine(s.store, s.user, id, DirFor(s.store, s.user, id));
    PutGenuine(t.store, s.user, id, DirFor(t.store, s.user, id));
    hide Genuine, DirFor, DirsOf, DirAt, Resolve, Plain;
  }

  lemma {:induction false} FinishTwins(s: Server, t: Server)
    requires Twins(s, t) && s.phase.Receiving? && Plain(s.phase.id)
    ensures Twins(FinishBackup(s), FinishBackup(t))
  {
    var Receiving(id, custom, whole, meta) := s.phase;
    if Saveable(whole, meta) {
      SavedTwins(s, t, id, custom, whole, meta);
      var u, v := s.(store := SavedStore(s.store, s.user, id, custom, whole, meta)), t.(store := SavedStore(t.store, s.user, id, custom, whole, meta));
      var ack := Message(BACKUP_COMPLETE, PutString(id));
      TwinSend(u, v.store, ack);
      hide SavedStore, Saveable, PutString, LooksSame, Genuine;
      QuietSend(u, ack);
      QuietAt(SendSealed(u, ack), Ready);
      hide SendSealed;
      QuietThen(u, SendSealed(u, ack), At(SendSealed(u, ack), Ready));
      TwinsKept(u, v, At(SendSealed(u, ack), Ready));
    } else {
      hide LooksSame, Genuine, Saveable;
    }
  }

  lemma {:induction false} QuietThen(s: Server, t: Server, u: Server)
    requires Quiet(s, t) && Quiet(t, u)
    ensures Quiet(s, u)
  {
    hide Counted;
  }

  lemma {:induction false} DataTwins(s: Server, t: Server, m: Message)
    requires Twins(s, t) && s.phase.Receiving? && Plain(s.phase.id)
    ensures Twins(HandleData(s, m), HandleData(t, m))
  {
    hide LooksSame, Genuine, Plain, FinishBackup, ParsedFile;
    if m.kind == BACKUP_COMPLETE {
      FinishTwins(s, t);
    }
  }

  lemma {:induction false} BeginTwins(s: Server, t: Server, custom: seq<byte>, m: Message)
    requires Twins(s, t)
    ensures Twins(BeginBackup(s, custom, m), BeginBackup(t, custom, m))
  {
    assert NextId(DirsOf(s.store, s.user)) == NextId(DirsOf(t.store, t.user)) by { hide Genuine, NextId, DirsOf; }
    hide DirsOf, LooksSame, Genuine, Plain, HandleData, CreatedStore;
    if NextId(DirsOf(s.store, s.user)).Some? {
      NextIdPlain(DirsOf(s.store, s.user));
      var id := NextId(DirsOf(s.store, s.user)).value;
      hide NextId;
      CreatedTwins(s, t, id);
      var u, v := s.(store := CreatedStore(s.store, s.user, id)), t.(store := CreatedStore(t.store, s.user, id));
      PhaseTwins(u, v, Receiving(id, custom, [], []));
      DataTwins(At(u, Receiving(id, custom, [], [])), At(v, Receiving(id, custom, [], [])), m);
    }
  }

  lemma {:induction false} PhaseTwins(s: Server, t: Server, phase: Phase)
    requires Twins(s, t)
    ensures Twins(At(s, phase), At(t, phase))
  {
    hide LooksSame, Genuine;
  }

  lemma {:induction false} SendTwins(s: Server, t: Server, m: Message)
    requires Twins(s, t)
    ensures Twins(SendSealed(s, m), SendSealed(t, m))
  {
    TwinSend(s, t.store, m);
    QuietSend(s, m);
    hide SendSealed, Quiet;
    TwinsKept(s, t, SendSealed(s, m));
    hide LooksSame, Genuine;
  }

  lemma {:induction false} SendAllTwins(s: Server, t: Server, ms: seq<Message>)
    requires Twins(s, t)
    ensures Twins(SendAllSealed(s, ms), SendAllSealed(t, ms))
  {
    TwinSendAll(s, t.store, ms);
    QuietSendAll(s, ms);
    hide SendAllSealed, Quiet;
    TwinsKept(s, t, SendAllSealed(s, ms));
    hide LooksSame, Genuine;
  }

  lemma {:induction false} BackupTwins(s: Server, t: Server, m: Message)
    requires Twins(s, t)
    ensures Twins(HandleBackup(s, m), HandleBackup(t, m))
  {
    hide Genuine, BeginBackup, GetString, DirsOf, SendError;
    if m.kind != BACKUP_START {
      BeginTwins(s, t, [], m);
    } else {
      PhaseTwins(s, t, HandleBackup(s, m).phase);
      if |m.payload| >= 2 && GetString(m.payload, 0).Some? {
        var custom := GetString(m.payload, 0).value.0;
        assert NameTaken(s, custom) == NameTaken(t, custom);
        ErrorTwins(s, t, NAME_EXISTS, Ascii("Backup name '") + custom + Ascii("' already exists. Please use a different name."));
      }
      hide NameTaken, LooksSame;
    }
  }

  lemma {:induction false} ErrorTwins(s: Server, t: Server, code: nat, text: seq<byte>)
    requires Twins(s, t)
    ensures Twins(SendError(s, code, text), SendError(t, code, text))
  {
    hide Twins, SendSealed, ErrorText;
    SendTwins(s, t, ErrorText(code, text));
  }

  lemma {:induction false} OwnTwins(s: Server, t: Server, id: Id)
    requires Twins(s, t) && StaysOwn(UserPath(s.store, s.user), id)
    ensures DirFor(s.store, s.user, id) == DirFor(t.store, t.user, id)
  {
    TwinPaths(s, t, id);
    hide Twins, DirFor, DirsOf, Resolve, StaysOwn, BackupPath, UserPath;
    OwnRead(s.store, s.user, id);
    OwnRead(t.store, t.user, id);
  }

  lemma {:induction false} TwinPaths(s: Server, t: Server, id: Id)
    requires Twins(s, t)
    ensures UserPath(s.store, s.user) == UserPath(t.store, t.user) && BackupPath(s.store, s.user, id) == BackupPath(t.store, t.user, id)
    ensures DirsOf(s.store, s.user) == DirsOf(t.store, t.user)
  {
    hide Genuine, ChildrenOf, Resolve;
  }

  lemma {:induction false} RestoreIdTwins(s: Server, t: Server, id: Id)
    requires Twins(s, t) && StaysOwn(UserPath(s.store, s.user), id)
    ensures Twins(RestoreId(s, id), RestoreId(t, id))
  {
    OwnTwins(s, t, id);
    var d := DirFor(s.store, s.user, id);
    hide Twins, DirFor, UserPath, SendError, SendAllSealed, RestoreReply, RestoreBytes, StaysOwn;
    ErrorTwins(s, t, BACKUP_NOT_FOUND, Ascii("Backup not found: ") + id);
    SendAllTwins(s, t, RestoreReply(d));
  }

  /** The latest listed backup is one of the user's own. */
  lemma {:induction false} LatestStays(s: Server)
    requires Genuine(s.store)
    ensures var id := Latest(SortedIds(Listed(DirsOf(s.store, s.user))));
            id == [] || StaysOwn(UserPath(s.store, s.user), id)
  {
    var dirs := DirsOf(s.store, s.user);
    var id := Latest(SortedIds(Listed(dirs)));
    if id != [] {
      assert id in SortedIds(Listed(dirs)) && id in dirs by { hide SortedIds, DirsOf, Genuine; }
      var p := UserPath(s.store, s.user) + [id];
      hide SortedIds, Resolve;
      ChildrenMember(s.store.dirs, UserPath(s.store, s.user), id);
      hide ChildrenOf;
      assert p in s.store.dirs && p[|p| - 1] == id;
      PlainStays(UserPath(s.store, s.user), id);
    }
  }

  lemma {:induction false} RestoreTwins(s: Server, t: Server, m: Message)
    requires Twins(s, t) && m.kind == RESTORE_REQUEST && AsksOwn(s, m)
    ensures Twins(HandleRestore(s, m.payload), HandleRestore(t, m.payload))
  {
    var asked := AskedId(m.payload);
    hide Twins, RestoreId, RestoreLatest, GetString, StaysOwn, UserPath;
    if asked.None? {
      UndefinedTwins(s, t);
    } else if asked.value != [] {
      RestoreIdTwins(s, t, asked.value);
    } else {
      LatestTwins(s, t);
    }
  }

  lemma {:induction false} LatestTwins(s: Server, t: Server)
    requires Twins(s, t)
    ensures Twins(RestoreLatest(s), RestoreLatest(t))
  {
    var latest := Latest(SortedIds(Listed(DirsOf(s.store, s.user))));
    assert latest == Latest(SortedIds(Listed(DirsOf(t.store, t.user)))) by { hide Genuine, SortedIds, Latest, Listed, DirsOf; }
    assert Genuine(s.store) by { hide Genuine, LooksSame; }
    LatestStays(s);
    hide Twins, Genuine, SortedIds, Latest, Listed, DirsOf, RestoreId, SendError, StaysOwn, UserPath;
    if latest != [] {
      RestoreIdTwins(s, t, latest);
    } else {
      ErrorTwins(s, t, BACKUP_NOT_FOUND, Ascii("No backup found."));
    }
  }

  lemma {:induction false} UndefinedTwins(s: Server, t: Server)
    requires Twins(s, t)
    ensures Twins(At(s, Undefined), At(t, Undefined)) && Twins(At(s, Closed), At(t, Closed))
  {
    hide LooksSame, Genuine;
  }

  lemma {:induction false} ListTwins(s: Server, t: Server, stamps: map<Id, word64>)
    requires Twins(s, t)
    ensures Twins(HandleList(s, stamps), HandleList(t, stamps))
  {
    var dirs := DirsOf(s.store, s.user);
    assert DirsOf(t.store, t.user) == dirs by { hide Genuine, DirsOf; }
    hide Twins, SortedIds, Listed, ListEntries, SendSealed, BE, DirsOf;
    var ids := SortedIds(Listed(dirs));
    SendTwins(s, t, Message(BACKUP_LIST_RESPONSE, BE(|ids|, 4) + ListEntries(dirs, ids, stamps)));
  }

  lemma {:induction false} CommandTwins(s: Server, t: Server, m: Message, stamps: map<Id, word64>)
    requires Twins(s, t) && AsksOwn(s, m)
    ensures Twins(HandleCommand(s, m, stamps), HandleCommand(t, m, stamps))
  {
    hide Twins, AsksOwn, HandleBackup, HandleRestore, HandleList, SendError;
    UndefinedTwins(s, t);
    BackupTwins(s, t, m);
    if m.kind == RESTORE_REQUEST {
      RestoreTwins(s, t, m);
    }
    ListTwins(s, t, stamps);
    ErrorTwins(s, t, INVALID_MESSAGE, Ascii("Unknown command."));
  }

  lemma {:induction false} ReceivedTwins(s: Server, t: Server, m: Message)
    requires Twins(s, t)
    ensures Twins(Received(s, m), Received(t, m)) && Opened(t, m) == Opened(s, m)
    ensures Received(s, m).phase == s.phase && Received(s, m).user == s.user && Received(s, m).store == s.store
  {
    hide LooksSame, Genuine, Sealed;
  }

  lemma {:induction false} HandleTwins(s: Server, t: Server, m: Message, stamps: map<Id, word64>)
    requires Twins(s, t) && PhaseFits(s) && s.active && (s.phase.Ready? ==> AsksOwn(s, m))
    ensures Twins(Handle(s, m, stamps), Handle(t, m, stamps))
  {
    assert t.phase == s.phase;
    assert s.phase.Receiving? ==> Plain(s.phase.id) by { hide Twins, Plain, Listed, DirsOf, AsksOwn; }
    assert !s.phase.Auth? && !s.phase.AwaitProof? by { hide Twins, Plain, Listed, DirsOf, AsksOwn, HasHash; }
    hide Twins, PhaseFits, AsksOwn, HandleCommand, BeginBackup, HandleData, Plain;
    UndefinedTwins(s, t);
    match s.phase {
      case Ready => CommandTwins(s, t, m, stamps);
      case AwaitData(custom) => BeginTwins(s, t, custom, m);
      case Receiving(_, _, _, _) => DataTwins(s, t, m);
      case _ =>
    }
  }

  /** One message: two logged-in sessions whose stores look the same to their user say the same and still
      look the same, unless the message asks for what is not the user's own. */
  lemma {:induction false} StepTwins(s: Server, t: Server, a: Arrival)
    requires Twins(s, t) && PhaseFits(s) && s.active && (s.phase.Ready? ==> AsksOwn(s, Opened(s, a.message)))
    ensures Twins(Step(s, a), Step(t, a))
  {
    ReceivedTwins(s, t, a.message);
    var r := Received(s, a.message);
    assert PhaseFits(r) && !s.phase.Hello? && (r.phase.Ready? ==> AsksOwn(r, Opened(s, a.message))) by { hide Twins, Received, Opened, StaysOwn, Listed, DirsOf, Plain, AskedId; }
    assert t.phase == s.phase && r.active == s.active by { hide LooksSame, Genuine, Opened, PhaseFits, AsksOwn; }
    hide Twins, PhaseFits, AsksOwn, Received, Opened, Handle;
    if s.phase.Closed? || s.phase.Undefined? {
    } else {
      HandleTwins(r, Received(t, a.message), Opened(s, a.message), a.stamps);
    }
  }

  // ----- runs -----

  /** Every request of the run, when the session is ready for it, asks for what is the user's own. */
  ghost predicate OwnRequests(s: Server, arrivals: seq<Arrival>)
    decreases |arrivals|
  {
    arrivals == []
    || ((s.phase.Ready? ==> AsksOwn(s, Opened(s, arrivals[0].message))) && OwnRequests(Step(s, arrivals[0]), arrivals[1..]))
  }

  /** Nothing of others shows: over every run of a logged-in session whose requests stay with the user's own
      backups, everything it says and all it leaves for its user to see are fixed by what its user saw at the
      start, whatever the rest of the store holds. */
  lemma {:induction false} RunTwins(s: Server, t: Server, arrivals: seq<Arrival>)
    requires Twins(s, t) && Safe(s) && s.active && OwnRequests(s, arrivals)
    ensures Twins(Session.Run(s, arrivals), Session.Run(t, arrivals))
    decreases |arrivals|
  {
    hide Twins, Step, AsksOwn, Opened;
    if arrivals == [] {
    } else {
      var a := arrivals[0];
      FitsOf(s);
      StepTwins(s, t, a);
      StaysIn(s, a);
      hide Safe;
      RunTwins(Step(s, a), Step(t, a), arrivals[1..]);
    }
  }

  lemma {:induction false} FitsOf(s: Server)
    requires Safe(s)
    ensures PhaseFits(s)
  {
  }

  lemma {:induction false} StaysIn(s: Server, a: Arrival)
    requires Safe(s) && s.active
    ensures Safe(Step(s, a)) && Step(s, a).active
  {
    StepGood(s, a);
    hide Step, Counted, TableFits, PhaseFits, Earned, StoreKept;
  }

  // ----- one request, both ways -----

  /** Whatever the rest of the store holds, the session says the same to the message. */
  ghost predicate AnswerFixed(s: Server, a: Arrival) {
    forall x: Store, y: Store ::
      x.base == s.store.base && LooksSame(x, y, s.user) && Genuine(x) && Genuine(y) ==>
        Step(s.(store := y), a).said == Step(s.(store := x), a).said
  }

  /** A command gets an answer that is fixed by the user's own backups exactly if it does not ask for what an
      id outside of them leads to. */
  lemma {:induction false} AnswerFixedIff(s: Server, a: Arrival)
    requires s.phase.Ready? && s.active && Names(s.store.base)
    ensures AnswerFixed(s, a) <==> AsksOwn(s, Opened(s, a.message))
  {
    if AsksOwn(s, Opened(s, a.message)) {
      forall x: Store, y: Store | x.base == s.store.base && LooksSame(x, y, s.user) && Genuine(x) && Genuine(y)
        ensures Step(s.(store := y), a).said == Step(s.(store := x), a).said
      {
        AnswerTwins(s, x, y, a);
      }
    } else {
      ForeignAnswer(s, a);
    }
  }

  lemma {:induction false} AnswerTwins(s: Server, x: Store, y: Store, a: Arrival)
    requires s.phase.Ready? && s.active && AsksOwn(s, Opened(s, a.message))
    requires x.base == s.store.base && LooksSame(x, y, s.user) && Genuine(x) && Genuine(y)
    ensures Step(s.(store := y), a).said == Step(s.(store := x), a).said
  {
    var u, v := s.(store := x), s.(store := y);
    assert Opened(u, a.message) == Opened(s, a.message) by { hide Sealed; }
    assert AsksOwn(u, Opened(u, a.message)) by { hide StaysOwn, AskedId, Opened, Resolve; }
    hide Step, AsksOwn, Opened, LooksSame, Genuine;
    StepTwins(u, v, a);
  }

  /** Two answers to an id that leads elsewhere: an error, or the backup that happens to be there. */
  lemma {:induction false} ForeignAnswer(s: Server, a: Arrival)
    requires s.phase.Ready? && s.active && Names(s.store.base) && !AsksOwn(s, Opened(s, a.message))
    ensures !AnswerFixed(s, a)
  {
    var m := Opened(s, a.message);
    var id, base := AskedId(m.payload).value, s.store.base;
    var p := Resolve(base, s.user + [SLASH] + id);
    var x, y := Store(base, map[]), Store(base, map[p := DIR_ONE]);
    ForeignRead(base, s.user, id, DIR_ONE);
    ResolveNames(base, s.user + [SLASH] + id);
    assert Genuine(x) && Genuine(y) by { hide Resolve, LooksSame, DirFor, DirsOf; }
    ErrorAnswer(s.(store := x), a, id);
    BackupAnswer(s.(store := y), a, id, DIR_ONE);
    hide Step, Genuine, LooksSame, Resolve, DirFor, DirsOf, Opened, AskedId, AsksOwn;
    assert |Step(s.(store := x), a).said| != |Step(s.(store := y), a).said|;
  }

  lemma {:induction false} AskedStep(s: Server, a: Arrival, id: Id)
    requires s.phase.Ready? && s.active && id != []
    requires var m := Opened(s, a.message); m.kind == RESTORE_REQUEST && AskedId(m.payload) == Some(id)
    ensures Step(s, a) == RestoreId(Received(s, a.message), id)
    ensures var r := Received(s, a.message); r.active && r.store == s.store && r.user == s.user && r.said == s.said
  {
    ReceivedCommand(s, a);
    hide Step, RestoreId, GetString, Sealed;
  }

  lemma {:induction false} ErrorAnswer(s: Server, a: Arrival, id: Id)
    requires s.phase.Ready? && s.active && id != [] && DirFor(s.store, s.user, id) == EMPTY_DIR
    requires var m := Opened(s, a.message); m.kind == RESTORE_REQUEST && AskedId(m.payload) == Some(id)
    ensures |Step(s, a).said| == |s.said| + 1
  {
    AskedStep(s, a, id);
    hide Step, DirFor, Received, Opened, AskedId, Sealed, ErrorText;
  }

  lemma {:induction false} BackupAnswer(s: Server, a: Arrival, id: Id, d: Dir)
    requires s.phase.Ready? && s.active && id != [] && DirFor(s.store, s.user, id) == d && RestoreBytes(d) != []
    requires var m := Opened(s, a.message); m.kind == RESTORE_REQUEST && AskedId(m.payload) == Some(id)
    ensures |Step(s, a).said| == |s.said| + 3
  {
    AskedStep(s, a, id);
    var r := Received(s, a.message);
    SendAllSaid(r, RestoreReply(d));
    assert |RestoreReply(d)| == 3 by { hide Step, DirFor, Received, Opened, AskedId, FilePayload; }
    hide Step, DirFor, Received, Opened, AskedId, SendAllSealed, RestoreReply, RestoreBytes;
  }
}
