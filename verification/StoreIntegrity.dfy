/** Sessions one after the other over one disk, and what becomes of uploaded bytes on the way from
    one client to the next. */
module StoreIntegrity {
  import opened Bytes
  import opened Fields
  import opened Wire
  import opened Messages
  import opened Transport
  import opened Users
  import opened Paths
  import opened BackupIds
  import opened Storage
  import opened Session
  import opened SessionSafety
  import opened Answers
  import Metadata

  // ----- sessions one at a time -----

  /** What is on disk between sessions: the user table file and the backup directories. */
  datatype World = World(file: seq<byte>, store: Store)

  ghost function After(w: World, arrivals: seq<Arrival>): World {
    var s := Run(Fresh(w.file, w.store), arrivals);
    World(s.file, s.store)
  }

  ghost function Serve(w: World, sessions: seq<seq<Arrival>>): World
    decreases |sessions|
  {
    if sessions == [] then w else Serve(After(w, sessions[0]), sessions[1..])
  }

  lemma {:induction false} LoadedStorable(data: seq<byte>, offset: nat, count: nat)
    ensures forall u :: u in LoadFrom(data, offset, count) ==> Users.Storable(u)
    decreases count
  {
    hide GetText;
    if count > 0 && offset + 40 <= |data| && GetText(data, offset + 40).Some? {
      var n := GetText(data, offset + 40);
      LoadedStorable(data, n.value.1, count - 1);
      TextFits(data, offset + 40);
      var rest := LoadFrom(data, n.value.1, count - 1);
      var u := User(n.value.0, data[offset..offset + 8], data[offset + 8..offset + 40]);
      assert LoadFrom(data, offset, count) == [u] + rest;
    }
  }

  lemma {:induction false} TextFits(data: seq<byte>, offset: nat)
    requires GetText(data, offset).Some?
    ensures |GetText(data, offset).value.0| < U16
  {
    Widths();
  }

  lemma {:induction false} FreshSafe(w: World)
    requires DistinctNames(Loaded(w.file))
    ensures Safe(Fresh(w.file, w.store))
  {
    if |w.file| >= 4 {
      LoadedStorable(w.file, 4, FromLE(w.file[0..4]));
    }
    hide LoadFrom, Users.Storable, FromLE;
  }

  /** Every directory that holds a backup is as it was, whoever it belongs to. */
  ghost predicate ListedKept(a: Store, b: Store) {
    && b.base == a.base
    && (forall p :: p in a.dirs && a.dirs[p].header.Some? ==> p in b.dirs && b.dirs[p] == a.dirs[p])
  }

  lemma {:induction false} KeptListed(s: Server, t: Server)
    requires Kept(s, t)
    ensures ListedKept(s.store, t.store)
  {
    hide IsChild, UserPath;
  }

  lemma {:induction false} ListedKeptTransitive(a: Store, b: Store, c: Store)
    requires ListedKept(a, b) && ListedKept(b, c)
    ensures ListedKept(a, c)
  {
  }

  /** One session adds at most one user, changes no entry, and leaves every listed backup as it is. */
  lemma {:induction false} SessionKeeps(w: World, arrivals: seq<Arrival>)
    requires DistinctNames(Loaded(w.file)) && |Loaded(w.file)| + 1 < U32
    ensures var a := After(w, arrivals);
            && DistinctNames(Loaded(a.file)) && Loaded(w.file) <= Loaded(a.file)
            && |Loaded(a.file)| <= |Loaded(w.file)| + 1
            && ListedKept(w.store, a.store)
  {
    var s := Fresh(w.file, w.store);
    FreshSafe(w);
    RunGood(s, arrivals);
    KeptListed(s, Run(s, arrivals));
    hide Run, Loaded, DistinctNames, ListedKept, StoreKept, PhaseFits, LoginFits, Counted;
  }

  /** ... and so do any number of sessions. */
  lemma {:induction false} ServeKeeps(w: World, sessions: seq<seq<Arrival>>)
    requires DistinctNames(Loaded(w.file)) && |Loaded(w.file)| + |sessions| < U32
    ensures var a := Serve(w, sessions);
            && DistinctNames(Loaded(a.file)) && Loaded(w.file) <= Loaded(a.file)
            && |Loaded(a.file)| <= |Loaded(w.file)| + |sessions|
            && ListedKept(w.store, a.store)
    decreases |sessions|
  {
    hide Loaded, DistinctNames, After;
    if sessions == [] {
    } else {
      SessionKeeps(w, sessions[0]);
      var b := After(w, sessions[0]);
      ServeKeeps(b, sessions[1..]);
      ListedKeptTransitive(w.store, b.store, Serve(b, sessions[1..]).store);
    }
  }

  /** A registered user's entry is found, unchanged, in every later session. */
  lemma {:induction false} AccountStays(w: World, sessions: seq<seq<Arrival>>, name: seq<byte>)
    requires DistinctNames(Loaded(w.file)) && |Loaded(w.file)| + |sessions| < U32
    requires Lookup(Loaded(w.file), name).Some?
    ensures Lookup(Loaded(Serve(w, sessions).file), name) == Lookup(Loaded(w.file), name)
  {
    hide Loaded, Serve;
    ServeKeeps(w, sessions);
    var before, after := Loaded(w.file), Loaded(Serve(w, sessions).file);
    var u := Lookup(before, name).value;
    var k: nat :| k < |before| && before[k] == u;
    assert after[k] == u;
    LookupFinds(after, k);
  }

  // ----- restore -----

  /** The rest of this session, later sessions, and the start of one more. */
  ghost function Later(s: Server, post: seq<Arrival>, sessions: seq<seq<Arrival>>, last: seq<Arrival>): Server {
    var w := Serve(Disk(Run(s, post)), sessions);
    Run(Fresh(w.file, w.store), last)
  }

  /** There is a backup with some bytes at the path. */
  predicate Holds(store: Store, p: Path, d: Dir) {
    p in store.dirs && store.dirs[p] == d && d.header.Some? && RestoreBytes(d) != []
  }

  /** Store integrity: what a restore sends from a directory that holds a backup is fixed from then on,
      whatever messages and sessions come in between, and whoever asks, by an id or for the latest. */
  lemma {:induction false} RestoreLater(s: Server, p: Path, d: Dir, post: seq<Arrival>, sessions: seq<seq<Arrival>>, last: seq<Arrival>, ask: Arrival, id: Id)
    requires Safe(s) && Holds(s.store, p, d) && |id| < U16
    requires |s.users| + |sessions| + 1 < U32
    requires var r := Later(s, post, sessions, last);
             r.phase.Ready? && LeadsTo(r.store, r.user, id, p) && Opened(r, ask.message) == Request(RestoreQuery(id))
    ensures var r := Later(s, post, sessions, last);
            Step(r, ask).said == r.said + RestoreReply(d)
  {
    var end := Run(s, post);
    var w := Disk(end);
    var w' := Serve(w, sessions);
    var start := Fresh(w'.file, w'.store);
    var r := Run(start, last);
    hide Run, Serve, RestoreBytes, RestoreReply, Request, LeadsTo;
    RunGood(s, post);
    KeptListed(s, end);
    UsersGrow(s, end);
    SafeTable(end);
    ServeKeeps(w, sessions);
    FreshSafe(w');
    RunGood(start, last);
    KeptListed(start, r);
    ListedKeptTransitive(s.store, end.store, w'.store);
    ListedKeptTransitive(s.store, w'.store, r.store);
    ActiveWhileWaiting(r);
    hide Safe, Kept, Loaded, DistinctNames, Fresh, Opened, Step, RestoreAnswer, Answer;
    assert Answer(r.store, r.user, RestoreQuery(id), ask.stamps) == RestoreAnswer(r.store, r.user, id) by { hide *; AnswerOf(r.store, r.user, id, ask.stamps); }
    QueryAnswered(r, ask, RestoreQuery(id));
    AnswerThere(r.store, r.user, id, p);
  }

  lemma {:induction false} UsersGrow(s: Server, t: Server)
    requires Kept(s, t)
    ensures |t.users| <= |s.users| + 1
  {
    hide StoreKept;
  }

  function Disk(s: Server): World {
    World(s.file, s.store)
  }

  lemma {:induction false} SafeTable(s: Server)
    requires Safe(s) && |s.users| < U32
    ensures DistinctNames(Loaded(s.file)) && Loaded(s.file) == s.users
  {
    hide DistinctNames, Loaded;
  }

  // ----- upload -----

  /** A message that a frame can hold, sealed for the receiver's key and counter. */
  predicate SealedAs(s: Server, arriving: Message, plain: Message, k: nat) {
    && plain.kind != 0 && |plain.payload| < U32
    && arriving == Message(plain.kind, Sealed(s.key, plain.payload, (s.recvSeq + k) % U64))
  }

  /** The arriving messages are these plain ones, sealed for the receiver's key and counter. */
  ghost predicate Carries(s: Server, arrivals: seq<Arrival>, ms: seq<Message>) {
    && s.active && |arrivals| == |ms|
    && (forall k :: 0 <= k < |ms| ==> SealedAs(s, arrivals[k].message, ms[k], k))
  }

  lemma {:induction false} CarriesFirst(s: Server, arrivals: seq<Arrival>, ms: seq<Message>)
    requires Carries(s, arrivals, ms) && ms != [] && s.recvSeq < U64
    ensures Opened(s, arrivals[0].message) == ms[0]
  {
    hide Sealed;
    assert SealedAs(s, arrivals[0].message, ms[0], 0);
    assert (s.recvSeq + 0) % U64 == s.recvSeq;
    SealedTwice(s.key, ms[0].payload, s.recvSeq);
  }

  lemma {:induction false} CarriesRest(s: Server, arrivals: seq<Arrival>, ms: seq<Message>, t: Server)
    requires Carries(s, arrivals, ms) && ms != []
    requires t.active && t.key == s.key && t.recvSeq == (s.recvSeq + 1) % U64
    ensures Carries(t, arrivals[1..], ms[1..])
  {
    hide Sealed;
    forall k | 0 <= k < |ms| - 1 ensures SealedAs(t, arrivals[1..][k].message, ms[1..][k], k) {
      assert SealedAs(s, arrivals[k + 1].message, ms[k + 1], k + 1);
      NextSeq(s.recvSeq, k);
    }
  }

  lemma {:induction false} NextSeq(n: nat, k: nat)
    ensures ((n + 1) % U64 + k) % U64 == (n + (k + 1)) % U64
  {
  }

  lemma {:induction false} PathsDiffer()
    ensures |BAK_PAYLOAD| == 12 && |BAK_METADATA| == 13 && |BAK| == 4
  {
  }

  /** The waiting session whose next file message opens a backup with this name. */
  predicate Expecting(s: Server, custom: seq<byte>) {
    s.active && (s.phase == AwaitData(custom) || (s.phase == Ready && custom == []))
  }

  lemma {:induction false} FirstFile(s: Server, a: Arrival, custom: seq<byte>, whole: seq<byte>, id: Id)
    requires Expecting(s, custom) && |whole| < U64 && NextId(DirsOf(s.store, s.user)) == Some(id)
    requires Opened(s, a.message) == Message(FILE_DATA, FilePayload(BAK_PAYLOAD, whole))
    ensures Step(s, a) == Received(s, a.message).(store := CreatedStore(s.store, s.user, id), phase := Receiving(id, custom, whole, []))
  {
    hide Opened, NextId, FilePayload, HandleData, CreatedStore, DirsOf;
    var r := Received(s, a.message);
    assert Step(s, a) == BeginBackup(r, custom, Opened(s, a.message));
    PayloadTaken(r.(store := CreatedStore(s.store, s.user, id), phase := Receiving(id, custom, [], [])), whole);
  }

  lemma {:induction false} PayloadTaken(s: Server, whole: seq<byte>)
    requires s.phase.Receiving? && |whole| < U64
    ensures HandleData(s, Message(FILE_DATA, FilePayload(BAK_PAYLOAD, whole))) == At(s, s.phase.(whole := whole))
  {
    PathsDiffer();
    FileRoundTrip(BAK_PAYLOAD, whole);
    hide FilePayload, ParsedFile, BAK_PAYLOAD, BAK_METADATA;
  }

  lemma {:induction false} SecondFile(s: Server, a: Arrival, meta: seq<byte>)
    requires s.phase.Receiving? && |meta| < U64
    requires Opened(s, a.message) == Message(FILE_DATA, FilePayload(BAK_METADATA, meta))
    ensures Step(s, a) == Received(s, a.message).(phase := s.phase.(meta := meta))
  {
    PathsDiffer();
    FileRoundTrip(BAK_METADATA, meta);
    assert BAK_METADATA != BAK_PAYLOAD;
    hide Opened, FilePayload, ParsedFile, BAK_PAYLOAD, BAK_METADATA;
  }

  /** The upload is on disk under the next id, acknowledged with it, and the session is ready again. */
  ghost predicate Saved(s: Server, t: Server, custom: seq<byte>, whole: seq<byte>, meta: seq<byte>) {
    var dirs := DirsOf(s.store, s.user);
    && NextId(dirs).Some? && Saveable(whole, meta)
    && t.store == SavedStore(s.store, s.user, NextId(dirs).value, custom, whole, meta)
    && t.said == s.said + [Message(BACKUP_COMPLETE, PutString(NextId(dirs).value))]
    && t.phase.Ready? && t.active && t.user == s.user && t.key == s.key
  }

  /** t goes on where s is: the same user and key, nothing sent in between. */
  predicate SameSession(s: Server, t: Server) {
    t.active && t.said == s.said && t.user == s.user && t.key == s.key && t.recvSeq < U64
  }

  lemma {:induction false} FinishFields(s: Server)
    requires s.phase.Receiving? && s.active && Saveable(s.phase.whole, s.phase.meta)
    ensures var Receiving(id, custom, whole, meta) := s.phase;
            var t := FinishBackup(s);
            && t.store == SavedStore(s.store, s.user, id, custom, whole, meta)
            && t.said == s.said + [Message(BACKUP_COMPLETE, PutString(id))]
            && t.phase.Ready? && t.active && t.user == s.user && t.key == s.key
  {
    hide Sealed, PutString, SavedStore, Saveable;
  }

  lemma {:induction false} EndStep(s: Server, a: Arrival)
    requires s.phase.Receiving? && Opened(s, a.message) == Message(BACKUP_COMPLETE, [])
    ensures Received(s, a.message).phase == s.phase && Step(s, a) == FinishBackup(Received(s, a.message))
  {
    hide Opened, FinishBackup;
  }

  lemma {:induction false} SavedAgain(store: Store, user: seq<byte>, id: Id, custom: seq<byte>, whole: seq<byte>, meta: seq<byte>)
    requires Saveable(whole, meta)
    ensures SavedStore(CreatedStore(store, user, id), user, id, custom, whole, meta) == SavedStore(store, user, id, custom, whole, meta)
  {
    hide Saveable, SavedDir, Resolve;
  }

  lemma {:induction false} EndOfUpload(s: Server, before: Server, a: Arrival)
    requires s.phase.Receiving? && s.active && Saveable(s.phase.whole, s.phase.meta)
    requires Opened(s, a.message) == Message(BACKUP_COMPLETE, [])
    requires s.said == before.said && s.user == before.user && s.key == before.key
    requires NextId(DirsOf(before.store, before.user)) == Some(s.phase.id)
    requires s.store == CreatedStore(before.store, before.user, s.phase.id)
    ensures Saved(before, Step(s, a), s.phase.custom, s.phase.whole, s.phase.meta)
  {
    hide Opened, NextId, Saveable, SavedStore, CreatedStore, PutString, Step, FinishBackup, Received, DirsOf;
    EndStep(s, a);
    ReceivedSame(s, a.message);
    FinishFields(Received(s, a.message));
    SavedAgain(before.store, before.user, s.phase.id, s.phase.custom, s.phase.whole, s.phase.meta);
  }

  lemma {:induction false} ReceivedFields(s: Server, m: Message)
    requires s.active && Opened(s, m).kind != 0
    ensures Received(s, m) == s.(recvSeq := (s.recvSeq + 1) % U64, heard := s.heard + [Opened(s, m)])
  {
    hide Sealed;
  }

  lemma {:induction false} AfterFirst(s: Server, arrivals: seq<Arrival>, ms: seq<Message>, custom: seq<byte>, whole: seq<byte>, id: Id)
    requires Expecting(s, custom) && |whole| < U64 && s.recvSeq < U64 && NextId(DirsOf(s.store, s.user)) == Some(id)
    requires Carries(s, arrivals, ms) && |ms| > 0 && ms[0] == Message(FILE_DATA, FilePayload(BAK_PAYLOAD, whole))
    ensures var t := Step(s, arrivals[0]);
            && SameSession(s, t) && Carries(t, arrivals[1..], ms[1..])
            && t.store == CreatedStore(s.store, s.user, id) && t.phase == Receiving(id, custom, whole, [])
  {
    CarriesLength(s, arrivals, ms);
    hide NextId, Opened, FilePayload, Step, DirsOf, CreatedStore, Carries;
    CarriesFirst(s, arrivals, ms);
    ReceivedFields(s, arrivals[0].message);
    FirstFile(s, arrivals[0], custom, whole, id);
    CarriesRest(s, arrivals, ms, Step(s, arrivals[0]));
  }

  lemma {:induction false} AfterSecond(s: Server, arrivals: seq<Arrival>, ms: seq<Message>, meta: seq<byte>)
    requires s.phase.Receiving? && |meta| < U64 && s.recvSeq < U64
    requires Carries(s, arrivals, ms) && |ms| > 0 && ms[0] == Message(FILE_DATA, FilePayload(BAK_METADATA, meta))
    ensures var t := Step(s, arrivals[0]);
            && SameSession(s, t) && Carries(t, arrivals[1..], ms[1..])
            && t.store == s.store && t.phase == s.phase.(meta := meta)
  {
    assert s.active;
    CarriesLength(s, arrivals, ms);
    hide Opened, FilePayload, Step, Carries;
    CarriesFirst(s, arrivals, ms);
    ReceivedFields(s, arrivals[0].message);
    SecondFile(s, arrivals[0], meta);
    CarriesRest(s, arrivals, ms, Step(s, arrivals[0]));
  }

  lemma {:induction false} UploadSizes(s: Server, arrivals: seq<Arrival>, whole: seq<byte>, meta: seq<byte>)
    requires Carries(s, arrivals, UploadMessages(whole, meta))
    ensures |whole| < U32 && |meta| < U32
  {
    var ms := UploadMessages(whole, meta);
    hide BE, PutString;
    assert SealedAs(s, arrivals[0].message, ms[0], 0) && SealedAs(s, arrivals[1].message, ms[1], 1);
  }

  // ----- any data messages -----

  /** What an upload may say before its end marker; the lengths of a file message stay inside it. */
  predicate DataMessage(m: Message) {
    && m.kind != 0 && m.kind != BACKUP_COMPLETE
    && (m.kind == FILE_DATA && |m.payload| >= 10 ==> ParsedFile(m.payload).Some?)
  }

  predicate Brings(m: Message, path: seq<byte>) {
    m.kind == FILE_DATA && |m.payload| >= 10 && ParsedFile(m.payload).Some? && ParsedFile(m.payload).value.0 == path
  }

  /** The data of the last message that brings the path, or what there was before. */
  ghost predicate IsLast(ms: seq<Message>, path: seq<byte>, data: seq<byte>, before: seq<byte>) {
    || (data == before && forall k :: 0 <= k < |ms| ==> !Brings(ms[k], path))
    || (exists k :: 0 <= k < |ms| && LastAt(ms, path, data, k))
  }

  ghost predicate LastAt(ms: seq<Message>, path: seq<byte>, data: seq<byte>, k: nat)
    requires k < |ms|
  {
    && Brings(ms[k], path) && ParsedFile(ms[k].payload).value.1 == data
    && (forall j :: k < j < |ms| ==> !Brings(ms[j], path))
  }

  lemma {:induction false} NoneYet(path: seq<byte>, data: seq<byte>)
    ensures IsLast([], path, data, data)
  {
  }

  lemma {:induction false} LastOn(m: Message, ms: seq<Message>, path: seq<byte>, data: seq<byte>, before: seq<byte>, next: seq<byte>)
    requires IsLast(ms, path, data, next)
    requires next == if Brings(m, path) then ParsedFile(m.payload).value.1 else before
    ensures IsLast([m] + ms, path, data, before)
  {
    hide Brings, ParsedFile;
    var all := [m] + ms;
    assert forall j :: 1 <= j < |all| ==> all[j] == ms[j - 1];
    if k: nat :| k < |ms| && LastAt(ms, path, data, k) {
      assert LastAt(all, path, data, k + 1);
    } else if Brings(m, path) {
      assert LastAt(all, path, data, 0);
    }
  }

  lemma {:induction false} DataHandled(s: Server, m: Message)
    requires s.phase.Receiving? && DataMessage(m)
    ensures var t := HandleData(s, m);
            && t == s.(phase := t.phase) && t.phase.Receiving?
            && t.phase == s.phase.(whole := t.phase.whole, meta := t.phase.meta)
            && t.phase.whole == (if Brings(m, BAK_PAYLOAD) then ParsedFile(m.payload).value.1 else s.phase.whole)
            && t.phase.meta == (if Brings(m, BAK_METADATA) then ParsedFile(m.payload).value.1 else s.phase.meta)
  {
    PathsDiffer();
    assert BAK_METADATA != BAK_PAYLOAD;
    hide ParsedFile, BAK_PAYLOAD, BAK_METADATA, FinishBackup;
  }

  lemma {:induction false} DataTaken(s: Server, a: Arrival, m: Message)
    requires s.phase.Receiving? && s.active && Opened(s, a.message) == m && DataMessage(m)
    ensures var t := Step(s, a);
            && t == Received(s, a.message).(phase := t.phase) && t.phase.Receiving?
            && t.phase == s.phase.(whole := t.phase.whole, meta := t.phase.meta)
            && t.phase.whole == (if Brings(m, BAK_PAYLOAD) then ParsedFile(m.payload).value.1 else s.phase.whole)
            && t.phase.meta == (if Brings(m, BAK_METADATA) then ParsedFile(m.payload).value.1 else s.phase.meta)
  {
    var r := Received(s, a.message);
    ReceivedSame(s, a.message);
    assert Step(s, a) == HandleData(r, m) by { hide HandleData, Opened, Brings, DataMessage, ParsedFile; }
    hide *;
    DataHandled(r, m);
  }

  lemma {:induction false} AfterData(s: Server, arrivals: seq<Arrival>, ms: seq<Message>)
    requires s.phase.Receiving? && s.recvSeq < U64 && Carries(s, arrivals, ms) && |ms| > 0 && DataMessage(ms[0])
    ensures var t := Step(s, arrivals[0]);
            && SameSession(s, t) && Carries(t, arrivals[1..], ms[1..]) && t.store == s.store && t.phase.Receiving?
            && t.phase == s.phase.(whole := t.phase.whole, meta := t.phase.meta)
            && t.phase.whole == (if Brings(ms[0], BAK_PAYLOAD) then ParsedFile(ms[0].payload).value.1 else s.phase.whole)
            && t.phase.meta == (if Brings(ms[0], BAK_METADATA) then ParsedFile(ms[0].payload).value.1 else s.phase.meta)
  {
    assert s.active;
    CarriesLength(s, arrivals, ms);
    hide Opened, Step, Carries, DataMessage, Brings, ParsedFile;
    CarriesFirst(s, arrivals, ms);
    assert ms[0].kind != 0 by { hide *; DataKind(ms[0]); }
    ReceivedFields(s, arrivals[0].message);
    DataTaken(s, arrivals[0], ms[0]);
    CarriesRest(s, arrivals, ms, Step(s, arrivals[0]));
  }

  lemma {:induction false} DataKind(m: Message)
    requires DataMessage(m)
    ensures m.kind != 0
  {
  }

  /** From s to t, these messages have been taken. */
  ghost predicate TookAll(s: Server, t: Server, ms: seq<Message>)
    requires s.phase.Receiving?
  {
    && t.store == s.store && t.said == s.said && t.user == s.user && t.phase.Receiving?
    && t.phase == s.phase.(whole := t.phase.whole, meta := t.phase.meta)
    && IsLast(ms, BAK_PAYLOAD, t.phase.whole, s.phase.whole) && IsLast(ms, BAK_METADATA, t.phase.meta, s.phase.meta)
  }

  lemma {:induction false} TookMore(s: Server, t: Server, u: Server, m: Message, ms: seq<Message>)
    requires s.phase.Receiving? && t.phase.Receiving? && TookAll(t, u, ms)
    requires t.store == s.store && t.said == s.said && t.user == s.user
    requires t.phase == s.phase.(whole := t.phase.whole, meta := t.phase.meta)
    requires t.phase.whole == (if Brings(m, BAK_PAYLOAD) then ParsedFile(m.payload).value.1 else s.phase.whole)
    requires t.phase.meta == (if Brings(m, BAK_METADATA) then ParsedFile(m.payload).value.1 else s.phase.meta)
    ensures TookAll(s, u, [m] + ms)
  {
    hide Brings, ParsedFile, BAK_PAYLOAD, BAK_METADATA, IsLast;
    LastOn(m, ms, BAK_PAYLOAD, u.phase.whole, s.phase.whole, t.phase.whole);
    LastOn(m, ms, BAK_METADATA, u.phase.meta, s.phase.meta, t.phase.meta);
  }

  lemma {:induction false} TookNone(s: Server)
    requires s.phase.Receiving?
    ensures TookAll(s, s, [])
  {
    hide BAK_PAYLOAD, BAK_METADATA, IsLast;
    NoneYet(BAK_PAYLOAD, s.phase.whole);
    NoneYet(BAK_METADATA, s.phase.meta);
  }

  /** Whatever files an upload sends, in any order and number: of each of the two paths the last one counts, other
      paths and other messages change nothing, and nothing is answered or stored before the end marker. */
  lemma {:induction false} LastFileCounts(s: Server, arrivals: seq<Arrival>, ms: seq<Message>)
    requires s.phase.Receiving? && s.recvSeq < U64 && Carries(s, arrivals, ms)
    requires forall k :: 0 <= k < |ms| ==> DataMessage(ms[k])
    ensures TookAll(s, Run(s, arrivals), ms)
    decreases |ms|
  {
    CarriesLength(s, arrivals, ms);
    hide Step, Carries, DataMessage, Brings, ParsedFile, BAK_PAYLOAD, BAK_METADATA, TookAll;
    if ms == [] {
      assert arrivals == [];
      TookNone(s);
    } else {
      AfterData(s, arrivals, ms);
      var t := Step(s, arrivals[0]);
      LastFileCounts(t, arrivals[1..], ms[1..]);
      TookMore(s, t, Run(t, arrivals[1..]), ms[0], ms[1..]);
      assert [ms[0]] + ms[1..] == ms;
    }
  }

  // ----- the three messages of a client -----

  /** An upload, sealed in transit, is saved with exactly the bytes that were sent. */
  lemma {:induction false} UploadLands(s: Server, arrivals: seq<Arrival>, custom: seq<byte>, whole: seq<byte>, meta: seq<byte>)
    requires Expecting(s, custom) && Counted(s) && Saveable(whole, meta)
    requires NextId(DirsOf(s.store, s.user)).Some?
    requires Carries(s, arrivals, UploadMessages(whole, meta))
    ensures Saved(s, Run(s, arrivals), custom, whole, meta)
  {
    var ms := UploadMessages(whole, meta);
    var id := NextId(DirsOf(s.store, s.user)).value;
    CarriesLength(s, arrivals, ms);
    UploadSizes(s, arrivals, whole, meta);
    hide NextId, Opened, FilePayload, Saveable, Saved, Step, DirsOf, CreatedStore, Carries, Expecting;
    AfterFirst(s, arrivals, ms, custom, whole, id);
    var s1 := Step(s, arrivals[0]);
    AfterSecond(s1, arrivals[1..], ms[1..], meta);
    var s2 := Step(s1, arrivals[1]);
    assert arrivals[1..][1..] == arrivals[2..] && ms[1..][1..] == ms[2..];
    CarriesFirst(s2, arrivals[2..], ms[2..]);
    EndOfUpload(s2, s, arrivals[2]);
    RunThree(s, arrivals);
  }

  lemma {:induction false} CarriesLength(s: Server, arrivals: seq<Arrival>, ms: seq<Message>)
    requires Carries(s, arrivals, ms)
    ensures |arrivals| == |ms|
  {
  }

  lemma {:induction false} RunThree(s: Server, arrivals: seq<Arrival>)
    requires |arrivals| == 3
    ensures Run(s, arrivals) == Step(Step(Step(s, arrivals[0]), arrivals[1]), arrivals[2])
  {
    hide Step;
    var s1 := Step(s, arrivals[0]);
    var s2 := Step(s1, arrivals[1]);
    assert arrivals[1..][1..] == arrivals[2..] && arrivals[2..][1..] == [];
    assert Run(s2, arrivals[2..]) == Run(Step(s2, arrivals[2]), []);
    assert Run(s1, arrivals[1..]) == Run(s2, arrivals[2..]);
  }

  function TakenText(name: seq<byte>): seq<byte> {
    Ascii("Backup name '") + name + Ascii("' already exists. Please use a different name.")
  }

  lemma {:induction false} Rejected(s: Server, start: Arrival, name: seq<byte>)
    requires s.phase.Ready? && s.active && name != [] && |name| < U16 && NameTaken(s, name)
    requires Opened(s, start.message) == Message(BACKUP_START, PutString(name))
    ensures Step(s, start) == SendError(Received(s, start.message), NAME_EXISTS, TakenText(name))
  {
    ReceivedCommand(s, start);
    PutLength(name);
    StringRoundTrip(name, []);
    assert PutString(name) + [] == PutString(name);
    hide Opened, PutString, GetString, SendError;
    assert NameTaken(Received(s, start.message), name);
    hide NameTaken;
  }

  lemma {:induction false} RejectionSent(s: Server, m: Message, text: seq<byte>)
    requires s.active
    ensures var t := SendError(Received(s, m), NAME_EXISTS, text);
            && t.store == s.store && t.phase == s.phase && t.active && t.user == s.user
            && t.said == s.said + [ErrorText(NAME_EXISTS, text)]
  {
    hide Opened, ErrorText, Sealed;
  }

  // ----- what an upload leaves -----

  /** The id of the next upload and the directory it leads to. */
  ghost function NextOf(s: Server): Id
    requires NextId(DirsOf(s.store, s.user)).Some?
  {
    NextId(DirsOf(s.store, s.user)).value
  }

  /** What an upload leaves there. */
  ghost function UploadedDir(s: Server, custom: seq<byte>, whole: seq<byte>, meta: seq<byte>): Dir
    requires NextId(DirsOf(s.store, s.user)).Some? && Saveable(whole, meta)
  {
    SavedDir(DirFor(s.store, s.user, NextOf(s)), custom, whole, meta)
  }

  lemma {:induction false} SavedThere(s: Server, t: Server, custom: seq<byte>, whole: seq<byte>, meta: seq<byte>)
    requires Saved(s, t, custom, whole, meta)
    ensures var p := BackupPath(s.store, s.user, NextOf(s));
            t.store.base == s.store.base && p in t.store.dirs && t.store.dirs[p] == UploadedDir(s, custom, whole, meta)
  {
    hide Resolve, SavedDir, Saveable, NextId, DirsOf;
  }

  /** A nameless upload keeps the name that its directory has; any other brings its own. */
  lemma {:induction false} NameAfter(d: Dir, custom: seq<byte>, whole: seq<byte>, meta: seq<byte>)
    requires Saveable(whole, meta)
    ensures OrEmpty(SavedDir(d, custom, whole, meta).name) == if custom != [] then custom else OrEmpty(d.name)
  {
  }

  /** The name of a rejected BACKUP_START is dropped, not the upload that a client sends after it. That is
      stored under the next id, with the name that was left in that directory: none, unless an upload too
      short to be listed left one. */
  lemma {:induction false} RejectedNameStillStores(s: Server, start: Arrival, arrivals: seq<Arrival>, name: seq<byte>, whole: seq<byte>, meta: seq<byte>)
    requires Safe(s) && s.phase.Ready? && name != [] && |name| < U16 && NameTaken(s, name)
    requires Opened(s, start.message) == Message(BACKUP_START, PutString(name))
    requires Saveable(whole, meta) && NextId(DirsOf(s.store, s.user)).Some?
    requires Carries(Step(s, start), arrivals, UploadMessages(whole, meta))
    ensures var t := Step(s, start);
            var after := DirFor(Run(t, arrivals).store, s.user, NextOf(s));
            && t.store == s.store && t.phase == Ready && t.user == s.user
            && t.said == s.said + [ErrorText(NAME_EXISTS, TakenText(name))]
            && Saved(t, Run(t, arrivals), [], whole, meta)
            && OrEmpty(after.name) == OrEmpty(DirFor(s.store, s.user, NextOf(s)).name)
            && (|whole| >= 19 ==> after.header.Some? && RestoreBytes(after) == whole)
  {
    ActiveWhileWaiting(s);
    var t := Step(s, start);
    Rejected(s, start, name);
    RejectionSent(s, start.message, TakenText(name));
    StepGood(s, start);
    GoodCounted(s, Opened(s, start.message), t);
    ExpectingReady(t);
    var d := DirFor(s.store, s.user, NextOf(s));
    NameAfter(d, [], whole, meta);
    if |whole| >= 19 {
      UploadComesBack(d, [], whole, meta);
    }
    hide Safe, NameTaken, Opened, Saveable, Carries, Step, Run, NextId, DirsOf, Saved, SavedDir, RestoreBytes, GoodStep, Counted, Resolve;
    UploadLands(t, arrivals, [], whole, meta);
    SavedThere(t, Run(t, arrivals), [], whole, meta);
  }

  /** A name sent with an upload too short to be listed stays in the directory, and becomes the name of
      the nameless upload that comes next. */
  lemma {:induction false} StaleNameTaken(s: Server, first: seq<Arrival>, second: seq<Arrival>, custom: seq<byte>, short: seq<byte>, whole: seq<byte>, meta: seq<byte>)
    requires Safe(s) && Expecting(s, custom) && custom != [] && NextId(DirsOf(s.store, s.user)).Some?
    requires |short| < 19 && |whole| >= 19 && Saveable(short, []) && Saveable(whole, meta)
    requires Carries(s, first, UploadMessages(short, []))
    requires Carries(Run(s, first), second, UploadMessages(whole, meta))
    ensures var t := Run(Run(s, first), second);
            var after := DirFor(t.store, s.user, NextOf(s));
            after.header.Some? && OrEmpty(after.name) == custom && RestoreBytes(after) == whole
  {
    var between := Run(s, first);
    var t := Run(between, second);
    var id := NextOf(s);
    SafeCounted(s);
    UploadLands(s, first, custom, short, []);
    SavedThere(s, between, custom, short, []);
    ShortKeepsNext(s, between, custom, short);
    RunGood(s, first);
    SafeCounted(between);
    ExpectingReady(between);
    UploadLands(between, second, [], whole, meta);
    SavedThere(between, t, [], whole, meta);
    var d, e := DirFor(s.store, s.user, id), DirFor(between.store, s.user, id);
    NameAfter(d, custom, short, []);
    NameAfter(e, [], whole, meta);
    UploadComesBack(e, [], whole, meta);
    hide Safe, Opened, Saveable, Carries, Run, NextId, DirsOf, SavedDir, RestoreBytes, Counted, Resolve, Kept, Expecting;
  }

  lemma {:induction false} ShortKeepsNext(s: Server, t: Server, custom: seq<byte>, short: seq<byte>)
    requires Saved(s, t, custom, short, []) && |short| < 19
    ensures NextId(DirsOf(t.store, t.user)) == NextId(DirsOf(s.store, s.user))
  {
    var dirs := DirsOf(s.store, s.user);
    var id := NextId(dirs).value;
    NextIdPlain(dirs);
    SavedSeen(s.store, s.user, id, custom, short, [], s.user);
    ShortUploadReusesId(dirs, custom, short, []);
    hide NextId, SavedDirs, Saveable, Resolve, ChildrenOf;
    assert UserPath(t.store, t.user) == UserPath(s.store, s.user);
  }

  lemma {:induction false} ExpectingReady(s: Server)
    requires s.active && s.phase == Ready
    ensures Expecting(s, [])
  {
  }

  lemma {:induction false} GoodCounted(s: Server, m: Message, t: Server)
    requires GoodStep(s, m, t)
    ensures Counted(t)
  {
  }

  lemma {:induction false} SafeCounted(s: Server)
    requires Safe(s)
    ensures Counted(s)
  {
  }

  /** Upload and restore: bytes of at least a backup header's 19 come back exactly in the answer to a
      restore of the acknowledged id, or of any other text that leads to the same directory, the empty one
      included, after anything that happens in between. */
  lemma {:induction false} UploadThenRestore(s: Server, arrivals: seq<Arrival>, custom: seq<byte>, whole: seq<byte>, meta: seq<byte>,
                                             post: seq<Arrival>, sessions: seq<seq<Arrival>>, last: seq<Arrival>, ask: Arrival, asked: Id)
    requires Safe(s) && Expecting(s, custom) && Saveable(whole, meta) && 19 <= |whole| && |asked| < U16
    requires NextId(DirsOf(s.store, s.user)).Some? && |s.users| + |sessions| + 2 < U32
    requires Carries(s, arrivals, UploadMessages(whole, meta))
    requires var r := Later(Run(s, arrivals), post, sessions, last);
             && r.phase.Ready? && LeadsTo(r.store, r.user, asked, BackupPath(s.store, s.user, NextOf(s)))
             && Opened(r, ask.message) == Request(RestoreQuery(asked))
    ensures var r := Later(Run(s, arrivals), post, sessions, last);
            var t := Step(r, ask);
            && t.said == r.said + RestoreReply(UploadedDir(s, custom, whole, meta))
            && RestoreBytes(UploadedDir(s, custom, whole, meta)) == whole
  {
    var t := Run(s, arrivals);
    SafeCounted(s);
    UploadLands(s, arrivals, custom, whole, meta);
    SavedThere(s, t, custom, whole, meta);
    UploadComesBack(DirFor(s.store, s.user, NextOf(s)), custom, whole, meta);
    RunGood(s, arrivals);
    UsersGrow(s, t);
    hide Safe, NextId, Saveable, Carries, Later, Run, Opened, Request, LeadsTo, RestoreBytes, RestoreReply, Step, BackupPath, SavedDir, Saved, Kept, Expecting;
    RestoreLater(t, BackupPath(s.store, s.user, NextOf(s)), UploadedDir(s, custom, whole, meta), post, sessions, last, ask, asked);
  }
}
