/** From one client to the next: uploads and restores over the channels, whatever happens in between. */
module Delivery {
  import opened Bytes
  import opened Wire
  import opened Messages
  import opened Transport
  import opened Users
  import opened Paths
  import opened BackupIds
  import opened BackupList
  import opened Storage
  import opened Session
  import opened SessionSafety
  import opened ServerVoice
  import opened Answers
  import opened StoreIntegrity
  import opened Lockstep
  import opened Entry
  import opened ClientRun
  import Metadata
  import Admission

  // ----- what one event does to the server -----

  /** Frames can hold the messages. */
  predicate Sendable(ms: seq<Message>) {
    forall m :: m in ms ==> |m.payload| < U32
  }

  /** What the client has said from number n on is these messages, as far as it has got. */
  predicate Says(said: seq<Message>, n: nat, ms: seq<Message>) {
    forall k :: 0 <= k < |ms| && n + k < |said| ==> said[n + k] == ms[k]
  }

  /** What the event makes arrive at the server. */
  function Arriving(z: System, e: Event): Option<Arrival> {
    match e
    case ServerReads(drawn, stamps) =>
      if z.client.outbox != [] && ServerRuns(z.server) then Some(Arrival(z.client.outbox[0], drawn, stamps)) else None
    case ServerTimesOut(drawn, stamps) => Some(Arrival(NOTHING, drawn, stamps))
    case _ => None
  }

  lemma {:induction false} ServerSide(z: System, e: Event)
    ensures var t := Happen(z, e).server;
            match Arriving(z, e)
            case Some(a) => t == Step(z.server, a)
            case None => t == z.server.(outbox := t.outbox)
  {
    hide Step, Take, Say, ServerRuns;
  }

  lemma {:induction false} ClientSide(z: System, e: Event)
    requires ClientCounted(z.client)
    ensures var d := Happen(z, e).client;
            z.client.said <= d.said && z.client.heard <= d.heard && (z.client.active ==> d.active)
  {
    hide Step, ServerRuns, Sealed, HashOf, Registration, SessionKey, PutString;
  }

  lemma {:induction false} CountedClient(z: System)
    requires Synced(z)
    ensures ClientCounted(z.client) && Safe(z.server) && (z.client.active ==> Joined(z))
  {
    hide Safe, ClientCounted, Joined, Front, Pending, NoOk;
  }

  /** What arrives at the server of an active client is what the client said next, or nothing. */
  lemma {:induction false} ArrivingSaid(z: System, e: Event)
    requires Synced(z) && z.client.active && Arriving(z, e).Some?
    ensures var m, n := Arriving(z, e).value.message, |z.server.heard|;
            m != NOTHING ==> ServerRuns(z.server) && m.kind != 0 && n < |z.client.said| && Opened(z.server, m) == z.client.said[n]
  {
    CountedClient(z);
    var System(c, s) := z;
    CountedOf(s);
    if Arriving(z, e).value.message != NOTHING {
      HearsNext(c.key, c.said, s.heard, c.outbox, s.recvSeq);
      InStepLength(c.key, c.said, s.heard, c.outbox);
      hide Safe, ClientCounted, InStep, Synced, Sealed;
    }
  }

  lemma {:induction false} InStepLength(key: seq<byte>, said: seq<Message>, heard: seq<Message>, outbox: seq<Message>)
    requires InStep(key, said, heard, outbox)
    ensures |outbox| == |said| - |heard| && heard <= said
  {
    hide Tail;
  }

  /** A step of a logged-in server, apart from what it does to the store. */
  lemma {:induction false} StepFrame(s: Server, a: Arrival)
    requires Safe(s) && s.active
    ensures var t := Step(s, a);
            && t.active && t.user == s.user && t.key == s.key && s.said <= t.said && Safe(t) && Kept(s, t)
            && t.heard == if ServerRuns(s) && a.message.kind != 0 then s.heard + [Opened(s, a.message)] else s.heard
  {
    StepGood(s, a);
    ActiveStep(s, a);
    var q := if s.phase.Closed? || s.phase.Undefined? then s else Received(s, a.message);
    SpeaksFixes(q, Step(s, a));
    assert q.said == s.said && q.key == s.key && q.user == s.user by { hide Step, Opened, Safe, Speaks; }
    assert q.said <= Step(s, a).said by { hide Step, Opened, Safe, Received; }
    assert Safe(Step(s, a)) && Kept(s, Step(s, a)) by { hide Safe, Kept, Step, Earned; }
    hide Step, Safe, Kept, Speaks, Opened, GoodStep;
  }

  lemma {:induction false} StepReads(s: Server, a: Arrival)
    requires Safe(s) && s.active && ServerRuns(s) && a.message.kind != 0
    ensures var t := Step(s, a);
            t.active && t.user == s.user && t.key == s.key && |t.heard| == |s.heard| + 1
  {
    hide Step, Safe, Kept, Opened, ServerRuns;
    StepFrame(s, a);
  }

  // ----- stores over runs of the system -----

  lemma {:induction false} HappenKept(z: System, e: Event)
    requires Synced(z)
    ensures Kept(z.server, Happen(z, e).server)
  {
    var s, t := z.server, Happen(z, e).server;
    CountedClient(z);
    ServerSide(z, e);
    hide Synced, Happen, Step, Safe;
    if Arriving(z, e).Some? {
      StepGood(s, Arriving(z, e).value);
      hide Kept;
    } else {
      StayKept(s);
    }
  }

  /** Whatever client and server do, the server keeps the entries, and every backup is kept as it is. */
  lemma {:induction false} UnfoldKept(z: System, events: seq<Event>)
    requires Synced(z)
    ensures Kept(z.server, Unfold(z, events).server)
    decreases |events|
  {
    hide Synced, Happen, Kept;
    if events == [] {
      CountedClient(z);
      hide Safe;
      StayKept(z.server);
    } else {
      HappenKept(z, events[0]);
      HappenSynced(z, events[0]);
      UnfoldKept(Happen(z, events[0]), events[1..]);
      KeptTransitive(z.server, Happen(z, events[0]).server, Unfold(z, events).server);
    }
  }

  // ----- an upload -----

  /** What a client sends to upload under a name, or under none. */
  function Upload(name: seq<byte>, whole: seq<byte>, meta: seq<byte>): seq<Message> {
    NameMessage(name) + UploadMessages(whole, meta)
  }

  ghost predicate NameRefused(s: Server, name: seq<byte>) {
    name != [] && NameTaken(s, name)
  }

  ghost function GivenName(s: Server, name: seq<byte>): seq<byte> {
    if NameRefused(s, name) then [] else name
  }

  /** The server's answer to the name. */
  ghost function NameAnswer(s: Server, name: seq<byte>): seq<Message> {
    if NameRefused(s, name) then [ErrorText(NAME_EXISTS, TakenText(name))] else []
  }

  /** The server is ready and can give out an id; the upload can be read and saved. */
  ghost predicate Uploadable(s: Server, name: seq<byte>, whole: seq<byte>, meta: seq<byte>) {
    && s.phase.Ready? && NextId(DirsOf(s.store, s.user)).Some?
    && |name| < U16 && |whole| >= 19 && Saveable(whole, meta) && Sendable(UploadMessages(whole, meta))
  }

  /** The backup is under the next id, with exactly these bytes, and has been acknowledged. */
  ghost predicate Arrived(s0: Server, s: Server, name: seq<byte>, whole: seq<byte>, meta: seq<byte>)
    requires Uploadable(s0, name, whole, meta)
  {
    && s.store.base == s0.store.base
    && Holds(s.store, BackupPath(s0.store, s0.user, NextOf(s0)), UploadedDir(s0, GivenName(s0, name), whole, meta))
    && s0.said + NameAnswer(s0, name) + [Message(BACKUP_COMPLETE, PutString(NextOf(s0)))] <= s.said
  }

  /** How many messages of the upload, after the name, the server has taken. */
  function Files(s0: Server, s: Server, name: seq<byte>): int {
    |s.heard| - |s0.heard| - |NameMessage(name)|
  }

  ghost function StagePhase(s0: Server, g: int, name: seq<byte>, whole: seq<byte>, meta: seq<byte>): Phase
    requires NextId(DirsOf(s0.store, s0.user)).Some?
  {
    if g < 0 then Ready
    else if g == 0 then (if GivenName(s0, name) == [] then Ready else AwaitData(name))
    else Receiving(NextOf(s0), GivenName(s0, name), whole, if g == 1 then [] else meta)
  }

  ghost predicate BeforeEnd(s0: Server, s: Server, g: int, name: seq<byte>, whole: seq<byte>, meta: seq<byte>)
    requires NextId(DirsOf(s0.store, s0.user)).Some?
  {
    && s.store == (if g <= 0 then s0.store else CreatedStore(s0.store, s0.user, NextOf(s0)))
    && s.said == s0.said + (if g < 0 then [] else NameAnswer(s0, name))
    && (ServerRuns(s) ==> s.phase == StagePhase(s0, g, name, whole, meta))
  }

  ghost predicate Stage(s0: Server, s: Server, name: seq<byte>, whole: seq<byte>, meta: seq<byte>)
    requires Uploadable(s0, name, whole, meta)
  {
    && s.active && s.user == s0.user && s.key == s0.key && |s.heard| >= |s0.heard|
    && var g := Files(s0, s, name);
       if g < 3 then BeforeEnd(s0, s, g, name, whole, meta) else Arrived(s0, s, name, whole, meta)
  }

  lemma {:induction false} Accepted(s: Server, start: Arrival, name: seq<byte>)
    requires s.phase.Ready? && s.active && name != [] && |name| < U16 && !NameTaken(s, name)
    requires Opened(s, start.message) == Message(BACKUP_START, PutString(name))
    ensures Step(s, start) == At(Received(s, start.message), AwaitData(name))
  {
    ReceivedCommand(s, start);
    PutLength(name);
    StringRoundTrip(name, []);
    assert PutString(name) + [] == PutString(name);
    hide Opened, PutString, GetString, SendError;
    assert !NameTaken(Received(s, start.message), name);
    hide NameTaken;
  }

  /** The name has been read, and taken or refused. */
  lemma {:induction false} NameStage(s0: Server, s: Server, a: Arrival, name: seq<byte>, whole: seq<byte>, meta: seq<byte>)
    requires NextId(DirsOf(s0.store, s0.user)).Some? && BeforeEnd(s0, s, -1, name, whole, meta) && s.user == s0.user
    requires s.active && ServerRuns(s) && name != [] && |name| < U16
    requires Opened(s, a.message) == Message(BACKUP_START, PutString(name))
    ensures BeforeEnd(s0, Step(s, a), 0, name, whole, meta) && ServerRuns(Step(s, a))
  {
    assert NameTaken(s, name) == NameTaken(s0, name);
    hide Opened, PutString, NameTaken, Step, NextId, DirsOf, ErrorText, CreatedStore;
    if NameTaken(s, name) {
      Rejected(s, a, name);
      hide SendError;
      RejectionSent(s, a.message, TakenText(name));
    } else {
      Accepted(s, a, name);
      ReceivedSame(s, a.message);
    }
    hide Received;
  }

  lemma {:induction false} SendableSizes(whole: seq<byte>, meta: seq<byte>)
    requires Sendable(UploadMessages(whole, meta))
    ensures |whole| < U32 && |meta| < U32
  {
    var ms := UploadMessages(whole, meta);
    hide BE, PutString;
    assert ms[0] in ms && ms[1] in ms;
  }

  lemma {:induction false} FirstStage(s0: Server, s: Server, a: Arrival, name: seq<byte>, whole: seq<byte>, meta: seq<byte>)
    requires Uploadable(s0, name, whole, meta) && BeforeEnd(s0, s, 0, name, whole, meta) && s.user == s0.user
    requires s.active && ServerRuns(s)
    requires Opened(s, a.message) == UploadMessages(whole, meta)[0]
    ensures BeforeEnd(s0, Step(s, a), 1, name, whole, meta) && ServerRuns(Step(s, a))
  {
    SendableSizes(whole, meta);
    hide Opened, NameTaken, Step, NextId, DirsOf, CreatedStore, FilePayload, Sendable, Saveable, NameAnswer, GivenName;
    assert Expecting(s, GivenName(s0, name)) by { GivenOrOwn(s0, name); }
    FirstFile(s, a, GivenName(s0, name), whole, NextOf(s0));
    ReceivedSame(s, a.message);
    hide Received, Expecting;
  }

  lemma {:induction false} GivenOrOwn(s: Server, name: seq<byte>)
    ensures GivenName(s, name) == [] || GivenName(s, name) == name
  {
    hide NameTaken;
  }

  lemma {:induction false} SecondStage(s0: Server, s: Server, a: Arrival, name: seq<byte>, whole: seq<byte>, meta: seq<byte>)
    requires Uploadable(s0, name, whole, meta) && BeforeEnd(s0, s, 1, name, whole, meta) && s.user == s0.user
    requires s.active && ServerRuns(s)
    requires Opened(s, a.message) == UploadMessages(whole, meta)[1]
    ensures BeforeEnd(s0, Step(s, a), 2, name, whole, meta) && ServerRuns(Step(s, a))
  {
    SendableSizes(whole, meta);
    hide Opened, NameTaken, Step, NextId, DirsOf, CreatedStore, FilePayload, Sendable, Saveable, NameAnswer, GivenName;
    SecondFile(s, a, meta);
    ReceivedSame(s, a.message);
    hide Received;
  }

  lemma {:induction false} LastStage(s0: Server, s: Server, a: Arrival, name: seq<byte>, whole: seq<byte>, meta: seq<byte>)
    requires Uploadable(s0, name, whole, meta) && BeforeEnd(s0, s, 2, name, whole, meta) && s.user == s0.user && s.key == s0.key
    requires s.active && ServerRuns(s)
    requires Opened(s, a.message) == UploadMessages(whole, meta)[2]
    ensures Arrived(s0, Step(s, a), name, whole, meta) && ServerRuns(Step(s, a))
  {
    var before := s0.(said := s.said);
    var custom := GivenName(s0, name);
    var t := Step(s, a);
    hide Opened, NameTaken, Step, NextId, DirsOf, CreatedStore, FilePayload, Sendable, NameAnswer, GivenName, SavedStore, PutString;
    assert Saved(before, t, custom, whole, meta) by {
      hide Saveable;
      EndOfUpload(s, before, a);
    }
    hide Saveable;
    SavedThere(before, t, custom, whole, meta);
    UploadComesBack(DirFor(s0.store, s0.user, NextOf(s0)), custom, whole, meta);
    hide RestoreBytes, BackupPath, DirFor, SavedDir;
    assert UploadedDir(before, custom, whole, meta) == UploadedDir(s0, custom, whole, meta);
  }

  /** Nothing undoes an arrival. */
  lemma {:induction false} ArrivedStays(s0: Server, s: Server, t: Server, name: seq<byte>, whole: seq<byte>, meta: seq<byte>)
    requires Uploadable(s0, name, whole, meta) && Arrived(s0, s, name, whole, meta) && Kept(s, t) && s.said <= t.said
    ensures Arrived(s0, t, name, whole, meta)
  {
    KeptListed(s, t);
    hide Uploadable, Kept, BackupPath, UploadedDir, NextId, DirsOf, RestoreBytes, PutString, NameAnswer, GivenName;
  }

  /** Before the end marker, a time-out ends the session and leaves the rest as it is. */
  lemma {:induction false} TimeOutStage(s0: Server, s: Server, a: Arrival, g: int, name: seq<byte>, whole: seq<byte>, meta: seq<byte>)
    requires NextId(DirsOf(s0.store, s0.user)).Some? && BeforeEnd(s0, s, g, name, whole, meta) && g < 3 && a.message == NOTHING
    ensures BeforeEnd(s0, Step(s, a), g, name, whole, meta)
  {
    assert ServerRuns(s) ==> s.phase.Ready? || s.phase.AwaitData? || s.phase.Receiving? by { hide NextId, DirsOf, NameTaken; }
    hide NextId, DirsOf, CreatedStore, NameTaken, StagePhase, NameAnswer, Step;
    TimesOut(s, a);
  }

  /** A waiting session is closed by a time-out. */
  lemma {:induction false} TimesOut(s: Server, a: Arrival)
    requires a.message == NOTHING && (ServerRuns(s) ==> s.phase.Ready? || s.phase.AwaitData? || s.phase.Receiving?)
    ensures Step(s, a) == s || Step(s, a) == At(s, Closed)
  {
    assert Received(s, NOTHING) == s && Opened(s, NOTHING) == NOTHING by { hide Step; }
    hide Received, Opened, BeginBackup, HandleBackup, HandleRestore, HandleList, FinishBackup;
  }

  lemma {:induction false} StageOf(s0: Server, s: Server, name: seq<byte>, whole: seq<byte>, meta: seq<byte>)
    requires Uploadable(s0, name, whole, meta) && Stage(s0, s, name, whole, meta)
    ensures s.active && s.user == s0.user && s.key == s0.key && |s.heard| >= |s0.heard|
    ensures var g := Files(s0, s, name);
            if g < 3 then BeforeEnd(s0, s, g, name, whole, meta) else Arrived(s0, s, name, whole, meta)
  {
    hide Uploadable, BeforeEnd, Arrived, NameMessage;
  }

  lemma {:induction false} StageTimesOut(s0: Server, s: Server, a: Arrival, name: seq<byte>, whole: seq<byte>, meta: seq<byte>)
    requires Uploadable(s0, name, whole, meta) && Stage(s0, s, name, whole, meta) && Safe(s)
    requires a.message == NOTHING && Files(s0, s, name) < 3
    ensures Stage(s0, Step(s, a), name, whole, meta)
  {
    var t := Step(s, a);
    var g := Files(s0, s, name);
    StageOf(s0, s, name, whole, meta);
    StepFrame(s, a);
    NextKnown(s0, name, whole, meta);
    hide Step, Safe, Opened, Kept, ServerRuns, NameMessage, Arrived, BeforeEnd, Uploadable, Stage, StagePhase;
    TimeOutStage(s0, s, a, g, name, whole, meta);
    StageAt(s0, t, g, name, whole, meta);
  }

  lemma {:induction false} FilesCount(s0: Server, s: Server, name: seq<byte>)
    ensures |s.heard| - |s0.heard| == |NameMessage(name)| + Files(s0, s, name)
  {
    hide NameMessage;
  }

  lemma {:induction false} StageReads(s0: Server, s: Server, a: Arrival, name: seq<byte>, whole: seq<byte>, meta: seq<byte>)
    requires Uploadable(s0, name, whole, meta) && Stage(s0, s, name, whole, meta) && Safe(s)
    requires a.message.kind != 0 && ServerRuns(s) && Files(s0, s, name) < 3
    requires var k := |s.heard| - |s0.heard|;
             k < |Upload(name, whole, meta)| ==> Opened(s, a.message) == Upload(name, whole, meta)[k]
    ensures Stage(s0, Step(s, a), name, whole, meta) && ServerRuns(Step(s, a))
  {
    var t := Step(s, a);
    var g := Files(s0, s, name);
    StageOf(s0, s, name, whole, meta);
    StepReads(s, a);
    UploadAt(name, whole, meta);
    assert -|NameMessage(name)| <= g && Files(s0, t, name) == g + 1 && |s.heard| - |s0.heard| == |NameMessage(name)| + g by {
      hide *;
      FilesCount(s0, s, name);
      FilesCount(s0, t, name);
    }
    assert |NameMessage(name)| + g < |Upload(name, whole, meta)| by { hide *; }
    hide *;
    StageMessage(s0, s, a, g, name, whole, meta);
    StageAt(s0, t, g + 1, name, whole, meta);
  }

  /** One arrival at the server. */
  lemma {:induction false} StageStep(s0: Server, s: Server, a: Arrival, name: seq<byte>, whole: seq<byte>, meta: seq<byte>)
    requires Uploadable(s0, name, whole, meta) && Stage(s0, s, name, whole, meta) && Safe(s)
    requires a.message != NOTHING ==> a.message.kind != 0 && ServerRuns(s)
    requires var k := |s.heard| - |s0.heard|;
             a.message != NOTHING && k < |Upload(name, whole, meta)| ==> Opened(s, a.message) == Upload(name, whole, meta)[k]
    ensures Stage(s0, Step(s, a), name, whole, meta)
    ensures a.message != NOTHING && Files(s0, s, name) < 3 ==> ServerRuns(Step(s, a))
  {
    var t := Step(s, a);
    var g := Files(s0, s, name);
    hide Step, Safe, Opened, Kept, ServerRuns, UploadMessages, NameMessage, Upload, Arrived, BeforeEnd, Uploadable, Stage, Files;
    if g >= 3 {
      StageLater(s0, s, a, name, whole, meta);
    } else if a.message == NOTHING {
      StageTimesOut(s0, s, a, name, whole, meta);
    } else {
      StageReads(s0, s, a, name, whole, meta);
    }
  }

  lemma {:induction false} StageLater(s0: Server, s: Server, a: Arrival, name: seq<byte>, whole: seq<byte>, meta: seq<byte>)
    requires Uploadable(s0, name, whole, meta) && Stage(s0, s, name, whole, meta) && Safe(s) && Files(s0, s, name) >= 3
    ensures Stage(s0, Step(s, a), name, whole, meta)
  {
    var t := Step(s, a);
    StageOf(s0, s, name, whole, meta);
    StepFrame(s, a);
    hide Step, Safe, Opened, Kept, ServerRuns, NameMessage, Arrived, BeforeEnd, Uploadable, Stage;
    ArrivedStays(s0, s, t, name, whole, meta);
    StageAt(s0, t, Files(s0, t, name), name, whole, meta);
  }

  lemma {:induction false} StageAt(s0: Server, t: Server, g: int, name: seq<byte>, whole: seq<byte>, meta: seq<byte>)
    requires Uploadable(s0, name, whole, meta) && t.active && t.user == s0.user && t.key == s0.key && |t.heard| >= |s0.heard|
    requires g == Files(s0, t, name)
    requires if g < 3 then BeforeEnd(s0, t, g, name, whole, meta) else Arrived(s0, t, name, whole, meta)
    ensures Stage(s0, t, name, whole, meta)
  {
    hide Uploadable, BeforeEnd, Arrived, NameMessage;
  }

  lemma {:induction false} StageMessage(s0: Server, s: Server, a: Arrival, g: int, name: seq<byte>, whole: seq<byte>, meta: seq<byte>)
    requires Uploadable(s0, name, whole, meta) && BeforeEnd(s0, s, g, name, whole, meta) && s.user == s0.user && s.key == s0.key
    requires s.active && ServerRuns(s) && -|NameMessage(name)| <= g < 3
    requires Opened(s, a.message) == Upload(name, whole, meta)[|NameMessage(name)| + g]
    ensures ServerRuns(Step(s, a))
    ensures if g < 2 then BeforeEnd(s0, Step(s, a), g + 1, name, whole, meta) else Arrived(s0, Step(s, a), name, whole, meta)
  {
    UploadAt(name, whole, meta);
    NextKnown(s0, name, whole, meta);
    hide Step, Safe, Opened, ServerRuns, UploadMessages, NameMessage, Upload, Arrived, BeforeEnd, Uploadable;
    if g < 0 {
      NameStage(s0, s, a, name, whole, meta);
    } else if g == 0 {
      FirstStage(s0, s, a, name, whole, meta);
    } else if g == 1 {
      SecondStage(s0, s, a, name, whole, meta);
    } else {
      LastStage(s0, s, a, name, whole, meta);
    }
  }

  lemma {:induction false} NextKnown(s: Server, name: seq<byte>, whole: seq<byte>, meta: seq<byte>)
    requires Uploadable(s, name, whole, meta)
    ensures NextId(DirsOf(s.store, s.user)).Some? && |name| < U16
  {
    hide NextId, DirsOf, Saveable, Sendable;
  }

  lemma {:induction false} UploadAt(name: seq<byte>, whole: seq<byte>, meta: seq<byte>)
    ensures var ms, j := Upload(name, whole, meta), |NameMessage(name)|;
            && j <= 1 && |ms| == j + 3 && |UploadMessages(whole, meta)| == 3
            && (forall k :: 0 <= k < 3 ==> ms[j + k] == UploadMessages(whole, meta)[k])
            && (j == 1 ==> name != [] && ms[0] == Message(BACKUP_START, PutString(name)))
  {
    hide PutString, FilePayload;
  }

  lemma {:induction false} StageStart(s: Server, name: seq<byte>, whole: seq<byte>, meta: seq<byte>)
    requires Uploadable(s, name, whole, meta) && Safe(s)
    ensures Stage(s, s, name, whole, meta)
  {
    ActiveWhileWaiting(s);
    hide Safe, Arrived, NameTaken, NextId, DirsOf, Saveable, Sendable, PutString;
    assert s.said + [] == s.said;
  }

  lemma {:induction false} StageSame(s0: Server, s: Server, t: Server, name: seq<byte>, whole: seq<byte>, meta: seq<byte>)
    requires Uploadable(s0, name, whole, meta) && Stage(s0, s, name, whole, meta) && t == s.(outbox := t.outbox)
    ensures Stage(s0, t, name, whole, meta)
  {
    hide Uploadable, StagePhase, NameAnswer, CreatedStore, NextId, DirsOf, UploadedDir, BackupPath, Holds;
  }

  lemma {:induction false} StageActive(s0: Server, s: Server, name: seq<byte>, whole: seq<byte>, meta: seq<byte>)
    requires Uploadable(s0, name, whole, meta) && Stage(s0, s, name, whole, meta)
    ensures |s.heard| >= |s0.heard|
  {
    hide Uploadable, BeforeEnd, Arrived;
  }

  lemma {:induction false} StageEvent(s0: Server, z: System, e: Event, name: seq<byte>, whole: seq<byte>, meta: seq<byte>)
    requires Synced(z) && z.client.active
    requires Uploadable(s0, name, whole, meta) && Stage(s0, z.server, name, whole, meta)
    requires Says(z.client.said, |s0.heard|, Upload(name, whole, meta))
    ensures Stage(s0, Happen(z, e).server, name, whole, meta)
    ensures e.ServerReads? && ServerRuns(z.server) && z.client.outbox != [] && Files(s0, z.server, name) < 3 ==> ServerRuns(Happen(z, e).server)
  {
    var t := Happen(z, e).server;
    ServerSide(z, e);
    CountedClient(z);
    StageActive(s0, z.server, name, whole, meta);
    hide Synced, Happen, Stage, Uploadable, Safe, ClientCounted, Joined, Step, Upload, Opened, ServerRuns;
    if Arriving(z, e).Some? {
      ArrivingSaid(z, e);
      var a := Arriving(z, e).value;
      if e.ServerReads? && ServerRuns(z.server) && z.client.outbox != [] {
        NotNothing(z);
        assert a.message != NOTHING;
      }
      hide Arriving;
      StageStep(s0, z.server, a, name, whole, meta);
    } else {
      StageSame(s0, z.server, t, name, whole, meta);
    }
  }

  /** A message on its way to the server is not NOTHING. */
  lemma {:induction false} NotNothing(z: System)
    requires Synced(z) && z.client.active && z.client.outbox != []
    ensures z.client.outbox[0] != NOTHING
  {
    CountedClient(z);
    CountedOf(z.server);
    hide Synced, Safe, ClientCounted, InStep;
    HearsNext(z.client.key, z.client.said, z.server.heard, z.client.outbox, z.server.recvSeq);
  }

  lemma {:induction false} SaysBefore(said: seq<Message>, later: seq<Message>, n: nat, ms: seq<Message>)
    requires Says(later, n, ms) && said <= later
    ensures Says(said, n, ms)
  {
  }

  lemma {:induction false} SaidGrows(z: System, events: seq<Event>)
    requires Synced(z)
    ensures var y := Unfold(z, events); z.client.said <= y.client.said && z.client.heard <= y.client.heard
    ensures z.client.active ==> Unfold(z, events).client.active
    decreases |events|
  {
    hide Synced, Happen;
    if events == [] {
    } else {
      CountedClient(z);
      hide Safe, ClientCounted, Joined;
      HappenSynced(z, events[0]);
      ClientSide(z, events[0]);
      SaidGrows(Happen(z, events[0]), events[1..]);
    }
  }

  lemma {:induction false} StageUnfolds(s0: Server, z: System, events: seq<Event>, name: seq<byte>, whole: seq<byte>, meta: seq<byte>)
    requires Synced(z) && z.client.active
    requires Uploadable(s0, name, whole, meta) && Stage(s0, z.server, name, whole, meta)
    requires Says(Unfold(z, events).client.said, |s0.heard|, Upload(name, whole, meta))
    ensures Stage(s0, Unfold(z, events).server, name, whole, meta)
    decreases |events|
  {
    hide Synced, Happen, Stage, Uploadable, Upload, Says;
    if events == [] {
    } else {
      var y := Happen(z, events[0]);
      SaidGrows(z, events);
      SaysBefore(z.client.said, Unfold(z, events).client.said, |s0.heard|, Upload(name, whole, meta));
      StageEvent(s0, z, events[0], name, whole, meta);
      HappenSynced(z, events[0]);
      CountedClient(z);
      hide Safe, ClientCounted, Joined;
      ClientSide(z, events[0]);
      StageUnfolds(s0, y, events[1..], name, whole, meta);
    }
  }

  /** An upload is all or nothing: whatever happens after the client is in, if the next messages that it
      says are those of an upload, then until the server has read the last of them it has at most made an
      empty directory, and from then on it holds exactly the uploaded bytes as the next backup, under the
      client's name unless that was taken, and has acknowledged its id. */
  lemma {:induction false} UploadArrives(z: System, events: seq<Event>, name: seq<byte>, whole: seq<byte>, meta: seq<byte>)
    requires Synced(z) && z.client.active && Uploadable(z.server, name, whole, meta)
    requires Says(Unfold(z, events).client.said, |z.server.heard|, Upload(name, whole, meta))
    ensures var s0, s := z.server, Unfold(z, events).server;
            if |s.heard| < |s0.heard| + |Upload(name, whole, meta)| then
              s.store == s0.store || s.store == CreatedStore(s0.store, s0.user, NextOf(s0))
            else
              Arrived(s0, s, name, whole, meta)
    ensures RestoreBytes(UploadedDir(z.server, GivenName(z.server, name), whole, meta)) == whole
  {
    var s0 := z.server;
    CountedClient(z);
    StageStart(s0, name, whole, meta);
    StageUnfolds(s0, z, events, name, whole, meta);
    UploadAt(name, whole, meta);
    UploadComesBack(DirFor(s0.store, s0.user, NextOf(s0)), GivenName(s0, name), whole, meta);
    hide Synced, Unfold, Uploadable, Upload, Says, Arrived, NextId, DirsOf, CreatedStore, Safe, ClientCounted, Joined;
    hide UploadMessages, NameMessage, StagePhase, NameAnswer, SavedDir, RestoreBytes, GivenName;
  }

  // ----- a query -----

  /** What a restore client makes of an answer that brings it these bytes. */
  function Outcome(whole: seq<byte>): Fetch {
    if whole == [] then Refused else Got(whole)
  }

  /** What the client has collected, from number n of what it heard, of an answer with these bytes: nothing
      until the error message, or the third message of a backup, is there. */
  ghost predicate Collects(heard: seq<Message>, n: nat, whole: seq<byte>) {
    n <= |heard| ==> Fetched(heard[n..], []) == if |heard| < n + (if whole == [] then 1 else 3) then Lost else Outcome(whole)
  }

  /** The server is ready for the query. */
  predicate Awaits(s: Server, q: Query) {
    s.phase.Ready? && Askable(q)
  }

  ghost predicate SaidAnswer(s0: Server, said: seq<Message>, q: Query) {
    exists stamps :: s0.said + Answer(s0.store, s0.user, q, stamps) <= said
  }

  ghost predicate Asked(s0: Server, s: Server, q: Query) {
    && s.active && |s.heard| >= |s0.heard|
    && if |s.heard| == |s0.heard| then
         s.store == s0.store && s.user == s0.user && s.said == s0.said && (ServerRuns(s) ==> s.phase.Ready?)
       else SaidAnswer(s0, s.said, q)
  }

  lemma {:induction false} AskedStep(s0: Server, s: Server, a: Arrival, q: Query)
    requires Awaits(s0, q) && Asked(s0, s, q) && Safe(s)
    requires a.message != NOTHING ==> a.message.kind != 0 && ServerRuns(s)
    requires a.message != NOTHING && |s.heard| == |s0.heard| ==> Opened(s, a.message) == Request(q)
    ensures Asked(s0, Step(s, a), q)
    ensures a.message != NOTHING && |s.heard| == |s0.heard| ==> ServerRuns(Step(s, a))
  {
    StepFrame(s, a);
    hide Safe, Opened, Kept, Answer, Request;
    if |s.heard| > |s0.heard| {
      hide Step;
      SaidStays(s0, s.said, Step(s, a).said, q);
    } else if a.message == NOTHING {
      TimesOut(s, a);
      hide Step;
    } else {
      hide Step;
      QueryAnswered(s, a, q);
      assert s0.said + Answer(s0.store, s0.user, q, a.stamps) <= Step(s, a).said;
    }
  }

  lemma {:induction false} SaidStays(s0: Server, said: seq<Message>, later: seq<Message>, q: Query)
    requires SaidAnswer(s0, said, q) && said <= later
    ensures SaidAnswer(s0, later, q)
  {
    var stamps :| s0.said + Answer(s0.store, s0.user, q, stamps) <= said;
    assert s0.said + Answer(s0.store, s0.user, q, stamps) <= later;
  }

  lemma {:induction false} AskedEvent(s0: Server, z: System, e: Event, q: Query)
    requires Synced(z) && z.client.active && Awaits(s0, q) && Asked(s0, z.server, q)
    requires Says(z.client.said, |s0.heard|, [Request(q)])
    ensures Asked(s0, Happen(z, e).server, q)
    ensures e.ServerReads? && ServerRuns(z.server) && z.client.outbox != [] && |z.server.heard| == |s0.heard| ==> ServerRuns(Happen(z, e).server)
  {
    ServerSide(z, e);
    CountedClient(z);
    var req := [Request(q)];
    assert req[0] == Request(q);
    hide Synced, Happen, Awaits, Safe, ClientCounted, Joined, Step, Opened, Request, SaidAnswer, ServerRuns;
    if Arriving(z, e).Some? {
      hide Asked;
      ArrivingSaid(z, e);
      assert |z.server.heard| < |z.client.said| && |z.server.heard| == |s0.heard| ==> z.client.said[|s0.heard| + 0] == req[0];
      AskedStep(s0, z.server, Arriving(z, e).value, q);
      if e.ServerReads? && ServerRuns(z.server) && z.client.outbox != [] {
        NotNothing(z);
      }
    } else {
      SameRuns(z.server, Happen(z, e).server);
    }
  }

  lemma {:induction false} SameRuns(s: Server, t: Server)
    requires t == s.(outbox := t.outbox)
    ensures ServerRuns(t) == ServerRuns(s)
  {
  }

  lemma {:induction false} AskedUnfolds(s0: Server, z: System, events: seq<Event>, q: Query)
    requires Synced(z) && z.client.active && Awaits(s0, q) && Asked(s0, z.server, q)
    requires Says(Unfold(z, events).client.said, |s0.heard|, [Request(q)])
    ensures Asked(s0, Unfold(z, events).server, q)
    decreases |events|
  {
    hide Synced, Happen, Asked, Awaits, Says, Request;
    if events == [] {
    } else {
      var y := Happen(z, events[0]);
      SaidGrows(z, events);
      SaysBefore(z.client.said, Unfold(z, events).client.said, |s0.heard|, [Request(q)]);
      AskedEvent(s0, z, events[0], q);
      HappenSynced(z, events[0]);
      CountedClient(z);
      hide Safe, ClientCounted, Joined;
      ClientSide(z, events[0]);
      AskedUnfolds(s0, y, events[1..], q);
    }
  }

  lemma {:induction false} AskedStart(s: Server, q: Query)
    requires Awaits(s, q) && Safe(s)
    ensures Asked(s, s, q)
  {
    ActiveWhileWaiting(s);
    hide Safe, SaidAnswer;
  }

  lemma {:induction false} HeardOfSaid(z: System)
    requires Synced(z) && z.client.active
    ensures z.client.heard <= z.server.said
  {
    CountedClient(z);
    hide Synced, Safe, ClientCounted, Tail;
  }

  /** Whatever happens after the client is in, if the next message that it says is a query, then until the
      server has read it, it says nothing, and after that its answer. */
  lemma {:induction false} QueryArrives(z: System, events: seq<Event>, q: Query)
    requires Synced(z) && z.client.active && Awaits(z.server, q)
    requires Says(Unfold(z, events).client.said, |z.server.heard|, [Request(q)])
    ensures var s0, y := z.server, Unfold(z, events);
            && y.client.heard <= y.server.said && |s0.heard| <= |y.server.heard|
            && if |s0.heard| < |y.server.heard| then SaidAnswer(s0, y.server.said, q) else y.server.said == s0.said
  {
    CountedClient(z);
    hide Unfold, Safe, ClientCounted, Joined, Synced, Request, Awaits, Says, SaidAnswer;
    AskedStart(z.server, q);
    AskedUnfolds(z.server, z, events, q);
    UnfoldSynced(z, events);
    SaidGrows(z, events);
    HeardOfSaid(Unfold(z, events));
  }

  // ----- a restore -----

  /** Less than the three messages of an answer says nothing yet; with more behind them, it still says
      the same. */
  lemma {:induction false} ReplyCollected(reply: seq<Message>, got: seq<Message>, whole: seq<byte>, meta: seq<byte>, count: nat)
    requires whole != [] && |whole| < U32 && |meta| < U32 && reply == RestoreMessages(whole, meta, count)
    requires got <= reply || reply <= got
    ensures Fetched(got, []) == if |got| < 3 then Lost else Got(whole)
  {
    ReplyTaken(whole, meta, count);
    hide RestoreMessages, Taken;
    assert forall k :: 0 <= k < |got| && k < 3 ==> got[k] == reply[k];
    if |got| > 0 {
      var one := got[1..];
      assert Fetched(got, []) == Fetched(one, whole);
      if |one| > 0 {
        var two := one[1..];
        assert one[0] == got[1] && Fetched(one, whole) == Fetched(two, whole);
        if |two| > 0 {
          assert two[0] == got[2] && Fetched(two, whole) == Got(whole);
        }
      }
    }
  }

  lemma {:induction false} ReplyTaken(whole: seq<byte>, meta: seq<byte>, count: nat)
    requires whole != [] && |whole| < U32 && |meta| < U32
    ensures var ms := RestoreMessages(whole, meta, count);
            && |ms| == 3 && Taken(ms[0], []) == More(whole) && Taken(ms[1], whole) == More(whole)
            && Taken(ms[2], whole) == Done(Got(whole))
  {
    PathsDiffer();
    FileRoundTrip(BAK, whole);
    FileRoundTrip(BAK_METADATA, meta);
    assert BAK != BAK_METADATA;
    hide FilePayload, ParsedFile, BAK, BAK_METADATA, BE;
  }

  /** An answer holds the backup's bytes under one path, its records under another, and their number. */
  lemma {:induction false} ReplyRead(whole: seq<byte>, meta: seq<byte>, count: nat)
    requires |whole| < U32 && |meta| < U32 && count < U32
    ensures var ms := RestoreMessages(whole, meta, count);
            && |ms| == 3 && ParsedFile(ms[0].payload) == Some((BAK, whole)) && ParsedFile(ms[1].payload) == Some((BAK_METADATA, meta))
            && FromBE(ms[2].payload) == count && BAK != BAK_METADATA
  {
    PathsDiffer();
    FileRoundTrip(BAK, whole);
    FileRoundTrip(BAK_METADATA, meta);
    Widths();
    BERoundTrip(count, 4);
    hide FilePayload, ParsedFile, BAK, BAK_METADATA, BE, FromBE;
  }

  lemma {:induction false} ReplySizes(whole: seq<byte>, meta: seq<byte>, count: nat)
    requires Sendable(RestoreMessages(whole, meta, count))
    ensures |whole| < U32 && |meta| < U32
  {
    var ms := RestoreMessages(whole, meta, count);
    hide BE, PutString;
    assert ms[0] in ms && ms[1] in ms;
  }

  lemma {:induction false} ReplyOutcome(d: Dir, got: seq<Message>)
    requires RestoreBytes(d) != [] && Sendable(RestoreReply(d)) && (got <= RestoreReply(d) || RestoreReply(d) <= got)
    ensures |RestoreReply(d)| == 3
    ensures Fetched(got, []) == if |got| < 3 then Lost else Got(RestoreBytes(d))
  {
    var files := if d.metadata.Some? then d.metadata.value else [];
    ReplySizes(RestoreBytes(d), Metadata.MetaBytes(files), |files|);
    assert |RestoreReply(d)| == 3 by { hide FilePayload, RestoreBytes; }
    hide Sendable, RestoreMessages, RestoreBytes, Fetched;
    ReplyCollected(RestoreReply(d), got, RestoreBytes(d), Metadata.MetaBytes(files), |files|);
  }

  /** An error answer ends the receive loop as refused. */
  lemma {:induction false} ErrorOutcome(text: seq<byte>, got: seq<Message>)
    requires got <= [ErrorText(BACKUP_NOT_FOUND, text)] || [ErrorText(BACKUP_NOT_FOUND, text)] <= got
    ensures Fetched(got, []) == if |got| < 1 then Lost else Refused
  {
    hide PutString, BE;
    if got != [] {
      assert got[0] == [ErrorText(BACKUP_NOT_FOUND, text)][0];
      assert Taken(got[0], []) == Done(Refused);
    }
  }

  lemma {:induction false} AnswerOutcome(s: Server, asked: Id, got: seq<Message>)
    requires var answer := RestoreAnswer(s.store, s.user, asked); Sendable(answer) && (got <= answer || answer <= got)
    ensures var whole := AskedBytes(s.store, s.user, asked);
            && |RestoreAnswer(s.store, s.user, asked)| == (if whole == [] then 1 else 3)
            && Fetched(got, []) == if |got| < |RestoreAnswer(s.store, s.user, asked)| then Lost else Outcome(whole)
  {
    var id := Meant(s.store, s.user, asked);
    hide Meant, DirFor, RestoreBytes, RestoreReply, Fetched, ErrorText, Sendable;
    if AskedBytes(s.store, s.user, asked) != [] {
      ReplyOutcome(DirFor(s.store, s.user, id), got);
    } else {
      ErrorOutcome(if id == [] then Ascii("No backup found.") else Ascii("Backup not found: ") + id, got);
    }
  }

  /** What is heard of what is said, from where the answer starts. */
  lemma {:induction false} HeardPart(said: seq<Message>, before: seq<Message>, answer: seq<Message>, heard: seq<Message>)
    requires before + answer <= said && heard <= said && |before| <= |heard|
    ensures var got := heard[|before|..]; got <= answer || answer <= got
  {
    var got := heard[|before|..];
    assert said[|before|..] == answer + said[|before| + |answer|..];
    assert got == said[|before|..][..|got|];
  }

  lemma {:induction false} AnswerCollected(s0: Server, said: seq<Message>, heard: seq<Message>, asked: Id)
    requires SaidAnswer(s0, said, RestoreQuery(asked)) && heard <= said && Sendable(RestoreAnswer(s0.store, s0.user, asked))
    ensures Collects(heard, |s0.said|, AskedBytes(s0.store, s0.user, asked))
  {
    var answer := RestoreAnswer(s0.store, s0.user, asked);
    hide Sendable, RestoreAnswer, Fetched, AskedBytes, Outcome;
    assert s0.said + answer <= said;
    if |s0.said| <= |heard| {
      HeardPart(said, s0.said, answer, heard);
      AnswerOutcome(s0, asked, heard[|s0.said|..]);
    }
  }

  /** Whatever happens after the client is in, if the next message that it says asks for a backup, by an id or
      for the latest, then what it collects is not complete yet, or exactly the backup's bytes, and if there
      is no such backup, a refusal. */
  lemma {:induction false} RestoreArrives(z: System, events: seq<Event>, asked: Id)
    requires Synced(z) && z.client.active && Awaits(z.server, RestoreQuery(asked))
    requires Sendable(RestoreAnswer(z.server.store, z.server.user, asked))
    requires Says(Unfold(z, events).client.said, |z.server.heard|, [Request(RestoreQuery(asked))])
    ensures Collects(Unfold(z, events).client.heard, |z.server.said|, AskedBytes(z.server.store, z.server.user, asked))
  {
    var s0, y := z.server, Unfold(z, events);
    hide Unfold, Synced, Request, Awaits, Says, SaidAnswer, AskedBytes, RestoreAnswer, Collects, Sendable;
    QueryArrives(z, events, RestoreQuery(asked));
    if |s0.heard| < |y.server.heard| {
      AnswerCollected(s0, y.server.said, y.client.heard, asked);
    } else {
      NotYet(y.client.heard, s0.said, AskedBytes(s0.store, s0.user, asked));
    }
  }

  lemma {:induction false} NotYet(heard: seq<Message>, said: seq<Message>, whole: seq<byte>)
    requires heard <= said
    ensures Collects(heard, |said|, whole)
  {
    if |said| <= |heard| {
      assert heard[|said|..] == [];
    }
  }

  // ----- a list -----

  /** What the client has been shown, from number n of what it heard: nothing until an answer is there, then
      exactly the listed backups. */
  ghost predicate ShowsList(heard: seq<Message>, n: nat, dirs: Dirs) {
    n <= |heard| ==>
      var r := Shown(heard[n..]);
      if |heard| == n then r.Unexpected? else r.Lines? && exists stamps :: Shows(r.lines, dirs, stamps)
  }

  /** Whatever happens after the client is in, if the next message that it says asks for the list, then it is
      shown exactly the listed backups in text order, each with its own name and time, or nothing yet. */
  lemma {:induction false} ListArrives(z: System, events: seq<Event>)
    requires Synced(z) && z.client.active && z.server.phase.Ready? && Fits(DirsOf(z.server.store, z.server.user))
    requires Says(Unfold(z, events).client.said, |z.server.heard|, [Request(ListQuery)])
    ensures ShowsList(Unfold(z, events).client.heard, |z.server.said|, DirsOf(z.server.store, z.server.user))
  {
    var s0, y := z.server, Unfold(z, events);
    hide Unfold, Synced, Request, Says, SaidAnswer, DirsOf, ShowsList, Fits;
    QueryArrives(z, events, ListQuery);
    if |s0.heard| < |y.server.heard| {
      ListCollected(s0, y.server.said, y.client.heard);
    } else {
      NoListYet(y.client.heard, s0.said, DirsOf(s0.store, s0.user));
    }
  }

  lemma {:induction false} NoListYet(heard: seq<Message>, said: seq<Message>, dirs: Dirs)
    requires heard <= said
    ensures ShowsList(heard, |said|, dirs)
  {
    hide ReadList;
    if |said| <= |heard| {
      assert heard[|said|..] == [];
    }
  }

  lemma {:induction false} ListCollected(s0: Server, said: seq<Message>, heard: seq<Message>)
    requires SaidAnswer(s0, said, ListQuery) && heard <= said && Fits(DirsOf(s0.store, s0.user))
    ensures ShowsList(heard, |s0.said|, DirsOf(s0.store, s0.user))
  {
    var dirs := DirsOf(s0.store, s0.user);
    var stamps :| s0.said + Answer(s0.store, s0.user, ListQuery, stamps) <= said;
    var answer := Message(BACKUP_LIST_RESPONSE, ListPayload(dirs, stamps));
    ListReadBack(dirs, stamps);
    hide DirsOf, Fits, ListPayload, Shows, ReadList;
    if |s0.said| <= |heard| {
      HeardPart(said, s0.said, [answer], heard);
      var got := heard[|s0.said|..];
      if got != [] {
        assert got[0] == [answer][0];
        assert Shown(got) == Lines(ReadList(ListPayload(dirs, stamps)).value);
      }
    }
  }

  // ----- a schedule that brings it there -----

  lemma {:induction false} SayAllSynced(c: Client, s: Server, ms: seq<Message>)
    requires Synced(System(c, s)) && c.phase.Active? && forall m :: m in ms ==> m.kind != 0
    ensures var d := SayAll(c, ms);
            Synced(System(d, s)) && d.phase.Active? && d.said == c.said + ms && d.heard == c.heard
    decreases |ms|
  {
    hide Synced;
    if ms == [] {
      assert c.said + ms == c.said;
    } else {
      SendMoves(c, s, ms[0]);
      hide Sealed;
      SayAllSynced(Say(c, ms[0]), s, ms[1..]);
      assert c.said + [ms[0]] + ms[1..] == c.said + ms;
    }
  }

  function ServerReadsOn(n: nat, drawn: Challenge): seq<Event> {
    seq(n, _ => ServerReads(drawn, map[]))
  }

  function ClientReadsOn(n: nat, salt: seq<byte>): seq<Event> {
    seq(n, _ => ClientReads(salt))
  }

  lemma {:induction false} ChannelLength(z: System)
    requires Synced(z) && z.client.active
    ensures |z.client.outbox| == |z.client.said| - |z.server.heard|
    ensures |z.server.outbox| == |z.server.said| - |z.client.heard|
    ensures z.server.active && z.server.user == z.client.name
  {
    CountedClient(z);
    hide Synced, Safe, ClientCounted, Tail;
  }

  lemma {:induction false} ReadByServer(z: System, drawn: Challenge)
    requires Synced(z) && z.client.active && z.client.outbox != [] && ServerRuns(z.server)
    ensures var y := Happen(z, ServerReads(drawn, map[]));
            Synced(y) && y.client == z.client.(outbox := z.client.outbox[1..]) && |y.server.heard| == |z.server.heard| + 1
  {
    HappenSynced(z, ServerReads(drawn, map[]));
    var y := Happen(z, ServerReads(drawn, map[]));
    hide Synced, Step, ServerRuns;
    assert y.client == z.client.(outbox := z.client.outbox[1..]);
    hide Happen;
    ChannelLength(z);
    ChannelLength(y);
  }

  /** The server reads on through an upload. */
  ghost predicate Reading(s0: Server, z: System, name: seq<byte>, whole: seq<byte>, meta: seq<byte>)
    requires Uploadable(s0, name, whole, meta)
  {
    && Synced(z) && z.client.active && ServerRuns(z.server) && Stage(s0, z.server, name, whole, meta)
    && |z.client.said| == |s0.heard| + |Upload(name, whole, meta)| && Says(z.client.said, |s0.heard|, Upload(name, whole, meta))
  }

  lemma {:induction false} FilesLeft(s0: Server, z: System, name: seq<byte>, whole: seq<byte>, meta: seq<byte>)
    requires Uploadable(s0, name, whole, meta) && Reading(s0, z, name, whole, meta)
    ensures |z.client.outbox| == |z.client.said| - |z.server.heard| && (z.client.outbox != [] ==> Files(s0, z.server, name) < 3)
  {
    UploadAt(name, whole, meta);
    hide Uploadable, Synced, Stage, Says, ServerRuns, Upload, NameMessage;
    ChannelLength(z);
  }

  lemma {:induction false} ReadsOne(s0: Server, z: System, drawn: Challenge, name: seq<byte>, whole: seq<byte>, meta: seq<byte>)
    requires Uploadable(s0, name, whole, meta) && Reading(s0, z, name, whole, meta) && z.client.outbox != []
    ensures var y := Happen(z, ServerReads(drawn, map[]));
            Reading(s0, y, name, whole, meta) && y.client == z.client.(outbox := z.client.outbox[1..])
  {
    FilesLeft(s0, z, name, whole, meta);
    hide Synced, Happen, Uploadable, Stage, Upload, Says, ServerRuns, Files;
    StageEvent(s0, z, ServerReads(drawn, map[]), name, whole, meta);
    ReadByServer(z, drawn);
  }

  lemma {:induction false} AllRead(s0: Server, z: System, drawn: Challenge, name: seq<byte>, whole: seq<byte>, meta: seq<byte>)
    requires Uploadable(s0, name, whole, meta) && Reading(s0, z, name, whole, meta)
    ensures var y := Unfold(z, ServerReadsOn(|z.client.outbox|, drawn));
            y.client == z.client.(outbox := []) && |y.server.heard| == |z.client.said|
    decreases |z.client.outbox|
  {
    hide Happen, Uploadable, Reading, Upload;
    FilesLeft(s0, z, name, whole, meta);
    if z.client.outbox == [] {
    } else {
      var events := ServerReadsOn(|z.client.outbox|, drawn);
      var y := Happen(z, events[0]);
      assert events[0] == ServerReads(drawn, map[]);
      ReadsOne(s0, z, drawn, name, whole, meta);
      assert events[1..] == ServerReadsOn(|y.client.outbox|, drawn);
      hide ServerReadsOn;
      AllRead(s0, y, drawn, name, whole, meta);
    }
  }

  lemma {:induction false} UploadKinds(name: seq<byte>, whole: seq<byte>, meta: seq<byte>)
    ensures forall m :: m in Upload(name, whole, meta) ==> m.kind != 0
  {
    hide FilePayload, PutString;
  }

  /** What Upload sends, if the server reads it without a time-out, is there. */
  lemma {:induction false} UploadDelivered(z: System, name: seq<byte>, whole: seq<byte>, meta: seq<byte>, drawn: Challenge)
    requires Synced(z) && z.client.phase.Active? && z.client.outbox == [] && Uploadable(z.server, name, whole, meta)
    ensures var c := SayAll(z.client, Upload(name, whole, meta));
            var y := Unfold(System(c, z.server), ServerReadsOn(|c.outbox|, drawn));
            y.client == c.(outbox := []) && Arrived(z.server, y.server, name, whole, meta)
  {
    var s := z.server;
    var c := SayAll(z.client, Upload(name, whole, meta));
    hide Synced, Unfold, Uploadable, Upload, SayAll, ServerReadsOn, Arrived, Reading;
    ReadingStart(z, name, whole, meta);
    AllRead(s, System(c, s), drawn, name, whole, meta);
    ReadingSaid(s, System(c, s), name, whole, meta);
    UploadArrives(System(c, s), ServerReadsOn(|c.outbox|, drawn), name, whole, meta);
  }

  lemma {:induction false} ReadingSaid(s0: Server, z: System, name: seq<byte>, whole: seq<byte>, meta: seq<byte>)
    requires Uploadable(s0, name, whole, meta) && Reading(s0, z, name, whole, meta)
    ensures Synced(z) && z.client.active
    ensures |z.client.said| == |s0.heard| + |Upload(name, whole, meta)| && Says(z.client.said, |s0.heard|, Upload(name, whole, meta))
  {
    hide Uploadable, Synced, Stage, Says, ServerRuns, Upload;
  }

  lemma {:induction false} ReadingStart(z: System, name: seq<byte>, whole: seq<byte>, meta: seq<byte>)
    requires Synced(z) && z.client.phase.Active? && z.client.outbox == [] && Uploadable(z.server, name, whole, meta)
    ensures Reading(z.server, System(SayAll(z.client, Upload(name, whole, meta)), z.server), name, whole, meta)
  {
    var s, ms := z.server, Upload(name, whole, meta);
    var c := SayAll(z.client, ms);
    UploadKinds(name, whole, meta);
    assert ServerRuns(s) by { hide Synced, NextId, DirsOf, Saveable, Sendable; }
    CountedClient(z);
    hide Synced, Uploadable, Upload, SayAll, Stage, ServerRuns, Safe, ClientCounted, Joined;
    SayAllSynced(z.client, s, ms);
    ChannelLengthActive(z);
    ChannelLengthActive(System(c, s));
    StageStart(s, name, whole, meta);
    assert Says(c.said, |s.heard|, ms);
  }

  lemma {:induction false} ReadByClient(z: System, salt: seq<byte>)
    requires Synced(z) && z.client.phase.Active? && z.server.outbox != []
    ensures var y := Happen(z, ClientReads(salt));
            && Synced(y) && y.client.phase.Active? && y.client.said == z.client.said
            && y.server == z.server.(outbox := z.server.outbox[1..]) && |y.client.heard| == |z.client.heard| + 1
  {
    HappenSynced(z, ClientReads(salt));
    ReadsOnActive(z, salt);
    hide Synced, Happen;
    ChannelLengthActive(z);
    ChannelLengthActive(Happen(z, ClientReads(salt)));
  }

  lemma {:induction false} ReadsOnActive(z: System, salt: seq<byte>)
    requires z.client.phase.Active? && z.server.outbox != []
    ensures var y := Happen(z, ClientReads(salt));
            && y.client.phase.Active? && y.client.said == z.client.said
            && y.server == z.server.(outbox := z.server.outbox[1..])
  {
    hide Sealed;
  }

  lemma {:induction false} AllHeard(z: System, n: nat, salt: seq<byte>)
    requires Synced(z) && z.client.phase.Active? && n <= |z.server.outbox|
    ensures var y := Unfold(z, ClientReadsOn(n, salt)); |y.client.heard| == |z.client.heard| + n && y.client.said == z.client.said
    decreases n
  {
    hide Synced, Happen;
    if n == 0 {
    } else {
      var events := ClientReadsOn(n, salt);
      ReadByClient(z, salt);
      assert events[0] == ClientReads(salt);
      AllHeard(Happen(z, events[0]), n - 1, salt);
      assert events[1..] == ClientReadsOn(n - 1, salt);
    }
  }

  /** A query is read and answered. */
  lemma {:induction false} RequestAnswered(z: System, q: Query, drawn: Challenge)
    requires Synced(z) && z.client.phase.Active? && z.client.outbox == [] && Awaits(z.server, q)
    ensures var c := Say(z.client, Request(q));
            var y := Happen(System(c, z.server), ServerReads(drawn, map[]));
            && Synced(y) && y.client.phase.Active? && y.client.said == c.said && y.client.heard == z.client.heard
            && SaidAnswer(z.server, y.server.said, q)
            && |c.said| == |z.server.heard| + 1 && c.said[|z.server.heard|] == Request(q)
            && Synced(System(c, z.server)) && c.active
  {
    var req := Request(q);
    var c, s := Say(z.client, req), z.server;
    SaidActive(z.client, req);
    assert req.kind != 0 && ServerRuns(s);
    hide Synced, Say, Request, ServerRuns, Asked, Awaits;
    ChannelLengthActive(z);
    SendMovesTo(z, req, c);
    ChannelLengthActive(System(c, s));
    ReadByServer(System(c, s), drawn);
    CountedClient(z);
    hide Safe, ClientCounted, Joined, Happen;
    AskedStart(s, q);
    SaysOne(c.said, |s.heard|, req);
    AskedEvent(s, System(c, s), ServerReads(drawn, map[]), q);
    AskedAfter(s, Happen(System(c, s), ServerReads(drawn, map[])).server, q);
  }

  lemma {:induction false} AskedAfter(s0: Server, s: Server, q: Query)
    requires Asked(s0, s, q) && |s.heard| > |s0.heard|
    ensures SaidAnswer(s0, s.said, q)
  {
  }

  lemma {:induction false} SaidActive(c: Client, m: Message)
    requires c.phase.Active?
    ensures var d := Say(c, m);
            d.phase.Active? && d.said == c.said + [m] && d.heard == c.heard && |d.outbox| == |c.outbox| + 1
  {
    hide Sealed;
  }

  lemma {:induction false} ChannelLengthActive(z: System)
    requires Synced(z) && z.client.phase.Active?
    ensures z.client.active && |z.client.outbox| == |z.client.said| - |z.server.heard|
    ensures |z.server.outbox| == |z.server.said| - |z.client.heard|
  {
    CountedClient(z);
    ActiveOf(z.client);
    hide Synced;
    ChannelLength(z);
  }

  lemma {:induction false} SendMovesTo(z: System, m: Message, c: Client)
    requires Synced(z) && z.client.phase.Active? && m.kind != 0 && c == Say(z.client, m)
    ensures Synced(System(c, z.server))
  {
    SendMoves(z.client, z.server, m);
  }

  /** The server reads a query, and the client so many messages of the answer. */
  ghost function Served(z: System, q: Query, n: nat, drawn: Challenge, salt: seq<byte>): System {
    Unfold(System(Say(z.client, Request(q)), z.server), [ServerReads(drawn, map[])] + ClientReadsOn(n, salt))
  }

  lemma {:induction false} ServedHeard(z: System, q: Query, n: nat, drawn: Challenge, salt: seq<byte>)
    requires Synced(z) && z.client.phase.Active? && z.client.outbox == [] && z.server.outbox == [] && Awaits(z.server, q)
    requires forall said :: SaidAnswer(z.server, said, q) ==> |said| >= |z.server.said| + n
    ensures var y := Served(z, q, n, drawn, salt);
            && z.client.heard <= y.client.heard && |y.client.heard| == |z.client.heard| + n && |z.client.heard| == |z.server.said|
            && Says(y.client.said, |z.server.heard|, [Request(q)])
  {
    var z0 := System(Say(z.client, Request(q)), z.server);
    var listening := ClientReadsOn(n, salt);
    var events := [ServerReads(drawn, map[])] + listening;
    RequestAnswered(z, q, drawn);
    UnfoldMore(z0, ServerReads(drawn, map[]), listening);
    ChannelLengthActive(z);
    assert |Happen(z0, ServerReads(drawn, map[])).server.said| >= |z.client.heard| + n by { hide Happen, Say; }
    hide *;
    AnswerHeard(z0, Happen(z0, ServerReads(drawn, map[])), |z.client.heard|, n, salt);
    SaysOne(z0.client.said, |z.server.heard|, Request(q));
    SaidGrows(z0, events);
    SameSaid(z, z0, Unfold(z0, events), q, n, drawn, salt);
  }

  lemma {:induction false} SameSaid(z: System, z0: System, y: System, q: Query, n: nat, drawn: Challenge, salt: seq<byte>)
    requires z0 == System(Say(z.client, Request(q)), z.server)
    requires y == Unfold(z0, [ServerReads(drawn, map[])] + ClientReadsOn(n, salt))
    ensures y == Served(z, q, n, drawn, salt) && z0.client.heard == z.client.heard
  {
    hide Unfold, Request, Sealed;
  }

  /** What Restore asks for, if the server reads it and the client the answer, is collected. */
  lemma {:induction false} RestoreDelivered(z: System, asked: Id, drawn: Challenge, salt: seq<byte>)
    requires Synced(z) && z.client.phase.Active? && z.client.outbox == [] && z.server.outbox == [] && Awaits(z.server, RestoreQuery(asked))
    requires Sendable(RestoreAnswer(z.server.store, z.server.user, asked))
    ensures var whole := AskedBytes(z.server.store, z.server.user, asked);
            var y := Served(z, RestoreQuery(asked), if whole == [] then 1 else 3, drawn, salt);
            z.client.heard <= y.client.heard && Fetched(y.client.heard[|z.client.heard|..], []) == Outcome(whole)
  {
    var s0, whole := z.server, AskedBytes(z.server.store, z.server.user, asked);
    var n := if whole == [] then 1 else 3;
    var z0 := System(Say(z.client, Request(RestoreQuery(asked))), s0);
    var events := [ServerReads(drawn, map[])] + ClientReadsOn(n, salt);
    AnswerOutcome(s0, asked, []);
    RequestAnswered(z, RestoreQuery(asked), drawn);
    assert Awaits(z0.server, RestoreQuery(asked));
    hide Synced, Unfold, Sendable, RestoreAnswer, AskedBytes, Say, Happen, Request, Awaits, Says, Fetched, ClientReadsOn, Outcome;
    ServedHeard(z, RestoreQuery(asked), n, drawn, salt);
    RestoreArrives(z0, events, asked);
  }

  /** ... and so is what a list shows. */
  lemma {:induction false} ListDelivered(z: System, drawn: Challenge, salt: seq<byte>)
    requires Synced(z) && z.client.phase.Active? && z.client.outbox == [] && z.server.outbox == [] && z.server.phase.Ready?
    requires Fits(DirsOf(z.server.store, z.server.user))
    ensures var y := Served(z, ListQuery, 1, drawn, salt);
            && z.client.heard <= y.client.heard
            && var r := Shown(y.client.heard[|z.client.heard|..]);
               r.Lines? && exists stamps :: Shows(r.lines, DirsOf(z.server.store, z.server.user), stamps)
  {
    var z0 := System(Say(z.client, Request(ListQuery)), z.server);
    var events := [ServerReads(drawn, map[])] + ClientReadsOn(1, salt);
    RequestAnswered(z, ListQuery, drawn);
    assert z0.server.phase.Ready?;
    hide Synced, Unfold, Say, Happen, Request, Says, Shows, ClientReadsOn, Shown, Fits, DirsOf, ListPayload;
    ServedHeard(z, ListQuery, 1, drawn, salt);
    ListArrives(z0, events);
  }

  lemma {:induction false} UnfoldMore(z: System, e: Event, events: seq<Event>)
    ensures Unfold(z, [e] + events) == Unfold(Happen(z, e), events)
  {
    hide Happen;
    assert ([e] + events)[0] == e && ([e] + events)[1..] == events;
  }

  lemma {:induction false} SaysOne(said: seq<Message>, n: nat, m: Message)
    requires |said| == n + 1 && said[n] == m
    ensures Says(said, n, [m])
  {
  }

  lemma {:induction false} AnswerHeard(z: System, y: System, heard: nat, n: nat, salt: seq<byte>)
    requires Synced(y) && y.client.phase.Active? && y.client.said == z.client.said && |y.client.heard| == heard
    requires |y.server.said| >= heard + n
    ensures var x := Unfold(y, ClientReadsOn(n, salt)); |x.client.heard| == heard + n && x.client.said == z.client.said
  {
    hide Synced, Unfold, ClientReadsOn;
    ChannelLengthActive(y);
    AllHeard(y, n, salt);
  }

  // ----- from one client to the next -----

  lemma {:induction false} ArrivedHolds(s0: Server, s: Server, name: seq<byte>, whole: seq<byte>, meta: seq<byte>)
    requires Uploadable(s0, name, whole, meta) && Arrived(s0, s, name, whole, meta)
    ensures s.store.base == s0.store.base
    ensures Holds(s.store, BackupPath(s0.store, s0.user, NextOf(s0)), UploadedDir(s0, GivenName(s0, name), whole, meta))
  {
    hide Uploadable, Holds, BackupPath, UploadedDir, NameAnswer;
  }

  lemma {:induction false} HoldsStays(a: Store, b: Store, p: Path, d: Dir)
    requires Holds(a, p, d) && ListedKept(a, b)
    ensures Holds(b, p, d) && b.base == a.base
  {
    hide RestoreBytes;
  }

  lemma {:induction false} UsersFixed(s: Server, t: Server)
    requires Kept(s, t) && s.authenticated
    ensures t.users == s.users
  {
    hide StoreKept;
  }

  /** What is stored is still there for a client that comes in after any later sessions, at any point of
      its own session. */
  lemma {:induction false} StoredForLater(z: System, sessions: seq<seq<Arrival>>, p: Path, d: Dir, user: seq<byte>, password: seq<byte>, registers: bool, entry: seq<Event>)
    requires Synced(z) && Holds(z.server.store, p, d) && |user| < U16 && |z.server.users| + |sessions| < U32
    ensures var y := Unfold(Connected(user, password, registers, Serve(Disk(z.server), sessions)), entry);
            Synced(y) && Holds(y.server.store, p, d) && y.server.store.base == z.server.store.base
  {
    var w := Disk(z.server);
    var w' := Serve(w, sessions);
    var start := Connected(user, password, registers, w');
    var y := Unfold(start, entry);
    CountedClient(z);
    SafeTable(z.server);
    hide Safe, Loaded, DistinctNames, Serve, Synced, Unfold, Holds, ListedKept, Kept;
    ServeKeeps(w, sessions);
    StartSynced(user, password, registers, w'.file, w'.store);
    UnfoldSynced(start, entry);
    UnfoldKept(start, entry);
    KeptListed(start.server, y.server);
    HoldsStays(w.store, w'.store, p, d);
    HoldsStays(w'.store, y.server.store, p, d);
  }

  /** Upload and restore, client to client: one client uploads, whatever else it, the server and the channels
      do; any sessions follow; another client comes in, and asks for an id that leads to that backup, or for the
      latest where that is the latest. At any
      point of its session, what it collects is not complete yet, or exactly the bytes that the first one sent. */
  lemma {:induction false} UploadedBytesFetched(z: System, up: seq<Event>, name: seq<byte>, whole: seq<byte>, meta: seq<byte>, sessions: seq<seq<Arrival>>,
                                                user: seq<byte>, password: seq<byte>, registers: bool, entry: seq<Event>, asked: Id, down: seq<Event>)
    requires Synced(z) && z.client.active && Uploadable(z.server, name, whole, meta)
    requires Says(Unfold(z, up).client.said, |z.server.heard|, Upload(name, whole, meta))
    requires |Unfold(z, up).server.heard| >= |z.server.heard| + |Upload(name, whole, meta)|
    requires |user| < U16 && |z.server.users| + |sessions| < U32 && |asked| < U16
    requires var y := Unfold(Connected(user, password, registers, Serve(Disk(Unfold(z, up).server), sessions)), entry);
             && y.client.active && y.server.phase.Ready?
             && LeadsTo(y.server.store, user, asked, BackupPath(z.server.store, z.server.user, NextOf(z.server)))
             && Says(Unfold(y, down).client.said, |y.server.heard|, [Request(RestoreQuery(asked))])
    requires Sendable(RestoreReply(UploadedDir(z.server, GivenName(z.server, name), whole, meta)))
    ensures var y := Unfold(Connected(user, password, registers, Serve(Disk(Unfold(z, up).server), sessions)), entry);
            Collects(Unfold(y, down).client.heard, |y.server.said|, whole)
  {
    var s0, x := z.server, Unfold(z, up);
    var p, d := BackupPath(s0.store, s0.user, NextOf(s0)), UploadedDir(s0, GivenName(s0, name), whole, meta);
    var y := Unfold(Connected(user, password, registers, Serve(Disk(x.server), sessions)), entry);
    hide Unfold, Synced, Uploadable, Upload, Says, Serve, Connected, Sendable, RestoreReply, UploadedDir, BackupPath, NextOf, RestoreBytes, LeadsTo, Request, Arrived, RestoreAnswer, AskedBytes, Collects;
    UploadArrives(z, up, name, whole, meta);
    ArrivedHolds(s0, x.server, name, whole, meta);
    UnfoldSynced(z, up);
    UnfoldKept(z, up);
    assert x.server.users == s0.users by { hide Kept; InEverAuthentic(z); UsersFixed(s0, x.server); }
    StoredForLater(x, sessions, p, d, user, password, registers, entry);
    hide Kept;
    ClientNameStays(user, password, registers, Serve(Disk(x.server), sessions), entry);
    ChannelLength(y);
    AnswerThere(y.server.store, user, asked, p);
    RestoreArrives(y, down, asked);
  }

  lemma {:induction false} InEverAuthentic(z: System)
    requires Synced(z) && z.client.active
    ensures z.server.authenticated
  {
    CountedClient(z);
    ChannelLength(z);
    hide Synced, Counted, TableFits, PhaseFits, Joined;
  }

  lemma {:induction false} ClientNameStays(user: seq<byte>, password: seq<byte>, registers: bool, w: World, events: seq<Event>)
    ensures Unfold(Connected(user, password, registers, w), events).client.name == user
  {
    NameUnfolds(Connected(user, password, registers, w), events);
    hide Unfold;
  }

  lemma {:induction false} NameUnfolds(z: System, events: seq<Event>)
    ensures Unfold(z, events).client.name == z.client.name
    decreases |events|
  {
    hide Happen;
    if events == [] {
    } else {
      Admission.SamePerson(z, events[0]);
      NameUnfolds(Happen(z, events[0]), events[1..]);
    }
  }
}
