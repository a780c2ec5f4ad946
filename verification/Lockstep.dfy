/** Client, server and the two channels between them: the counters stay in step. */
module Lockstep {
  import opened Bytes
  import opened Wire
  import opened Messages
  import opened Transport
  import opened Users
  import opened Digests
  import opened BackupIds
  import opened Storage
  import opened Session
  import opened SessionSafety
  import opened ServerVoice
  import opened StoreIntegrity

  // ----- the client -----

  datatype ClientPhase = WaitHello | WaitSalt | WaitLogin | WaitRegister | Active | Failed

  /** A backup client falls back to registration (registers), a restore client does not. */
  datatype Client = Client(
    phase: ClientPhase, name: seq<byte>, password: seq<byte>, registers: bool,
    active: bool, key: seq<byte>, sendSeq: nat, recvSeq: nat, challenge: seq<byte>,
    outbox: seq<Message>, said: seq<Message>, heard: seq<Message>)

  const HELLO: Message := Message(CLIENT_HELLO, BE(PROTOCOL_VERSION, 2))

  function Started(name: seq<byte>, password: seq<byte>, registers: bool): Client {
    Client(WaitHello, name, password, registers, false, [], 0, 0, [], [HELLO], [], [])
  }

  function Raw(c: Client, m: Message, phase: ClientPhase): Client {
    c.(outbox := c.outbox + [m], phase := phase)
  }

  function Registration(c: Client, salt: seq<byte>): Message {
    Message(REGISTER_REQUEST, PutString(c.name) + salt + HashOf(c.password, salt))
  }

  function LoginFailed(c: Client, salt: seq<byte>): Client {
    if c.registers then Raw(c, Registration(c, salt), WaitRegister) else c.(phase := Failed)
  }

  function Login(c: Client): Client {
    c.(active := true, key := SessionKey(c.name, c.challenge), phase := Active)
  }

  predicate SaysOk(m: Message, kind: nat) {
    m.kind == kind && m.payload != [] && m.payload[0] == 0
  }

  /** receiveEncrypted once encryption is on. */
  function Hear(c: Client, m: Message): Client {
    if m.kind == 0 then c
    else c.(recvSeq := (c.recvSeq + 1) % U64, heard := c.heard + [Message(m.kind, Sealed(c.key, m.payload, c.recvSeq))])
  }

  /** The client takes one message; salt is what it draws if it has to register. */
  function Take(c: Client, m: Message, salt: seq<byte>): Client {
    match c.phase
    case WaitHello =>
      if m.kind != SERVER_HELLO then c.(phase := Failed)
      else
        var d := if |m.payload| >= 10 then c.(challenge := m.payload[2..]) else c;
        Raw(d, Message(LOGIN_REQUEST, PutString(c.name)), WaitSalt)
    case WaitSalt =>
      if m.kind != LOGIN_SALT then LoginFailed(c, salt)
      else Raw(c, Message(LOGIN_PROOF, HashOf(c.password, m.payload)), WaitLogin)
    case WaitLogin => if SaysOk(m, LOGIN_RESPONSE) then Login(c) else LoginFailed(c, salt)
    case WaitRegister => if SaysOk(m, REGISTER_RESPONSE) then Login(c) else c.(phase := Failed)
    case Active => Hear(c, m)
    case Failed => c
  }

  /** sendEncrypted once encryption is on. */
  function Say(c: Client, m: Message): Client {
    c.(outbox := c.outbox + [Message(m.kind, Sealed(c.key, m.payload, c.sendSeq))],
       sendSeq := (c.sendSeq + 1) % U64, said := c.said + [m])
  }

  // ----- the two together -----

  /** Each end's outbox is the channel to the other. */
  datatype System = System(client: Client, server: Server)

  /** What can happen next; an event that is not possible changes nothing. The client may send anything
      once it is active, and give up at any time; the server's receive may time out. */
  datatype Event =
    | ServerReads(drawn: Challenge, stamps: map<Id, word64>)
    | ServerTimesOut(drawn: Challenge, stamps: map<Id, word64>)
    | ClientReads(salt: seq<byte>)
    | ClientSends(message: Message)
    | ClientStops

  predicate ServerRuns(s: Server) {
    !s.phase.Closed? && !s.phase.Undefined?
  }

  ghost function Happen(z: System, e: Event): System {
    var System(c, s) := z;
    match e
    case ServerReads(drawn, stamps) =>
      if c.outbox != [] && ServerRuns(s) then
        System(c.(outbox := c.outbox[1..]), Step(s, Arrival(c.outbox[0], drawn, stamps)))
      else z
    case ServerTimesOut(drawn, stamps) => System(c, Step(s, Arrival(NOTHING, drawn, stamps)))
    case ClientReads(salt) =>
      if s.outbox != [] && !c.phase.Failed? then System(Take(c, s.outbox[0], salt), s.(outbox := s.outbox[1..])) else z
    case ClientSends(m) => if c.phase.Active? && m.kind != 0 then System(Say(c, m), s) else z
    case ClientStops => System(c.(phase := Failed), s)
  }

  ghost function Unfold(z: System, events: seq<Event>): System
    decreases |events|
  {
    if events == [] then z else Unfold(Happen(z, events[0]), events[1..])
  }

  // ----- the invariant -----

  /** The last messages on a channel are those said from number `from` on, sealed in order. */
  ghost predicate Tail(key: seq<byte>, said: seq<Message>, from: nat, outbox: seq<Message>) {
    && from <= |said| <= |outbox| + from
    && (forall k :: from <= k < |said| ==> said[k].kind != 0 && outbox[|outbox| - |said| + k] == SealedAt(key, said[k], k))
  }

  /** One direction in step: what was heard is what was said first, and the rest is on its way. */
  ghost predicate InStep(key: seq<byte>, said: seq<Message>, heard: seq<Message>, outbox: seq<Message>) {
    heard <= said && |outbox| == |said| - |heard| && Tail(key, said, |heard|, outbox)
  }

  ghost predicate Joined(z: System) {
    var System(c, s) := z;
    && s.active && s.key == c.key && s.user == c.name && s.challenge == c.challenge
    && InStep(c.key, c.said, s.heard, c.outbox)
    && InStep(c.key, s.said, c.heard, s.outbox)
  }

  /** Position of the OK in the server's channel while the client has not read it. */
  function OkAt(s: Server): int {
    |s.outbox| - |s.said| - 1
  }

  predicate Lands(phase: ClientPhase, kind: nat) {
    (phase.WaitLogin? && kind == LOGIN_RESPONSE) || (phase.WaitRegister? && kind == REGISTER_RESPONSE)
  }

  /** The server is in, the client has not read so: only sealed messages come after the OK. */
  ghost predicate Pending(c: Client, s: Server) {
    && OkAt(s) >= 0 && IsOk(s.outbox[OkAt(s)])
    && (forall k :: 0 <= k < OkAt(s) ==> !IsOk(s.outbox[k]))
    && Tail(s.key, s.said, 0, s.outbox)
    && s.user == c.name
    && (Lands(c.phase, s.outbox[OkAt(s)].kind) ==> c.outbox == [] && s.heard == [])
    && (c.phase.WaitLogin? ==> s.outbox[OkAt(s)].kind == LOGIN_RESPONSE)
  }

  ghost predicate NoOk(s: Server) {
    forall m :: m in s.outbox ==> !IsOk(m)
  }

  predicate Greeted(c: Client, s: Server) {
    && !s.phase.Hello? && c.challenge == s.challenge
    && (s.phase.AwaitProof? ==> s.phase.name == c.name)
  }

  predicate Names(m: Message, name: seq<byte>) {
    GetString(m.payload, 0).Some? && GetString(m.payload, 0).value.0 == name
  }

  predicate Answered(s: Server) {
    s.outbox != [] && s.outbox[0].kind == SERVER_HELLO ==>
      s.outbox[0].payload == BE(PROTOCOL_VERSION, 2) + s.challenge && |s.challenge| == 8
  }

  /** What is on its way to the server, by what the client waits for. */
  predicate Front(c: Client, s: Server) {
    match c.phase
    case WaitHello =>
      && !s.active && |s.outbox| <= 1 && Answered(s)
      && (s.phase.Hello? || s.phase.Auth? || s.phase.Closed?)
      && (s.phase.Hello? ==> c.outbox == [HELLO] && s.outbox == [])
      && (c.outbox == [] || (c.outbox == [HELLO] && !s.phase.Auth? && (s.outbox == [] || s.outbox[0].kind != SERVER_HELLO)))
    case WaitSalt =>
      && !s.active && Greeted(c, s)
      && (c.outbox == [] || (|c.outbox| == 1 && c.outbox[0].kind == LOGIN_REQUEST && Names(c.outbox[0], c.name)
                             && s.outbox == [] && (s.phase.Auth? || s.phase.Closed?)))
    case WaitLogin =>
      && Greeted(c, s)
      && (c.outbox == [] || (|c.outbox| == 1 && c.outbox[0].kind == LOGIN_PROOF && !s.active))
    case WaitRegister =>
      && Greeted(c, s)
      && (c.outbox == []
          || (|c.outbox| == 1 && IsRegistration(c, c.outbox[0]))
          || (|c.outbox| == 2 && c.outbox[0].kind == LOGIN_PROOF && IsRegistration(c, c.outbox[1])))
    case _ => true
  }

  predicate IsRegistration(c: Client, m: Message) {
    m.kind == REGISTER_REQUEST && Names(m, c.name)
  }

  predicate Waiting(c: Client) {
    !c.phase.Active? && !c.phase.Failed?
  }

  predicate ClientCounted(c: Client) {
    && c.sendSeq == |c.said| % U64 && c.recvSeq == |c.heard| % U64
    && (!c.active ==> c.said == [] && c.heard == [])
    && (c.phase.Active? ==> c.active) && (Waiting(c) ==> !c.active)
  }

  ghost predicate Synced(z: System) {
    var System(c, s) := z;
    && Safe(s) && ClientCounted(c) && |c.name| < U16
    && (c.active ==> Joined(z))
    && (Waiting(c) ==> Front(c, s) && (if s.active then Pending(c, s) else NoOk(s)))
  }

  // ----- the server moves -----

  lemma {:induction false} SaidLonger(key: seq<byte>, s: Server, t: Server, from: nat)
    requires Speaks(s, t) && s.key == key && Tail(key, s.said, from, s.outbox)
    ensures Tail(key, t.said, from, t.outbox)
  {
    hide SealedAt;
    forall k | from <= k < |t.said|
      ensures t.said[k].kind != 0 && t.outbox[|t.outbox| - |t.said| + k] == SealedAt(key, t.said[k], k)
    {
      if k < |s.said| {
        assert t.said[k] == s.said[k] && t.outbox[|t.outbox| - |t.said| + k] == s.outbox[|s.outbox| - |s.said| + k];
      }
    }
  }

  lemma {:induction false} TailOn(key: seq<byte>, said: seq<Message>, from: nat, outbox: seq<Message>)
    requires Tail(key, said, from, outbox) && from < |said| && outbox != []
    ensures Tail(key, said, from + 1, outbox[1..])
  {
    hide SealedAt;
    var rest := outbox[1..];
    forall k | from + 1 <= k < |said| ensures said[k].kind != 0 && rest[|rest| - |said| + k] == SealedAt(key, said[k], k) {
      assert rest[|rest| - |said| + k] == outbox[|outbox| - |said| + k];
    }
  }

  /** Opening the next sealed message gives what was said. */
  lemma {:induction false} HearsNext(key: seq<byte>, said: seq<Message>, heard: seq<Message>, outbox: seq<Message>, seqNum: nat)
    requires InStep(key, said, heard, outbox) && outbox != [] && seqNum == |heard| % U64
    ensures outbox[0].kind != 0
    ensures Message(outbox[0].kind, Sealed(key, outbox[0].payload, seqNum)) == said[|heard|]
    ensures InStep(key, said, heard + [said[|heard|]], outbox[1..])
  {
    var plain := said[|heard|];
    assert outbox[|outbox| - |said| + |heard|] == SealedAt(key, plain, |heard|);
    SealedTwice(key, plain.payload, seqNum);
    assert outbox[0] == Message(plain.kind, Sealed(key, plain.payload, seqNum)) && plain.kind != 0;
    hide SealedAt, Sealed;
    TailOn(key, said, |heard|, outbox);
    assert heard + [plain] == said[..|heard| + 1];
    hide Tail;
  }

  lemma {:induction false} PendingServerStep(c: Client, s: Server, d: Client, q: Server, t: Server)
    requires Pending(c, s) && q == s.(recvSeq := q.recvSeq, heard := q.heard) && Speaks(q, t) && d == c.(outbox := d.outbox)
    requires Lands(c.phase, s.outbox[OkAt(s)].kind) ==> d.outbox == [] && t.heard == []
    ensures Pending(d, t)
  {
    SaidLonger(q.key, q, t, 0);
    assert OkAt(t) == OkAt(s);
    assert forall k :: 0 <= k < |q.outbox| ==> t.outbox[k] == q.outbox[k];
    hide SealedAt, Tail;
  }

  /** A server step on the client's next message, or on a time-out; d is what the client's channel
      becomes. */
  predicate Takes(c: Client, s: Server, a: Arrival, d: Client) {
    || (a.message == NOTHING && d == c)
    || (ServerRuns(s) && c.outbox != [] && a.message == c.outbox[0] && d == c.(outbox := c.outbox[1..]))
  }

  lemma {:induction false} ServerHears(c: Client, s: Server, a: Arrival, d: Client)
    requires Joined(System(c, s)) && Counted(s) && Takes(c, s, a, d)
    ensures InStep(d.key, d.said, Received(s, a.message).heard, d.outbox)
  {
    if a.message == NOTHING && d == c {
      assert Received(s, a.message) == s;
    } else {
      HearsNext(c.key, c.said, s.heard, c.outbox, s.recvSeq);
      hide InStep, Sealed;
      assert Received(s, a.message).heard == s.heard + [c.said[|s.heard|]];
    }
  }

  lemma {:induction false} JoinedMoves(c: Client, s: Server, a: Arrival, d: Client)
    requires Joined(System(c, s)) && Safe(s) && Takes(c, s, a, d)
    ensures Joined(System(d, Step(s, a)))
  {
    CountedOf(s);
    ServerHears(c, s, a, d);
    ActiveStep(s, a);
    var q := if s.phase.Closed? || s.phase.Undefined? then s else Received(s, a.message);
    assert InStep(d.key, d.said, q.heard, d.outbox) by {
      hide Safe, Step, Speaks, Opened;
    }
    var t := Step(s, a);
    assert q.active && q.key == s.key && q.user == s.user && q.challenge == s.challenge && q.said == s.said && q.outbox == s.outbox by {
      hide Opened, Step, Speaks, Safe, InStep;
    }
    assert t.heard == q.heard by { hide Step, Received, InStep, SealedAt; }
    hide Step, Received, InStep, Speaks, Safe;
    JoinedMovesFrom(c, s, d, q, t);
  }

  lemma {:induction false} CountedOf(s: Server)
    requires Safe(s)
    ensures Counted(s)
  {
  }

  lemma {:induction false} JoinedMovesFrom(c: Client, s: Server, d: Client, q: Server, t: Server)
    requires Joined(System(c, s)) && d == c.(outbox := d.outbox) && Speaks(q, t)
    requires q.active && q.key == s.key && q.user == s.user && q.challenge == s.challenge && q.said == s.said && q.outbox == s.outbox
    requires InStep(d.key, d.said, t.heard, d.outbox)
    ensures Joined(System(d, t))
  {
    hide InStep, Speaks;
    assert t.active && t.key == q.key && t.user == q.user && t.challenge == q.challenge by { SpeaksFixes(q, t); }
    SpokenInStep(q, t, c.heard);
  }

  lemma {:induction false} SpeaksFixes(s: Server, t: Server)
    requires Speaks(s, t)
    ensures t.active && t.key == s.key && t.user == s.user && t.challenge == s.challenge && t.heard == s.heard
  {
  }

  lemma {:induction false} SpokenInStep(q: Server, t: Server, heard: seq<Message>)
    requires Speaks(q, t) && InStep(q.key, q.said, heard, q.outbox)
    ensures InStep(q.key, t.said, heard, t.outbox)
  {
    SaidLonger(q.key, q, t, |heard|);
    hide Tail, SealedAt;
  }

  lemma {:induction false} HeardOnly(s: Server, m: Message)
    ensures var q := Received(s, m); q == s.(recvSeq := q.recvSeq, heard := q.heard)
    ensures m == NOTHING ==> Received(s, m) == s
  {
    hide Opened;
  }

  lemma {:induction false} PendingMoves(c: Client, s: Server, a: Arrival, d: Client)
    requires Pending(c, s) && Safe(s) && s.active && Takes(c, s, a, d)
    ensures Pending(d, Step(s, a))
  {
    ActiveStep(s, a);
    HeardOnly(s, a.message);
    var q := if s.phase.Closed? || s.phase.Undefined? then s else Received(s, a.message);
    var t := Step(s, a);
    hide Step, Received, Safe, Tail;
    assert t.heard == q.heard by { SpeaksFixes(q, t); }
    hide Speaks;
    PendingServerStep(c, s, d, q, t);
  }

  lemma {:induction false} ComesInPending(s: Server, d: Client, t: Server, kind: nat)
    requires NoOk(s) && ComesIn(s, t, kind) && (kind == LOGIN_RESPONSE || kind == REGISTER_RESPONSE) && t.user == d.name
    requires Lands(d.phase, kind) ==> d.outbox == []
    requires d.phase.WaitLogin? ==> kind == LOGIN_RESPONSE
    ensures Pending(d, t)
  {
    assert OkAt(t) == |s.outbox|;
    assert forall k :: 0 <= k < |s.outbox| ==> t.outbox[k] == s.outbox[k] && s.outbox[k] in s.outbox;
  }

  lemma {:induction false} StaysOutNoOk(s: Server, t: Server)
    requires NoOk(s) && StaysOut(s, t)
    ensures NoOk(t)
  {
    forall m | m in t.outbox ensures !IsOk(m) {
      var k :| 0 <= k < |t.outbox| && t.outbox[k] == m;
      if k < |s.outbox| {
        assert m == s.outbox[k] && m in s.outbox;
      }
    }
  }

  /** Where the waiting client stands after a server step before login. */
  ghost predicate Still(d: Client, t: Server) {
    Front(d, t) && (if t.active then Pending(d, t) else NoOk(t))
  }

  lemma {:induction false} HelloMoves(c: Client, s: Server, a: Arrival, d: Client)
    requires Front(c, s) && Waiting(c) && s.phase.Hello? && !s.active && Takes(c, s, a, d)
    ensures Still(d, Step(s, a))
  {
    HelloStep(s, a);
    hide Step, BE, Pending;
    var t := Step(s, a);
    assert t.outbox == [t.outbox[0]];
  }

  lemma {:induction false} IdleMoves(c: Client, s: Server, a: Arrival, d: Client)
    requires Front(c, s) && Waiting(c) && NoOk(s) && !s.active && !ServerRuns(s) && Takes(c, s, a, d)
    ensures Still(d, Step(s, a))
  {
    hide Front, Pending, NoOk;
    assert Step(s, a) == s && d == c;
  }

  lemma {:induction false} ProofMoves(c: Client, s: Server, a: Arrival, d: Client)
    requires Front(c, s) && Waiting(c) && NoOk(s) && s.phase.AwaitProof? && !s.active && Counted(s) && Takes(c, s, a, d)
    ensures Still(d, Step(s, a))
  {
    ProofStep(s, a);
    var t := Step(s, a);
    hide Step, Names;
    if t.active {
      assert a.message.kind != 0 && s.phase.name == c.name && d.phase == c.phase;
      assert c.phase.WaitLogin? ==> d.outbox == [];
      ComesInPending(s, d, t, LOGIN_RESPONSE);
    } else {
      StaysOutNoOk(s, t);
    }
    hide Pending, NoOk, IsOk;
  }

  lemma {:induction false} AuthMoves(c: Client, s: Server, a: Arrival, d: Client)
    requires Front(c, s) && Waiting(c) && NoOk(s) && s.phase.Auth? && !s.active && Counted(s) && Takes(c, s, a, d)
    ensures Still(d, Step(s, a))
  {
    AuthStep(s, a);
    var t := Step(s, a);
    hide Step, GetString;
    if t.active {
      assert c.phase.WaitRegister? && d.outbox == [] && t.user == c.name;
      ComesInPending(s, d, t, REGISTER_RESPONSE);
    } else {
      StaysOutNoOk(s, t);
    }
    hide Pending, NoOk, IsOk;
  }

  lemma {:induction false} PendingFront(c: Client, s: Server, d: Client, t: Server)
    requires Front(c, s) && Waiting(c) && s.active && t.active && t.challenge == s.challenge && PhaseFits(t)
    requires d == c || (c.outbox != [] && d == c.(outbox := c.outbox[1..]))
    ensures Front(d, t)
  {
    hide Names, Answered, Listed, DirsOf, HasHash;
  }

  lemma {:induction false} ServerMoves(c: Client, s: Server, a: Arrival, d: Client)
    requires Synced(System(c, s)) && Takes(c, s, a, d)
    ensures Synced(System(d, Step(s, a)))
  {
    var t := Step(s, a);
    assert Safe(t) by { StepGood(s, a); }
    CountedOf(s);
    CountedOf(t);
    hide Step, Safe, Front, Pending, NoOk, Joined, Counted, ServerRuns;
    assert d == c.(outbox := d.outbox);
    if c.active {
      JoinedMoves(c, s, a, d);
    } else if Waiting(c) {
      if s.active {
        PendingMoves(c, s, a, d);
        ActiveStays(s, a);
        PendingFront(c, s, d, t);
      } else {
        WaitingMoves(c, s, a, d);
      }
    }
  }

  lemma {:induction false} ActiveStays(s: Server, a: Arrival)
    requires Safe(s) && s.active
    ensures var t := Step(s, a); t.active && t.challenge == s.challenge && PhaseFits(t)
  {
    StepGood(s, a);
    ActiveStep(s, a);
    var q := if s.phase.Closed? || s.phase.Undefined? then s else Received(s, a.message);
    SpeaksFixes(q, Step(s, a));
    hide Step, Counted, TableFits, LoginFits, PhaseFits, Speaks, Opened, Kept;
  }

  lemma {:induction false} WaitingMoves(c: Client, s: Server, a: Arrival, d: Client)
    requires Front(c, s) && Waiting(c) && NoOk(s) && !s.active && Safe(s) && Takes(c, s, a, d)
    ensures Still(d, Step(s, a))
  {
    CountedOf(s);
    PhaseOut(s);
    hide Step, Front, Safe, NoOk, Still, Counted, Takes;
    match s.phase {
      case Hello => HelloMoves(c, s, a, d);
      case Auth => AuthMoves(c, s, a, d);
      case AwaitProof(_, _) => ProofMoves(c, s, a, d);
      case _ => IdleMoves(c, s, a, d);
    }
  }

  lemma {:induction false} PhaseOut(s: Server)
    requires Safe(s) && !s.active
    ensures s.phase.Hello? || s.phase.Auth? || s.phase.AwaitProof? || s.phase.Closed? || s.phase.Undefined?
  {
  }

  // ----- the client moves -----

  /** The server's channel after the client has read its first message. */
  function ReadFrom(s: Server): Server
    requires s.outbox != []
  {
    s.(outbox := s.outbox[1..])
  }

  lemma {:induction false} ReadFromSafe(s: Server)
    requires Safe(s) && s.outbox != []
    ensures Safe(ReadFrom(s))
  {
    hide DistinctNames, Loaded, Listed, HasHash, SessionKey;
  }

  lemma {:induction false} HearCounted(c: Client, m: Message)
    requires ClientCounted(c) && c.active
    ensures ClientCounted(Hear(c, m))
  {
    SeqNext(c.recvSeq, |c.heard|);
    hide Sealed;
  }

  lemma {:induction false} SayCounted(c: Client, m: Message)
    requires ClientCounted(c) && c.active
    ensures ClientCounted(Say(c, m))
  {
    SeqNext(c.sendSeq, |c.said|);
    hide Sealed;
  }

  lemma {:induction false} JoinedHears(c: Client, s: Server)
    requires Joined(System(c, s)) && c.recvSeq == |c.heard| % U64 && s.outbox != []
    ensures Joined(System(Hear(c, s.outbox[0]), ReadFrom(s)))
  {
    HearsNext(s.key, s.said, c.heard, s.outbox, c.recvSeq);
    hide InStep, Sealed;
    var d, t := Hear(c, s.outbox[0]), ReadFrom(s);
    assert d == c.(recvSeq := d.recvSeq, heard := c.heard + [s.said[|c.heard|]]);
    assert t == s.(outbox := s.outbox[1..]);
    hide Hear, ReadFrom;
  }

  lemma {:induction false} JoinedSays(c: Client, s: Server, m: Message)
    requires Joined(System(c, s)) && c.sendSeq == |c.said| % U64 && m.kind != 0
    ensures Joined(System(Say(c, m), s))
  {
    var d := Say(c, m);
    SaysNext(c.key, c.said, s.heard, c.outbox, m);
    hide InStep, Sealed;
    assert d == c.(sendSeq := d.sendSeq, said := c.said + [m], outbox := c.outbox + [SealedAt(c.key, m, |c.said|)]);
    hide SealedAt, Say;
  }

  lemma {:induction false} SaysNext(key: seq<byte>, said: seq<Message>, heard: seq<Message>, outbox: seq<Message>, m: Message)
    requires InStep(key, said, heard, outbox) && m.kind != 0
    ensures InStep(key, said + [m], heard, outbox + [SealedAt(key, m, |said|)])
  {
    hide SealedAt;
  }

  /** The client is let in by the OK at the head of the channel. */
  lemma {:induction false} JoinedNow(c: Client, s: Server)
    requires Pending(c, s) && Safe(s) && s.active && ClientCounted(c) && c.challenge == s.challenge && !c.active
    requires OkAt(s) == 0 && Lands(c.phase, s.outbox[0].kind)
    ensures Joined(System(Login(c), ReadFrom(s))) && ClientCounted(Login(c))
  {
    assert s.key == SessionKey(c.name, c.challenge) by { hide SessionKey, TableFits, Counted, PhaseFits; }
    hide SessionKey, Safe, SealedAt;
  }

  lemma {:induction false} PendingReads(c: Client, s: Server, d: Client)
    requires Pending(c, s) && OkAt(s) > 0
    requires d.name == c.name && (d.phase.WaitLogin? ==> c.phase.WaitLogin?)
    requires Lands(d.phase, s.outbox[OkAt(s)].kind) ==> d.outbox == [] && s.heard == []
    ensures Pending(d, ReadFrom(s))
  {
    var t := ReadFrom(s);
    assert forall k :: 0 <= k < |t.outbox| ==> t.outbox[k] == s.outbox[k + 1];
    assert OkAt(t) == OkAt(s) - 1;
    hide SealedAt, IsOk;
  }

  lemma {:induction false} ClientCountedStays(c: Client, d: Client)
    requires ClientCounted(c) && !c.active && !d.phase.Active?
    requires d == c.(phase := d.phase, outbox := d.outbox, challenge := d.challenge)
    ensures ClientCounted(d)
  {
  }

  lemma {:induction false} NoOkRest(s: Server)
    requires NoOk(s) && s.outbox != []
    ensures NoOk(ReadFrom(s)) && !IsOk(s.outbox[0])
  {
    hide IsOk;
    assert s.outbox[0] in s.outbox;
    assert forall m :: m in s.outbox[1..] ==> m in s.outbox;
  }

  lemma {:induction false} OwnName(name: seq<byte>, rest: seq<byte>)
    requires |name| < U16
    ensures Names(Message(REGISTER_REQUEST, PutString(name) + rest), name)
  {
    StringRoundTrip(name, rest);
    hide GetString, PutString;
  }

  lemma {:induction false} OwnLogin(name: seq<byte>)
    requires |name| < U16
    ensures Names(Message(LOGIN_REQUEST, PutString(name)), name)
  {
    StringRoundTrip(name, []);
    assert PutString(name) + [] == PutString(name);
    hide GetString, PutString;
  }

  lemma {:induction false} OwnRegistration(c: Client, salt: seq<byte>)
    requires |c.name| < U16
    ensures IsRegistration(c, Registration(c, salt))
  {
    var rest := salt + HashOf(c.password, salt);
    OwnName(c.name, rest);
    assert PutString(c.name) + rest == PutString(c.name) + salt + HashOf(c.password, salt);
    hide HashOf, PutString, GetString;
  }

  lemma {:induction false} TakesHello(c: Client, s: Server, salt: seq<byte>)
    requires c.phase.WaitHello? && Front(c, s) && s.outbox != [] && |c.name| < U16 && !s.active
    ensures var d := Take(c, s.outbox[0], salt); Waiting(d) ==> Front(d, ReadFrom(s))
  {
    OwnLogin(c.name);
    assert |BE(PROTOCOL_VERSION, 2)| == 2;
    hide BE, PutString, Names;
    assert (BE(PROTOCOL_VERSION, 2) + s.challenge)[2..] == s.challenge;
  }

  lemma {:induction false} TakesSalt(c: Client, s: Server, salt: seq<byte>)
    requires c.phase.WaitSalt? && Front(c, s) && s.outbox != [] && |c.name| < U16 && !s.active
    ensures var d := Take(c, s.outbox[0], salt); Waiting(d) ==> Front(d, ReadFrom(s))
  {
    OwnRegistration(c, salt);
    hide Names, HashOf, Registration;
  }

  lemma {:induction false} TakesLogin(c: Client, s: Server, salt: seq<byte>)
    requires c.phase.WaitLogin? && Front(c, s) && s.outbox != [] && |c.name| < U16
    ensures var d := Take(c, s.outbox[0], salt); Waiting(d) ==> Front(d, ReadFrom(s))
  {
    OwnRegistration(c, salt);
    hide Names, HashOf, Registration, SessionKey;
  }

  lemma {:induction false} ActiveReads(c: Client, s: Server, salt: seq<byte>)
    requires Synced(System(c, s)) && c.phase.Active? && s.outbox != []
    ensures Synced(System(Take(c, s.outbox[0], salt), ReadFrom(s)))
  {
    ReadFromSafe(s);
    JoinedHears(c, s);
    HearCounted(c, s.outbox[0]);
    hide Safe, Joined, ClientCounted, Front, Pending, NoOk, ReadFrom, Sealed;
    assert c.active by { ActiveOf(c); }
  }

  lemma {:induction false} ActiveOf(c: Client)
    requires ClientCounted(c)
    ensures (c.phase.Active? ==> c.active) && (Waiting(c) ==> !c.active)
  {
  }

  /** A message that is not OK leaves a waiting client waiting or failed. */
  lemma {:induction false} TakesNoOk(c: Client, m: Message, salt: seq<byte>)
    requires ClientCounted(c) && Waiting(c) && !IsOk(m)
    ensures var d := Take(c, m, salt);
            && ClientCounted(d) && !d.active && !d.phase.Active? && d.name == c.name
            && (c.phase.WaitHello? || c.phase.WaitSalt? || d.phase.WaitRegister? || d.phase.Failed?)
            && (c.phase.WaitRegister? ==> d.phase.Failed?)
  {
    var d := Take(c, m, salt);
    hide PutString, HashOf, Registration, SessionKey;
    assert d == c.(phase := d.phase, outbox := d.outbox, challenge := d.challenge) && !d.phase.Active?;
    hide Take;
    ClientCountedStays(c, d);
  }

  lemma {:induction false} OutsideReads(c: Client, s: Server, salt: seq<byte>)
    requires Synced(System(c, s)) && Waiting(c) && !s.active && s.outbox != []
    ensures Synced(System(Take(c, s.outbox[0], salt), ReadFrom(s)))
  {
    ReadFromSafe(s);
    NoOkRest(s);
    TakesNoOk(c, s.outbox[0], salt);
    hide Safe, Joined, ClientCounted, Front, Pending, NoOk, Take, IsOk;
    if c.phase.WaitHello? {
      TakesHello(c, s, salt);
    } else if c.phase.WaitSalt? {
      TakesSalt(c, s, salt);
    } else if c.phase.WaitLogin? {
      TakesLogin(c, s, salt);
    }
  }

  lemma {:induction false} FrontActive(c: Client, s: Server)
    requires Front(c, s) && Waiting(c) && s.active
    ensures (c.phase.WaitLogin? || c.phase.WaitRegister?) && c.challenge == s.challenge
  {
    hide Names, Answered;
  }

  lemma {:induction false} PendingHead(c: Client, s: Server)
    requires Pending(c, s)
    ensures OkAt(s) > 0 ==> !IsOk(s.outbox[0])
    ensures OkAt(s) == 0 ==> IsOk(s.outbox[0])
    ensures OkAt(s) >= 0 && s.outbox != []
    ensures c.phase.WaitLogin? ==> s.outbox[OkAt(s)].kind == LOGIN_RESPONSE
  {
    hide IsOk, Tail;
  }

  lemma {:induction false} PendingReadsOn(c: Client, s: Server, salt: seq<byte>)
    requires Synced(System(c, s)) && Waiting(c) && s.active && OkAt(s) > 0
    ensures s.outbox != [] && Synced(System(Take(c, s.outbox[0], salt), ReadFrom(s)))
  {
    PendingHead(c, s);
    FrontActive(c, s);
    ReadFromSafe(s);
    TakesNoOk(c, s.outbox[0], salt);
    var d := Take(c, s.outbox[0], salt);
    hide Safe, Joined, ClientCounted, Front, Pending, NoOk, Take, IsOk;
    if c.phase.WaitLogin? {
      TakesLogin(c, s, salt);
      PendingReads(c, s, d);
    }
  }

  lemma {:induction false} PendingReadsOk(c: Client, s: Server, salt: seq<byte>)
    requires Synced(System(c, s)) && Waiting(c) && s.active && OkAt(s) == 0
    ensures s.outbox != [] && Synced(System(Take(c, s.outbox[0], salt), ReadFrom(s)))
  {
    PendingHead(c, s);
    FrontActive(c, s);
    ReadFromSafe(s);
    ActiveOf(c);
    var d := Take(c, s.outbox[0], salt);
    hide Safe, Joined, Front, Pending, NoOk, SessionKey;
    if Lands(c.phase, s.outbox[0].kind) {
      JoinedNow(c, s);
      hide ClientCounted;
      assert d == Login(c);
    } else {
      assert d == c.(phase := Failed);
      ClientCountedStays(c, d);
    }
  }

  lemma {:induction false} ClientMoves(c: Client, s: Server, salt: seq<byte>)
    requires Synced(System(c, s)) && !c.phase.Failed? && s.outbox != []
    ensures Synced(System(Take(c, s.outbox[0], salt), ReadFrom(s)))
  {
    OkPlace(c, s);
    hide Synced, Take;
    if c.phase.Active? {
      ActiveReads(c, s, salt);
    } else if !s.active {
      OutsideReads(c, s, salt);
    } else if OkAt(s) > 0 {
      PendingReadsOn(c, s, salt);
    } else {
      PendingReadsOk(c, s, salt);
    }
  }

  lemma {:induction false} OkPlace(c: Client, s: Server)
    requires Synced(System(c, s))
    ensures Waiting(c) && s.active ==> OkAt(s) >= 0
  {
    hide Safe, Joined, Front, NoOk, Tail;
  }

  lemma {:induction false} SendMoves(c: Client, s: Server, m: Message)
    requires Synced(System(c, s)) && c.phase.Active? && m.kind != 0
    ensures Synced(System(Say(c, m), s))
  {
    ActiveOf(c);
    assert c.sendSeq == |c.said| % U64;
    SayCounted(c, m);
    JoinedSays(c, s, m);
    hide Safe, Joined, ClientCounted, Front, Pending, NoOk, Sealed;
  }

  lemma {:induction false} StopMoves(c: Client, s: Server)
    requires Synced(System(c, s))
    ensures Synced(System(c.(phase := Failed), s))
  {
    hide Safe, InStep, Front, Pending, NoOk;
  }

  // ----- all runs -----

  lemma {:induction false} HappenSynced(z: System, e: Event)
    requires Synced(z)
    ensures Synced(Happen(z, e))
  {
    var System(c, s) := z;
    hide Synced, Step, Take, Say, ServerRuns;
    match e {
      case ServerReads(drawn, stamps) =>
        if c.outbox != [] && ServerRuns(s) {
          ServerMoves(c, s, Arrival(c.outbox[0], drawn, stamps), c.(outbox := c.outbox[1..]));
        }
      case ServerTimesOut(drawn, stamps) => ServerMoves(c, s, Arrival(NOTHING, drawn, stamps), c);
      case ClientReads(salt) =>
        if s.outbox != [] && !c.phase.Failed? {
          ClientMoves(c, s, salt);
        }
      case ClientSends(m) =>
        if c.phase.Active? && m.kind != 0 {
          SendMoves(c, s, m);
        }
      case ClientStops => StopMoves(c, s);
    }
  }

  lemma {:induction false} UnfoldSynced(z: System, events: seq<Event>)
    requires Synced(z)
    ensures Synced(Unfold(z, events))
    decreases |events|
  {
    hide Synced, Happen;
    if events == [] {
    } else {
      HappenSynced(z, events[0]);
      UnfoldSynced(Happen(z, events[0]), events[1..]);
    }
  }

  lemma {:induction false} StartSynced(name: seq<byte>, password: seq<byte>, registers: bool, file: seq<byte>, store: Store)
    requires |name| < U16 && DistinctNames(Loaded(file))
    ensures Synced(System(Started(name, password, registers), Fresh(file, store)))
  {
    FreshSafe(World(file, store));
    hide Loaded, DistinctNames, BE, TableFits;
  }

  /** One direction as the receiver sees it: what it has decrypted is exactly what was sent first, and
      the k-th message under way opens, at its counter plus k, to the k-th one sent after that. */
  ghost predicate Follows(key: seq<byte>, said: seq<Message>, heard: seq<Message>, underWay: seq<Message>, recvSeq: nat) {
    && heard <= said && |underWay| == |said| - |heard|
    && (forall k :: 0 <= k < |underWay| ==> OpensTo(underWay[k], key, (recvSeq + k) % U64, said[|heard| + k]))
  }

  ghost predicate Understood(c: Client, s: Server) {
    && s.active && s.key == c.key && s.user == c.name
    && Follows(s.key, c.said, s.heard, c.outbox, s.recvSeq)
    && Follows(c.key, s.said, c.heard, s.outbox, c.recvSeq)
  }

  lemma {:induction false} JoinedUnderstood(c: Client, s: Server)
    requires Joined(System(c, s)) && c.recvSeq == |c.heard| % U64 && s.recvSeq == |s.heard| % U64
    ensures Understood(c, s)
  {
    hide Follows, InStep;
    InStepFollows(c.key, c.said, s.heard, c.outbox, s.recvSeq);
    InStepFollows(c.key, s.said, c.heard, s.outbox, c.recvSeq);
  }

  /** Protocol lockstep: in every state that client, server and channels reach from a new connection,
      once the client's encryption is on, the two understand each other. */
  lemma {:induction false} AlwaysInStep(name: seq<byte>, password: seq<byte>, registers: bool, file: seq<byte>, store: Store, events: seq<Event>)
    requires |name| < U16 && DistinctNames(Loaded(file))
    ensures var z := Unfold(System(Started(name, password, registers), Fresh(file, store)), events);
            z.client.active ==> Understood(z.client, z.server)
  {
    var z0 := System(Started(name, password, registers), Fresh(file, store));
    var z := Unfold(z0, events);
    StartSynced(name, password, registers, file, store);
    UnfoldSynced(z0, events);
    hide Unfold, Front, Pending, NoOk, TableFits, LoginFits, PhaseFits, Started, Fresh, Joined, Understood;
    if z.client.active {
      JoinedUnderstood(z.client, z.server);
    }
  }

  /** ... and under another number, in either direction, a message opens to something else, unless the two
      numbers agree in the byte that the sealing uses of them. */
  lemma {:induction false} OpensOnlyThere(key: seq<byte>, said: seq<Message>, heard: seq<Message>, underWay: seq<Message>, recvSeq: nat, k: nat, n: nat)
    requires Follows(key, said, heard, underWay, recvSeq) && k < |underWay| && said[|heard| + k].payload != []
    ensures OpensTo(underWay[k], key, n, said[|heard| + k]) <==> NumberByte(n) == NumberByte((recvSeq + k) % U64)
  {
    var wire, plain, m := underWay[k], said[|heard| + k], (recvSeq + k) % U64;
    assert OpensTo(wire, key, m, plain);
    SealedTwice(key, wire.payload, m);
    OpensIff(key, plain.payload, m, n);
    hide Sealed, NumberByte, Follows;
  }

  predicate OpensTo(wire: Message, key: seq<byte>, seqNum: nat, plain: Message) {
    wire.kind == plain.kind && Sealed(key, wire.payload, seqNum) == plain.payload
  }

  lemma {:induction false} InStepFollows(key: seq<byte>, said: seq<Message>, heard: seq<Message>, outbox: seq<Message>, seqNum: nat)
    requires InStep(key, said, heard, outbox) && seqNum == |heard| % U64
    ensures Follows(key, said, heard, outbox, seqNum)
  {
    hide OpensTo, SealedAt;
    forall k | 0 <= k < |outbox| ensures OpensTo(outbox[k], key, (seqNum + k) % U64, said[|heard| + k]) {
      var j := |heard| + k;
      assert outbox[|outbox| - |said| + j] == SealedAt(key, said[j], j) && said[j].kind != 0;
      SumMod(|heard|, k);
      hide InStep;
      SealedOpens(key, said[j], j);
    }
  }

  lemma {:induction false} SealedOpens(key: seq<byte>, plain: Message, j: nat)
    requires plain.kind != 0
    ensures OpensTo(SealedAt(key, plain, j), key, j % U64, plain)
  {
    SealedTwice(key, plain.payload, j % U64);
    hide Sealed;
  }

  lemma {:induction false} SumMod(n: nat, k: nat)
    ensures (n % U64 + k) % U64 == (n + k) % U64
  {
  }
}
