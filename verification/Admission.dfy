/** A registered name lets no client in but one with the right password, whatever happens. */
module Admission {
  import opened Bytes
  import opened Wire
  import opened Messages
  import opened Transport
  import opened Users
  import opened Digests
  import opened Session
  import opened SessionSafety
  import opened ServerVoice
  import opened Answers
  import opened StoreIntegrity
  import opened Lockstep
  import opened Entry

  predicate RightPassword(c: Client, u: User) {
    HashOf(c.password, u.salt) == u.hash
  }

  /** The salts under way are the user's. */
  ghost predicate OwnSalts(outbox: seq<Message>, u: User) {
    forall m :: m in outbox && m.kind == LOGIN_SALT ==> m.payload == u.salt
  }

  /** What the waiting client has sent and the server answered, for a name registered as u. */
  ghost predicate Proper(z: System, u: User) {
    var System(c, s) := z;
    && Lookup(s.users, c.name) == Some(u)
    && (c.phase.WaitSalt? ==> OwnSalts(s.outbox, u))
    && (c.phase.WaitLogin? && c.outbox != [] ==> c.outbox[0].payload == HashOf(c.password, u.salt))
    && (c.phase.WaitLogin? && s.active ==> RightPassword(c, u))
    && (c.phase.WaitRegister? && s.active ==> OkAt(s) >= 0 && s.outbox[OkAt(s)].kind == LOGIN_RESPONSE)
    && (c.active ==> RightPassword(c, u))
  }

  // ----- the server moves -----

  lemma {:induction false} EntryKept(s: Server, t: Server, name: seq<byte>, u: User)
    requires Kept(s, t) && TableFits(t) && Lookup(s.users, name) == Some(u)
    ensures Lookup(t.users, name) == Some(u)
  {
    hide StoreKept, Loaded, Users.Storable;
    var k: nat :| k < |s.users| && s.users[k] == u;
    assert t.users[k] == u;
    LookupFinds(t.users, k);
  }

  /** The one message that an inactive server may answer with. */
  lemma {:induction false} SaltSent(s: Server, a: Arrival)
    requires (s.phase.Auth? || s.phase.AwaitProof?) && !s.active
    ensures var t := Step(s, a);
            !t.active && |t.outbox| == |s.outbox| + 1 && t.outbox[|s.outbox|].kind == LOGIN_SALT ==>
              var m := a.message;
              && s.phase.Auth? && m.kind == LOGIN_REQUEST && GetString(m.payload, 0).Some?
              && Lookup(s.users, GetString(m.payload, 0).value.0).Some?
              && t.outbox[|s.outbox|].payload == Lookup(s.users, GetString(m.payload, 0).value.0).value.salt
  {
    if s.phase.Auth? {
      SaltByLogin(s, a.message.payload);
      NoSaltByRegister(s, a.message.payload);
      hide HandleLogin, HandleRegister, GetString, Lookup, BE, PutString;
    } else {
      hide SessionKey, BE, PutString, GetString, Lookup;
    }
  }

  lemma {:induction false} SaltByLogin(s: Server, payload: seq<byte>)
    requires s.phase.Auth? && !s.active
    ensures var t := HandleLogin(s, payload);
            |t.outbox| == |s.outbox| + 1 && t.outbox[|s.outbox|].kind == LOGIN_SALT ==>
              && GetString(payload, 0).Some? && Lookup(s.users, GetString(payload, 0).value.0).Some?
              && t.outbox[|s.outbox|].payload == Lookup(s.users, GetString(payload, 0).value.0).value.salt
  {
    hide GetString, Lookup, BE, PutString;
  }

  lemma {:induction false} NoSaltByRegister(s: Server, payload: seq<byte>)
    requires s.phase.Auth? && !s.active
    ensures var t := HandleRegister(s, payload);
            |t.outbox| == |s.outbox| + 1 ==> t.outbox[|s.outbox|].kind != LOGIN_SALT
  {
    hide GetString, Lookup, BE, PutString, SessionKey, TableFile;
  }

  /** A waiting client's salts stay the user's. */
  lemma {:induction false} SaltsStay(c: Client, s: Server, a: Arrival, d: Client, u: User)
    requires c.phase.WaitSalt? && Front(c, s) && Takes(c, s, a, d) && OwnSalts(s.outbox, u) && Lookup(s.users, c.name) == Some(u)
    requires Safe(s) && !s.active && !Step(s, a).active
    ensures OwnSalts(Step(s, a).outbox, u)
  {
    var t := Step(s, a);
    assert s.phase.Hello? ==> false by { hide Step, Names; }
    if s.phase.Auth? || s.phase.AwaitProof? {
      SaltSent(s, a);
      CountedOf(s);
      if s.phase.Auth? {
        AuthStep(s, a);
      } else {
        ProofStep(s, a);
      }
      assert a.message.kind == LOGIN_REQUEST ==> Names(a.message, c.name) by { hide Step, Safe, GetString; }
      hide Step, Safe, GetString, Lookup, IsOk;
      OneMore(s, t, u);
    } else {
      PhaseOut(s);
      hide Safe;
    }
  }

  lemma {:induction false} OneMore(s: Server, t: Server, u: User)
    requires OwnSalts(s.outbox, u) && (t.outbox == s.outbox || (|t.outbox| == |s.outbox| + 1 && s.outbox <= t.outbox))
    requires |t.outbox| == |s.outbox| + 1 && t.outbox[|s.outbox|].kind == LOGIN_SALT ==> t.outbox[|s.outbox|].payload == u.salt
    ensures OwnSalts(t.outbox, u)
  {
    forall m | m in t.outbox && m.kind == LOGIN_SALT ensures m.payload == u.salt {
      var k :| 0 <= k < |t.outbox| && t.outbox[k] == m;
      if k < |s.outbox| {
        assert m == s.outbox[k] && m in s.outbox;
      }
    }
  }

  /** Only the user's own hash lets the waiting client's session in. */
  lemma {:induction false} ProofRight(c: Client, s: Server, a: Arrival, d: Client, u: User)
    requires c.phase.WaitLogin? && Front(c, s) && Takes(c, s, a, d) && Safe(s) && !s.active && Step(s, a).active
    requires Lookup(s.users, c.name) == Some(u) && (c.outbox != [] ==> c.outbox[0].payload == HashOf(c.password, u.salt))
    ensures RightPassword(c, u)
  {
    var t, m := Step(s, a), a.message;
    StepGood(s, a);
    assert Earned(s, m, t) by { hide Safe, Kept, Step, Earned; InactiveAuth(s); InactiveAuthOf(t, s, m); }
    assert m.kind != REGISTER_REQUEST && (m != NOTHING ==> m.payload == HashOf(c.password, u.salt)) by { hide Step, Safe, Earned, Lookup; }
    hide Step, Safe, HashOf, Lookup;
    assert s.phase.AwaitProof? && t.user == c.name && t.users == s.users;
    assert HashOf(c.password, u.salt)[..32] == HashOf(c.password, u.salt);
  }

  lemma {:induction false} InactiveAuth(s: Server)
    requires Safe(s)
    ensures s.authenticated == s.active
  {
  }

  lemma {:induction false} InactiveAuthOf(t: Server, s: Server, m: Message)
    requires GoodStep(s, m, t) && t.active
    ensures t.authenticated && (!s.authenticated ==> Earned(s, m, t))
  {
    hide Kept, Earned, Counted, TableFits, PhaseFits;
  }

  lemma {:induction false} SyncedParts(c: Client, s: Server)
    requires Synced(System(c, s))
    ensures Safe(s) && |c.name| < U16 && (Waiting(c) ==> !c.active)
    ensures Waiting(c) ==> Front(c, s)
    ensures Waiting(c) && s.active ==> Pending(c, s)
    ensures Waiting(c) && !s.active ==> NoOk(s)
  {
    hide Safe, Front, Pending, NoOk, Joined;
  }

  /** Who registers in a waiting client's session registers the client's name. */
  lemma {:induction false} NewName(c: Client, s: Server, a: Arrival, d: Client)
    requires c.phase.WaitRegister? && Front(c, s) && Takes(c, s, a, d) && !s.active && Counted(s)
    ensures s.phase.Auth? && Step(s, a).active ==> Step(s, a).user == c.name
  {
    if s.phase.Auth? {
      AuthStep(s, a);
      hide Step, GetString;
    }
  }

  /** While the client waits to be registered, only the answer to its proof can have let the session in. */
  lemma {:induction false} NoNewEntry(c: Client, s: Server, a: Arrival, d: Client, u: User)
    requires c.phase.WaitRegister? && Front(c, s) && Takes(c, s, a, d) && Safe(s) && !s.active && Step(s, a).active
    requires Lookup(s.users, c.name) == Some(u)
    ensures OkAt(Step(s, a)) == |s.outbox| && Step(s, a).outbox == s.outbox + [Message(LOGIN_RESPONSE, [0])]
  {
    var t, m := Step(s, a), a.message;
    StepGood(s, a);
    assert Earned(s, m, t) by { hide Safe, Kept, Step, Earned; InactiveAuth(s); InactiveAuthOf(t, s, m); }
    CountedOf(s);
    NewName(c, s, a, d);
    hide Step, Safe, Front, Takes, Lookup;
    assert s.phase.AwaitProof?;
    ProofStep(s, a);
  }

  lemma {:induction false} SameFront(s: Server, q: Server, t: Server)
    requires Speaks(q, t) && q.outbox == s.outbox && q.said == s.said && OkAt(s) >= 0
    ensures OkAt(t) == OkAt(s) && OkAt(s) < |s.outbox| && t.outbox[OkAt(t)] == s.outbox[OkAt(s)]
  {
    hide SealedAt;
  }

  lemma {:induction false} ActiveFront(s: Server, a: Arrival)
    requires Safe(s) && s.active && OkAt(s) >= 0
    ensures var t := Step(s, a); OkAt(t) == OkAt(s) && OkAt(s) < |s.outbox| && t.outbox[OkAt(t)] == s.outbox[OkAt(s)]
  {
    ActiveStep(s, a);
    HeardOnly(s, a.message);
    var q := if s.phase.Closed? || s.phase.Undefined? then s else Received(s, a.message);
    hide Step, Safe, Speaks, Received;
    SameFront(s, q, Step(s, a));
  }

  lemma {:induction false} NameStays(s: Server, a: Arrival, name: seq<byte>, u: User)
    requires Safe(s) && Lookup(s.users, name) == Some(u)
    ensures Lookup(Step(s, a).users, name) == Some(u)
  {
    StepGood(s, a);
    hide Step, Lookup, Kept, TableFits, LoginFits, PhaseFits, Counted, Earned;
    EntryKept(s, Step(s, a), name, u);
  }

  lemma {:induction false} FrontInactive(c: Client, s: Server)
    requires Front(c, s) && (c.phase.WaitHello? || c.phase.WaitSalt?)
    ensures !s.active
    ensures c.phase.WaitHello? ==> |s.outbox| <= 1
    ensures c.phase.WaitSalt? && s.outbox != [] ==> c.outbox == []
  {
    hide Answered, Names;
  }

  lemma {:induction false} OneProof(c: Client, s: Server)
    requires Front(c, s) && c.phase.WaitLogin?
    ensures |c.outbox| <= 1
  {
    hide Names;
  }

  lemma {:induction false} ProperServer(c: Client, s: Server, a: Arrival, d: Client, u: User)
    requires Synced(System(c, s)) && Proper(System(c, s), u) && Takes(c, s, a, d)
    ensures Proper(System(d, Step(s, a)), u)
  {
    var t := Step(s, a);
    ServerMoves(c, s, a, d);
    SyncedParts(c, s);
    SyncedParts(d, t);
    assert d == c.(outbox := d.outbox) && (d.outbox == c.outbox || (c.outbox != [] && d.outbox == c.outbox[1..]));
    NameStays(s, a, c.name, u);
    RightStays(c, d, u);
    hide Synced, Step, Safe, Lookup, HashOf, OwnSalts, RightPassword, Pending, NoOk, Takes;
    match c.phase {
      case WaitSalt =>
        FrontInactive(c, s);
        FrontInactive(d, t);
        hide Front;
        ProperSalts(c, s, a, d, u);
      case WaitLogin =>
        OneProof(c, s);
        hide Front;
        if t.active {
          ProperLogin(c, s, a, d, u);
        }
      case WaitRegister =>
        hide Front;
        if t.active {
          ProperRegister(c, s, a, d, u);
        }
      case _ => hide Front;
    }
  }

  lemma {:induction false} RightStays(c: Client, d: Client, u: User)
    requires d.password == c.password
    ensures RightPassword(d, u) <==> RightPassword(c, u)
  {
    hide HashOf;
  }

  lemma {:induction false} ProperSalts(c: Client, s: Server, a: Arrival, d: Client, u: User)
    requires Synced(System(c, s)) && Proper(System(c, s), u) && Takes(c, s, a, d) && c.phase.WaitSalt? && !s.active && !Step(s, a).active
    ensures OwnSalts(Step(s, a).outbox, u)
  {
    SyncedParts(c, s);
    hide Synced, Step, Safe, Front, Takes, Lookup, OwnSalts, HashOf;
    SaltsStay(c, s, a, d, u);
  }

  lemma {:induction false} ProperLogin(c: Client, s: Server, a: Arrival, d: Client, u: User)
    requires Synced(System(c, s)) && Proper(System(c, s), u) && Takes(c, s, a, d) && c.phase.WaitLogin? && Step(s, a).active
    ensures RightPassword(c, u)
  {
    SyncedParts(c, s);
    hide Synced, Step, Safe, Front, Takes, Lookup, OwnSalts, HashOf, RightPassword;
    if !s.active {
      ProofRight(c, s, a, d, u);
    }
  }

  lemma {:induction false} ProperRegister(c: Client, s: Server, a: Arrival, d: Client, u: User)
    requires Synced(System(c, s)) && Proper(System(c, s), u) && Takes(c, s, a, d) && c.phase.WaitRegister? && Step(s, a).active
    ensures var t := Step(s, a); 0 <= OkAt(t) < |t.outbox| && t.outbox[OkAt(t)].kind == LOGIN_RESPONSE
  {
    SyncedParts(c, s);
    hide Synced, Step, Safe, Front, Takes, Lookup, OwnSalts, HashOf, RightPassword;
    if s.active {
      ActiveFront(s, a);
    } else {
      NoNewEntry(c, s, a, d, u);
    }
  }

  // ----- the client moves -----

  lemma {:induction false} ProperClient(c: Client, s: Server, salt: seq<byte>, u: User)
    requires Synced(System(c, s)) && Proper(System(c, s), u) && !c.phase.Failed? && s.outbox != []
    ensures Proper(System(Take(c, s.outbox[0], salt), ReadFrom(s)), u)
  {
    SyncedParts(c, s);
    hide Synced, Safe, Lookup, HashOf, Registration, SessionKey, PutString;
    match c.phase {
      case WaitHello =>
        FrontInactive(c, s);
        hide Front, Pending, NoOk;
      case WaitSalt =>
        FrontInactive(c, s);
        hide Front, Pending, NoOk;
        assert s.outbox[0] in s.outbox;
      case WaitLogin =>
        hide Front;
        ProperOk(c, s, u);
        hide Pending, NoOk;
      case WaitRegister =>
        hide Front;
        ProperOk(c, s, u);
        hide Pending, NoOk;
      case _ =>
        hide Front, Pending, NoOk, Sealed;
    }
  }

  /** What the head of the server's channel means to a client that waits for an OK. */
  lemma {:induction false} ProperOk(c: Client, s: Server, u: User)
    requires Proper(System(c, s), u) && (c.phase.WaitLogin? || c.phase.WaitRegister?) && s.outbox != []
    requires if s.active then Pending(c, s) else NoOk(s)
    ensures c.phase.WaitLogin? && SaysOk(s.outbox[0], LOGIN_RESPONSE) ==> RightPassword(c, u)
    ensures c.phase.WaitLogin? && !SaysOk(s.outbox[0], LOGIN_RESPONSE) && s.active ==>
              OkAt(s) > 0 && OkAt(s) < |s.outbox| && s.outbox[OkAt(s)].kind == LOGIN_RESPONSE
    ensures c.phase.WaitRegister? ==> !SaysOk(s.outbox[0], REGISTER_RESPONSE)
  {
    hide Tail, HashOf, Lookup, OwnSalts, RightPassword;
    assert s.outbox[0] in s.outbox;
  }

  // ----- all runs -----

  lemma {:induction false} ProperHappens(z: System, e: Event, u: User)
    requires Synced(z) && Proper(z, u)
    ensures Proper(Happen(z, e), u)
  {
    var System(c, s) := z;
    hide Synced, Step, Take, ServerRuns, Lookup, HashOf, RightPassword, OwnSalts;
    match e {
      case ServerReads(drawn, stamps) =>
        hide Proper;
        if c.outbox != [] && ServerRuns(s) {
          ProperServer(c, s, Arrival(c.outbox[0], drawn, stamps), c.(outbox := c.outbox[1..]), u);
        }
      case ServerTimesOut(drawn, stamps) =>
        hide Proper;
        ProperServer(c, s, Arrival(NOTHING, drawn, stamps), c, u);
      case ClientReads(salt) =>
        hide Proper;
        if s.outbox != [] && !c.phase.Failed? {
          ProperClient(c, s, salt, u);
        }
      case ClientSends(m) =>
        if c.phase.Active? && m.kind != 0 {
          SaysProper(c, s, m, u);
        }
      case ClientStops => StopsProper(c, s, u);
    }
  }

  lemma {:induction false} SaysProper(c: Client, s: Server, m: Message, u: User)
    requires Proper(System(c, s), u) && c.phase.Active?
    ensures Proper(System(Say(c, m), s), u)
  {
    hide Lookup, HashOf, OwnSalts, Sealed;
  }

  lemma {:induction false} StopsProper(c: Client, s: Server, u: User)
    requires Proper(System(c, s), u)
    ensures Proper(System(c.(phase := Failed), s), u)
  {
    hide Lookup, HashOf, OwnSalts;
  }

  lemma {:induction false} SamePerson(z: System, e: Event)
    ensures Happen(z, e).client.name == z.client.name && Happen(z, e).client.password == z.client.password
  {
    hide Step, ServerRuns, Sealed, HashOf, Registration, SessionKey, PutString;
  }

  lemma {:induction false} ProperUnfolds(z: System, events: seq<Event>, u: User)
    requires Synced(z) && Proper(z, u)
    ensures var y := Unfold(z, events); Proper(y, u) && y.client.name == z.client.name && y.client.password == z.client.password
    decreases |events|
  {
    hide Synced, Happen, Proper;
    if events == [] {
    } else {
      HappenSynced(z, events[0]);
      ProperHappens(z, events[0], u);
      SamePerson(z, events[0]);
      ProperUnfolds(Happen(z, events[0]), events[1..], u);
    }
  }

  lemma {:induction false} ProperActive(z: System, u: User)
    requires Proper(z, u) && z.client.active
    ensures HashOf(z.client.password, u.salt) == u.hash
  {
    hide Lookup, HashOf, OwnSalts;
  }

  /** Admission: whatever a client, the server and the channels do, in whatever order and with whatever
      messages lost to time-outs, a client that starts under a registered name never gets in unless its
      password, hashed with the stored salt, gives the stored hash. Asking to register the name instead
      does not help it. */
  lemma {:induction false} OnlyRightPassword(name: seq<byte>, password: seq<byte>, registers: bool, w: World, events: seq<Event>, u: User)
    requires |name| < U16 && DistinctNames(Loaded(w.file)) && Lookup(Loaded(w.file), name) == Some(u)
    ensures Unfold(Connected(name, password, registers, w), events).client.active ==> HashOf(password, u.salt) == u.hash
  {
    var z := Connected(name, password, registers, w);
    StartSynced(name, password, registers, w.file, w.store);
    assert Proper(z, u) by { hide Synced, Loaded, Lookup, HashOf; }
    hide Synced, Proper, Unfold, Loaded, Lookup, HashOf, DistinctNames;
    ProperUnfolds(z, events, u);
    if Unfold(z, events).client.active {
      ProperActive(Unfold(z, events), u);
    }
  }

  /** ... so a client whose password differs from the user's in one character never gets in, nor one whose
      password has another digest. */
  lemma {:induction false} OnlySameDigest(name: seq<byte>, password: seq<byte>, registers: bool, w: World, events: seq<Event>, u: User, right: seq<byte>)
    requires |name| < U16 && DistinctNames(Loaded(w.file)) && Lookup(Loaded(w.file), name) == Some(u) && u.hash == HashOf(right, u.salt)
    ensures var z := Unfold(Connected(name, password, registers, w), events);
            && (z.client.active ==> PasswordDigest(password) == PasswordDigest(right))
            && (OneApart(password, right) ==> !z.client.active)
  {
    hide Unfold, Connected, Loaded, Lookup, HashOf, DistinctNames, PasswordDigest, OneApart;
    OnlyRightPassword(name, password, registers, w, events, u);
    PasswordSame(password, right, u.salt, u.salt);
  }

  /** Who registered a name keeps it: after any later sessions, no run of a client under that name gets in
      with a password that hashes to other bytes. */
  lemma {:induction false} OnlyOwnPassword(name: seq<byte>, password: seq<byte>, w: World, drawn: Challenge, salt: seq<byte>,
                                           sessions: seq<seq<Arrival>>, again: seq<byte>, registers: bool, events: seq<Event>)
    requires |name| < U16 && |salt| == 8 && Lookup(Loaded(w.file), name).None?
    requires DistinctNames(Loaded(w.file)) && |Loaded(w.file)| + |sessions| + 1 < U32
    ensures var z := Exchange(Exchange(Exchange(Connected(name, password, true, w), drawn, salt), drawn, salt), drawn, salt);
            var y := Unfold(Connected(name, again, registers, Serve(Disk(z.server), sessions)), events);
            && (y.client.active ==> HashOf(again, salt) == HashOf(password, salt))
            && (y.client.active ==> PasswordDigest(again) == PasswordDigest(password))
            && (OneApart(again, password) ==> !y.client.active)
  {
    var z := Exchange(Exchange(Exchange(Connected(name, password, true, w), drawn, salt), drawn, salt), drawn, salt);
    var u := User(name, salt, HashOf(password, salt));
    NewUserGetsIn(name, password, w, drawn, salt);
    EntryAppended(w, u);
    PasswordSame(again, password, salt, salt);
    hide Exchange, HashOf, Connected, Serve, Loaded, Lookup, TableFile, DistinctNames, Unfold, PasswordDigest, OneApart;
    var v := Disk(z.server);
    AccountStays(v, sessions, name);
    ServeKeeps(v, sessions);
    OnlyRightPassword(name, again, registers, Serve(v, sessions), events, u);
  }
}
