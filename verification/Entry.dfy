/** How a client gets in: the first three exchanges of a connection. */
module Entry {
  import opened Bytes
  import opened Wire
  import opened Messages
  import opened Transport
  import opened Users
  import opened Digests
  import opened Storage
  import opened Session
  import opened SessionSafety
  import opened Answers
  import opened StoreIntegrity
  import opened Lockstep
  import SessionRun

  /** The server answers the client's message and the client reads the answer. */
  ghost function Exchange(z: System, drawn: Challenge, salt: seq<byte>): System {
    Happen(Happen(z, ServerReads(drawn, map[])), ClientReads(salt))
  }

  /** One exchange, given what each side does with its one message. */
  lemma {:induction false} OneExchange(z: System, drawn: Challenge, salt: seq<byte>, m: Message, s: Server, r: Message)
    requires z.client.outbox == [m] && z.server.outbox == [] && ServerRuns(z.server) && !z.client.phase.Failed?
    requires Step(z.server, Arrival(m, drawn, map[])) == s && s.outbox == [r]
    ensures Exchange(z, drawn, salt) == System(Take(z.client.(outbox := []), r, salt), s.(outbox := []))
  {
    hide Step, Take, ServerRuns;
    assert z.client.outbox[1..] == [] && s.outbox[1..] == [];
  }

  function Connected(name: seq<byte>, password: seq<byte>, registers: bool, w: World): System {
    System(Started(name, password, registers), Fresh(w.file, w.store))
  }

  lemma {:induction false} Greeting(name: seq<byte>, password: seq<byte>, registers: bool, w: World, drawn: Challenge, salt: seq<byte>)
    ensures Exchange(Connected(name, password, registers, w), drawn, salt)
         == System(Started(name, password, registers).(phase := WaitSalt, challenge := drawn, outbox := [Message(LOGIN_REQUEST, PutString(name))]),
                   Fresh(w.file, w.store).(phase := Auth, challenge := drawn))
  {
    var s := Fresh(w.file, w.store);
    Widths();
    BERoundTrip(PROTOCOL_VERSION, 2);
    var v := BE(PROTOCOL_VERSION, 2);
    assert v[..2] == v && (v + drawn)[2..] == drawn && |v + drawn| == 10;
    hide BE, FromBE, PutString, Loaded;
    var r := Message(SERVER_HELLO, v + drawn);
    assert Step(s, Arrival(HELLO, drawn, map[])) == s.(phase := Auth, challenge := drawn, outbox := [r]);
    OneExchange(Connected(name, password, registers, w), drawn, salt, HELLO, s.(phase := Auth, challenge := drawn, outbox := [r]), r);
    hide Exchange, Step;
  }

  /** A known name is answered with its salt, and the client with the hash of its password. */
  lemma {:induction false} SaltExchange(z: System, drawn: Challenge, salt: seq<byte>, u: User)
    requires z.client.phase.WaitSalt? && z.server.phase.Auth? && !z.server.active && z.server.outbox == [] && |z.client.name| < U16
    requires z.client.outbox == [Message(LOGIN_REQUEST, PutString(z.client.name))]
    requires Lookup(z.server.users, z.client.name) == Some(u)
    ensures Exchange(z, drawn, salt)
         == System(z.client.(phase := WaitLogin, outbox := [Message(LOGIN_PROOF, HashOf(z.client.password, u.salt))]),
                   z.server.(phase := AwaitProof(z.client.name, u.hash)))
  {
    NameRead(z.client.name);
    var m := Message(LOGIN_REQUEST, PutString(z.client.name));
    var r := Message(LOGIN_SALT, u.salt);
    hide PutString, GetString, HashOf, Lookup;
    var s := z.server.(phase := AwaitProof(z.client.name, u.hash), outbox := [r]);
    assert Step(z.server, Arrival(m, drawn, map[])) == s;
    hide Step, Exchange;
    OneExchange(z, drawn, salt, m, s, r);
  }

  /** The proof decides: both sides are in, or neither. */
  lemma {:induction false} ProofExchange(z: System, drawn: Challenge, salt: seq<byte>, proof: seq<byte>)
    requires z.client.phase.WaitLogin? && z.server.phase.AwaitProof? && !z.server.active && !z.client.active && z.server.outbox == []
    requires |proof| == 32 && z.client.outbox == [Message(LOGIN_PROOF, proof)]
    ensures var y := Exchange(z, drawn, salt);
            && (y.client.active <==> proof == z.server.phase.hash)
            && (y.server.active <==> proof == z.server.phase.hash)
  {
    var m := Message(LOGIN_PROOF, proof);
    assert proof[..32] == proof;
    var r := Message(LOGIN_RESPONSE, [if proof == z.server.phase.hash then 0 else 1]);
    hide SessionKey, PutString, HashOf;
    var s := Step(z.server, Arrival(m, drawn, map[]));
    assert s.outbox == [r] && (s.active <==> proof == z.server.phase.hash);
    hide Step, Exchange;
    OneExchange(z, drawn, salt, m, s, r);
  }

  /** A client of a registered user is let in exactly when its password, hashed with the stored salt,
      gives the stored hash. */
  lemma {:induction false} LoginIff(name: seq<byte>, password: seq<byte>, registers: bool, w: World, drawn: Challenge, salt: seq<byte>, u: User)
    requires |name| < U16 && Lookup(Loaded(w.file), name) == Some(u)
    ensures var z := Exchange(Exchange(Exchange(Connected(name, password, registers, w), drawn, salt), drawn, salt), drawn, salt);
            && (z.client.active <==> HashOf(password, u.salt) == u.hash)
            && (z.server.active <==> HashOf(password, u.salt) == u.hash)
  {
    hide Exchange, Loaded, Lookup, HashOf, PutString, BE;
    Greeting(name, password, registers, w, drawn, salt);
    var z1 := Exchange(Connected(name, password, registers, w), drawn, salt);
    SaltExchange(z1, drawn, salt, u);
    var z2 := Exchange(z1, drawn, salt);
    ProofExchange(z2, drawn, salt, HashOf(password, u.salt));
  }

  /** For a user registered with some password: exactly when the two have the same digest, and never when they
      differ in one character. */
  lemma {:induction false} LoginByDigest(name: seq<byte>, password: seq<byte>, registers: bool, w: World, drawn: Challenge, salt: seq<byte>, u: User, right: seq<byte>)
    requires |name| < U16 && Lookup(Loaded(w.file), name) == Some(u) && u.hash == HashOf(right, u.salt)
    ensures var z := Exchange(Exchange(Exchange(Connected(name, password, registers, w), drawn, salt), drawn, salt), drawn, salt);
            && (z.client.active <==> PasswordDigest(password) == PasswordDigest(right))
            && (z.server.active <==> PasswordDigest(password) == PasswordDigest(right))
            && (OneApart(password, right) ==> !z.client.active && !z.server.active)
  {
    hide Exchange, Connected, Loaded, Lookup, HashOf, PasswordDigest, OneApart;
    LoginIff(name, password, registers, w, drawn, salt, u);
    PasswordSame(password, right, u.salt, u.salt);
  }

  /** An unknown name is refused, and a backup client asks to register it. */
  lemma {:induction false} RefusedExchange(z: System, drawn: Challenge, salt: seq<byte>)
    requires z.client.phase.WaitSalt? && z.server.phase.Auth? && !z.server.active && z.server.outbox == [] && |z.client.name| < U16
    requires z.client.outbox == [Message(LOGIN_REQUEST, PutString(z.client.name))] && z.client.registers
    requires Lookup(z.server.users, z.client.name).None?
    ensures Exchange(z, drawn, salt) == System(z.client.(phase := WaitRegister, outbox := [Registration(z.client, salt)]), z.server)
  {
    NameRead(z.client.name);
    var m := Message(LOGIN_REQUEST, PutString(z.client.name));
    var r := Message(LOGIN_RESPONSE, [1]);
    hide PutString, GetString, HashOf, Lookup;
    var s := z.server.(outbox := [r]);
    assert Step(z.server, Arrival(m, drawn, map[])) == s;
    hide Step, Exchange;
    OneExchange(z, drawn, salt, m, s, r);
  }

  lemma {:induction false} RegistrationParts(c: Client, salt: seq<byte>)
    requires |c.name| < U16 && |salt| == 8
    ensures var p, o := Registration(c, salt).payload, 2 + |c.name|;
            && GetString(p, 0) == Some((c.name, o)) && |p| == o + 40
            && p[o..o + 8] == salt && p[o + 8..o + 40] == HashOf(c.password, salt)
  {
    var h := HashOf(c.password, salt);
    StringRoundTrip(c.name, salt + h);
    PutLength(c.name);
    assert PutString(c.name) + (salt + h) == PutString(c.name) + salt + h;
    hide PutString, GetString, HashOf;
    SliceMid(PutString(c.name), salt, h);
  }

  lemma {:induction false} RegisterStep(s: Server, m: Message, drawn: Challenge, name: seq<byte>, salt: seq<byte>, hash: seq<byte>)
    requires s.phase.Auth? && !s.active && s.outbox == [] && m.kind == REGISTER_REQUEST
    requires Lookup(s.users, name).None? && |m.payload| >= 2 && GetString(m.payload, 0).Some?
    requires var (n, o) := GetString(m.payload, 0).value;
             n == name && |m.payload| == o + 40 && m.payload[o..o + 8] == salt && m.payload[o + 8..o + 40] == hash
    ensures var t := Step(s, Arrival(m, drawn, map[]));
            t.active && t.outbox == [Message(REGISTER_RESPONSE, [0])] && t.file == TableFile(s.users + [User(name, salt, hash)])
  {
    hide GetString, Lookup, SessionKey, TableFile;
  }

  lemma {:induction false} TakesRegistered(c: Client, r: Message, salt: seq<byte>)
    requires c.phase.WaitRegister? && r == Message(REGISTER_RESPONSE, [0])
    ensures Take(c, r, salt).active
  {
    hide SessionKey;
  }

  /** A new name is registered with the salt and hash that the client sent, and both sides are in. */
  lemma {:induction false} RegisterExchange(z: System, drawn: Challenge, salt: seq<byte>)
    requires z.client.phase.WaitRegister? && z.server.phase.Auth? && !z.server.active && z.server.outbox == [] && |z.client.name| < U16
    requires z.client.outbox == [Registration(z.client, salt)] && |salt| == 8
    requires Lookup(z.server.users, z.client.name).None?
    ensures var y := Exchange(z, drawn, salt);
            && y.client.active && y.server.active
            && y.server.file == TableFile(z.server.users + [User(z.client.name, salt, HashOf(z.client.password, salt))])
  {
    RegistrationParts(z.client, salt);
    var m := Registration(z.client, salt);
    var r := Message(REGISTER_RESPONSE, [0]);
    assert m.kind == REGISTER_REQUEST;
    hide PutString, GetString, HashOf, Lookup, SessionKey, TableFile, Exchange, Registration, Step;
    var s := Step(z.server, Arrival(m, drawn, map[]));
    RegisterStep(z.server, m, drawn, z.client.name, salt, HashOf(z.client.password, salt));
    TakesRegistered(z.client.(outbox := []), r, salt);
    hide Take;
    OneExchange(z, drawn, salt, m, s, r);
  }

  /** A backup client with a new name gets in by registering. */
  lemma {:induction false} NewUserGetsIn(name: seq<byte>, password: seq<byte>, w: World, drawn: Challenge, salt: seq<byte>)
    requires |name| < U16 && |salt| == 8 && Lookup(Loaded(w.file), name).None?
    ensures var z := Exchange(Exchange(Exchange(Connected(name, password, true, w), drawn, salt), drawn, salt), drawn, salt);
            && z.client.active && z.server.active
            && z.server.file == TableFile(Loaded(w.file) + [User(name, salt, HashOf(password, salt))])
  {
    hide Exchange, Loaded, Lookup, HashOf, PutString, BE, TableFile;
    Greeting(name, password, true, w, drawn, salt);
    var z1 := Exchange(Connected(name, password, true, w), drawn, salt);
    RefusedExchange(z1, drawn, salt);
    var z2 := Exchange(z1, drawn, salt);
    RegisterExchange(z2, drawn, salt);
  }

  /** Who registered can log in with the same password after any later sessions, and with another one
      only if it hashes to the same bytes. */
  lemma {:induction false} RegisteredLogsIn(name: seq<byte>, password: seq<byte>, again: seq<byte>, w: World, drawn: Challenge, salt: seq<byte>,
                                            sessions: seq<seq<Arrival>>, drawn': Challenge, salt': seq<byte>)
    requires |name| < U16 && |salt| == 8 && Lookup(Loaded(w.file), name).None?
    requires DistinctNames(Loaded(w.file)) && |Loaded(w.file)| + |sessions| + 1 < U32
    ensures var z := Exchange(Exchange(Exchange(Connected(name, password, true, w), drawn, salt), drawn, salt), drawn, salt);
            var w' := Serve(Disk(z.server), sessions);
            var y := Exchange(Exchange(Exchange(Connected(name, again, false, w'), drawn', salt'), drawn', salt'), drawn', salt');
            && (y.client.active <==> HashOf(again, salt) == HashOf(password, salt))
            && (y.client.active <==> PasswordDigest(again) == PasswordDigest(password))
            && (OneApart(again, password) ==> !y.client.active)
  {
    var z := Exchange(Exchange(Exchange(Connected(name, password, true, w), drawn, salt), drawn, salt), drawn, salt);
    var u := User(name, salt, HashOf(password, salt));
    NewUserGetsIn(name, password, w, drawn, salt);
    EntryAppended(w, u);
    PasswordSame(again, password, salt, salt);
    hide Exchange, HashOf, Connected, Serve, Loaded, Lookup, TableFile, DistinctNames, PasswordDigest, OneApart;
    var v := Disk(z.server);
    AccountStays(v, sessions, name);
    LoginIff(name, again, false, Serve(v, sessions), drawn', salt', u);
  }

  /** A failing input: who registers with "ai" is let in with "cc". */
  lemma {:induction false} OtherPasswordGetsIn(name: seq<byte>, w: World, drawn: Challenge, salt: seq<byte>,
                                               sessions: seq<seq<Arrival>>, drawn': Challenge, salt': seq<byte>)
    requires |name| < U16 && |salt| == 8 && Lookup(Loaded(w.file), name).None?
    requires DistinctNames(Loaded(w.file)) && |Loaded(w.file)| + |sessions| + 1 < U32
    ensures var z := Exchange(Exchange(Exchange(Connected(name, [97, 105], true, w), drawn, salt), drawn, salt), drawn, salt);
            var w' := Serve(Disk(z.server), sessions);
            Exchange(Exchange(Exchange(Connected(name, [99, 99], false, w'), drawn', salt'), drawn', salt'), drawn', salt').client.active
  {
    hide Exchange, Connected, Loaded, Lookup, HashOf, PasswordDigest, OneApart, Serve, DistinctNames;
    RegisteredLogsIn(name, [97, 105], [99, 99], w, drawn, salt, sessions, drawn', salt');
    SameDigest();
  }

  lemma {:induction false} EntryAppended(w: World, u: User)
    requires DistinctNames(Loaded(w.file)) && Lookup(Loaded(w.file), u.name).None? && |Loaded(w.file)| + 1 < U32 && Users.Storable(u)
    ensures var file := TableFile(Loaded(w.file) + [u]);
            Loaded(file) == Loaded(w.file) + [u] && DistinctNames(Loaded(file)) && Lookup(Loaded(file), u.name) == Some(u)
  {
    FreshSafe(w);
    SafeEntries(w);
    hide Loaded, TableFile, Lookup, DistinctNames;
    AppendedTable(Loaded(w.file), u);
  }

  lemma {:induction false} SafeEntries(w: World)
    requires Safe(Fresh(w.file, w.store))
    ensures forall v :: v in Loaded(w.file) ==> Users.Storable(v)
  {
    hide Loaded, DistinctNames, Users.Storable;
  }

  // ----- the greeting -----

  /** A hello of this version, or one too short to name a version. */
  predicate GoodHello(m: Message) {
    m.kind == CLIENT_HELLO && (|m.payload| >= 2 ==> FromBE(m.payload[..2]) == PROTOCOL_VERSION)
  }

  /** Only a good hello is answered with a challenge; anything else, a lost connection included, with an error. */
  lemma {:induction false} HelloDecides(s: Server, a: Arrival)
    requires s.phase.Hello? && !s.active
    ensures var t := Step(s, a);
            && t.store == s.store && t.file == s.file && t.authenticated == s.authenticated && |t.outbox| == |s.outbox| + 1
            && t.phase == (if GoodHello(a.message) then Auth else Closed)
            && t.outbox[|s.outbox|].kind == (if GoodHello(a.message) then SERVER_HELLO else ERROR_MESSAGE)
  {
    hide BE, FromBE, PutString;
  }

  /** A session that does not begin with a good hello says one error message, and nothing that arrives
      after it has any effect. */
  lemma {:induction false} NoHelloNoSession(w: World, arrivals: seq<Arrival>)
    requires arrivals != [] && !GoodHello(arrivals[0].message)
    ensures var t := Run(Fresh(w.file, w.store), arrivals);
            && t.phase == Closed && !t.authenticated && t.store == w.store && t.file == w.file
            && |t.outbox| == 1 && t.outbox[0].kind == ERROR_MESSAGE
  {
    var s := Fresh(w.file, w.store);
    HelloDecides(s, arrivals[0]);
    hide Step, Loaded, GoodHello;
    SessionRun.RunStops(Step(s, arrivals[0]), arrivals[1..]);
  }

  /** Before login a session is closed by a lost connection or a logout, silently, and by nothing else; a message
      other than these, a login or a registration is turned away with an error, and nothing else changes. */
  lemma {:induction false} TurnedAway(s: Server, a: Arrival)
    requires s.phase.Auth? && !s.active
    ensures var k, t := a.message.kind, Step(s, a);
            && (t.phase.Closed? <==> k == 0 || k == LOGOUT) && (t.phase.Closed? ==> t == At(s, Closed))
            && (k !in {0, LOGOUT, LOGIN_REQUEST, REGISTER_REQUEST} ==>
                  t == s.(outbox := s.outbox + [ErrorText(NOT_LOGGED_IN, Ascii("Please login or register first."))]))
  {
    hide GetString, Lookup, SessionKey, TableFile, ErrorText;
  }
}
