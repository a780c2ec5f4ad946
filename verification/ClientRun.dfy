/** The backup and restore clients as objects over their connection.
    They are proved against the client machine in Lockstep, and a restore against what it hears. */
module ClientRun {
  import opened Bytes
  import opened Wire
  import opened Messages
  import opened Transport
  import opened Users
  import opened Lockstep
  import opened BackupList

  // ----- entering, as one function of what arrives -----

  /** NOTHING once the connection is lost. */
  function First(inbox: seq<Message>): Message {
    if inbox == [] then NOTHING else inbox[0]
  }

  function Rest(inbox: seq<Message>): seq<Message> {
    if inbox == [] then [] else inbox[1..]
  }

  function Rank(p: ClientPhase): nat {
    match p
    case WaitHello => 4
    case WaitSalt => 3
    case WaitLogin => 2
    case WaitRegister => 1
    case _ => 0
  }

  /** Messages are taken until the client is in or has failed. */
  function GetIn(c: Client, inbox: seq<Message>, salt: seq<byte>): Client
    decreases Rank(c.phase)
  {
    if !Waiting(c) then c else GetIn(Take(c, First(inbox), salt), Rest(inbox), salt)
  }

  lemma {:induction false} GetInStep(c: Client, inbox: seq<Message>, salt: seq<byte>)
    ensures GetIn(c, inbox, salt) == if Waiting(c) then GetIn(Take(c, First(inbox), salt), Rest(inbox), salt) else c
  {
  }

  // ----- what a restore collects -----

  /** Broken stands for a file message whose lengths reach past its end. */
  datatype Fetch = Lost | Refused | Broken | Got(whole: seq<byte>)

  datatype Progress = More(whole: seq<byte>) | Done(result: Fetch)

  /** One plain message of the receive loop. */
  function Taken(m: Message, whole: seq<byte>): Progress {
    if m.kind == 0 then Done(Lost)
    else if m.kind == RESTORE_COMPLETE then Done(if whole == [] then Lost else Got(whole))
    else if m.kind == ERROR_MESSAGE then Done(Refused)
    else if (m.kind == RESTORE_FILE_DATA || m.kind == FILE_DATA) && |m.payload| >= 10 then
      match ParsedFile(m.payload)
      case None => Done(Broken)
      case Some((path, data)) => More(if path == BAK then data else whole)
    else More(whole)
  }

  /** The receive loop of a restore over the plain messages that arrive. */
  function Fetched(ms: seq<Message>, whole: seq<byte>): Fetch
    decreases |ms|
  {
    if ms == [] then Lost else
      match Taken(ms[0], whole)
      case Done(r) => r
      case More(next) => Fetched(ms[1..], next)
  }

  // ----- what a list shows -----

  /** Unexpected: another answer, or none.  Overrun: a read past the end of the answer. */
  datatype ListResult = Unexpected | Overrun | Lines(lines: seq<Line>)

  function ShownOf(m: Message): ListResult {
    if m.kind != BACKUP_LIST_RESPONSE then Unexpected else
      match ReadList(m.payload)
      case None => Overrun
      case Some(lines) => Lines(lines)
  }

  /** What a list shows, given the plain messages that have arrived. */
  function Shown(ms: seq<Message>): ListResult {
    ShownOf(First(ms))
  }

  // ----- the object -----

  class NetworkClient {
    var inbox: seq<Message>
    var outbox: seq<Message>
    const username: seq<byte>
    const password: seq<byte>
    /** A backup client registers when its login fails, a restore client gives up. */
    const registers: bool
    const encryptor: TransportEncryptor
    var sendSeq: word64
    var recvSeq: word64
    var serverChallenge: seq<byte>
    ghost var phase: ClientPhase
    ghost var said: seq<Message>
    ghost var heard: seq<Message>

    ghost function Now(): Client
      reads this, encryptor
    {
      Client(phase, username, password, registers, encryptor.active, encryptor.sessionKey, sendSeq, recvSeq,
             serverChallenge, outbox, said, heard)
    }

    constructor (inbox: seq<Message>, username: seq<byte>, password: seq<byte>, registers: bool)
      ensures this.inbox == inbox && fresh(encryptor) && !encryptor.active
      ensures Now().(outbox := [HELLO]) == Started(username, password, registers) && outbox == []
    {
      this.inbox, outbox := inbox, [];
      this.username, this.password, this.registers := username, password, registers;
      encryptor := new TransportEncryptor();
      sendSeq, recvSeq, serverChallenge := 0, 0, [];
      phase, said, heard := WaitHello, [], [];
    }

    method SendEncrypted(m: Message)
      modifies this`outbox, this`sendSeq, this`said
      ensures Now() == old(if encryptor.active then Say(Now(), m) else Raw(Now(), m, phase))
    {
      hide Sealed;
      var payload := m.payload;
      if encryptor.active {
        payload := encryptor.Encrypt(m.payload, sendSeq);
        sendSeq := (sendSeq + 1) % U64;
        said := said + [m];
      }
      outbox := outbox + [Message(m.kind, payload)];
    }

    method ReceiveEncrypted() returns (m: Message)
      modifies this`inbox, this`recvSeq, this`heard
      ensures inbox == Rest(old(inbox))
      ensures Now() == old(if encryptor.active then Hear(Now(), First(inbox)) else Now())
      ensures m == old(if encryptor.active && First(inbox).kind != 0
                       then Message(First(inbox).kind, Sealed(encryptor.sessionKey, First(inbox).payload, recvSeq)) else First(inbox))
    {
      hide Sealed;
      m := First(inbox);
      inbox := Rest(inbox);
      if m.kind != 0 && encryptor.active {
        var plain := encryptor.Encrypt(m.payload, recvSeq);
        m := Message(m.kind, plain);
        recvSeq := (recvSeq + 1) % U64;
        heard := heard + [m];
      }
    }

    // ----- handshake, login, registration -----

    /** What is left after a handshake is the login request and the rest of the entry. */
    method DoHandshake(ghost salt: seq<byte>) returns (ok: bool)
      requires !encryptor.active && phase.WaitHello?
      modifies this
      ensures !encryptor.active
      ensures if ok then GetIn(LoginSent(Now()), inbox, salt) == old(GetIn(Raw(Now(), HELLO, phase), inbox, salt))
              else old(GetIn(Raw(Now(), HELLO, phase), inbox, salt)) == Now() && phase.Failed?
    {
      hide BE, PutString, HashOf, SessionKey;
      SendEncrypted(Message(CLIENT_HELLO, BE(PROTOCOL_VERSION, 2)));
      var resp := ReceiveEncrypted();
      if resp.kind != SERVER_HELLO {
        phase := Failed;
        return false;
      }
      if |resp.payload| >= 10 {
        serverChallenge := resp.payload[2..];
      }
      ok := true;
    }

    /** True when the client is in; otherwise what is left is what follows a failed login. */
    method DoLogin(ghost salt: seq<byte>) returns (ok: bool)
      requires !encryptor.active
      modifies this, encryptor
      ensures ok ==> Now() == old(GetIn(LoginSent(Now()), inbox, salt)) && Now().phase.Active?
      ensures !ok ==> !encryptor.active && GetIn(LoginFailed(Now(), salt), inbox, salt) == old(GetIn(LoginSent(Now()), inbox, salt))
    {
      hide PutString, SessionKey, HashOf, Registration, GetIn;
      SendEncrypted(Message(LOGIN_REQUEST, PutString(username)));
      phase := WaitSalt;
      GetInStep(Now(), inbox, salt);
      var saltMsg := ReceiveEncrypted();
      if saltMsg.kind != LOGIN_SALT {
        return false;
      }
      var computedHash := ComputeHash(password, saltMsg.payload);
      SendEncrypted(Message(LOGIN_PROOF, computedHash));
      phase := WaitLogin;
      GetInStep(Now(), inbox, salt);
      var resp := ReceiveEncrypted();
      if resp.kind != LOGIN_RESPONSE || resp.payload == [] || resp.payload[0] != 0 {
        return false;
      }
      encryptor.InitSession(username, serverChallenge);
      phase := Active;
      GetInStep(Now(), inbox, salt);
      ok := true;
    }

    method DoRegister(salt: seq<byte>) returns (ok: bool)
      requires !encryptor.active && registers
      modifies this, encryptor
      ensures Now() == old(GetIn(LoginFailed(Now(), salt), inbox, salt))
      ensures if ok then phase.Active? else phase.Failed?
    {
      hide PutString, SessionKey, HashOf;
      var pwHash := ComputeHash(password, salt);
      SendEncrypted(Message(REGISTER_REQUEST, PutString(username) + salt + pwHash));
      phase := WaitRegister;
      var resp := ReceiveEncrypted();
      if resp.kind != REGISTER_RESPONSE || resp.payload == [] || resp.payload[0] != 0 {
        phase := Failed;
        return false;
      }
      encryptor.InitSession(username, serverChallenge);
      phase := Active;
      ok := true;
    }

    /** Handshake, login, and for a backup client registration if login fails. */
    method Connect(salt: seq<byte>) returns (ok: bool)
      requires !encryptor.active && phase.WaitHello?
      modifies this, encryptor
      ensures Now() == old(GetIn(Raw(Now(), HELLO, phase), inbox, salt))
      ensures if ok then phase.Active? else phase.Failed?
    {
      hide GetIn, LoginFailed, PutString, SessionKey, HashOf;
      ok := DoHandshake(salt);
      if !ok {
        return;
      }
      ok := DoLogin(salt);
      if ok {
        return;
      }
      if registers {
        ok := DoRegister(salt);
      } else {
        phase := Failed;
        NoFallback(old(Now()), Now(), inbox, salt);
      }
    }

    // ----- upload -----

    /** The name if there is one, the file, its metadata and the end marker, sealed in this order. */
    method Upload(backupName: seq<byte>, wholeBak: seq<byte>, metaBytes: seq<byte>)
      requires phase.Active? && encryptor.active
      modifies this`outbox, this`sendSeq, this`said
      ensures Now() == SayAll(old(Now()), NameMessage(backupName) + UploadMessages(wholeBak, metaBytes))
    {
      hide Say, PutString, FilePayload;
      ghost var before := Now();
      if backupName != [] {
        SendEncrypted(Message(BACKUP_START, PutString(backupName)));
      }
      ghost var named := Now();
      SendEncrypted(Message(FILE_DATA, FilePayload(BAK_PAYLOAD, wholeBak)));
      SendEncrypted(Message(FILE_DATA, FilePayload(BAK_METADATA, metaBytes)));
      SendEncrypted(Message(BACKUP_COMPLETE, []));
      ThreeSaid(named, UploadMessages(wholeBak, metaBytes));
      NameSaid(before, backupName, UploadMessages(wholeBak, metaBytes));
    }

    // ----- list -----

    /** The request, then one message; its lines are read one after the other. */
    method ListBackups() returns (r: ListResult)
      requires phase.Active? && encryptor.active
      modifies this`inbox, this`outbox, this`sendSeq, this`recvSeq, this`said, this`heard
      ensures said == old(said) + [Message(BACKUP_LIST_REQUEST, [])]
      ensures old(heard) <= heard && r == Shown(heard[|old(heard)|..])
    {
      hide Sealed, ReadList;
      SendEncrypted(Message(BACKUP_LIST_REQUEST, []));
      var resp := ReceiveEncrypted();
      assert First(heard[|old(heard)|..]) == resp || (resp.kind == 0 && heard == old(heard));
      if resp.kind != BACKUP_LIST_RESPONSE {
        return Unexpected;
      }
      r := ReadBackups(resp.payload);
    }

    method ReadBackups(payload: seq<byte>) returns (r: ListResult)
      ensures r == match ReadList(payload) case None => Overrun case Some(lines) => Lines(lines)
    {
      hide ReadLine;
      if |payload| < 4 {
        return Overrun;
      }
      var off, count := 4, FromBE(payload[..4]);
      var lines := [];
      assert Onto([], ReadLines(payload, off, count)) == ReadLines(payload, off, count) by { NothingOnto(ReadLines(payload, off, count)); }
      for i := 0 to count
        invariant ReadList(payload) == Onto(lines, ReadLines(payload, off, count - i))
      {
        LineNext(payload, lines, off, count - i);
        var line := ReadLine(payload, off);
        if line.None? {
          return Overrun;
        }
        lines := lines + [line.value.0];
        off := line.value.1;
      }
      assert lines + [] == lines;
      r := Lines(lines);
    }

    // ----- restore -----

    method TakeMessage(m: Message, wholeBak: seq<byte>) returns (p: Progress)
      ensures p == Taken(m, wholeBak)
    {
      hide ParsedFile, BAK;
      if m.kind == 0 {
        return Done(Lost);
      }
      if m.kind == RESTORE_COMPLETE {
        return Done(if wholeBak == [] then Lost else Got(wholeBak));
      }
      if m.kind == ERROR_MESSAGE {
        return Done(Refused);
      }
      p := More(wholeBak);
      if (m.kind == RESTORE_FILE_DATA || m.kind == FILE_DATA) && |m.payload| >= 10 {
        var file := ParsedFile(m.payload);
        if file.None? {
          return Done(Broken);
        }
        if file.value.0 == BAK {
          p := More(file.value.1);
        }
      }
    }

    /** The request, then messages until the end marker, an error or a lost connection: what comes out is
        what the plain messages heard since say. */
    method Restore(backupId: seq<byte>) returns (r: Fetch)
      requires phase.Active? && encryptor.active
      modifies this`inbox, this`outbox, this`sendSeq, this`recvSeq, this`said, this`heard
      ensures said == old(said) + [Message(RESTORE_REQUEST, PutString(backupId))]
      ensures old(heard) <= heard && Fetched(heard[|old(heard)|..], []) == r
    {
      hide PutString, Sealed, Taken, Fetched, Collected;
      SendEncrypted(Message(RESTORE_REQUEST, PutString(backupId)));
      var wholeBak := [];
      ghost var start := |heard|;
      CollectedStart();
      assert heard[start..] == [];
      while true
        invariant encryptor.active && old(heard) <= heard && Collected(heard[start..], wholeBak)
        invariant said == old(said) + [Message(RESTORE_REQUEST, PutString(backupId))]
        decreases |inbox|
      {
        ghost var seen := heard[start..];
        var msg := ReceiveEncrypted();
        if msg.kind == 0 {
          CollectedEnd(seen, wholeBak);
          return Lost;
        }
        assert heard[start..] == seen + [msg];
        var p := TakeMessage(msg, wholeBak);
        CollectedNext(seen, msg, wholeBak, p);
        if p.Done? {
          return p.result;
        }
        wholeBak := p.whole;
      }
    }
  }

  lemma {:induction false} LineNext(data: seq<byte>, lines: seq<Line>, offset: nat, left: nat)
    requires left > 0
    ensures var r := ReadLine(data, offset);
            Onto(lines, ReadLines(data, offset, left)) ==
            if r.None? then None else Onto(lines + [r.value.0], ReadLines(data, r.value.1, left - 1))
  {
    hide ReadLine;
    var r := ReadLine(data, offset);
    if r.Some? && ReadLines(data, r.value.1, left - 1).Some? {
      var rest := ReadLines(data, r.value.1, left - 1).value;
      assert lines + ([r.value.0] + rest) == lines + [r.value.0] + rest;
    }
  }

  lemma {:induction false} NothingOnto(rest: Option<seq<Line>>)
    ensures Onto([], rest) == rest
  {
    if rest.Some? {
      assert [] + rest.value == rest.value;
    }
  }

  /** Lines read already, in front of those still to come. */
  function Onto(lines: seq<Line>, rest: Option<seq<Line>>): Option<seq<Line>> {
    if rest.None? then None else Some(lines + rest.value)
  }

  /** What is seen so far leaves the loop with these bytes, whatever follows. */
  ghost predicate Collected(seen: seq<Message>, whole: seq<byte>) {
    forall tail: seq<Message> :: Fetched(seen + tail, []) == Fetched(tail, whole)
  }

  lemma {:induction false} CollectedStart()
    ensures Collected([], [])
  {
    hide Fetched;
    forall tail: seq<Message> ensures Fetched([] + tail, []) == Fetched(tail, []) {
      assert [] + tail == tail;
    }
  }

  lemma {:induction false} CollectedEnd(seen: seq<Message>, whole: seq<byte>)
    requires Collected(seen, whole)
    ensures Fetched(seen, []) == Lost
  {
    assert seen + [] == seen;
    assert Fetched([], whole) == Lost;
  }

  lemma {:induction false} CollectedNext(seen: seq<Message>, m: Message, whole: seq<byte>, p: Progress)
    requires Collected(seen, whole) && p == Taken(m, whole)
    ensures p.Done? ==> Fetched(seen + [m], []) == p.result
    ensures p.More? ==> Collected(seen + [m], p.whole)
  {
    hide Taken, Fetched;
    forall tail: seq<Message>
      ensures Fetched(seen + [m] + tail, []) == if p.Done? then p.result else Fetched(tail, p.whole)
    {
      assert seen + [m] + tail == seen + ([m] + tail);
      TakenFirst(m, tail, whole);
    }
    assert seen + [m] + [] == seen + [m];
  }

  lemma {:induction false} TakenFirst(m: Message, tail: seq<Message>, whole: seq<byte>)
    ensures var p := Taken(m, whole);
            Fetched([m] + tail, whole) == if p.Done? then p.result else Fetched(tail, p.whole)
  {
    hide Taken;
    assert ([m] + tail)[0] == m && ([m] + tail)[1..] == tail;
  }

  function SayAll(c: Client, ms: seq<Message>): Client
    decreases |ms|
  {
    if ms == [] then c else SayAll(Say(c, ms[0]), ms[1..])
  }

  function NameMessage(backupName: seq<byte>): seq<Message> {
    if backupName == [] then [] else [Message(BACKUP_START, PutString(backupName))]
  }

  lemma {:induction false} ThreeSaid(c: Client, ms: seq<Message>)
    requires |ms| == 3
    ensures SayAll(c, ms) == Say(Say(Say(c, ms[0]), ms[1]), ms[2])
  {
    hide Say;
    var c1 := Say(c, ms[0]);
    var c2 := Say(c1, ms[1]);
    assert ms[1..][1..] == ms[2..] && ms[2..][1..] == [];
    assert SayAll(c2, ms[2..]) == SayAll(Say(c2, ms[2]), []);
    assert SayAll(c1, ms[1..]) == SayAll(c2, ms[2..]);
  }

  lemma {:induction false} NameSaid(c: Client, backupName: seq<byte>, ms: seq<Message>)
    ensures SayAll(c, NameMessage(backupName) + ms)
         == if backupName == [] then SayAll(c, ms) else SayAll(Say(c, Message(BACKUP_START, PutString(backupName))), ms)
  {
    hide Say, PutString;
    if backupName == [] {
      assert [] + ms == ms;
    } else {
      var m := Message(BACKUP_START, PutString(backupName));
      assert ([m] + ms)[1..] == ms;
    }
  }

  function LoginSent(c: Client): Client {
    Raw(c, Message(LOGIN_REQUEST, PutString(c.name)), WaitSalt)
  }

  lemma {:induction false} NoFallback(before: Client, c: Client, inbox: seq<Message>, salt: seq<byte>)
    requires !c.registers && c.phase.Failed?
    ensures GetIn(c, inbox, salt) == c
    ensures forall p :: LoginFailed(c.(phase := p), salt) == c
  {
  }
}
