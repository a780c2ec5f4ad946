/** The session as the server runs it: an object whose methods read and write the socket.
    Each method leaves the rest of the run as the machine in Session has it, and so does the whole
    session. */
module SessionRun {
  import opened Bytes
  import opened Wire
  import opened Messages
  import opened Transport
  import opened Users
  import opened BackupIds
  import opened Storage
  import opened Session
  import Metadata

  // ----- the machine's runs -----

  lemma {:induction false} RunStops(s: Server, arrivals: seq<Arrival>)
    ensures s.phase.Closed? || s.phase.Undefined? ==> Run(s, arrivals) == s
    decreases |arrivals|
  {
    if arrivals != [] && (s.phase.Closed? || s.phase.Undefined?) {
      RunStops(s, arrivals[1..]);
    }
  }

  lemma {:induction false} RunNext(s: Server, arrivals: seq<Arrival>)
    requires Run(s, arrivals).phase.Closed? && !s.phase.Closed?
    ensures arrivals != [] && Run(s, arrivals) == Run(Step(s, arrivals[0]), arrivals[1..])
  {
  }

  lemma {:induction false} StepIsHandle(s: Server, a: Arrival)
    requires !s.phase.Hello? && !s.phase.Closed? && !s.phase.Undefined?
    ensures Step(s, a) == Handle(Received(s, a.message), Opened(s, a.message), a.stamps)
  {
    hide Handle, Received, Opened;
  }

  // ----- the object -----

  class ServerSession {
    /** What the socket will deliver, one arrival for each receive. */
    var inbox: seq<Arrival>
    var outbox: seq<Message>
    const storage: ServerStorage
    const userMgr: UserManager
    const encryptor: TransportEncryptor
    var currentUser: seq<byte>
    var authenticated: bool
    var sendSeq: word64
    var recvSeq: word64
    var serverChallenge: seq<byte>
    /** Which receive the control is at. */
    ghost var phase: Phase
    ghost var said: seq<Message>
    ghost var heard: seq<Message>

    ghost function Now(): Server
      reads this, storage, userMgr, encryptor
    {
      Server(phase, userMgr.users, userMgr.file, storage.store, authenticated, currentUser,
             encryptor.active, encryptor.sessionKey, sendSeq, recvSeq, serverChallenge, outbox, said, heard)
    }

    constructor (arrivals: seq<Arrival>, storage: ServerStorage, userMgr: UserManager)
      requires userMgr.users == Loaded(userMgr.file)
      ensures this.storage == storage && this.userMgr == userMgr && fresh(encryptor)
      ensures inbox == arrivals && Now() == Fresh(userMgr.file, storage.store)
    {
      inbox, outbox := arrivals, [];
      this.storage, this.userMgr := storage, userMgr;
      encryptor := new TransportEncryptor();
      currentUser, authenticated := [], false;
      sendSeq, recvSeq, serverChallenge := 0, 0, [];
      phase, said, heard := Hello, [], [];
    }

    // ----- sending and receiving -----

    method SendMessage(m: Message)
      modifies this`outbox
      ensures Now() == Send(old(Now()), m)
    {
      outbox := outbox + [m];
    }

    method SendEncrypted(m: Message)
      modifies this`outbox, this`sendSeq, this`said
      ensures Now() == SendSealed(old(Now()), m)
    {
      hide Sealed;
      var payload := m.payload;
      if encryptor.active {
        payload := encryptor.Encrypt(m.payload, sendSeq);
        sendSeq := (sendSeq + 1) % U64;
        said := said + [m];
      }
      SendMessage(Message(m.kind, payload));
    }

    method SendErrorMessage(code: nat, text: seq<byte>)
      modifies this`outbox, this`sendSeq, this`said
      ensures Now() == SendError(old(Now()), code, text)
    {
      hide SendSealed;
      SendEncrypted(Message(ERROR_MESSAGE, BE(code, 2) + PutString(text)));
    }

    method SendResponse(kind: nat, status: byte)
      modifies this`outbox
      ensures Now() == Send(old(Now()), Message(kind, [status]))
    {
      SendMessage(Message(kind, [status]));
    }

    method ReceiveMessage() returns (a: Arrival)
      requires inbox != []
      modifies this`inbox
      ensures a == old(inbox[0]) && inbox == old(inbox[1..])
    {
      a := inbox[0];
      inbox := inbox[1..];
    }

    method ReceiveEncrypted() returns (m: Message, a: Arrival)
      requires inbox != []
      modifies this`inbox, this`recvSeq, this`heard
      ensures a == old(inbox[0]) && inbox == old(inbox[1..])
      ensures m == Opened(old(Now()), a.message) && Now() == Received(old(Now()), a.message)
    {
      hide Sealed;
      ghost var before := Now();
      a := ReceiveMessage();
      m := a.message;
      if m.kind != 0 && encryptor.active {
        var plain := encryptor.Encrypt(m.payload, recvSeq);
        m := Message(m.kind, plain);
        recvSeq := (recvSeq + 1) % U64;
        heard := heard + [m];
      }
      assert Now() == before.(recvSeq := recvSeq, heard := heard);
    }

    /** The next plain message: what is left to do is to handle it and then the rest. */
    method ReceiveNext() returns (m: Message, a: Arrival)
      requires Session.Run(Now(), inbox).phase.Closed? && !phase.Closed? && !phase.Hello?
      modifies this`inbox, this`recvSeq, this`heard
      ensures Session.Run(Handle(Now(), m, a.stamps), inbox) == old(Session.Run(Now(), inbox))
      ensures |inbox| < old(|inbox|)
    {
      hide Step, Handle, Received, Opened;
      RunStops(Now(), inbox);
      RunNext(Now(), inbox);
      StepIsHandle(Now(), inbox[0]);
      hide Session.Run;
      m, a := ReceiveEncrypted();
    }

    // ----- handshake -----

    method HandleHandshake() returns (ok: bool)
      requires phase.Hello? && Session.Run(Now(), inbox).phase.Closed?
      modifies this
      ensures Session.Run(Now(), inbox) == old(Session.Run(Now(), inbox))
      ensures if ok then phase.Auth? else phase.Closed?
      ensures authenticated == old(authenticated)
    {
      RunNext(Now(), inbox);
      assert Step(Now(), inbox[0]) == Session.HandleHandshake(Now(), inbox[0].message, inbox[0].drawn);
      hide Session.Run, Step, Session.HandleHandshake;
      var a := ReceiveMessage();
      ok := AnswerHello(a.message, a.drawn);
    }

    method AnswerHello(hello: Message, drawn: Challenge) returns (ok: bool)
      requires phase.Hello?
      modifies this`outbox, this`sendSeq, this`said, this`serverChallenge, this`phase
      ensures Now() == Session.HandleHandshake(old(Now()), hello, drawn)
      ensures if ok then phase.Auth? else phase.Closed?
    {
      hide SendSealed, BE, FromBE, ErrorText;
      if hello.kind != CLIENT_HELLO {
        SendErrorMessage(INCOMPATIBLE_VERSION, Ascii("Expected CLIENT_HELLO."));
        phase := Closed;
        return false;
      }
      if |hello.payload| >= 2 {
        var clientVer := FromBE(hello.payload[..2]);
        if clientVer != PROTOCOL_VERSION {
          SendErrorMessage(INCOMPATIBLE_VERSION, Ascii("Protocol version mismatch."));
          phase := Closed;
          return false;
        }
      }
      serverChallenge := drawn;
      SendMessage(Message(SERVER_HELLO, BE(PROTOCOL_VERSION, 2) + serverChallenge));
      phase := Auth;
      ok := true;
    }

    // ----- login and registration -----

    method HandleLogin(payload: seq<byte>)
      requires phase.Auth? && Session.Run(Session.HandleLogin(Now(), payload), inbox).phase.Closed? && !authenticated
      modifies this, encryptor
      ensures Session.Run(Now(), inbox) == old(Session.Run(Session.HandleLogin(Now(), payload), inbox))
      ensures if authenticated then phase.Ready? else phase.Auth?
      ensures |inbox| <= old(|inbox|)
    {
      hide Session.Run, SendSealed, GetString, Lookup, SessionKey, Sealed, ErrorText;
      RunStops(At(Now(), Undefined), inbox);
      if |payload| < 2 {
        SendErrorMessage(INVALID_MESSAGE, Ascii("Invalid LOGIN_REQUEST."));
        return;
      }
      var (name, _) := GetString(payload, 0).value;
      var u := userMgr.GetUserHash(name);
      if u.None? {
        SendResponse(LOGIN_RESPONSE, 1);
        return;
      }
      SendMessage(Message(LOGIN_SALT, u.value.salt));
      phase := AwaitProof(name, u.value.hash);
      ReceiveProof(name, u.value.hash);
    }

    /** The second half of handleLogin: the proof is received and compared. */
    method ReceiveProof(name: seq<byte>, hash: seq<byte>)
      requires phase == AwaitProof(name, hash) && Session.Run(Now(), inbox).phase.Closed? && !authenticated
      modifies this, encryptor
      ensures Session.Run(Now(), inbox) == old(Session.Run(Now(), inbox))
      ensures if authenticated then phase.Ready? else phase.Auth?
      ensures |inbox| <= old(|inbox|)
    {
      hide Session.Run, SendSealed, SessionKey, Sealed, ErrorText, HandleAuth, HandleCommand, BeginBackup, HandleData;
      var proofMsg, a := ReceiveNext();
      assert Handle(Now(), proofMsg, a.stamps) == HandleProof(Now(), name, hash, proofMsg);
      hide Handle;
      if proofMsg.kind == 0 || |proofMsg.payload| < 32 {
        SendErrorMessage(INVALID_MESSAGE, Ascii("Invalid login proof."));
        phase := Auth;
        return;
      }
      var clientHash := proofMsg.payload[..32];
      if clientHash == hash {
        encryptor.InitSession(name, serverChallenge);
        currentUser := name;
        authenticated := true;
        SendResponse(LOGIN_RESPONSE, 0);
        phase := Ready;
      } else {
        SendResponse(LOGIN_RESPONSE, 1);
        phase := Auth;
      }
    }

    method HandleRegister(payload: seq<byte>)
      requires phase.Auth? && !Session.HandleRegister(Now(), payload).phase.Undefined? && !authenticated
      modifies this`outbox, this`sendSeq, this`said, this`currentUser, this`authenticated, this`phase, userMgr, encryptor
      ensures Now() == old(Session.HandleRegister(Now(), payload))
      ensures if authenticated then phase.Ready? else phase.Auth?
    {
      hide SendSealed, GetString, Lookup, SessionKey, TableFile, ErrorText;
      if |payload| < 2 {
        SendErrorMessage(INVALID_MESSAGE, Ascii("Invalid REGISTER_REQUEST."));
        assert phase == Auth;
        return;
      }
      var (name, off) := GetString(payload, 0).value;
      if |payload| - off < 40 {
        SendErrorMessage(INVALID_MESSAGE, Ascii("Invalid REGISTER_REQUEST payload."));
        return;
      }
      var salt := payload[off..off + 8];
      off := off + 8;
      var pwHash := payload[off..off + 32];
      var registered := userMgr.RegisterUserRaw(name, salt, pwHash);
      if !registered {
        SendResponse(REGISTER_RESPONSE, 1);
        return;
      }
      encryptor.InitSession(name, serverChallenge);
      currentUser := name;
      authenticated := true;
      SendResponse(REGISTER_RESPONSE, 0);
      phase := Ready;
    }

    // ----- backup -----

    /** The name check of a BACKUP_START: refused, or the session waits for the first message. */
    method StartBackup(msg: Message) returns (free: bool, customName: seq<byte>)
      requires phase.Ready? && msg.kind == BACKUP_START && !Session.HandleBackup(Now(), msg).phase.Undefined?
      modifies this`outbox, this`sendSeq, this`said, this`phase
      ensures Now() == old(Session.HandleBackup(Now(), msg))
      ensures if free then phase == AwaitData(customName) else phase.Ready?
    {
      hide SendSealed, GetString, ErrorText, NameTaken;
      customName := [];
      if |msg.payload| >= 2 {
        customName := GetString(msg.payload, 0).value.0;
      }
      if customName != [] {
        var taken := IsTaken(customName);
        if taken {
          SendErrorMessage(NAME_EXISTS, Ascii("Backup name '") + customName + Ascii("' already exists. Please use a different name."));
          return false, customName;
        }
      }
      phase := AwaitData(customName);
      free := true;
    }

    method IsTaken(customName: seq<byte>) returns (taken: bool)
      ensures taken == NameTaken(Now(), customName)
    {
      var existingId := storage.FindBackupByName(currentUser, customName);
      taken := existingId != [];
    }

    method HandleBackup(firstMsg: Message) returns (ok: bool)
      requires phase.Ready? && firstMsg.kind != 0 && Session.Run(Session.HandleBackup(Now(), firstMsg), inbox).phase.Closed?
      modifies this, storage
      ensures Session.Run(Now(), inbox) == old(Session.Run(Session.HandleBackup(Now(), firstMsg), inbox))
      ensures if ok then phase.Ready? else phase.Closed?
      ensures |inbox| <= old(|inbox|)
    {
      RunStops(Session.HandleBackup(Now(), firstMsg), inbox);
      hide Session.Run, BeginBackup;
      var msg, customName := firstMsg, [];
      if msg.kind == BACKUP_START {
        var free;
        hide Session.HandleBackup;
        free, customName := StartBackup(msg);
        if !free {
          return true;
        }
        msg := AwaitFirst(customName);
        if msg.kind == 0 {
          RunStops(Now(), inbox);
          return false;
        }
      }
      ok := TakeBackup(customName, msg);
    }

    /** The wait for the first message after a BACKUP_START; the session ends if none comes. */
    method AwaitFirst(customName: seq<byte>) returns (msg: Message)
      requires phase == AwaitData(customName) && Session.Run(Now(), inbox).phase.Closed?
      modifies this`inbox, this`recvSeq, this`heard, this`phase
      ensures |inbox| < old(|inbox|)
      ensures msg.kind != 0 ==> phase == old(phase) && Session.Run(BeginBackup(Now(), customName, msg), inbox) == old(Session.Run(Now(), inbox))
      ensures msg.kind == 0 ==> phase.Closed? && Now() == old(Session.Run(Now(), inbox))
    {
      hide Session.Run, BeginBackup, HandleAuth, HandleProof, HandleCommand, HandleData;
      var a;
      msg, a := ReceiveNext();
      assert phase == AwaitData(customName);
      if msg.kind == 0 {
        phase := Closed;
        RunStops(Now(), inbox);
      }
    }

    method ReadFile(payload: seq<byte>) returns (path: seq<byte>, data: seq<byte>)
      requires ParsedFile(payload).Some?
      ensures ParsedFile(payload) == Some((path, data))
    {
      hide GetString, FromBE;
      var (p, off) := GetString(payload, 0).value;
      var dataLen := FromBE(payload[off..off + 8]);
      off := off + 8;
      path, data := p, payload[off..off + dataLen];
    }

    method CreateBackup(customName: seq<byte>, ghost msg: Message) returns (backupId: Id)
      requires !BeginBackup(Now(), customName, msg).phase.Undefined? || NextId(DirsOf(storage.store, currentUser)).Some?
      modifies storage, this`phase
      ensures phase == Receiving(backupId, customName, [], [])
      ensures HandleData(Now(), msg) == old(BeginBackup(Now(), customName, msg))
    {
      hide HandleData, NextId, CreatedStore, DirsOf;
      backupId := storage.CreateBackup(currentUser);
      phase := Receiving(backupId, customName, [], []);
    }

    /** One message of the receiving loop, the end marker excepted. */
    method TakeMessage(msg: Message, backupId: Id, customName: seq<byte>, whole: seq<byte>, meta: seq<byte>)
      returns (whole': seq<byte>, meta': seq<byte>)
      requires phase == Receiving(backupId, customName, whole, meta) && msg.kind != 0 && msg.kind != BACKUP_COMPLETE
      requires !HandleData(Now(), msg).phase.Undefined?
      modifies this`phase
      ensures phase == Receiving(backupId, customName, whole', meta') && Now() == old(HandleData(Now(), msg))
    {
      hide ParsedFile, BAK_PAYLOAD, BAK_METADATA;
      whole', meta' := whole, meta;
      if msg.kind == FILE_DATA {
        if |msg.payload| < 10 {
          return;
        }
        var path, fileData := ReadFile(msg.payload);
        if path == BAK_PAYLOAD {
          whole' := fileData;
        } else if path == BAK_METADATA {
          meta' := fileData;
        }
        phase := Receiving(backupId, customName, whole', meta');
      }
    }

    method TakeBackup(customName: seq<byte>, firstMsg: Message) returns (ok: bool)
      requires !phase.Closed? && !phase.Hello? && firstMsg.kind != 0
      requires Session.Run(BeginBackup(Now(), customName, firstMsg), inbox).phase.Closed?
      modifies this, storage
      ensures Session.Run(Now(), inbox) == old(Session.Run(BeginBackup(Now(), customName, firstMsg), inbox))
      ensures if ok then phase.Ready? else phase.Closed?
      ensures |inbox| <= old(|inbox|)
    {
      RunStops(BeginBackup(Now(), customName, firstMsg), inbox);
      hide Session.Run, BeginBackup, HandleData;
      ghost var target := Session.Run(BeginBackup(Now(), customName, firstMsg), inbox);
      var backupId := CreateBackup(customName, firstMsg);
      var wholeBak, metadataBytes := [], [];
      var msg, first := firstMsg, true;
      while true
        invariant phase == Receiving(backupId, customName, wholeBak, metadataBytes)
        invariant Session.Run(if first then HandleData(Now(), msg) else Now(), inbox) == target
        invariant first ==> msg.kind != 0
        invariant |inbox| <= old(|inbox|)
        decreases |inbox| + if first then 1 else 0
      {
        if !first {
          msg := AwaitMore(backupId, customName, wholeBak, metadataBytes);
          if msg.kind == 0 {
            RunStops(Now(), inbox);
            return false;
          }
        }
        first := false;
        if msg.kind == BACKUP_COMPLETE {
          break;
        }
        RunStops(HandleData(Now(), msg), inbox);
        wholeBak, metadataBytes := TakeMessage(msg, backupId, customName, wholeBak, metadataBytes);
      }
      SaveBackup(msg, backupId, customName, wholeBak, metadataBytes);
      ok := true;
    }

    method AwaitMore(backupId: Id, customName: seq<byte>, whole: seq<byte>, meta: seq<byte>) returns (msg: Message)
      requires phase == Receiving(backupId, customName, whole, meta) && Session.Run(Now(), inbox).phase.Closed?
      modifies this`inbox, this`recvSeq, this`heard, this`phase
      ensures |inbox| < old(|inbox|)
      ensures msg.kind != 0 ==> phase == old(phase) && Session.Run(HandleData(Now(), msg), inbox) == old(Session.Run(Now(), inbox))
      ensures msg.kind == 0 ==> phase.Closed? && Now() == old(Session.Run(Now(), inbox))
    {
      hide Session.Run, BeginBackup, HandleAuth, HandleProof, HandleCommand;
      var a;
      msg, a := ReceiveNext();
      assert phase == Receiving(backupId, customName, whole, meta);
      if msg.kind == 0 {
        phase := Closed;
        RunStops(Now(), inbox);
      }
    }

    /** The upload is written and acknowledged. */
    method SaveBackup(ghost msg: Message, backupId: Id, customName: seq<byte>, whole: seq<byte>, meta: seq<byte>)
      requires phase == Receiving(backupId, customName, whole, meta) && msg.kind == BACKUP_COMPLETE
      requires Session.Run(HandleData(Now(), msg), inbox).phase.Closed?
      modifies this`outbox, this`sendSeq, this`said, this`phase, storage
      ensures Session.Run(Now(), inbox) == old(Session.Run(HandleData(Now(), msg), inbox)) && phase.Ready?
    {
      RunStops(At(Now(), Undefined), inbox);
      hide Session.Run, SavedStore, Saveable, PutString, SendSealed;
      assert Saveable(whole, meta);
      storage.SaveUpload(currentUser, backupId, customName, whole, meta);
      SendEncrypted(Message(BACKUP_COMPLETE, PutString(backupId)));
      phase := Ready;
    }

    // ----- restore and listing -----

    method HandleRestore(payload: seq<byte>)
      requires !Session.HandleRestore(Now(), payload).phase.Undefined?
      modifies this`outbox, this`sendSeq, this`said
      ensures Now() == old(Session.HandleRestore(Now(), payload))
    {
      hide SendSealed, GetString, ErrorText, SendAllSealed, RestoreBytes, RestoreReply, Latest, SortedIds, Listed;
      var backupId := [];
      if |payload| >= 2 {
        backupId := GetString(payload, 0).value.0;
      }
      if backupId == [] {
        backupId := storage.GetLatestBackupId(currentUser);
      }
      if backupId == [] {
        SendErrorMessage(BACKUP_NOT_FOUND, Ascii("No backup found."));
        return;
      }
      SendBackup(backupId);
    }

    method SendBackup(backupId: Id)
      modifies this`outbox, this`sendSeq, this`said
      ensures Now() == RestoreId(old(Now()), backupId)
    {
      var d := DirFor(storage.store, currentUser, backupId);
      var headerBytes, payloadBytes := OrEmpty(d.header), OrEmpty(d.payload);
      if headerBytes == [] && payloadBytes == [] {
        SendErrorMessage(BACKUP_NOT_FOUND, Ascii("Backup not found: ") + backupId);
        return;
      }
      var wholeBak := headerBytes + payloadBytes;
      var metadata := if d.metadata.Some? then d.metadata.value else [];
      hide Metadata.MetaBytes, FilePayload, SendSealed;
      var metadataBytes := Metadata.SerializeList(metadata);
      ghost var before := Now();
      var reply := RestoreMessages(wholeBak, metadataBytes, |metadata|);
      SendEncrypted(Message(FILE_DATA, FilePayload(BAK, wholeBak)));
      SendEncrypted(Message(FILE_DATA, FilePayload(BAK_METADATA, metadataBytes)));
      SendEncrypted(Message(RESTORE_COMPLETE, BE(|metadata|, 4)));
      ThreeSent(before, reply);
    }

    method HandleListBackups(stamps: map<Id, word64>)
      modifies this`outbox, this`sendSeq, this`said
      ensures Now() == old(HandleList(Now(), stamps))
    {
      hide SendSealed, SortedIds, Listed, ListEntry;
      var backups := storage.ListBackups(currentUser);
      var dirs := DirsOf(storage.store, currentUser);
      var payload := BE(|backups|, 4);
      for i := 0 to |backups|
        invariant payload == BE(|backups|, 4) + ListEntries(dirs, backups[..i], stamps)
      {
        var id := backups[i];
        var name := OrEmpty(DirAt(dirs, id).name);
        assert backups[..i + 1][..i] == backups[..i];
        payload := payload + ListEntry(dirs, id, stamps);
      }
      assert backups[..|backups|] == backups;
      SendEncrypted(Message(BACKUP_LIST_RESPONSE, payload));
    }

    // ----- the session -----

    /** run(): the final state is that of the machine over everything that arrives. */
    method Run()
      requires phase.Hello? && !authenticated && Session.Run(Now(), inbox).phase.Closed?
      modifies this, storage, userMgr, encryptor
      ensures Now() == old(Session.Run(Now(), inbox))
    {
      ghost var target := Session.Run(Now(), inbox);
      hide Session.Run, Handle;
      var ok := HandleHandshake();
      RunStops(Now(), inbox);
      if !ok {
        return;
      }
      while !authenticated
        invariant if authenticated then phase.Ready? else phase.Auth?
        invariant Session.Run(Now(), inbox) == target
        decreases |inbox|
      {
        var goOn := AuthRound();
        RunStops(Now(), inbox);
        if !goOn {
          return;
        }
      }
      while true
        invariant phase.Ready? && Session.Run(Now(), inbox) == target
        decreases |inbox|
      {
        var goOn := CommandRound();
        RunStops(Now(), inbox);
        if !goOn {
          return;
        }
      }
    }

    method AuthRound() returns (goOn: bool)
      requires phase.Auth? && !authenticated && Session.Run(Now(), inbox).phase.Closed?
      modifies this, userMgr, encryptor
      ensures Session.Run(Now(), inbox) == old(Session.Run(Now(), inbox))
      ensures if !goOn then phase.Closed? else if authenticated then phase.Ready? else phase.Auth?
      ensures |inbox| < old(|inbox|)
    {
      hide Session.Run, Session.HandleLogin, Session.HandleRegister, SendError;
      var msg, a := ReceiveNext();
      goOn := true;
      assert Handle(Now(), msg, a.stamps) == HandleAuth(Now(), msg);
      if msg.kind == 0 {
        phase := Closed;
        return false;
      }
      if msg.kind == LOGIN_REQUEST {
        HandleLogin(msg.payload);
      } else if msg.kind == REGISTER_REQUEST {
        RunStops(Session.HandleRegister(Now(), msg.payload), inbox);
        HandleRegister(msg.payload);
      } else if msg.kind == LOGOUT {
        phase := Closed;
        return false;
      } else {
        SendErrorMessage(NOT_LOGGED_IN, Ascii("Please login or register first."));
        assert phase == Auth;
      }
    }

    method CommandRound() returns (goOn: bool)
      requires phase.Ready? && Session.Run(Now(), inbox).phase.Closed?
      modifies this, storage
      ensures Session.Run(Now(), inbox) == old(Session.Run(Now(), inbox))
      ensures if goOn then phase.Ready? else phase.Closed?
      ensures |inbox| < old(|inbox|)
    {
      hide Session.Run, Session.HandleBackup, Session.HandleRestore, HandleList, SendError;
      var msg, a := ReceiveNext();
      goOn := true;
      assert Handle(Now(), msg, a.stamps) == HandleCommand(Now(), msg, a.stamps);
      if msg.kind == 0 {
        phase := Closed;
        return false;
      }
      if msg.kind == FILE_DATA || msg.kind == BACKUP_COMPLETE || msg.kind == BACKUP_START {
        goOn := HandleBackup(msg);
      } else if msg.kind == RESTORE_REQUEST {
        RunStops(Session.HandleRestore(Now(), msg.payload), inbox);
        HandleRestore(msg.payload);
        assert phase == Ready;
      } else if msg.kind == BACKUP_LIST_REQUEST {
        HandleListBackups(a.stamps);
        assert phase == Ready;
      } else if msg.kind == LOGOUT {
        phase := Closed;
        return false;
      } else {
        SendErrorMessage(INVALID_MESSAGE, Ascii("Unknown command."));
        assert phase == Ready;
      }
    }
  }

  lemma {:induction false} ThreeSent(s: Server, ms: seq<Message>)
    requires |ms| == 3
    ensures SendAllSealed(s, ms) == SendSealed(SendSealed(SendSealed(s, ms[0]), ms[1]), ms[2])
  {
    hide SendSealed;
    var s1 := SendSealed(s, ms[0]);
    var s2 := SendSealed(s1, ms[1]);
    assert ms[1..][1..] == ms[2..] && ms[2..][1..] == [];
    assert SendAllSealed(s2, ms[2..]) == SendAllSealed(SendSealed(s2, ms[2]), []);
    assert SendAllSealed(s1, ms[1..]) == SendAllSealed(s2, ms[2..]);
  }
}
