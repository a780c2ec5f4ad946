/** One session of the server as a machine that takes one arriving message at a time. */
module Session {
  import opened Bytes
  import opened Wire
  import opened Messages
  import opened Transport
  import opened Users
  import opened Paths
  import opened BackupIds
  import opened Storage
  import Metadata

  /** Where the session waits for the next message. Undefined stands for what the program does after
      a read outside a buffer, or past the largest int; nothing is said about it. */
  datatype Phase =
    | Hello
    | Auth
    | AwaitProof(name: seq<byte>, hash: seq<byte>)
    | Ready
    | AwaitData(custom: seq<byte>)
    | Receiving(id: Id, custom: seq<byte>, whole: seq<byte>, meta: seq<byte>)
    | Closed
    | Undefined

  type Challenge = c: seq<byte> | |c| == 8 witness Zeros(8)

  /** A message, or NOTHING for a time-out or a lost connection, with what the server observes of its
      surroundings when it handles it: the random bytes drawn and the file times. */
  datatype Arrival = Arrival(message: Message, drawn: Challenge, stamps: map<Id, word64>)

  /** users is the table in memory and file the one on disk. said and heard are histories: the plain
      messages sent and received while encryption is active. */
  datatype Server = Server(
    phase: Phase,
    users: seq<User>, file: seq<byte>, store: Store,
    authenticated: bool, user: seq<byte>,
    active: bool, key: seq<byte>, sendSeq: nat, recvSeq: nat, challenge: seq<byte>,
    outbox: seq<Message>, said: seq<Message>, heard: seq<Message>)

  function Fresh(file: seq<byte>, store: Store): Server {
    Server(Hello, Loaded(file), file, store, false, [], false, [], 0, 0, [], [], [], [])
  }

  // ----- sending and receiving -----

  /** sendMessage, past the encryption. */
  function Send(s: Server, m: Message): Server {
    s.(outbox := s.outbox + [m])
  }

  /** sendEncrypted. */
  function SendSealed(s: Server, m: Message): Server {
    if s.active then
      Send(s, Message(m.kind, Sealed(s.key, m.payload, s.sendSeq))).(
        sendSeq := (s.sendSeq + 1) % U64, said := s.said + [m])
    else
      Send(s, m)
  }

  function SendError(s: Server, code: nat, text: seq<byte>): Server {
    SendSealed(s, ErrorText(code, text))
  }

  /** The plain form of an arriving message. */
  function Opened(s: Server, m: Message): Message {
    if m.kind == 0 || !s.active then m else Message(m.kind, Sealed(s.key, m.payload, s.recvSeq))
  }

  /** receiveEncrypted's effect on the counters. */
  function Received(s: Server, m: Message): Server {
    if m.kind == 0 || !s.active then s
    else s.(recvSeq := (s.recvSeq + 1) % U64, heard := s.heard + [Opened(s, m)])
  }

  function At(s: Server, phase: Phase): Server {
    s.(phase := phase)
  }

  // ----- handshake, login, registration -----

  function HandleHandshake(s: Server, hello: Message, drawn: Challenge): Server {
    if hello.kind != CLIENT_HELLO then
      At(SendError(s, INCOMPATIBLE_VERSION, Ascii("Expected CLIENT_HELLO.")), Closed)
    else if |hello.payload| >= 2 && FromBE(hello.payload[..2]) != PROTOCOL_VERSION then
      At(SendError(s, INCOMPATIBLE_VERSION, Ascii("Protocol version mismatch.")), Closed)
    else
      At(Send(s.(challenge := drawn), Message(SERVER_HELLO, BE(PROTOCOL_VERSION, 2) + drawn)), Auth)
  }

  function HandleAuth(s: Server, m: Message): Server {
    if m.kind == 0 || m.kind == LOGOUT then At(s, Closed)
    else if m.kind == LOGIN_REQUEST then HandleLogin(s, m.payload)
    else if m.kind == REGISTER_REQUEST then HandleRegister(s, m.payload)
    else SendError(s, NOT_LOGGED_IN, Ascii("Please login or register first."))
  }

  function HandleLogin(s: Server, payload: seq<byte>): Server {
    if |payload| < 2 then SendError(s, INVALID_MESSAGE, Ascii("Invalid LOGIN_REQUEST."))
    else match GetString(payload, 0)
      case None => At(s, Undefined)
      case Some((name, _)) =>
        match Lookup(s.users, name)
        case None => Send(s, Message(LOGIN_RESPONSE, [1]))
        case Some(u) => At(Send(s, Message(LOGIN_SALT, u.salt)), AwaitProof(name, u.hash))
  }

  /** initSession, currentUser_ and authenticated_. */
  function Enter(s: Server, name: seq<byte>): Server {
    s.(active := true, key := SessionKey(name, s.challenge), user := name, authenticated := true)
  }

  /** The proof, whatever its type: the first 32 bytes are compared. */
  function HandleProof(s: Server, name: seq<byte>, hash: seq<byte>, m: Message): Server {
    if m.kind == 0 || |m.payload| < 32 then
      At(SendError(s, INVALID_MESSAGE, Ascii("Invalid login proof.")), Auth)
    else if m.payload[..32] == hash then
      At(Send(Enter(s, name), Message(LOGIN_RESPONSE, [0])), Ready)
    else
      At(Send(s, Message(LOGIN_RESPONSE, [1])), Auth)
  }

  /** registerUserRaw for a new name. */
  function Register(s: Server, u: User): Server {
    s.(users := s.users + [u], file := TableFile(s.users + [u]))
  }

  function HandleRegister(s: Server, payload: seq<byte>): Server {
    if |payload| < 2 then SendError(s, INVALID_MESSAGE, Ascii("Invalid REGISTER_REQUEST."))
    else match GetString(payload, 0)
      case None => At(s, Undefined)
      case Some((name, o)) =>
        if |payload| - o < 40 then SendError(s, INVALID_MESSAGE, Ascii("Invalid REGISTER_REQUEST payload."))
        else if Lookup(s.users, name).Some? then Send(s, Message(REGISTER_RESPONSE, [1]))
        else
          var t := Register(s, User(name, payload[o..o + 8], payload[o + 8..o + 40]));
          At(Send(Enter(t, name), Message(REGISTER_RESPONSE, [0])), Ready)
  }

  // ----- backup -----

  ghost function HandleBackup(s: Server, m: Message): Server {
    if m.kind != BACKUP_START then BeginBackup(s, [], m)
    else if |m.payload| < 2 then At(s, AwaitData([]))
    else match GetString(m.payload, 0)
      case None => At(s, Undefined)
      case Some((custom, _)) =>
        if custom != [] && NameTaken(s, custom) then
          SendError(s, NAME_EXISTS, Ascii("Backup name '") + custom + Ascii("' already exists. Please use a different name."))
        else At(s, AwaitData(custom))
  }

  ghost predicate NameTaken(s: Server, custom: seq<byte>) {
    var dirs := DirsOf(s.store, s.user);
    FindByName(dirs, SortedIds(Listed(dirs)), custom) != []
  }

  /** createBackup, then the first message of the loop. */
  ghost function BeginBackup(s: Server, custom: seq<byte>, m: Message): Server {
    match NextId(DirsOf(s.store, s.user))
    case None => At(s, Undefined)
    case Some(id) =>
      HandleData(s.(store := CreatedStore(s.store, s.user, id), phase := Receiving(id, custom, [], [])), m)
  }

  function HandleData(s: Server, m: Message): Server
    requires s.phase.Receiving?
  {
    if m.kind == 0 then At(s, Closed)
    else if m.kind == BACKUP_COMPLETE then FinishBackup(s)
    else if m.kind == FILE_DATA && |m.payload| >= 10 then TakeFile(s, m.payload)
    else s
  }

  /** A later file of the same path replaces the earlier one; other paths are dropped. */
  function TakeFile(s: Server, payload: seq<byte>): Server
    requires s.phase.Receiving?
  {
    match ParsedFile(payload)
    case None => At(s, Undefined)
    case Some((path, data)) =>
      if path == BAK_PAYLOAD then At(s, s.phase.(whole := data))
      else if path == BAK_METADATA then At(s, s.phase.(meta := data))
      else s
  }

  function FinishBackup(s: Server): Server
    requires s.phase.Receiving?
  {
    var Receiving(id, custom, whole, meta) := s.phase;
    if !Saveable(whole, meta) then At(s, Undefined)
    else
      var t := s.(store := SavedStore(s.store, s.user, id, custom, whole, meta));
      At(SendSealed(t, Message(BACKUP_COMPLETE, PutString(id))), Ready)
  }

  // ----- restore and listing -----

  function SendAllSealed(s: Server, ms: seq<Message>): Server
    decreases |ms|
  {
    if ms == [] then s else SendAllSealed(SendSealed(s, ms[0]), ms[1..])
  }

  ghost function HandleRestore(s: Server, payload: seq<byte>): Server {
    var asked := if |payload| >= 2 then GetString(payload, 0) else Some(([], 0));
    match asked
    case None => At(s, Undefined)
    case Some((id, _)) => if id != [] then RestoreId(s, id) else RestoreLatest(s)
  }

  ghost function RestoreLatest(s: Server): Server {
    var id := Latest(SortedIds(Listed(DirsOf(s.store, s.user))));
    if id == [] then SendError(s, BACKUP_NOT_FOUND, Ascii("No backup found.")) else RestoreId(s, id)
  }

  function RestoreId(s: Server, id: Id): Server {
    var d := DirFor(s.store, s.user, id);
    if RestoreBytes(d) == [] then SendError(s, BACKUP_NOT_FOUND, Ascii("Backup not found: ") + id)
    else SendAllSealed(s, RestoreReply(d))
  }

  function RestoreReply(d: Dir): seq<Message> {
    var files := if d.metadata.Some? then d.metadata.value else [];
    RestoreMessages(RestoreBytes(d), Metadata.MetaBytes(files), |files|)
  }

  function ListEntries(dirs: Dirs, ids: seq<Id>, stamps: map<Id, word64>): seq<byte> {
    if ids == [] then [] else
      ListEntries(dirs, ids[..|ids| - 1], stamps) + ListEntry(dirs, ids[|ids| - 1], stamps)
  }

  function ListEntry(dirs: Dirs, id: Id, stamps: map<Id, word64>): seq<byte> {
    PutString(id) + PutString(NameOf(dirs, id)) + BE(if id in stamps then stamps[id] else 0, 8)
  }

  ghost function HandleList(s: Server, stamps: map<Id, word64>): Server {
    var dirs := DirsOf(s.store, s.user);
    var ids := SortedIds(Listed(dirs));
    SendSealed(s, Message(BACKUP_LIST_RESPONSE, BE(|ids|, 4) + ListEntries(dirs, ids, stamps)))
  }

  // ----- the machine -----

  ghost function HandleCommand(s: Server, m: Message, stamps: map<Id, word64>): Server {
    if m.kind == 0 || m.kind == LOGOUT then At(s, Closed)
    else if m.kind == FILE_DATA || m.kind == BACKUP_COMPLETE || m.kind == BACKUP_START then HandleBackup(s, m)
    else if m.kind == RESTORE_REQUEST then HandleRestore(s, m.payload)
    else if m.kind == BACKUP_LIST_REQUEST then HandleList(s, stamps)
    else SendError(s, INVALID_MESSAGE, Ascii("Unknown command."))
  }

  /** One plain message, by phase. */
  ghost function Handle(s: Server, m: Message, stamps: map<Id, word64>): Server {
    match s.phase
    case Auth => HandleAuth(s, m)
    case AwaitProof(name, hash) => HandleProof(s, name, hash, m)
    case Ready => HandleCommand(s, m, stamps)
    case AwaitData(custom) => if m.kind == 0 then At(s, Closed) else BeginBackup(s, custom, m)
    case Receiving(_, _, _, _) => HandleData(s, m)
    case _ => s
  }

  ghost function Step(s: Server, a: Arrival): Server {
    if s.phase.Closed? || s.phase.Undefined? then s
    else if s.phase.Hello? then HandleHandshake(s, a.message, a.drawn)
    else Handle(Received(s, a.message), Opened(s, a.message), a.stamps)
  }

  ghost function Run(s: Server, arrivals: seq<Arrival>): Server
    decreases |arrivals|
  {
    if arrivals == [] then s else Run(Step(s, arrivals[0]), arrivals[1..])
  }
}
