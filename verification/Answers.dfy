/** What a ready session answers to a restore request and to a list request. */
module Answers {
  import opened Bytes
  import opened Wire
  import opened Messages
  import opened Transport
  import opened Paths
  import opened BackupIds
  import opened Storage
  import opened Session
  import opened SessionSafety
  import opened BackupList
  import SessionRun

  /** A restore request, with the empty text for the latest backup, or a list request. */
  datatype Query = RestoreQuery(asked: Id) | ListQuery

  function Request(q: Query): Message {
    if q.RestoreQuery? then Message(RESTORE_REQUEST, PutString(q.asked)) else Message(BACKUP_LIST_REQUEST, [])
  }

  /** The text that is asked for has a length that its field can hold. */
  predicate Askable(q: Query) {
    q.RestoreQuery? ==> |q.asked| < U16
  }

  // ----- the answers -----

  /** The backup that is asked for: without an id the last listed one. */
  ghost function Meant(store: Store, user: seq<byte>, asked: Id): Id {
    if asked != [] then asked else Latest(SortedIds(Listed(DirsOf(store, user))))
  }

  /** The id that is meant leads to this path. */
  ghost predicate LeadsTo(store: Store, user: seq<byte>, asked: Id, p: Path) {
    Meant(store, user, asked) != [] && BackupPath(store, user, Meant(store, user, asked)) == p
  }

  /** The bytes of the backup that is asked for, none if there is no such backup. */
  ghost function AskedBytes(store: Store, user: seq<byte>, asked: Id): seq<byte> {
    var id := Meant(store, user, asked);
    if id == [] then [] else RestoreBytes(DirFor(store, user, id))
  }

  ghost function RestoreAnswer(store: Store, user: seq<byte>, asked: Id): seq<Message> {
    var id := Meant(store, user, asked);
    if AskedBytes(store, user, asked) != [] then RestoreReply(DirFor(store, user, id))
    else [ErrorText(BACKUP_NOT_FOUND, if id == [] then Ascii("No backup found.") else Ascii("Backup not found: ") + id)]
  }

  ghost function Answer(store: Store, user: seq<byte>, q: Query, stamps: map<Id, word64>): seq<Message> {
    match q
    case RestoreQuery(asked) => RestoreAnswer(store, user, asked)
    case ListQuery => [Message(BACKUP_LIST_RESPONSE, ListPayload(DirsOf(store, user), stamps))]
  }

  lemma {:induction false} AnswerOf(store: Store, user: seq<byte>, asked: Id, stamps: map<Id, word64>)
    ensures Answer(store, user, RestoreQuery(asked), stamps) == RestoreAnswer(store, user, asked)
  {
  }

  // ----- the session gives them -----

  lemma {:induction false} ReceivedCommand(r: Server, ask: Arrival)
    requires r.phase.Ready?
    ensures Step(r, ask) == HandleCommand(Received(r, ask.message), Opened(r, ask.message), ask.stamps)
  {
    hide HandleCommand, Opened;
  }

  lemma {:induction false} ReceivedSame(s: Server, m: Message)
    requires s.active
    ensures var r := Received(s, m);
            r.store == s.store && r.phase == s.phase && r.said == s.said && r.user == s.user && r.key == s.key && r.active
  {
    hide Opened;
  }

  lemma {:induction false} SendAllSaid(s: Server, ms: seq<Message>)
    requires s.active
    ensures SendAllSealed(s, ms).said == s.said + ms
    decreases |ms|
  {
    hide Sealed;
    if ms == [] {
    } else {
      SendAllSaid(SendSealed(s, ms[0]), ms[1..]);
      assert s.said + [ms[0]] + ms[1..] == s.said + ms;
    }
  }

  lemma {:induction false} NameRead(name: seq<byte>)
    requires |name| < U16
    ensures |PutString(name)| >= 2 && GetString(PutString(name), 0) == Some((name, 2 + |name|))
  {
    StringRoundTrip(name, []);
    assert PutString(name) + [] == PutString(name);
    hide GetString;
  }

  lemma {:induction false} ErrorSaid(s: Server, text: seq<byte>)
    requires s.active
    ensures SendError(s, BACKUP_NOT_FOUND, text).said == s.said + [ErrorText(BACKUP_NOT_FOUND, text)]
  {
    hide Sealed, ErrorText;
  }

  lemma {:induction false} IdAnswered(s: Server, id: Id)
    requires s.active && id != []
    ensures RestoreId(s, id).said == s.said + RestoreAnswer(s.store, s.user, id)
  {
    hide RestoreReply, SendAllSealed, SendError, DirFor, RestoreBytes;
    SendAllSaid(s, RestoreReply(DirFor(s.store, s.user, id)));
    ErrorSaid(s, Ascii("Backup not found: ") + id);
  }

  lemma {:induction false} LatestAnswered(s: Server)
    requires s.active
    ensures RestoreLatest(s).said == s.said + RestoreAnswer(s.store, s.user, [])
  {
    var id := Latest(SortedIds(Listed(DirsOf(s.store, s.user))));
    hide RestoreReply, SendError, DirFor, RestoreBytes, RestoreId, SortedIds, Latest, Listed, ErrorText;
    ErrorSaid(s, Ascii("No backup found."));
    if id != [] {
      IdAnswered(s, id);
    }
  }

  lemma {:induction false} RestoreAnswered(s: Server, asked: Id, stamps: map<Id, word64>)
    requires s.active && |asked| < U16
    ensures HandleCommand(s, Request(RestoreQuery(asked)), stamps).said == s.said + RestoreAnswer(s.store, s.user, asked)
  {
    NameRead(asked);
    hide PutString, GetString, RestoreId, RestoreLatest, RestoreAnswer;
    if asked != [] {
      IdAnswered(s, asked);
    } else {
      LatestAnswered(s);
    }
  }

  lemma {:induction false} ListAnswered(s: Server, stamps: map<Id, word64>)
    requires s.active
    ensures HandleCommand(s, Request(ListQuery), stamps).said == s.said + Answer(s.store, s.user, ListQuery, stamps)
  {
    hide Sealed, SortedIds, Listed, ListEntries, BE;
  }

  lemma {:induction false} StaysReady(s: Server, q: Query, stamps: map<Id, word64>)
    requires s.phase.Ready? && Askable(q)
    ensures var t := HandleCommand(s, Request(q), stamps); t.phase.Ready? && Quiet(s, t)
  {
    if q.ListQuery? {
      ListQuiet(s, stamps);
      hide HandleList, Quiet;
    } else {
      NameRead(q.asked);
      RestoreQuiet(s, Latest(SortedIds(Listed(DirsOf(s.store, s.user)))));
      RestoreQuiet(s, q.asked);
      QuietSend(s, ErrorText(BACKUP_NOT_FOUND, Ascii("No backup found.")));
      hide PutString, GetString, RestoreId, Latest, SortedIds, Listed, Quiet, SendSealed, ErrorText;
    }
  }

  /** A ready session answers a query with exactly this, whatever else the message brings, and is ready
      again with its store as it was. */
  lemma {:induction false} QueryAnswered(s: Server, a: Arrival, q: Query)
    requires s.phase.Ready? && s.active && Askable(q) && Opened(s, a.message) == Request(q)
    ensures var t := Step(s, a);
            t.said == s.said + Answer(s.store, s.user, q, a.stamps) && t.phase.Ready? && t.store == s.store
  {
    var r := Received(s, a.message);
    ReceivedCommand(s, a);
    ReceivedSame(s, a.message);
    hide Step, Received, Opened, HandleCommand, Request;
    if q.ListQuery? {
      ListAnswered(r, a.stamps);
    } else {
      RestoreAnswered(r, q.asked, a.stamps);
    }
    StaysReady(r, q, a.stamps);
    hide Answer;
  }

  /** A list request is answered with one message, from which exactly the listed backups are read, in text
      order, each with its own name and time. */
  lemma {:induction false} ListAnswerRead(s: Server, a: Arrival)
    requires s.phase.Ready? && s.active && Opened(s, a.message) == Request(ListQuery) && Fits(DirsOf(s.store, s.user))
    ensures var said := Step(s, a).said;
            && |said| == |s.said| + 1 && s.said <= said && said[|s.said|].kind == BACKUP_LIST_RESPONSE
            && var r := ReadList(said[|s.said|].payload); r.Some? && Shows(r.value, DirsOf(s.store, s.user), a.stamps)
  {
    hide Step, Opened, Request, ListPayload, ReadList, Shows, Fits, DirsOf;
    QueryAnswered(s, a, ListQuery);
    ListReadBack(DirsOf(s.store, s.user), a.stamps);
  }

  /** What a path with a backup's bytes is asked for with. */
  lemma {:induction false} AnswerThere(store: Store, user: seq<byte>, asked: Id, p: Path)
    requires LeadsTo(store, user, asked, p) && p in store.dirs && RestoreBytes(store.dirs[p]) != []
    ensures AskedBytes(store, user, asked) == RestoreBytes(store.dirs[p])
    ensures RestoreAnswer(store, user, asked) == RestoreReply(store.dirs[p])
  {
    hide RestoreBytes, RestoreReply, Meant, BackupPath;
  }

  // ----- the other messages -----

  predicate IsCommand(kind: nat) {
    kind in {0, LOGOUT, FILE_DATA, BACKUP_COMPLETE, BACKUP_START, RESTORE_REQUEST, BACKUP_LIST_REQUEST}
  }

  lemma {:induction false} DataStays(s: Server, m: Message)
    requires s.phase.Receiving? && m.kind != 0
    ensures !HandleData(s, m).phase.Closed?
  {
    hide ParsedFile, Saveable, SavedStore, SendSealed;
  }

  lemma {:induction false} BackupStays(s: Server, m: Message)
    requires s.phase.Ready? && m.kind != 0
    ensures !HandleBackup(s, m).phase.Closed?
  {
    hide NextId, DirsOf, CreatedStore, HandleData, GetString;
    if m.kind == BACKUP_START {
      StartQuiet(s, m);
      hide HandleBackup;
    } else if NextId(DirsOf(s.store, s.user)).Some? {
      var id := NextId(DirsOf(s.store, s.user)).value;
      DataStays(s.(store := CreatedStore(s.store, s.user, id), phase := Receiving(id, [], [], [])), m);
    }
  }

  lemma {:induction false} RestoreStays(s: Server, payload: seq<byte>)
    requires s.phase.Ready?
    ensures !HandleRestore(s, payload).phase.Closed?
  {
    RestoreQuiet(s, Latest(SortedIds(Listed(DirsOf(s.store, s.user)))));
    QuietSend(s, ErrorText(BACKUP_NOT_FOUND, Ascii("No backup found.")));
    if |payload| >= 2 && GetString(payload, 0).Some? {
      RestoreQuiet(s, GetString(payload, 0).value.0);
    }
    hide RestoreId, SendSealed, GetString, Latest, SortedIds, Listed, ErrorText, Quiet;
  }

  /** A ready session is closed by a lost connection or a logout, silently, and by nothing else; a message
      that is no command is answered with an error, and nothing else changes. */
  lemma {:induction false} ClosedIff(s: Server, a: Arrival)
    requires s.phase.Ready? && s.active
    ensures var r, m, t := Received(s, a.message), Opened(s, a.message), Step(s, a);
            && (t.phase.Closed? <==> m.kind == 0 || m.kind == LOGOUT)
            && (t.phase.Closed? ==> t == r.(phase := Closed))
            && (!IsCommand(m.kind) ==> t.phase.Ready? && Quiet(r, t) && t.said == s.said + [ErrorText(INVALID_MESSAGE, Ascii("Unknown command."))])
  {
    ReceivedCommand(s, a);
    ReceivedSame(s, a.message);
    hide *;
    CommandCloses(Received(s, a.message), Opened(s, a.message), a.stamps);
  }

  lemma {:induction false} CommandCloses(r: Server, m: Message, stamps: map<Id, word64>)
    requires r.phase.Ready? && r.active
    ensures var t := HandleCommand(r, m, stamps);
            && (t.phase.Closed? <==> m.kind == 0 || m.kind == LOGOUT)
            && (t.phase.Closed? ==> t == r.(phase := Closed))
            && (!IsCommand(m.kind) ==> t.phase.Ready? && Quiet(r, t) && t.said == r.said + [ErrorText(INVALID_MESSAGE, Ascii("Unknown command."))])
  {
    if m.kind != 0 {
      BackupStays(r, m);
    }
    RestoreStays(r, m.payload);
    ListQuiet(r, stamps);
    QuietSend(r, ErrorText(INVALID_MESSAGE, Ascii("Unknown command.")));
    UnknownSaid(r);
    hide HandleBackup, HandleRestore, HandleList, Quiet, ErrorText, SendSealed;
  }

  lemma {:induction false} UnknownSaid(s: Server)
    requires s.active
    ensures SendError(s, INVALID_MESSAGE, Ascii("Unknown command.")).said == s.said + [ErrorText(INVALID_MESSAGE, Ascii("Unknown command."))]
  {
    hide Sealed, ErrorText;
  }

  /** After a logout nothing that arrives is heard, answered or stored. */
  lemma {:induction false} LogoutEnds(s: Server, a: Arrival, later: seq<Arrival>)
    requires s.phase.Ready? && s.active && Opened(s, a.message).kind == LOGOUT
    ensures Run(Step(s, a), later) == Received(s, a.message).(phase := Closed)
  {
    ClosedIff(s, a);
    hide Step, Received, Opened, Quiet;
    SessionRun.RunStops(Step(s, a), later);
  }
}
