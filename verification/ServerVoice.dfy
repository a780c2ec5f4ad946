/** What a server step puts on the wire.
    Before login: at most one message, in the clear, and an OK only by logging in.
    After login: exactly what the step says, sealed under consecutive numbers. */
module ServerVoice {
  import opened Bytes
  import opened Wire
  import opened Messages
  import opened Transport
  import opened Users
  import opened BackupIds
  import opened Storage
  import opened Session
  import opened SessionSafety

  /** The wire form of the k-th message under a key. */
  function SealedAt(key: seq<byte>, plain: Message, k: nat): Message {
    Message(plain.kind, Sealed(key, plain.payload, k % U64))
  }

  // ----- after login -----

  /** From s to t: more said, and exactly that, sealed under its running number, more on the wire. */
  ghost predicate Speaks(s: Server, t: Server) {
    && t.active && t.key == s.key && t.user == s.user && t.challenge == s.challenge
    && t.heard == s.heard && t.recvSeq == s.recvSeq && t.sendSeq == |t.said| % U64
    && s.said <= t.said && s.outbox <= t.outbox && |t.outbox| - |t.said| == |s.outbox| - |s.said|
    && (forall k :: |s.said| <= k < |t.said| ==>
          t.said[k].kind != 0 && t.outbox[|t.outbox| - |t.said| + k] == SealedAt(s.key, t.said[k], k))
  }

  predicate Speaking(s: Server) {
    s.active && s.sendSeq == |s.said| % U64
  }

  lemma {:induction false} Silent(s: Server, t: Server)
    requires Speaking(s) && t == s.(phase := t.phase, store := t.store)
    ensures Speaks(s, t)
  {
  }

  lemma {:induction false} SpeaksThen(s: Server, t: Server, u: Server)
    requires Speaks(s, t) && Speaks(t, u)
    ensures Speaks(s, u)
  {
    hide SealedAt;
    var d := |s.outbox| - |s.said|;
    forall k | |s.said| <= k < |u.said| ensures u.said[k].kind != 0 && u.outbox[d + k] == SealedAt(s.key, u.said[k], k) {
      if k < |t.said| {
        assert u.said[k] == t.said[k] && u.outbox[d + k] == t.outbox[d + k];
      }
    }
  }

  lemma {:induction false} SendSpeaks(s: Server, m: Message)
    requires Speaking(s) && m.kind != 0
    ensures Speaks(s, SendSealed(s, m)) && Speaking(SendSealed(s, m))
  {
    var t := SendSealed(s, m);
    SeqNext(s.sendSeq, |s.said|);
    assert t.said == s.said + [m] && t.outbox == s.outbox + [SealedAt(s.key, m, |s.said|)];
    hide SealedAt, SendSealed;
  }

  lemma {:induction false} SeqNext(seqNum: nat, n: nat)
    requires seqNum == n % U64
    ensures (seqNum + 1) % U64 == (n + 1) % U64
  {
  }

  lemma {:induction false} SendAllSpeaks(s: Server, ms: seq<Message>)
    requires Speaking(s) && forall m :: m in ms ==> m.kind != 0
    ensures Speaks(s, SendAllSealed(s, ms))
    decreases |ms|
  {
    if ms == [] {
      Silent(s, s);
    } else {
      hide Speaks, SendSealed;
      var t := SendSealed(s, ms[0]);
      SendSpeaks(s, ms[0]);
      SendAllSpeaks(t, ms[1..]);
      SpeaksThen(s, t, SendAllSealed(t, ms[1..]));
    }
  }

  lemma {:induction false} DataSpeaks(s: Server, m: Message)
    requires Speaking(s) && s.phase.Receiving?
    ensures Speaks(s, HandleData(s, m))
  {
    var t := HandleData(s, m);
    hide Speaks, ParsedFile;
    if m.kind == BACKUP_COMPLETE {
      FinishSpeaks(s);
    } else {
      assert t == s.(phase := t.phase);
      Silent(s, t);
    }
  }

  lemma {:induction false} FinishSpeaks(s: Server)
    requires Speaking(s) && s.phase.Receiving?
    ensures Speaks(s, FinishBackup(s))
  {
    var Receiving(id, custom, whole, meta) := s.phase;
    hide Speaks, Saveable, SavedStore, PutString;
    if Saveable(whole, meta) {
      var t := s.(store := SavedStore(s.store, s.user, id, custom, whole, meta));
      var u := SendSealed(t, Message(BACKUP_COMPLETE, PutString(id)));
      Silent(s, t);
      SendSpeaks(t, Message(BACKUP_COMPLETE, PutString(id)));
      hide SendSealed;
      SpeaksThen(s, t, u);
      Silent(u, At(u, Ready));
      SpeaksThen(s, u, At(u, Ready));
    } else {
      Silent(s, At(s, Undefined));
    }
  }

  lemma {:induction false} BeginSpeaks(s: Server, custom: seq<byte>, m: Message)
    requires Speaking(s)
    ensures Speaks(s, BeginBackup(s, custom, m))
  {
    hide Speaks, NextId, CreatedStore, DirsOf;
    var dirs := DirsOf(s.store, s.user);
    if NextId(dirs).Some? {
      var id := NextId(dirs).value;
      var t := s.(store := CreatedStore(s.store, s.user, id), phase := Receiving(id, custom, [], []));
      Silent(s, t);
      DataSpeaks(t, m);
      hide HandleData;
      SpeaksThen(s, t, HandleData(t, m));
    } else {
      Silent(s, At(s, Undefined));
    }
  }

  lemma {:induction false} ErrorSpeaks(s: Server, code: nat, text: seq<byte>)
    requires Speaking(s)
    ensures Speaks(s, SendError(s, code, text))
  {
    SendSpeaks(s, ErrorText(code, text));
  }

  lemma {:induction false} BackupSpeaks(s: Server, m: Message)
    requires Speaking(s)
    ensures Speaks(s, HandleBackup(s, m))
  {
    hide Speaks, GetString, NameTaken, SendError, BeginBackup, Speaking;
    var t := HandleBackup(s, m);
    if m.kind != BACKUP_START {
      BeginSpeaks(s, [], m);
    } else {
      if |m.payload| >= 2 && GetString(m.payload, 0).Some? {
        var custom := GetString(m.payload, 0).value.0;
        ErrorSpeaks(s, NAME_EXISTS, Ascii("Backup name '") + custom + Ascii("' already exists. Please use a different name."));
      }
      Silent(s, At(s, t.phase));
    }
  }

  lemma {:induction false} RestoreIdSpeaks(s: Server, id: Id)
    requires Speaking(s)
    ensures Speaks(s, RestoreId(s, id))
  {
    var d := DirFor(s.store, s.user, id);
    assert forall m :: m in RestoreReply(d) ==> m.kind != 0;
    hide Speaks, SendError, SendAllSealed, RestoreReply, Speaking, RestoreBytes;
    ErrorSpeaks(s, BACKUP_NOT_FOUND, Ascii("Backup not found: ") + id);
    SendAllSpeaks(s, RestoreReply(d));
  }

  lemma {:induction false} RestoreSpeaks(s: Server, payload: seq<byte>)
    requires Speaking(s)
    ensures Speaks(s, HandleRestore(s, payload))
  {
    hide Speaks, SendError, RestoreId, Speaking, GetString, Latest, SortedIds, Listed;
    ErrorSpeaks(s, BACKUP_NOT_FOUND, Ascii("No backup found."));
    RestoreIdSpeaks(s, Latest(SortedIds(Listed(DirsOf(s.store, s.user)))));
    var asked := if |payload| >= 2 then GetString(payload, 0) else Some(([], 0));
    if asked.Some? {
      RestoreIdSpeaks(s, asked.value.0);
    }
    Silent(s, At(s, Undefined));
  }

  lemma {:induction false} ListSpeaks(s: Server, stamps: map<Id, word64>)
    requires Speaking(s)
    ensures Speaks(s, HandleList(s, stamps))
  {
    hide Speaks, SendSealed, Speaking, ListEntries, BE;
    var dirs := DirsOf(s.store, s.user);
    var ids := SortedIds(Listed(dirs));
    hide SortedIds, Listed;
    SendSpeaks(s, Message(BACKUP_LIST_RESPONSE, BE(|ids|, 4) + ListEntries(dirs, ids, stamps)));
  }

  lemma {:induction false} CommandSpeaks(s: Server, m: Message, stamps: map<Id, word64>)
    requires Speaking(s)
    ensures Speaks(s, HandleCommand(s, m, stamps))
  {
    hide Speaks, SendError, HandleList, HandleRestore, HandleBackup, Speaking;
    Silent(s, At(s, Closed));
    BackupSpeaks(s, m);
    RestoreSpeaks(s, m.payload);
    ListSpeaks(s, stamps);
    ErrorSpeaks(s, INVALID_MESSAGE, Ascii("Unknown command."));
  }

  lemma {:induction false} HandleSpeaks(s: Server, m: Message, stamps: map<Id, word64>)
    requires Speaking(s) && PhaseFits(s)
    ensures Speaks(s, Handle(s, m, stamps))
  {
    hide Speaks, HandleAuth, HandleProof, HandleCommand, BeginBackup, HandleData, Listed, DirsOf;
    match s.phase {
      case Ready => CommandSpeaks(s, m, stamps);
      case AwaitData(custom) =>
        Silent(s, At(s, Closed));
        BeginSpeaks(s, custom, m);
      case Receiving(_, _, _, _) => DataSpeaks(s, m);
      case _ => Silent(s, s);
    }
  }

  /** One step after login, past the receipt: what is sent is sealed and counted, one by one. */
  lemma {:induction false} ActiveStep(s: Server, a: Arrival)
    requires Safe(s) && s.active
    ensures Speaks(if s.phase.Closed? || s.phase.Undefined? then s else Received(s, a.message), Step(s, a))
  {
    hide Speaks, Handle, Received, Opened;
    if s.phase.Closed? || s.phase.Undefined? {
      Silent(s, s);
    } else {
      ReceivedFits(s, a.message);
      HandleSpeaks(Received(s, a.message), Opened(s, a.message), a.stamps);
      assert !s.phase.Hello?;
    }
  }

  lemma {:induction false} ReceivedFits(s: Server, m: Message)
    requires Safe(s) && s.active
    ensures Speaking(Received(s, m)) && PhaseFits(Received(s, m))
  {
    hide Opened, Listed, DirsOf, TableFits, HasHash;
  }

  // ----- before login -----

  /** The answers that make a waiting client switch encryption on. */
  predicate IsOk(m: Message) {
    (m.kind == LOGIN_RESPONSE || m.kind == REGISTER_RESPONSE) && m.payload != [] && m.payload[0] == 0
  }

  /** Not logged in, before and after: at most one message, in the clear, and none that says OK. */
  ghost predicate StaysOut(s: Server, t: Server) {
    && !t.active && t.challenge == s.challenge
    && (t.outbox == s.outbox || (|t.outbox| == |s.outbox| + 1 && s.outbox <= t.outbox && !IsOk(t.outbox[|s.outbox|])))
  }

  /** Logged in by this step: the last message in the clear is the OK, and nothing is sealed yet. */
  ghost predicate ComesIn(s: Server, t: Server, kind: nat) {
    && t.active && t.challenge == s.challenge && t.said == [] && t.heard == []
    && t.outbox == s.outbox + [Message(kind, [0])]
  }

  lemma {:induction false} HelloStep(s: Server, a: Arrival)
    requires s.phase.Hello? && !s.active
    ensures var t := Step(s, a);
            && !t.active && (t.phase.Auth? || t.phase.Closed?) && |t.outbox| == |s.outbox| + 1 && s.outbox <= t.outbox
            && !IsOk(t.outbox[|s.outbox|])
            && (t.outbox[|s.outbox|].kind == SERVER_HELLO ==>
                  t.outbox[|s.outbox|].payload == BE(PROTOCOL_VERSION, 2) + t.challenge && |t.challenge| == 8)
            && (a.message == Message(CLIENT_HELLO, BE(PROTOCOL_VERSION, 2)) ==> t.phase.Auth?)
            && (t.outbox[|s.outbox|].kind == SERVER_HELLO <==> t.phase.Auth?)
            && (a.message.kind != CLIENT_HELLO ==> t.phase.Closed?)
  {
    Widths();
    BERoundTrip(PROTOCOL_VERSION, 2);
    assert BE(PROTOCOL_VERSION, 2)[..2] == BE(PROTOCOL_VERSION, 2);
    hide BE, FromBE;
  }

  lemma {:induction false} LoginOut(s: Server, payload: seq<byte>)
    requires !s.active && s.phase.Auth?
    ensures var t := HandleLogin(s, payload);
            && StaysOut(s, t)
            && (t.phase.AwaitProof? ==> GetString(payload, 0).Some? && GetString(payload, 0).value.0 == t.phase.name)
            && !t.phase.Hello?
  {
    hide GetString, BE, PutString, Lookup;
  }

  lemma {:induction false} RegisterOutOrIn(s: Server, payload: seq<byte>)
    requires !s.active && s.phase.Auth? && s.said == [] && s.heard == []
    ensures var t := HandleRegister(s, payload);
            && (StaysOut(s, t) || (ComesIn(s, t, REGISTER_RESPONSE) && GetString(payload, 0).Some? && GetString(payload, 0).value.0 == t.user))
            && !t.phase.AwaitProof? && !t.phase.Hello?
  {
    hide GetString, BE, PutString, Lookup, TableFile, SessionKey;
  }

  lemma {:induction false} AuthStep(s: Server, a: Arrival)
    requires s.phase.Auth? && !s.active && s.said == [] && s.heard == []
    ensures var t := Step(s, a);
            var m := a.message;
            && !t.phase.Hello?
            && (StaysOut(s, t) || (ComesIn(s, t, REGISTER_RESPONSE) && m.kind == REGISTER_REQUEST
                                   && GetString(m.payload, 0).Some? && GetString(m.payload, 0).value.0 == t.user))
            && (t.phase.AwaitProof? ==> m.kind == LOGIN_REQUEST && GetString(m.payload, 0).Some? && GetString(m.payload, 0).value.0 == t.phase.name)
            && (m.kind == 0 ==> t.phase.Closed? && t.outbox == s.outbox)
  {
    LoginOut(s, a.message.payload);
    RegisterOutOrIn(s, a.message.payload);
    hide HandleLogin, HandleRegister, GetString, BE, PutString, ComesIn;
  }

  lemma {:induction false} ProofStep(s: Server, a: Arrival)
    requires s.phase.AwaitProof? && !s.active && s.said == [] && s.heard == []
    ensures var t := Step(s, a);
            && (StaysOut(s, t) || (ComesIn(s, t, LOGIN_RESPONSE) && a.message.kind != 0 && t.user == s.phase.name))
            && (t.phase.Auth? || t.phase.Ready?)
  {
    hide BE, PutString, SessionKey;
  }
}
