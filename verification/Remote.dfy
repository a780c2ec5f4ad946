/** A remote backup as a whole: a tree is scanned and packed on one client, kept by the server, and
    restored on another. */
module Remote {
  import opened Bytes
  import opened FileRecords
  import opened Wire
  import opened Messages
  import opened BackupIds
  import opened Storage
  import opened Session
  import opened Answers
  import opened StoreIntegrity
  import opened Lockstep
  import opened Delivery
  import Entry
  import Engine
  import Fields
  import EndToEnd
  import HuffmanTree
  import Metadata
  import Pipeline
  import ScanLaws
  import Scanner

  /** The options of a backup client: how the file is made. */
  datatype Options = Options(packing: Engine.Packing, compression: Engine.Compression, encryption: Engine.Encryption,
                             filePassword: seq<byte>, filter: Scanner.FilterOption, sourceDir: seq<byte>)

  /** What the client finds in the source directory. */
  function Found(o: Options, es: seq<Scanner.Entry>): seq<FileInfo> {
    Scanner.Scan(o.filter, es)
  }

  /** The records as the backup file has them. */
  function Listing(o: Options, es: seq<Scanner.Entry>): seq<FileInfo> {
    EndToEnd.Sourced(o.sourceDir, o.filter, es)
  }

  ghost function BackupFile(tb: HuffmanTree.TieBreak, o: Options, es: seq<Scanner.Entry>): seq<byte> {
    Engine.BackupOf(tb, o.packing, o.compression, o.encryption, Listing(o, es), o.filePassword)
  }

  /** The limits of the formats. */
  ghost predicate Fitting(tb: HuffmanTree.TieBreak, o: Options, es: seq<Scanner.Entry>) {
    && !o.packing.NoPacking? && Engine.Keyed(o.encryption, o.filePassword)
    && Engine.Admissible(tb, o.packing, o.compression, Listing(o, es)) && Pipeline.Fits(o.packing, Listing(o, es))
  }

  lemma {:induction false} SizeField(data: seq<byte>)
    requires Metadata.ParsedHeader(data).Some?
    ensures |data| >= 19 && FromLE(data[15..19]) == Metadata.ParsedHeader(data).value.metaSize
  {
    hide FromLE;
  }

  /** The file's two parts: header with metadata, and payload. */
  function HeaderPart(o: Options, es: seq<Scanner.Entry>): seq<byte> {
    Metadata.HeaderBytes(Listing(o, es), Engine.Flags(o.packing, o.compression, o.encryption), Engine.PackId(o.packing),
                         Engine.CompressId(o.compression), Engine.EncryptId(o.encryption))
  }

  ghost function PayloadPart(tb: HuffmanTree.TieBreak, o: Options, es: seq<Scanner.Entry>): seq<byte> {
    Engine.Payload(tb, o.packing, o.compression, o.encryption, Listing(o, es), o.filePassword)
  }

  /** A backup file starts with a header, and the server cuts the file exactly behind it and its metadata. */
  lemma {:induction false} BackupSplits(tb: HuffmanTree.TieBreak, o: Options, es: seq<Scanner.Entry>)
    requires Fitting(tb, o, es)
    ensures var bak := BackupFile(tb, o, es);
            && |bak| >= 19 && SplitPoint(bak) <= |bak|
            && bak[..SplitPoint(bak)] == HeaderPart(o, es) && bak[SplitPoint(bak)..] == PayloadPart(tb, o, es)
  {
    var fs, bak := Listing(o, es), BackupFile(tb, o, es);
    var meta := Metadata.MetaBytes(fs);
    var h := Metadata.BackupHeader(Engine.Flags(o.packing, o.compression, o.encryption), Engine.PackId(o.packing),
                                   Engine.CompressId(o.compression), Engine.EncryptId(o.encryption), |meta|);
    var payload := Engine.Payload(tb, o.packing, o.compression, o.encryption, fs, o.filePassword);
    assert |meta| < U32 by { hide Metadata.MetaBytes, Engine.Compressible, Listing, Metadata.AllStorable; }
    assert bak == Fields.PutAll(Metadata.HeaderFields(h)) + meta + payload by {
      hide Metadata.MetaBytes, Metadata.HeaderFields, Listing, Engine.Payload, Engine.Flags;
    }
    assert HeaderPart(o, es) == Fields.PutAll(Metadata.HeaderFields(h)) + meta && PayloadPart(tb, o, es) == payload by {
      hide Metadata.MetaBytes, Metadata.HeaderFields, Listing, Engine.Payload, Engine.Flags;
    }
    hide Fitting, BackupFile, Listing, Metadata.MetaBytes, Engine.Payload, Metadata.HeaderFields, HeaderPart, PayloadPart;
    Engine.HeaderOfBackup(h, meta, payload, bak);
    hide Metadata.ParsedHeader, FromLE, Fields.PutAll;
    SizeField(bak);
    CutBehind(Fields.PutAll(Metadata.HeaderFields(h)) + meta, payload, SplitPoint(bak));
  }

  lemma {:induction false} CutBehind(front: seq<byte>, back: seq<byte>, n: nat)
    requires n <= |front + back| && (front + back)[n..] == back
    ensures (front + back)[..n] == front
  {
    assert |(front + back)[n..]| == |front| + |back| - n;
  }

  /** What the upload of a backup file leaves on the server's disk: the header with the metadata in one file,
      the payload in another, and the records as the client found them. */
  lemma {:induction false} StoredParts(tb: HuffmanTree.TieBreak, o: Options, es: seq<Scanner.Entry>, s: Server, name: seq<byte>)
    requires Fitting(tb, o, es) && Uploadable(s, name, BackupFile(tb, o, es), Records(o, es))
    ensures var d := UploadedDir(s, GivenName(s, name), BackupFile(tb, o, es), Records(o, es));
            && d.header == Some(HeaderPart(o, es)) && d.payload == Some(PayloadPart(tb, o, es))
            && d.metadata == Some(Metadata.StoredAll(Found(o, es)))
  {
    BackupSplits(tb, o, es);
    FoundRecords(tb, o, es);
    assert Records(o, es) != [] by { hide Found, Metadata.ListBytes; }
    hide BackupFile, Records, Found, GivenName, Fitting, DirFor, NextOf, Sendable, SplitPoint, Metadata.MetaBytes, HeaderPart, PayloadPart, Metadata.StoredAll;
  }

  lemma {:induction false} FoundStorable(base: seq<byte>, fs: seq<FileInfo>)
    requires Metadata.AllStorable(Engine.Prefixed(base, fs))
    ensures Metadata.AllStorable(fs)
  {
    var all := Engine.Prefixed(base, fs);
    forall k | 0 <= k < |fs| ensures Storable(fs[k]) {
      assert Storable(all[k]);
    }
  }

  /** What the client sends besides the file: the records as it found them. */
  function Records(o: Options, es: seq<Scanner.Entry>): seq<byte> {
    Metadata.MetaBytes(Found(o, es))
  }

  /** Every backup file that frames can hold can be uploaded. */
  lemma {:induction false} BackupUploadable(tb: HuffmanTree.TieBreak, o: Options, es: seq<Scanner.Entry>, s: Server, name: seq<byte>)
    requires Fitting(tb, o, es)
    requires s.phase.Ready? && NextId(DirsOf(s.store, s.user)).Some? && |name| < U16
    requires Sendable(UploadMessages(BackupFile(tb, o, es), Records(o, es)))
    ensures Uploadable(s, name, BackupFile(tb, o, es), Records(o, es))
  {
    var bak := BackupFile(tb, o, es);
    BackupSplits(tb, o, es);
    SendableSizes(bak, Records(o, es));
    FoundRecords(tb, o, es);
    hide Sendable, BackupFile, Records, Fitting, NextId, DirsOf, Metadata.ParsedMeta, SplitPoint, UploadMessages;
  }

  lemma {:induction false} ListingStorable(tb: HuffmanTree.TieBreak, o: Options, es: seq<Scanner.Entry>)
    requires Fitting(tb, o, es)
    ensures Metadata.AllStorable(Engine.Prefixed(Engine.BaseName(o.sourceDir), Found(o, es))) && |Found(o, es)| < U32
  {
    assert Metadata.AllStorable(Listing(o, es)) && |Listing(o, es)| < U32 by {
      hide Metadata.AllStorable, Engine.Compressible, Metadata.MetaBytes, Listing, Engine.Keyed;
    }
    hide Fitting, Metadata.AllStorable, Engine.BaseName, Scanner.Scan;
  }

  lemma {:induction false} FoundRecords(tb: HuffmanTree.TieBreak, o: Options, es: seq<Scanner.Entry>)
    requires Fitting(tb, o, es)
    ensures Metadata.ParsedMeta(Records(o, es)) == Some(Metadata.StoredAll(Found(o, es)))
  {
    var fs := Found(o, es);
    ListingStorable(tb, o, es);
    hide Fitting, Found, Engine.Prefixed, Engine.BaseName;
    FoundStorable(Engine.BaseName(o.sourceDir), fs);
    Metadata.MetaRoundTrip(fs);
  }

  lemma {:induction false} BackupRestores(tb: HuffmanTree.TieBreak, o: Options, es: seq<Scanner.Entry>)
    requires ScanLaws.GoodTree(es) && Fitting(tb, o, es)
    ensures Engine.RestoreOf(tb, BackupFile(tb, o, es), o.filePassword)
         == Engine.Done(Metadata.StoredAll(Listing(o, es)), Pipeline.Contents(Listing(o, es)))
       <==> Pipeline.Preserved(o.packing, Listing(o, es))
  {
    hide Engine.Admissible, Pipeline.Preserved, Pipeline.Contents, Pipeline.Fits, Engine.RestoreOf, Engine.BackupOf, EndToEnd.Sourced, Scanner.Scan, ScanLaws.GoodTree;
    EndToEnd.ScanBackupRestore(tb, o.packing, o.compression, o.encryption, o.filter, o.sourceDir, es, o.filePassword);
  }

  /** The server's answer carries the file and the records as they were sent, and fits its frames too. */
  lemma {:induction false} ReplySendable(tb: HuffmanTree.TieBreak, o: Options, es: seq<Scanner.Entry>, s: Server, name: seq<byte>)
    requires Fitting(tb, o, es) && Uploadable(s, name, BackupFile(tb, o, es), Records(o, es))
    ensures var d := UploadedDir(s, GivenName(s, name), BackupFile(tb, o, es), Records(o, es));
            RestoreReply(d) == RestoreMessages(BackupFile(tb, o, es), Records(o, es), |Found(o, es)|) && Sendable(RestoreReply(d))
  {
    var bak, meta, fs := BackupFile(tb, o, es), Records(o, es), Found(o, es);
    var before := DirFor(s.store, s.user, NextOf(s));
    FoundRecords(tb, o, es);
    assert Metadata.MetaBytes(Metadata.StoredAll(fs)) == meta by { Metadata.StoredBytes(fs); hide Found; }
    assert meta != [] by { hide Found, Metadata.ListBytes; }
    UploadComesBack(before, GivenName(s, name), bak, meta);
    assert SavedDir(before, GivenName(s, name), bak, meta).metadata == Some(Metadata.StoredAll(fs)) by {
      hide BackupFile, Records, Found, GivenName, Fitting, DirFor, NextOf, Sendable, SplitPoint, Metadata.MetaBytes;
    }
    hide BackupFile, Records, Found, GivenName, Fitting, DirFor, NextOf, SavedDir, RestoreBytes, Metadata.MetaBytes, Metadata.StoredAll;
    AnswerSendable(bak, meta, |fs|);
    hide Sendable, RestoreMessages;
  }

  lemma {:induction false} AnswerSendable(bak: seq<byte>, meta: seq<byte>, count: nat)
    requires Sendable(UploadMessages(bak, meta))
    ensures Sendable(RestoreMessages(bak, meta, count))
  {
    var ms := UploadMessages(bak, meta);
    PathsDiffer();
    hide BE, PutString;
    PutLength(BAK);
    PutLength(BAK_PAYLOAD);
    assert ms[0] in ms && ms[1] in ms;
  }

  /** Where a client stands that comes in after the upload and any later sessions. */
  ghost function NextClient(z: System, up: seq<Event>, sessions: seq<seq<Arrival>>, user: seq<byte>, password: seq<byte>,
                            registers: bool, entry: seq<Event>): System {
    Unfold(Entry.Connected(user, password, registers, Serve(Disk(Unfold(z, up).server), sessions)), entry)
  }

  /** Remote backup and restore: a client scans a tree, makes a backup file and uploads it; the server keeps it
      over any later sessions; another client asks for it. What that one collects is not complete yet, or is
      that file, and restoring the file with its password gives the scanned records and every regular file's
      content: under index always, under tar exactly if no file loses its place to a longer path. */
  lemma {:induction false} RemoteBackupRestore(tb: HuffmanTree.TieBreak, o: Options, es: seq<Scanner.Entry>,
                                               z: System, up: seq<Event>, name: seq<byte>, sessions: seq<seq<Arrival>>,
                                               user: seq<byte>, password: seq<byte>, registers: bool, entry: seq<Event>, asked: Id, down: seq<Event>)
    requires ScanLaws.GoodTree(es) && Fitting(tb, o, es) && Sendable(UploadMessages(BackupFile(tb, o, es), Records(o, es)))
    requires Synced(z) && z.client.active && z.server.phase.Ready? && NextId(DirsOf(z.server.store, z.server.user)).Some? && |name| < U16
    requires Says(Unfold(z, up).client.said, |z.server.heard|, Upload(name, BackupFile(tb, o, es), Records(o, es)))
    requires |Unfold(z, up).server.heard| >= |z.server.heard| + |Upload(name, BackupFile(tb, o, es), Records(o, es))|
    requires |user| < U16 && |z.server.users| + |sessions| < U32 && |asked| < U16
    requires var y := NextClient(z, up, sessions, user, password, registers, entry);
             && y.client.active && y.server.phase.Ready?
             && LeadsTo(y.server.store, user, asked, BackupPath(z.server.store, z.server.user, NextOf(z.server)))
             && Says(Unfold(y, down).client.said, |y.server.heard|, [Request(RestoreQuery(asked))])
    ensures var y := NextClient(z, up, sessions, user, password, registers, entry);
            Collects(Unfold(y, down).client.heard, |y.server.said|, BackupFile(tb, o, es))
    ensures Engine.RestoreOf(tb, BackupFile(tb, o, es), o.filePassword)
         == Engine.Done(Metadata.StoredAll(Listing(o, es)), Pipeline.Contents(Listing(o, es)))
       <==> Pipeline.Preserved(o.packing, Listing(o, es))
  {
    BackupUploadable(tb, o, es, z.server, name);
    BackupRestores(tb, o, es);
    ReplySendable(tb, o, es, z.server, name);
    hide Fitting, BackupFile, Records, Listing, Sendable, Upload, UploadMessages, Says, Synced, Unfold, Uploadable, NextId, DirsOf;
    hide LeadsTo, Request, RestoreReply, UploadedDir, GivenName, Collects, NextOf, Serve, Entry.Connected, ScanLaws.GoodTree;
    hide Engine.RestoreOf, Pipeline.Preserved, Pipeline.Contents;
    UploadedBytesFetched(z, up, name, BackupFile(tb, o, es), Records(o, es), sessions, user, password, registers, entry, asked, down);
  }
}
