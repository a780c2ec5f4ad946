/** Backup and restore: pack, compress, encrypt behind a header, and all of it undone. */
module Engine {
  import opened Bytes
  import opened FileRecords
  import Paths
  import Fields
  import Metadata
  import TarPack
  import IndexPack
  import Raw
  import Rle
  import HuffmanTree
  import HuffmanStream
  import Ciphers

  datatype Packing = NoPacking | Tar | Index
  datatype Compression = NoCompression | RunLength | Huffman
  datatype Encryption = NoEncryption | XorStream | Vigenere

  const FLAG_PACK: nat := 1
  const FLAG_COMPRESS: nat := 2
  const FLAG_ENCRYPT: nat := 4

  // ----- the stages -----

  function PackId(p: Packing): byte { if p.NoPacking? then 0 else if p.Tar? then 1 else 2 }

  function CompressId(c: Compression): byte { if c.NoCompression? then 0 else if c.RunLength? then 1 else 2 }

  function EncryptId(e: Encryption): byte { if e.NoEncryption? then 0 else if e.XorStream? then 1 else 2 }

  function Flags(p: Packing, c: Compression, e: Encryption): (f: nat)
    ensures f < 8
  {
    (if p.NoPacking? then 0 else FLAG_PACK) + (if c.NoCompression? then 0 else FLAG_COMPRESS)
    + (if e.NoEncryption? then 0 else FLAG_ENCRYPT)
  }

  function PackedPayload(p: Packing, fs: seq<FileInfo>): seq<byte> {
    match p
    case NoPacking => Raw.Concatenated(fs)
    case Tar => TarPack.Packed(fs)
    case Index => IndexPack.Packed(fs)
  }

  ghost function CompressedPayload(tb: HuffmanTree.TieBreak, c: Compression, data: seq<byte>): seq<byte> {
    match c
    case NoCompression => data
    case RunLength => Rle.Compressed(data)
    case Huffman => HuffmanStream.Compressed(tb, data)
  }

  function EncryptedPayload(e: Encryption, data: seq<byte>, password: seq<byte>): seq<byte> {
    match e
    case NoEncryption => data
    case XorStream => Ciphers.XorEncrypted(data, password)
    case Vigenere => Ciphers.VigenereEncrypted(data, password)
  }

  function DecryptedPayload(e: Encryption, data: seq<byte>, password: seq<byte>): seq<byte> {
    match e
    case NoEncryption => data
    case XorStream => Ciphers.XorDecrypted(data, password)
    case Vigenere => Ciphers.VigenereDecrypted(data, password)
  }

  /** None when decoding the bit stream reads past its end. */
  function DecompressedPayload(tb: HuffmanTree.TieBreak, c: Compression, data: seq<byte>): Option<seq<byte>> {
    match c
    case NoCompression => Some(data)
    case RunLength => Some(Rle.Decompressed(data))
    case Huffman =>
      if HuffmanStream.BitsPresent(tb, data) then Some(HuffmanStream.Decompressed(tb, data)) else None
  }

  // ----- backup -----

  function LastSlash(s: seq<byte>): (r: int)
    ensures -1 <= r < |s| && (r >= 0 ==> s[r] == 47)
    ensures forall k :: r < k < |s| ==> s[k] != 47
  {
    if s == [] then -1 else if s[|s| - 1] == 47 then |s| - 1 else LastSlash(s[..|s| - 1])
  }

  /** The part of the source path after its last slash. */
  function BaseName(path: seq<byte>): seq<byte> {
    path[LastSlash(path) + 1..]
  }

  /** Paths below a directory named base; no prefix for an empty name or ".". */
  function Prefixed(base: seq<byte>, fs: seq<FileInfo>): (r: seq<FileInfo>)
    ensures |r| == |fs|
    ensures forall k :: 0 <= k < |fs| ==>
      r[k] == if base != [] && base != [46] then fs[k].(relativePath := base + [47] + fs[k].relativePath) else fs[k]
  {
    if base != [] && base != [46]
    then seq(|fs|, k requires 0 <= k < |fs| => fs[k].(relativePath := base + [47] + fs[k].relativePath))
    else fs
  }

  /** The directory that a backup's paths lie below: the last piece of the source path, none for a source
      path that ends in a slash or is "." there. */
  function TopOf(sourceDir: seq<byte>): seq<seq<byte>> {
    var pieces := Paths.Split(sourceDir);
    var last := pieces[|pieces| - 1];
    if last == [] || last == Paths.DOT then [] else [last]
  }

  lemma {:induction false} BaseCut(path: seq<byte>)
    ensures 47 !in BaseName(path)
    ensures path == BaseName(path) || (LastSlash(path) >= 0 && path == path[..LastSlash(path)] + [47] + BaseName(path))
  {
    var i := LastSlash(path);
    hide LastSlash;
    if i >= 0 {
      assert path == path[..i] + [path[i]] + path[i + 1..];
    }
  }

  /** The base name is the last piece of the source path. */
  lemma {:induction false} BaseIsLastPiece(path: seq<byte>)
    ensures 47 !in BaseName(path) && Paths.Split(path)[|Paths.Split(path)| - 1] == BaseName(path)
    ensures path == BaseName(path) || exists up :: path == up + [47] + BaseName(path)
  {
    var base := BaseName(path);
    BaseCut(path);
    hide BaseName, LastSlash, Paths.Split;
    Paths.SplitWhole(base);
    if path != base {
      Paths.SplitJoined(path[..LastSlash(path)], base);
    }
  }

  lemma {:induction false} TopIsBase(sourceDir: seq<byte>)
    ensures var base := BaseName(sourceDir); TopOf(sourceDir) == if base == [] || base == [46] then [] else [base]
    ensures Paths.Split(BaseName(sourceDir)) == [BaseName(sourceDir)]
  {
    BaseIsLastPiece(sourceDir);
    Paths.SplitWhole(BaseName(sourceDir));
    hide BaseName, Paths.Split;
  }

  /** A scanned record in the list of a backup: its path goes on below the last piece of the source path,
      and nothing else changes. */
  lemma {:induction false} PrefixedPath(sourceDir: seq<byte>, fs: seq<FileInfo>, k: nat)
    requires k < |fs|
    ensures var r := Prefixed(BaseName(sourceDir), fs)[k];
            && Paths.Split(r.relativePath) == TopOf(sourceDir) + Paths.Split(fs[k].relativePath)
            && r.(relativePath := []) == fs[k].(relativePath := [])
  {
    var base := BaseName(sourceDir);
    TopIsBase(sourceDir);
    Paths.SplitJoined(base, fs[k].relativePath);
    hide BaseName, Paths.Split, TopOf;
  }

  ghost function Payload(tb: HuffmanTree.TieBreak, p: Packing, c: Compression, e: Encryption,
                         fs: seq<FileInfo>, password: seq<byte>): seq<byte>
  {
    EncryptedPayload(e, CompressedPayload(tb, c, PackedPayload(p, fs)), password)
  }

  /** The backup file for an already prefixed list. */
  ghost function BackupOf(tb: HuffmanTree.TieBreak, p: Packing, c: Compression, e: Encryption,
                          fs: seq<FileInfo>, password: seq<byte>): seq<byte>
  {
    Metadata.HeaderBytes(fs, Flags(p, c, e), PackId(p), CompressId(c), EncryptId(e)) + Payload(tb, p, c, e, fs, password)
  }

  method FindBase(path: seq<byte>) returns (base: seq<byte>)
    ensures base == BaseName(path)
  {
    var lastSlash := |path| - 1;
    while lastSlash >= 0 && path[lastSlash] != 47
      invariant -1 <= lastSlash < |path|
      invariant forall k :: lastSlash < k < |path| ==> path[k] != 47
      decreases lastSlash + 1
    {
      lastSlash := lastSlash - 1;
    }
    base := path[lastSlash + 1..];
  }

  method AddPrefix(sourceDir: seq<byte>, scanned: seq<FileInfo>) returns (files: seq<FileInfo>)
    ensures files == Prefixed(BaseName(sourceDir), scanned)
  {
    var base := FindBase(sourceDir);
    hide BaseName;
    files := scanned;
    if base != [] && base != [46] {
      for i := 0 to |files|
        invariant |files| == |scanned|
        invariant forall k :: 0 <= k < i ==> files[k] == scanned[k].(relativePath := base + [47] + scanned[k].relativePath)
        invariant forall k :: i <= k < |files| ==> files[k] == scanned[k]
      {
        files := files[i := files[i].(relativePath := base + [47] + files[i].relativePath)];
      }
    }
  }

  method PackStage(p: Packing, files: seq<FileInfo>) returns (payload: seq<byte>)
    ensures payload == PackedPayload(p, files)
  {
    match p {
      case NoPacking => payload := Raw.ConcatFiles(files);
      case Tar => payload := TarPack.Pack(files);
      case Index => payload := IndexPack.Pack(files);
    }
  }

  method CompressStage(tb: HuffmanTree.TieBreak, c: Compression, data: seq<byte>) returns (payload: seq<byte>)
    requires c.Huffman? ==> HuffmanStream.Shallow(tb, data)
    ensures payload == CompressedPayload(tb, c, data)
  {
    match c {
      case NoCompression => payload := data;
      case RunLength => payload := Rle.Compress(data);
      case Huffman => payload := HuffmanStream.Compress(tb, data);
    }
  }

  method EncryptStage(e: Encryption, data: seq<byte>, password: seq<byte>) returns (payload: seq<byte>)
    ensures payload == EncryptedPayload(e, data, password)
  {
    match e {
      case NoEncryption => payload := data;
      case XorStream => payload := Ciphers.XorEncrypt(data, password);
      case Vigenere => payload := Ciphers.VigenereEncrypt(data, password);
    }
  }

  /** BackupEngine::run on the scanned list: the payload is replaced stage by stage. */
  method Backup(tb: HuffmanTree.TieBreak, p: Packing, c: Compression, e: Encryption,
                sourceDir: seq<byte>, scanned: seq<FileInfo>, password: seq<byte>)
    returns (out: seq<byte>)
    requires c.Huffman? ==> HuffmanStream.Shallow(tb, PackedPayload(p, Prefixed(BaseName(sourceDir), scanned)))
    ensures out == BackupOf(tb, p, c, e, Prefixed(BaseName(sourceDir), scanned), password)
  {
    hide PackedPayload, CompressedPayload, EncryptedPayload, Prefixed, BaseName;
    var files := AddPrefix(sourceDir, scanned);
    var flags := 0;
    var payload := PackStage(p, files);
    if !p.NoPacking? {
      flags := flags + FLAG_PACK;
    }
    payload := CompressStage(tb, c, payload);
    if !c.NoCompression? {
      flags := flags + FLAG_COMPRESS;
    }
    payload := EncryptStage(e, payload, password);
    if !e.NoEncryption? {
      flags := flags + FLAG_ENCRYPT;
    }
    out := Metadata.SaveHeader(files, flags, PackId(p), CompressId(c), EncryptId(e));
    out := out + payload;
  }

  // ----- restore -----

  /** OutOfRange: a read past the end of the file, undefined in the program.  Refused: `return false`.
      Done: the metadata entries, and the content written for each path. */
  datatype Outcome = OutOfRange | Refused | Done(entries: seq<FileInfo>, written: map<seq<byte>, seq<byte>>)

  function PackOf(flag: bool, id: byte): Option<Packing> {
    if !flag then Some(NoPacking) else if id == 1 then Some(Tar) else if id == 2 then Some(Index) else None
  }

  function CompressOf(flag: bool, id: byte): Option<Compression> {
    if !flag then Some(NoCompression) else if id == 1 then Some(RunLength) else if id == 2 then Some(Huffman) else None
  }

  function EncryptOf(flag: bool, id: byte): Option<Encryption> {
    if !flag then Some(NoEncryption) else if id == 1 then Some(XorStream) else if id == 2 then Some(Vigenere) else None
  }

  /** The first restored record with the path. */
  function Find(restored: seq<FileInfo>, path: seq<byte>): (r: Option<FileInfo>)
    ensures r.Some? ==> r.value in restored && r.value.relativePath == path
    ensures r.None? <==> forall k :: 0 <= k < |restored| ==> restored[k].relativePath != path
  {
    if restored == [] then None
    else if restored[0].relativePath == path then Some(restored[0])
    else Find(restored[1..], path)
  }

  /** Step 7d: each regular entry of the metadata takes the content of the first record of its path. */
  function Written(entries: seq<FileInfo>, restored: seq<FileInfo>): map<seq<byte>, seq<byte>> {
    if entries == [] then map[] else
      var m := Written(entries[..|entries| - 1], restored);
      var info := entries[|entries| - 1];
      var rf := Find(restored, info.relativePath);
      if info.IsRegular() && rf.Some? then m[info.relativePath := rf.value.content] else m
  }

  /** Undoing the pack stage. */
  function UnpackedPayload(p: Packing, data: seq<byte>, entries: seq<FileInfo>): Outcome {
    match p
    case Tar => Done(entries, Written(entries, TarPack.Unpacked(data, 0)))
    case Index =>
      var r := IndexPack.Unpacked(data);
      if r.None? then OutOfRange else Done(entries, Written(entries, r.value))
    case NoPacking =>
      var r := Raw.Parsed(data);
      if r.Wild? then OutOfRange else if r.Refused? then Refused else Done(entries, Written(entries, r.value))
  }

  function RestoredPayload(tb: HuffmanTree.TieBreak, p: Packing, c: Compression, e: Encryption,
                           data: seq<byte>, password: seq<byte>, entries: seq<FileInfo>): Outcome {
    var d := DecompressedPayload(tb, c, DecryptedPayload(e, data, password));
    if d.None? then OutOfRange else UnpackedPayload(p, d.value, entries)
  }

  function Has(flags: nat, flag: nat): bool
    requires flag > 0
  {
    (flags / flag) % 2 == 1
  }

  /** Everything after the header has been read. */
  function RestoredBody(tb: HuffmanTree.TieBreak, h: Metadata.BackupHeader, bak: seq<byte>, password: seq<byte>): Outcome {
    var start := Metadata.FIXED + h.metaSize;
    if start > |bak| then OutOfRange else
      var entries := Metadata.ParsedMeta(bak[Metadata.FIXED..start]);
      var p := PackOf(Has(h.flags, FLAG_PACK), h.packAlgo);
      var c := CompressOf(Has(h.flags, FLAG_COMPRESS), h.compressAlgo);
      var e := EncryptOf(Has(h.flags, FLAG_ENCRYPT), h.encryptAlgo);
      if entries.None? then OutOfRange
      else if p.None? || c.None? || e.None? then Refused
      else RestoredPayload(tb, p.value, c.value, e.value, bak[start..], password, entries.value)
  }

  /** RestoreEngine::run.  A wrong version leaves an empty metadata block to be read, out of range. */
  function RestoreOf(tb: HuffmanTree.TieBreak, bak: seq<byte>, password: seq<byte>): Outcome {
    if |bak| < 4 || FromLE(bak[..4]) != Metadata.MAGIC then Refused else
      var h := Metadata.ParsedHeader(bak);
      if h.None? then OutOfRange else RestoredBody(tb, h.value, bak, password)
  }

  method FindRecord(restored: seq<FileInfo>, path: seq<byte>) returns (rf: Option<FileInfo>)
    ensures rf == Find(restored, path)
  {
    for i := 0 to |restored|
      invariant Find(restored, path) == Find(restored[i..], path)
    {
      if restored[i].relativePath == path {
        return Some(restored[i]);
      }
    }
    rf := None;
  }

  method WriteFiles(entries: seq<FileInfo>, restored: seq<FileInfo>) returns (written: map<seq<byte>, seq<byte>>)
    ensures written == Written(entries, restored)
  {
    written := map[];
    for i := 0 to |entries|
      invariant written == Written(entries[..i], restored)
    {
      assert entries[..i + 1][..i] == entries[..i];
      if entries[i].IsRegular() {
        var rf := FindRecord(restored, entries[i].relativePath);
        if rf.Some? {
          written := written[entries[i].relativePath := rf.value.content];
        }
      }
    }
    assert entries[..|entries|] == entries;
  }

  method UnpackPayload(p: Packing, data: seq<byte>, entries: seq<FileInfo>) returns (o: Outcome)
    requires UnpackedPayload(p, data, entries) != OutOfRange
    ensures o == UnpackedPayload(p, data, entries)
  {
    var restored: seq<FileInfo>;
    match p {
      case Tar => restored := TarPack.Unpack(data);
      case Index => restored := IndexPack.Unpack(data);
      case NoPacking =>
        var ok;
        ok, restored := Raw.RestoreFromRaw(data);
        if !ok {
          return Refused;
        }
    }
    var written := WriteFiles(entries, restored);
    o := Done(entries, written);
  }

  method RestorePayload(tb: HuffmanTree.TieBreak, p: Packing, c: Compression, e: Encryption,
                        data: seq<byte>, password: seq<byte>, entries: seq<FileInfo>) returns (o: Outcome)
    requires RestoredPayload(tb, p, c, e, data, password, entries) != OutOfRange
    ensures o == RestoredPayload(tb, p, c, e, data, password, entries)
  {
    var payload := data;
    match e {
      case NoEncryption =>
      case XorStream => payload := Ciphers.XorDecrypt(payload, password);
      case Vigenere => payload := Ciphers.VigenereDecrypt(payload, password);
    }
    match c {
      case NoCompression =>
      case RunLength => payload := Rle.Decompress(payload);
      case Huffman => payload := HuffmanStream.Decompress(tb, payload);
    }
    o := UnpackPayload(p, payload, entries);
  }

  method Restore(tb: HuffmanTree.TieBreak, bak: seq<byte>, password: seq<byte>) returns (o: Outcome)
    requires RestoreOf(tb, bak, password) != OutOfRange
    ensures o == RestoreOf(tb, bak, password)
  {
    if |bak| < 4 || FromLE(bak[..4]) != Metadata.MAGIC {
      return Refused;
    }
    var h := Metadata.ParsedHeader(bak).value;
    var start := Metadata.FIXED + h.metaSize;
    var entries := Metadata.DeserializeList(bak[Metadata.FIXED..start]);
    var p := PackOf(Has(h.flags, FLAG_PACK), h.packAlgo);
    var c := CompressOf(Has(h.flags, FLAG_COMPRESS), h.compressAlgo);
    var e := EncryptOf(Has(h.flags, FLAG_ENCRYPT), h.encryptAlgo);
    if p.None? || c.None? || e.None? {
      return Refused;
    }
    o := RestorePayload(tb, p.value, c.value, e.value, bak[start..], password, entries);
  }

  // ----- round trip -----

  /** Vigenere with an empty password encrypts nothing. */
  predicate Keyed(e: Encryption, password: seq<byte>) {
    e.Vigenere? ==> password != []
  }

  /** ... and its decryption drops the eight bytes where a size would be. */
  function WithoutSize(data: seq<byte>): seq<byte> {
    if |data| < 8 then [] else data[8..]
  }

  lemma {:induction false} DecryptAfterEncrypt(e: Encryption, data: seq<byte>, password: seq<byte>)
    ensures DecryptedPayload(e, EncryptedPayload(e, data, password), password) == if Keyed(e, password) then data else WithoutSize(data)
  {
    match e
    case NoEncryption =>
    case XorStream => Ciphers.XorRoundTrip(data, password);
    case Vigenere => Ciphers.VigenereRoundTrip(data, password);
  }

  /** Huffman loses exactly the non-empty payloads with a single byte value. */
  ghost predicate Lossy(c: Compression, data: seq<byte>) {
    c.Huffman? && !HuffmanStream.TwoDistinct(data)
  }

  ghost predicate Compressible(tb: HuffmanTree.TieBreak, c: Compression, data: seq<byte>) {
    match c
    case NoCompression => true
    case RunLength => |data| < U64
    case Huffman => HuffmanStream.Shallow(tb, data) && 64 * |data| < U64 && HuffmanStream.NoCountWraps(data)
  }

  lemma {:induction false} DecompressUndoesCompress(tb: HuffmanTree.TieBreak, c: Compression, data: seq<byte>)
    requires Compressible(tb, c, data)
    ensures DecompressedPayload(tb, c, CompressedPayload(tb, c, data)) == Some(if Lossy(c, data) then [] else data)
  {
    match c
    case NoCompression =>
    case RunLength => Rle.RleRoundTrip(data);
    case Huffman => HuffmanStream.HuffmanRoundTrip(tb, data);
  }

  lemma {:induction false} FlagsRoundTrip(p: Packing, c: Compression, e: Encryption)
    ensures PackOf(Has(Flags(p, c, e), FLAG_PACK), PackId(p)) == Some(p)
    ensures CompressOf(Has(Flags(p, c, e), FLAG_COMPRESS), CompressId(c)) == Some(c)
    ensures EncryptOf(Has(Flags(p, c, e), FLAG_ENCRYPT), EncryptId(e)) == Some(e)
  {
  }

  /** What every backup needs: the metadata fits its format, the payload the compressor's counters. */
  ghost predicate Admissible(tb: HuffmanTree.TieBreak, p: Packing, c: Compression, fs: seq<FileInfo>) {
    && Metadata.AllStorable(fs) && |fs| < U32 && |Metadata.MetaBytes(fs)| < U32
    && Compressible(tb, c, PackedPayload(p, fs))
  }

  /** Unpacking what decompression leaves. */
  function Unstaged(p: Packing, d: Option<seq<byte>>, entries: seq<FileInfo>): Outcome {
    if d.None? then OutOfRange else UnpackedPayload(p, d.value, entries)
  }

  /** What a restore gives after a Vigenere encryption with an empty password. */
  ghost function UnkeyedOutcome(tb: HuffmanTree.TieBreak, p: Packing, c: Compression, fs: seq<FileInfo>): Outcome {
    Unstaged(p, DecompressedPayload(tb, c, WithoutSize(CompressedPayload(tb, c, PackedPayload(p, fs)))), Metadata.StoredAll(fs))
  }

  /** Whatever the stages and the password, restoring a backup is unpacking its own packed payload, or the
      empty one where Huffman loses it, beside the stored metadata; only under Vigenere with an empty
      password it is what the compressed payload without its first eight bytes gives. */
  lemma {:induction false} RestoreOfBackup(tb: HuffmanTree.TieBreak, p: Packing, c: Compression, e: Encryption,
                                           fs: seq<FileInfo>, password: seq<byte>)
    requires Admissible(tb, p, c, fs)
    ensures RestoreOf(tb, BackupOf(tb, p, c, e, fs, password), password) ==
            var data := PackedPayload(p, fs);
            if Keyed(e, password) then UnpackedPayload(p, if Lossy(c, data) then [] else data, Metadata.StoredAll(fs))
            else UnkeyedOutcome(tb, p, c, fs)
  {
    var meta := Metadata.MetaBytes(fs);
    var h := Metadata.BackupHeader(Flags(p, c, e), PackId(p), CompressId(c), EncryptId(e), |meta|);
    var payload := Payload(tb, p, c, e, fs, password);
    var bak := BackupOf(tb, p, c, e, fs, password);
    hide PackedPayload, UnpackedPayload, Payload, RestoredPayload, RestoredBody, FromLE, PackId, CompressId, EncryptId, Flags;
    hide Keyed, WithoutSize, CompressedPayload, DecompressedPayload, Lossy;
    HeaderOfBackup(h, meta, payload, bak);
    BodyOfBackup(tb, p, c, e, h, fs, bak, payload, password);
    PayloadOfBackup(tb, p, c, e, fs, password, Metadata.StoredAll(fs));
  }

  lemma {:induction false} BodyOfBackup(tb: HuffmanTree.TieBreak, p: Packing, c: Compression, e: Encryption,
      h: Metadata.BackupHeader, fs: seq<FileInfo>, bak: seq<byte>, payload: seq<byte>, password: seq<byte>)
    requires h == Metadata.BackupHeader(Flags(p, c, e), PackId(p), CompressId(c), EncryptId(e), |Metadata.MetaBytes(fs)|)
    requires Metadata.AllStorable(fs) && |fs| < U32
    requires var start := Metadata.FIXED + h.metaSize;
             start <= |bak| && bak[Metadata.FIXED..start] == Metadata.MetaBytes(fs) && bak[start..] == payload
    ensures RestoredBody(tb, h, bak, password) == RestoredPayload(tb, p, c, e, payload, password, Metadata.StoredAll(fs))
  {
    hide RestoredPayload, PackOf, CompressOf, EncryptOf, Has, PackId, CompressId, EncryptId, Flags;
    FlagsRoundTrip(p, c, e);
    Metadata.MetaRoundTrip(fs);
  }

  lemma {:induction false} PayloadOfBackup(tb: HuffmanTree.TieBreak, p: Packing, c: Compression, e: Encryption,
      fs: seq<FileInfo>, password: seq<byte>, entries: seq<FileInfo>)
    requires Compressible(tb, c, PackedPayload(p, fs))
    ensures RestoredPayload(tb, p, c, e, Payload(tb, p, c, e, fs, password), password, entries) ==
            var data := PackedPayload(p, fs);
            Unstaged(p, if !Keyed(e, password) then DecompressedPayload(tb, c, WithoutSize(CompressedPayload(tb, c, data)))
                        else Some(if Lossy(c, data) then [] else data), entries)
  {
    hide PackedPayload, CompressedPayload, EncryptedPayload, DecryptedPayload, DecompressedPayload, UnpackedPayload, Lossy, Keyed, WithoutSize;
    var data := PackedPayload(p, fs);
    DecryptAfterEncrypt(e, CompressedPayload(tb, c, data), password);
    DecompressUndoesCompress(tb, c, data);
  }

  lemma {:induction false} HeaderOfBackup(h: Metadata.BackupHeader, meta: seq<byte>, payload: seq<byte>, bak: seq<byte>)
    requires h.flags < U32 && h.metaSize == |meta| < U32
    requires bak == Fields.PutAll(Metadata.HeaderFields(h)) + meta + payload
    ensures |bak| >= 4 && FromLE(bak[..4]) == Metadata.MAGIC && Metadata.ParsedHeader(bak) == Some(h)
    ensures var start := Metadata.FIXED + |meta|;
            start <= |bak| && bak[Metadata.FIXED..start] == meta && bak[start..] == payload
  {
    hide FromLE;
    assert bak == Fields.PutAll(Metadata.HeaderFields(h)) + (meta + payload);
    Metadata.HeaderRoundTrip(h, bak, meta + payload);
    assert bak[..4] == bak[0..4];
    var start := Metadata.FIXED + |meta|;
    assert bak[Metadata.FIXED..start] == bak[Metadata.FIXED..][..|meta|];
    assert bak[start..] == bak[Metadata.FIXED..][|meta|..];
  }
}
