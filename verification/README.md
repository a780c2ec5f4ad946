# Verified model of the backup system

A Dafny model of the backup library: scanning a directory tree with filters, packing (tar, index or
raw), compressing (RLE or Huffman), encrypting (XOR or Vigenere), writing and restoring backup files,
and the client/server protocol that stores them on a server. Loops, buffers and objects of the program
are methods and classes here, each proved against a specification function; the properties are lemmas
about those functions. `dafny verify dfyconfig.toml` checks everything.

## Main results

1. `HuffmanCodec.HuffmanIsOptimal`: no prefix-free code needs fewer bits; `HuffmanDepth.DepthBound`: no path is
   longer than 45.
2. `HuffmanStream.HuffmanRoundTrip`: exactly the inputs that survive compression.
3. `Rle.RleRoundTrip`, `Rle.RleBoundIsTight`; `Ciphers.XorRoundTrip`, `Ciphers.VigenereRoundTrip` (exact condition);
   `Digests.XorOpensIff`, `Ciphers.VigenereOpensIff`: exactly which other passwords open a cipher.
4. `TarPack.TarRoundTrip`, `TarPack.TarKeepsEntry` (exact condition), `IndexPack.IndexRoundTrip`, `IndexPack.RangesTile`.
5. `Pipeline.BackupThenRestore`: the identity of the whole pipeline, with its exact condition under tar;
   `Pipeline.CutNameTakesOver`: an input where it fails; `EndToEnd.ScanBackupRestore`: from the directory tree;
   `Remote.RemoteBackupRestore`: from one client's tree over the network to another client.
6. `Scanner.ScanIsPick`: the recursive scan is a declarative selection; `ScanTree.ScanHolds`: from the tree alone; `ScanLaws.ScanInOrder`,
   `ScanLaws.ExcludeShrinksScan`, `ScanLaws.IncludeGrowsScan`.
7. `Wire.Carry`: any messages over a connection, however the bytes are cut and whichever call fails.
8. `SessionSafety.RunGood`: what every run of a session keeps; `Storage.UploadSeenIff`: who sees an upload;
   `Privacy.AnswerFixedIff` and `Privacy.RunTwins`: exactly when a session shows its user nothing of others.
   `Storage.SlashShares` and `Storage.IdLeadsOut` are inputs where names and ids do not separate users.
9. `Newest.LatestOverRuns` and `Newest.NamesOverRuns`: numbers and names of backups over all runs;
   `Inventory.LatestFetched` and `Inventory.ListFetched`: what a client then gets as the latest and as the list.
10. `SessionRun.ServerSession.Run`, `ClientRun.NetworkClient.Connect`: the objects refine the machines.
11. `Lockstep.AlwaysInStep`: keys, counters and channels agree in every reachable state;
    `Lockstep.OpensOnlyThere` and `Digests.SealedSame`: exactly under which numbers a message opens.
12. `Admission.OnlyRightPassword`: no run lets a wrong password in; `Entry.LoginIff`: the right one gets in;
    `Digests.PasswordSame`: exactly which passwords pass for another, and `Entry.OtherPasswordGetsIn`: two that do.
13. `Delivery.UploadArrives`: an upload is all or nothing; `Delivery.UploadedBytesFetched`: one client's bytes
    are the next client's, whatever happens in between.

## Layout

- Bytes and fields: `Bytes.dfy`, `Fields.dfy`.
- Huffman: `HuffmanTree.dfy` (counting, queue, merge loop), `HuffmanDepth.dfy` (Fibonacci bound),
  `PrefixCodes.dfy` (Kraft inequality), `HuffmanOptimal.dfy` (exchange argument), `HuffmanCodes.dfy`
  (paths and code table), `HuffmanCodec.dfy` (cost and optimality), `HuffmanStream.dfy` (bit stream,
  compress, decompress, round trip).
- Other stages: `Rle.dfy`, `Ciphers.dfy`, `FileRecords.dfy`, `Metadata.dfy`, `TarPack.dfy`,
  `IndexPack.dfy`, `Raw.dfy`.
- `Digests.dfy`: what of a password, a key or a message number hash, key stream and ciphers depend on.
- Pipeline: `Engine.dfy` (the two engines), `Pipeline.dfy` (what comes back), `EndToEnd.dfy` (from the
  directory tree on).
- Scan: `Filter.dfy`, `Scanner.dfy` (walk and declarative rule), `ScanLaws.dfy` (order, monotonicity),
  `ScanTree.dfy` (the scan told by the tree alone).
- Network: `Wire.dfy` (framing, socket), `Messages.dfy`, `Transport.dfy`, `Users.dfy`, `Paths.dfy`,
  `BackupIds.dfy`, `Storage.dfy`, `Session.dfy` (the server session as a machine), `SessionSafety.dfy` (its invariant),
  `BackupList.dfy` (the list as it is read), `Answers.dfy` (what a ready session answers),
  `StoreIntegrity.dfy` (sessions over one disk, uploads and restores), `Newest.dfy` (backup numbers and
  names over all runs), `Privacy.dfy` (what a session shows), `SessionRun.dfy` (the session object),
  `ServerVoice.dfy` and `Lockstep.dfy` (both ends and the channels), `Entry.dfy` (how a client gets in),
  `Admission.dfy` (and who does not), `ClientRun.dfy` (the client object), `Delivery.dfy` (from one client to
  the next), `Inventory.dfy` (the latest backup and the list over all runs), `Remote.dfy` (a remote backup as a whole).

## Conventions

- Integers are unbounded; every 8-, 16-, 32- and 64-bit cut of the program is written out as a modulus
  or stated as a limit. Bitwise `|` of disjoint bits is written as addition.
- The order among equal frequencies in the Huffman queue is an arbitrary function of the table, the
  number of pops so far and the queue; the theorems hold for every such function.
- A read outside a buffer is `None`, `OutOfRange` or the phase `Undefined`, never excluded by silence:
  methods ask that it does not happen, and for every output of the writing side it is proved not to.
- A server session is a machine over arriving messages; an empty message stands for a time-out or a lost
  connection. `said` and `heard` are histories of the plain messages sent and received under encryption.
- Random bytes (salt, challenge), file times and the results of system calls are inputs.

## Where code and comments differ

- `libbackup/src/core/FileScanner.cpp:58` says that a directory hit by an exclude rule is left out; inside
  an included subtree the code (lines 83-98) emits it and only skips what is in it. The model follows the
  code.
- `libbackup/include/compress/HuffmanCompressStrategy.h:22` gives code lengths of 1 to 32; the code allows
  0 (one distinct byte) and, below 2^32 input bytes, up to 45.
- `libbackup/src/network/ServerStorage.cpp:206` takes the last id in text order as the newest, which is
  right up to 999999 backups and wrong at 1000000.
- `libbackup/src/encrypt/XorEncryptStrategy.cpp:6` gives the generator's modulus as 2^31; its 32-bit state
  makes it 2^32.
- `libbackup/include/network/NetworkProtocol.h:15` puts a challenge response into LOGIN_REQUEST and line 32
  leaves the name out of BACKUP_LIST_RESPONSE; the code sends only the user name in the one, and id, name
  and time stamp in the other.

## Model

| member | source | states |
|---|---|---|
| `HuffmanTree.CountFrequencies` | libbackup/src/compress/HuffmanCompressStrategy.cpp:8-16 | entry b of the array is the number of occurrences of b in the data, modulo 2^32 |
| `HuffmanTree.BuildTree` | libbackup/src/compress/HuffmanCompressStrategy.cpp:20-53 | the loop over the queue returns the specified merge tree for any rule that breaks ties between equal frequencies; an all-zero table gives the sentinel leaf |
| `HuffmanTree.MergeLoopWellBuilt` | libbackup/src/compress/HuffmanCompressStrategy.cpp:40-52 | the merge loop keeps exactly the queued symbols, each in one leaf, and the root weight is the total frequency |
| `HuffmanTree.TreeSymbols` | libbackup/src/compress/HuffmanCompressStrategy.cpp:20-53 | for any table, wrapped counters included, the tree has each symbol in one leaf, and exactly those with a positive counter if it has two leaves |
| `HuffmanDepth.WeightAtLeastFib` | libbackup/src/compress/HuffmanCompressStrategy.cpp:40-50 | a tree of height h in which every child is no heavier than its parent's sibling weighs at least Fib(h + 2) |
| `HuffmanDepth.DepthBound` | libbackup/src/compress/HuffmanCompressStrategy.cpp:40-71 | for every tie-breaking and total below 2^32: the weight is at least Fib(height + 2), so no path is longer than 45 and the 64-bit code word holds every code |
| `HuffmanOptimal.Contract` | libbackup/src/compress/HuffmanCompressStrategy.cpp:40-50 | exchange argument: from any lengths meeting the Kraft inequality, merging two lightest weights leaves lengths that meet it and cost no more |
| `HuffmanOptimal.MergeLoopOptimal` | libbackup/src/compress/HuffmanCompressStrategy.cpp:40-52 | the tree of the merge loop costs no more than any lengths meeting the Kraft inequality, whatever the tie-breaking |
| `PrefixCodes.KraftInequality` | libbackup/src/compress/HuffmanCompressStrategy.cpp:55-71 | any prefix-free list of words of at most m bits has Kraft sum at most 2^m |
| `HuffmanCodec.HuffmanIsOptimal` | libbackup/src/compress/HuffmanCompressStrategy.cpp:20-53 | for all non-empty data below 2^32 bytes, every tie-breaking and every prefix-free code for the data: the encoded bits are no more than that code needs |
| `HuffmanCodec.NoTreeIsCheaper` | libbackup/src/compress/HuffmanCompressStrategy.cpp:20-53 | the same against every other binary tree over the data's bytes |
| `HuffmanCodes.GenerateCodes` | libbackup/src/compress/HuffmanCompressStrategy.cpp:57-71 | the depth-first search fills the code array in place as specified, its shifts below 64 |
| `HuffmanCodes.FilledCodesArePaths` | libbackup/src/compress/HuffmanCompressStrategy.cpp:57-71 | the entry of every symbol is its root-to-leaf path: bit i of the code word is step i, the length is the depth; other entries are untouched |
| `HuffmanCodes.PathsPrefixFree` | libbackup/src/compress/HuffmanCompressStrategy.cpp:57-71 | paths to different symbols are not prefixes of each other, in any tree without repeated leaves |
| `HuffmanCodes.TableIsPrefixFree` | libbackup/src/compress/HuffmanCompressStrategy.cpp:119-143 | in the table that compress fills, the code words of different bytes are not prefixes of each other |
| `HuffmanCodes.TreeProps` | libbackup/src/compress/HuffmanCompressStrategy.cpp:99-122 | for every non-empty input below 2^32 bytes the tree has exactly one leaf per occurring byte, root weight the input size, and height at most 45 |
| `HuffmanStream.EmitCode` | libbackup/src/compress/HuffmanCompressStrategy.cpp:129-143 | the bit loop appends exactly the code's bits, lowest first, to what the byte buffer holds |
| `HuffmanStream.EmitBits` | libbackup/src/compress/HuffmanCompressStrategy.cpp:124-147 | the buffer ends as the packed bits of all the codes, the last byte filled up with zeros |
| `HuffmanStream.TotalBits` | libbackup/src/compress/HuffmanCompressStrategy.cpp:149-153 | the sum of the code lengths is the number of bits in the stream |
| `HuffmanStream.Compress` | libbackup/src/compress/HuffmanCompressStrategy.cpp:90-163 | compress returns size, frequency table, bit count and the packed codes of the table, for every input whose tree is at most 64 deep, beyond which the program's shift is undefined |
| `HuffmanStream.Decompress` | libbackup/src/compress/HuffmanCompressStrategy.cpp:167-228 | decompress returns what the specified decoder reads; its only demand is that the bits that it does read are there |
| `HuffmanStream.CompressedBitsPresent` | libbackup/src/compress/HuffmanCompressStrategy.cpp:149-158 | which they are for every compressed stream |
| `HuffmanStream.HuffmanRoundTrip` | libbackup/src/compress/HuffmanCompressStrategy.cpp:90-228 | wherever compress is defined, decompress after compress is the identity if and only if the data is empty, or has two distinct bytes and no byte that occurs a multiple of 2^32 times; with one distinct byte the result is empty |
| `HuffmanStream.SmallIsShallow` | libbackup/src/compress/HuffmanCompressStrategy.cpp:57-71 | below 2^32 bytes compress is defined |
| `Rle.Compress` | libbackup/src/compress/RleCompressStrategy.cpp:5-66 | the nested greedy loops produce the specified blocks |
| `Rle.Decompress` | libbackup/src/compress/RleCompressStrategy.cpp:68-105 | the expansion loop produces the specified output, truncated blocks and the size limit included |
| `Rle.BlockEncodes` | libbackup/src/compress/RleCompressStrategy.cpp:47-62 | every emitted control byte describes a block of 1 to 128 input bytes, as a run or as a literal |
| `Rle.BlockIsGreedy` | libbackup/src/compress/RleCompressStrategy.cpp:19-63 | where three equal bytes start, two bytes stand for the run as far as it goes; elsewhere a literal block goes as far as no three equal bytes start in it; no block covers more than 128 bytes |
| `Rle.RleRoundTrip` | libbackup/src/compress/RleCompressStrategy.cpp:5-105 | decompress after compress is the identity on every input |
| `Rle.RleBound` | libbackup/src/compress/RleCompressStrategy.cpp:19-63 | the output is at most 8 + n + ceil(n / 128) bytes |
| `Rle.RleBoundIsTight` | libbackup/src/compress/RleCompressStrategy.cpp:19-63 | for every n there is an input that reaches the bound |
| `Rle.RleOfConstant` | libbackup/src/compress/RleCompressStrategy.cpp:19-63 | n equal bytes take 8 + 2 * ceil(n / 128) bytes, and one more if two are left over |
| `Ciphers.XorEncrypt` | libbackup/src/encrypt/XorEncryptStrategy.cpp:35-50 | the 8-byte size in the clear, then the input under the password's key stream |
| `Ciphers.XorDecrypt` | libbackup/src/encrypt/XorEncryptStrategy.cpp:52-67 | drops the size and applies the same key stream; nothing for input below 8 bytes |
| `Ciphers.XorRoundTrip` | libbackup/src/encrypt/XorEncryptStrategy.cpp:20-67 | decrypt after encrypt is the identity for every password |
| `Digests.XorCipherIsLow` | libbackup/src/encrypt/XorEncryptStrategy.cpp:5-33 | the cipher computed in bytes: byte k is the input byte under the generator modulo 256, 17 + k steps after the password's digest |
| `Digests.XorCipherSame` | libbackup/src/encrypt/XorEncryptStrategy.cpp:5-33 | two passwords give the same cipher text of a non-empty input if and only if their digests, the seeds modulo 256, are the same, and never if they differ in one character |
| `Digests.XorOpensIff` | libbackup/src/encrypt/XorEncryptStrategy.cpp:20-67 | a password opens what another one encrypted if and only if their digests are the same or there was nothing to encrypt |
| `Ciphers.VigenereEncrypt` | libbackup/src/encrypt/VigenereEncryptStrategy.cpp:3-24 | size and shifted bytes, or the input itself under an empty password |
| `Ciphers.VigenereDecrypt` | libbackup/src/encrypt/VigenereEncryptStrategy.cpp:26-54 | the bytes shifted back; under an empty password the first 8 bytes are dropped |
| `Ciphers.VigenereRoundTrip` | libbackup/src/encrypt/VigenereEncryptStrategy.cpp:3-54 | decrypt after encrypt is the identity if and only if the password is non-empty or the input is empty |
| `Ciphers.VigenereSame` | libbackup/src/encrypt/VigenereEncryptStrategy.cpp:3-24 | two passwords give the same cipher text if and only if, repeated, they agree on the length of the input |
| `Ciphers.VigenereOpensIff` | libbackup/src/encrypt/VigenereEncryptStrategy.cpp:3-54 | a password opens what another one encrypted if and only if the two so agree or the input is empty |
| `FileRecords.Serialize` | libbackup/src/core/FileInfo.cpp:99-121 | the fields in order, little endian, strings with 16-bit lengths, the device number only for devices |
| `FileRecords.Deserialize` | libbackup/src/core/FileInfo.cpp:123-142 | reads the same fields at any offset and advances it |
| `FileRecords.InfoRoundTrip` | libbackup/src/core/FileInfo.cpp:99-142 | a record serialized anywhere inside a larger buffer is read back, without content and with a device number only for devices, and exactly its bytes are consumed |
| `Metadata.SerializeList` | libbackup/src/metadata/MetadataSerializer.cpp:75-91 | count, then a length prefix and the record for each file |
| `Metadata.DeserializeList` | libbackup/src/metadata/MetadataSerializer.cpp:93-106 | reads count records, ignoring the length prefixes |
| `Metadata.MetaRoundTrip` | libbackup/src/metadata/MetadataSerializer.cpp:75-106 | the list comes back in order, without contents |
| `Metadata.StoredBytes` | libbackup/src/metadata/MetadataSerializer.cpp:75-106 | a list that was read back is serialized to the same bytes |
| `Metadata.SaveHeader` | libbackup/src/metadata/MetadataStore.cpp:7-35 | the header fields in order, then the metadata block |
| `Metadata.HeaderRoundTrip` | libbackup/src/metadata/MetadataStore.cpp:7-70 | a header in front of any bytes is read back and leaves exactly those bytes |
| `TarPack.WriteOctal` | libbackup/src/pack/TarPackStrategy.cpp:11-29 | the digit loop leaves the zero-padded octal field in its place of the buffer and nothing else changed |
| `TarPack.ReadOctal` | libbackup/src/pack/TarPackStrategy.cpp:31-39 | the digit loop returns, modulo 2^64, the number that the octal digits before the first NUL spell |
| `TarPack.OctalRoundTrip` | libbackup/src/pack/TarPackStrategy.cpp:11-39 | a field of n characters reads back the value modulo 8^(n - 1) |
| `TarPack.BuildHeader` | libbackup/src/pack/TarPackStrategy.cpp:41-72 | the 512-byte header is built in place as specified |
| `TarPack.ParseHeader` | libbackup/src/pack/TarPackStrategy.cpp:74-102 | the header is parsed as specified |
| `TarPack.Pack` | libbackup/src/pack/TarPackStrategy.cpp:104-131 | header, content and padding of every file, then two zero blocks |
| `TarPack.Unpack` | libbackup/src/pack/TarPackStrategy.cpp:133-183 | the offset loop returns the specified entries up to the end mark or the end of the data |
| `TarPack.EntryRoundTrip` | libbackup/src/pack/TarPackStrategy.cpp:104-183 | one entry in front of anything is read back as its tar view, and the offset lands on what follows |
| `TarPack.TarRoundTrip` | libbackup/src/pack/TarPackStrategy.cpp:104-183 | unpack after pack gives the tar view of every file, in order, for any list whose sizes fit the octal size field |
| `TarPack.TarKeepsEntry` | libbackup/src/pack/TarPackStrategy.cpp:41-102 | path, type, permissions, owner, group, modification time, link and content survive if and only if the entry is within the header's limits |
| `IndexPack.SerializeEntry` | libbackup/src/pack/IndexPackStrategy.cpp:7-34 | a directory entry is written field by field |
| `IndexPack.DeserializeEntry` | libbackup/src/pack/IndexPackStrategy.cpp:36-69 | a directory entry is read field by field at an offset |
| `IndexPack.Layout` | libbackup/src/pack/IndexPackStrategy.cpp:100-126 | the loop lays the contents out one after the other and records each offset |
| `IndexPack.Pack` | libbackup/src/pack/IndexPackStrategy.cpp:100-155 | data area, central directory and end record |
| `IndexPack.Unpack` | libbackup/src/pack/IndexPackStrategy.cpp:157-210 | directory found through the end record, contents cut out by range |
| `IndexPack.RangesTile` | libbackup/src/pack/IndexPackStrategy.cpp:100-126 | every position of the data area lies in the range of exactly one entry |
| `IndexPack.RangeHoldsContent` | libbackup/src/pack/IndexPackStrategy.cpp:100-126 | the ranges follow each other without a gap and each holds its own file's content |
| `IndexPack.IndexRoundTrip` | libbackup/src/pack/IndexPackStrategy.cpp:100-210 | unpack after pack gives every path, type, permissions, owner, group, modification time, link and content in order |
| `Raw.ConcatFiles` | libbackup/src/core/BackupEngine.cpp:26-60 | count, then path, length and content of every non-empty regular file |
| `Raw.RestoreFromRaw` | libbackup/src/core/RestoreEngine.cpp:286-342 | the offset loop succeeds and returns files exactly as specified, every refusal included; its only demand is that no content length makes the test's sum wrap around 64 bits |
| `Raw.WrappedLength` | libbackup/src/core/RestoreEngine.cpp:325-326 | a failing input: the length 2^64 - 14 of a file at offset 14 passes the test, and the program reads past the end |
| `Raw.RawRoundTrip` | libbackup/src/core/RestoreEngine.cpp:286-342 | the non-empty regular files come back in order, unless there are more than a million |
| `Engine.AddPrefix` | libbackup/src/core/BackupEngine.cpp:76-90 | the last component of the source directory is put in front of every path, unless it is empty or a dot |
| `Engine.BaseIsLastPiece` | libbackup/src/core/BackupEngine.cpp:76-83 | the prefix has no slash and is the last piece of the source path, which is it, or ends with a slash and it |
| `Engine.PrefixedPath` | libbackup/src/core/BackupEngine.cpp:84-88 | every path of the backup's list, cut at its slashes, is that piece followed by the pieces of the scanned path; nothing else of a record changes |
| `Engine.Backup` | libbackup/src/core/BackupEngine.cpp:62-151 | pack, compress and encrypt stage by stage behind the header that says which; under Huffman where compress is defined |
| `Engine.Restore` | libbackup/src/core/RestoreEngine.cpp:37-254 | the stages are undone by the header's flags and each regular file gets the content found under its path |
| `Engine.RestoreOfBackup` | libbackup/src/core/RestoreEngine.cpp:119-152 | for every choice of stages and every password, restore unpacks the very payload that backup packed, or the empty one where Huffman loses it; only under Vigenere with an empty password it works on the compressed payload without its first 8 bytes |
| `Pipeline.RestoreTar` | libbackup/src/core/RestoreEngine.cpp:119-248 | outcome of a tar backup for every compression, encryption and password, the empty list under Huffman included; for Vigenere with an empty password it is that of the payload without its first 8 bytes |
| `Pipeline.RestoreIndex` | libbackup/src/core/RestoreEngine.cpp:119-248 | outcome of an index backup, likewise |
| `Pipeline.RestoreRaw` | libbackup/src/core/RestoreEngine.cpp:119-248 | outcome of a raw backup, likewise: refused exactly above a million files, or under Huffman without a non-empty file |
| `Pipeline.BackupThenRestore` | libbackup/src/core/RestoreEngine.cpp:37-254 | tar or index, any compression, any encryption but Vigenere with an empty password: the same metadata list and the same content for every regular path, under index always, under tar if and only if for every regular file the first record whose path, cut to 100 bytes and at a NUL, is the file's path carries the file's content |
| `Pipeline.RawBackupThenRestore` | libbackup/src/core/RestoreEngine.cpp:37-254 | raw mode, Vigenere with an empty password aside: refused in those cases, otherwise the same metadata list and exactly the non-empty files |
| `Pipeline.NoFilesSurvive` | libbackup/src/core/RestoreEngine.cpp:37-254 | a list without regular files comes back under every password, the empty one included, exactly when the restore ends with success; under tar without Huffman it always does |
| `Pipeline.EmptyPasswordLoses` | libbackup/src/encrypt/VigenereEncryptStrategy.cpp:3-54 | a failing input for Vigenere with an empty password: one empty file with a path of at most eight bytes, packed by tar, is not written |
| `Pipeline.TarBringsBackIff` | libbackup/src/core/RestoreEngine.cpp:221-248 | under tar a regular file comes back with its own content if and only if the first record whose cut path is its path carries that content; something is written for it if and only if its path has no NUL and at most 100 bytes |
| `Pipeline.ShortPathsPreserved` | libbackup/src/core/RestoreEngine.cpp:221-248 | distinct paths without a NUL and of at most 100 bytes meet that condition |
| `Pipeline.CutNameTakesOver` | libbackup/src/core/RestoreEngine.cpp:221-248 | a failing input: a path one byte longer than another file's 100-byte path and before it; the short path gets the long one's content and the long one nothing |
| `Pipeline.PrefixKeepsDistinct` | libbackup/src/core/BackupEngine.cpp:76-90 | different paths stay different under the prefix |
| `EndToEnd.ScanBackupRestore` | libbackup/src/core/BackupEngine.cpp:62-151 | from a source directory: scan with any filter, backup and restore give the scanned metadata in order, below the last piece of the source path, and every regular content under its own path, with the same exceptions and the same condition under tar |
| `Remote.ReplySendable` | libbackup/src/network/ServerSession.cpp:390-446 | the server answers the restore of a client's backup with the file and the metadata bytes that the client sent, in frames that hold them |
| `Remote.StoredParts` | libbackup/src/network/ServerSession.cpp:318-351 | what an uploaded backup file leaves on the server's disk: the header with the metadata block in one file, the payload in another, and the records as the client found them |
| `Remote.RemoteBackupRestore` | libbackup/src/network/NetworkBackupClient.cpp:164-250 | from one client's directory tree over the network and any later sessions to another client, which asks for it by an id or for the latest where it is that: what that one collects is not complete yet, or the backup file, and restoring that gives the scanned metadata and every regular content under the same condition as before |
| `Filter.CompositeFilter.IsExcluded` | libbackup/src/filter/CompositeFilter.cpp:112-119 | true if and only if some exclude rule hits |
| `Filter.CompositeFilter.IsMatch` | libbackup/src/filter/CompositeFilter.cpp:123-149 | true if and only if no exclude rule hits and every dimension with include rules has one that hits |
| `Filter.OrderDoesNotMatter` | libbackup/src/filter/CompositeFilter.cpp:112-149 | the decisions depend on the set of rules only |
| `Filter.AddingExclude` | libbackup/src/filter/CompositeFilter.cpp:123-141 | an added exclude rule never turns a refusal into a match |
| `Filter.AddingInclude` | libbackup/src/filter/CompositeFilter.cpp:123-148 | an added include rule in a dimension that has one never turns a match into a refusal |
| `Scanner.ScanRecursive` | libbackup/src/core/FileScanner.cpp:19-108 | the recursive loop appends exactly the specified walk to the shared result |
| `Scanner.ScanPicks` | libbackup/src/core/FileScanner.cpp:59-104 | with the flag standing for "some ancestor matches", the walk emits exactly the visits that the rule selects |
| `Scanner.ScanIsPick` | libbackup/src/core/FileScanner.cpp:9-108 | the scan is all entries in walk order, filtered by the rule: nothing below an excluded directory; a directory if it or an ancestor matches, excluded or not; anything else if not excluded and it or an ancestor matches |
| `ScanTree.ScanHolds` | libbackup/src/core/FileScanner.cpp:19-108 | told by the tree alone: a path is returned if and only if its pieces lead, through directories that can be opened, to an entry that can be read and that the filter's rule chooses, and its record holds that entry's own attributes and content |
| `ScanLaws.ScanInOrder` | libbackup/src/core/FileScanner.cpp:34-105 | every path occurs once and each directory comes before everything below it |
| `ScanLaws.ExcludeShrinksScan` | libbackup/src/core/FileScanner.cpp:59-104 | an added exclude rule leaves a subsequence of the result |
| `ScanLaws.IncludeGrowsScan` | libbackup/src/core/FileScanner.cpp:59-104 | an added include rule in a restricted dimension leaves a supersequence |
| `ScanLaws.ScanIgnoresRuleOrder` | libbackup/src/core/FileScanner.cpp:59-104 | the result does not depend on the order of the rules |
| `Wire.FrameRoundTrip` | libbackup/src/network/NetworkProtocol.cpp:19-58 | a message in front of any bytes is recovered with them, the reserved field dropped |
| `Wire.StreamRoundTrip` | libbackup/src/network/NetworkProtocol.cpp:19-58 | any sequence of messages of non-zero type and payload below 2^32 bytes is recovered message by message from the joined bytes |
| `Wire.StringRoundTrip` | libbackup/src/network/NetworkProtocol.cpp:109-119 | a string below 65536 bytes is recovered with the bytes after it |
| `Wire.Socket.SendAll` | libbackup/src/network/NetworkSocket.cpp:161-169 | all bytes go out in order however the calls split them; if a call fails at any point, only a front part has gone out |
| `Wire.Socket.RecvAll` | libbackup/src/network/NetworkSocket.cpp:171-179 | exactly the next len bytes are returned however they arrive; if a call fails at any point or the stream ends, fewer of them and failure |
| `Wire.Socket.SendMessage` | libbackup/src/network/NetworkSocket.cpp:103-106 | the framed message goes out, or a front part of it and failure |
| `Wire.Socket.ReceiveMessage` | libbackup/src/network/NetworkSocket.cpp:108-135 | the next message of the stream for every way it is cut into reads, or the empty message if a call fails or the stream ends first |
| `Wire.Socket.SendMessages` | libbackup/src/network/NetworkSocket.cpp:103-106 | a sequence of messages goes out as their frames joined, or a front part of that and failure |
| `Wire.Socket.ReceiveMessages` | libbackup/src/network/NetworkSocket.cpp:108-135 | all messages of the stream are received, whatever the reads; if a call fails, the first ones |
| `Wire.UnframedAllFront` | libbackup/src/network/NetworkProtocol.cpp:34-58 | the messages of a front part of a stream are the first messages of the stream |
| `Wire.Carry` | libbackup/src/network/NetworkSocket.cpp:103-135 | between two sockets any sequence of messages is received as it was sent, for any cut of the bytes into calls; if calls fail or bytes are lost after that, what is received is still the first of the messages, each whole |
| `Messages.FileRoundTrip` | libbackup/src/network/ServerSession.cpp:301-316 | path and bytes of a file message are recovered |
| `Messages.ErrorRoundTrip` | libbackup/src/network/NetworkRestoreClient.cpp:213-221 | code and text of an error message are recovered |
| `Transport.TransportEncryptor.InitSession` | libbackup/src/network/TransportEncryptor.cpp:26-47 | derives the 16-byte key from name and challenge and switches encryption on |
| `Transport.TransportEncryptor.Encrypt` | libbackup/src/network/TransportEncryptor.cpp:53-79 | the identity before that, the keyed stream of the sequence number after it |
| `Transport.SealedTwice` | libbackup/src/network/TransportEncryptor.cpp:53-79 | the same key and sequence number undo it |
| `Digests.KeySame` | libbackup/src/network/TransportEncryptor.cpp:26-47 | two sessions have the same key if and only if the digests of name and challenge, the seeds modulo 256, are the same, and never if name and challenge joined differ in one byte |
| `Digests.SealedIsLow` | libbackup/src/network/TransportEncryptor.cpp:53-79 | the sealed bytes computed in bytes, from the key's digest and the low bytes of both halves of the number |
| `Digests.SealedSame` | libbackup/src/network/TransportEncryptor.cpp:53-79 | a non-empty text is sealed alike under two numbers if and only if the exclusive or of the low bytes of their halves is the same, for numbers below 2^32 their low byte; and under two keys if and only if their digests are |
| `Digests.OpensIff` | libbackup/src/network/TransportEncryptor.cpp:53-79 | under another number a sealed text opens to itself if and only if the two numbers agree so, or it is empty |
| `Users.ComputeHash` | libbackup/src/network/UserManager.cpp:28-60 | the hash loops compute the specified 32 bytes |
| `Digests.HashIsLow` | libbackup/src/network/UserManager.cpp:28-60 | every byte of a hash computed in bytes: the generator modulo 256 from the digest of password and salt on, every fourth step after the first 32, folded up |
| `Digests.PasswordSame` | libbackup/src/network/UserManager.cpp:28-60 | under every salt two passwords have the same hash if and only if their digests are the same, and never if they differ in one character; a password has different hashes under salts that differ in one byte |
| `Digests.PasswordDigestIs` | libbackup/src/network/UserManager.cpp:33-36 | the digest is 0xEF * 131^n plus the sum of p[i] * 131^(n - 1 - i), modulo 256 |
| `Digests.SameDigest` | libbackup/src/network/UserManager.cpp:28-60 | a failing input: "ai" and "cc" have the same digest |
| `Users.UserManager.RegisterUserRaw` | libbackup/src/network/UserManager.cpp:153-166 | a taken name is refused, otherwise exactly one entry is appended and the file rewritten |
| `Users.UserManager.GetUserHash` | libbackup/src/network/UserManager.cpp:178-189 | the entry of the name, if there is one |
| `Users.LookupFinds` | libbackup/src/network/UserManager.cpp:133-138 | with distinct names every entry is the one its name finds |
| `Users.TableRoundTrip` | libbackup/src/network/UserManager.cpp:83-129 | the table loaded from the saved file is the table saved |
| `Paths.ResolveJoined` | libbackup/src/network/ServerStorage.cpp:20-27 | a user name, a slash and an id lead where the id leads from the user's directory |
| `Paths.ResolveAlong` | libbackup/src/network/ServerStorage.cpp:20-27 | from every directory a text leads up the same number of levels and down the same names |
| `Paths.PlainNeverAlias` | libbackup/src/network/ServerStorage.cpp:20-22 | names that are one path component lead to the same directory only if they are the same |
| `Storage.ServerStorage.ListBackups` | libbackup/src/network/ServerStorage.cpp:179-201 | the ids with a header in the directory that the user name leads to, in text order |
| `Storage.ServerStorage.GetNextBackupNumber` | libbackup/src/network/ServerStorage.cpp:41-54 | one more than the highest number among the listed ids |
| `Storage.ServerStorage.CreateBackup` | libbackup/src/network/ServerStorage.cpp:58-66 | the next id's directory is there, made if it was not, and nothing else changes |
| `Storage.ServerStorage.FindBackupByName` | libbackup/src/network/ServerStorage.cpp:92-101 | the first listed id with the name, or none |
| `Storage.ServerStorage.GetLatestBackupId` | libbackup/src/network/ServerStorage.cpp:203-207 | the last listed id in text order, or none |
| `Storage.ServerStorage.SaveUpload` | libbackup/src/network/ServerSession.cpp:318-351 | header and payload split at 19 + metaSize, metadata and name are written into the one directory that user and id lead to |
| `Storage.NextIdIsFresh` | libbackup/src/network/ServerStorage.cpp:41-66 | a new id is never that of a listed backup |
| `Storage.UploadSeenIff` | libbackup/src/network/ServerStorage.cpp:20-66 | an upload changes what a user sees if and only if that user's name leads to the directory of the uploader's |
| `Storage.PlainPairsApart` | libbackup/src/network/ServerStorage.cpp:24-27 | names and ids of one component lead to the same backup only if both are the same |
| `Storage.SlashShares` | libbackup/src/network/ServerStorage.cpp:20-22 | the failing input: a user registered with a slash at the end of another's name has that user's backups |
| `Storage.IdLeadsOut` | libbackup/src/network/ServerStorage.cpp:24-27 | a restore id with "..", another user's name and an id leads to that user's backup |
| `Storage.UploadComesBack` | libbackup/src/network/ServerSession.cpp:318-388 | an upload of at least 19 bytes is listed and its header and payload join to the uploaded bytes |
| `Storage.ShortUploadReusesId` | libbackup/src/network/ServerSession.cpp:321-342 | a shorter upload is not listed and its id is given out again |
| `BackupIds.NumberOfId` | libbackup/src/network/ServerStorage.cpp:41-66 | the number read from an id is the one it was made from, up to the largest int |
| `BackupIds.IdsOrdered` | libbackup/src/network/ServerStorage.cpp:58-66 | text order of two ids compares the smaller number with the leading digits of the larger |
| `BackupIds.LastAsTextIff` | libbackup/src/network/ServerStorage.cpp:179-207 | the highest number's id is last in text order exactly up to 999999 and for the last ten numbers of every longer width; 1000000 is the first failure |
| `Storage.UploadKeepsContiguous` | libbackup/src/network/ServerStorage.cpp:41-66 | from an empty store the listed backups are always numbered 1 to m, each listed upload adding m + 1 |
| `Storage.LatestIsNewestIff` | libbackup/src/network/ServerStorage.cpp:203-207 | with backups 1 to m listed, the latest id is the most recent backup exactly when m is such a number |
| `Storage.LatestNumber` | libbackup/src/network/ServerStorage.cpp:203-207 | ... and otherwise it is the last backup whose number is one digit shorter; with none listed there is none |
| `Newest.LatestOverRuns` | libbackup/src/network/ServerStorage.cpp:203-207 | after any sessions on an empty store the listed backups are 1 to some m, and the latest id is number m exactly when m is aligned: always up to 999999, not at 1000000 |
| `Newest.NamesOverRuns` | libbackup/src/network/ServerSession.cpp:254-274 | after any sessions on an empty store no two listed backups of a user have the same name, nor has one the name left in the next directory |
| `SessionSafety.ProofGood` | libbackup/src/network/ServerSession.cpp:173-195 | a proof logs in only if its first 32 bytes equal the stored hash of the requested name |
| `SessionSafety.RegisterGood` | libbackup/src/network/ServerSession.cpp:200-238 | a registration logs in only with a new name, appends one entry and keeps names distinct and the file loadable |
| `SessionSafety.StepGood` | libbackup/src/network/ServerSession.cpp:46-104 | session safety for one message: authenticated exactly when encryption is on, storage touched only after login, no listed backup and nothing outside the directory that the user name leads to changed, login earned |
| `SessionSafety.RunGood` | libbackup/src/network/ServerSession.cpp:46-104 | the same over every run of a session, whatever the client sends |
| `Entry.NoHelloNoSession` | libbackup/src/network/ServerSession.cpp:108-146 | a session that does not begin with a hello of this version says one error message, and nothing that arrives after it has any effect |
| `Entry.TurnedAway` | libbackup/src/network/ServerSession.cpp:52-73 | before login a session is closed exactly by a lost connection or a logout; a message other than these, a login or a registration gets one error and changes nothing |
| `Answers.ClosedIff` | libbackup/src/network/ServerSession.cpp:75-103 | a ready session is closed exactly by a lost connection or a logout, silently; what is no command gets one error and changes nothing |
| `Answers.LogoutEnds` | libbackup/src/network/ServerSession.cpp:75-103 | after a logout nothing that arrives is heard, answered or stored |
| `SessionSafety.OthersKept` | libbackup/src/network/ServerStorage.cpp:20-27 | so a user whose name leads to another directory sees no change |
| `SessionSafety.OtherPlainKept` | libbackup/src/network/ServerStorage.cpp:20-27 | which every other name of one component does |
| `StoreIntegrity.ServeKeeps` | libbackup/src/network/UserManager.cpp:83-166 | the same over any number of sessions one after the other |
| `StoreIntegrity.AccountStays` | libbackup/src/network/UserManager.cpp:83-189 | a registered entry is found unchanged in every later session |
| `StoreIntegrity.RestoreLater` | libbackup/src/network/ServerSession.cpp:370-446 | what a restore of a listed backup sends is fixed by its directory at any earlier time, whatever messages and sessions come in between and by whatever id, the empty one for the latest included, it is reached |
| `StoreIntegrity.LastFileCounts` | libbackup/src/network/ServerSession.cpp:280-316 | whatever files an upload sends, in any order and number: of each of the two paths the last one counts, others change nothing, and nothing is answered or stored before the end marker |
| `StoreIntegrity.UploadLands` | libbackup/src/network/ServerSession.cpp:280-367 | the three messages of an upload, sealed in transit, leave exactly the sent bytes under the next id and are acknowledged with it |
| `StoreIntegrity.RejectedNameStillStores` | libbackup/src/network/ServerSession.cpp:254-274 | after a NAME_EXISTS rejection the upload that follows is stored under the next id, with the name that was left in that directory, or none if there was none |
| `StoreIntegrity.StaleNameTaken` | libbackup/src/network/ServerSession.cpp:318-351 | the name of an upload below 19 bytes becomes that of the next nameless upload |
| `StoreIntegrity.UploadThenRestore` | libbackup/src/network/ServerSession.cpp:280-446 | uploaded bytes come back exactly in the answer to a restore of any id that leads to the same directory, or of the latest if that does, after anything that happens in between |
| `Inventory.LatestRestored` | libbackup/src/network/ServerSession.cpp:370-386 | after any sessions on an empty store the backups of a session's user are numbered 1 to some m, and a restore request without an id is answered with backup m if m is aligned, always up to 999999, with the last of the shorter numbers if not, and with an error if there is none |
| `BackupList.ListReadBack` | libbackup/src/network/NetworkRestoreClient.cpp:127-142 | the client's reader finds in a list exactly the listed ids, in strict text order, each with its own name and time |
| `Answers.ListAnswerRead` | libbackup/src/network/ServerSession.cpp:450-471 | a ready session answers a list request with one message, from which exactly these lines are read |
| `Privacy.StaysOwnIff` | libbackup/src/network/ServerStorage.cpp:20-27 | an id leads to a child of the user's directory if and only if it comes down again by the names it climbed and one more |
| `Privacy.SlashStays` | libbackup/src/network/ServerStorage.cpp:24-27 | which a slash at its end does not change |
| `Privacy.OtherStrays` | libbackup/src/network/ServerStorage.cpp:24-27 | and ".." with another user's name and an id does not do: a failing input |
| `Privacy.ReadFixedIff` | libbackup/src/network/ServerSession.cpp:370-395 | what is found under an id is fixed by what the user sees, whatever else is stored, if and only if the id leads there |
| `Privacy.AnswerFixedIff` | libbackup/src/network/ServerSession.cpp:75-103 | what a ready session says to a message is fixed by what the user sees if and only if the message does not ask for an id that leads elsewhere |
| `Privacy.StepTwins` | libbackup/src/network/ServerSession.cpp:46-104 | one message keeps two sessions alike whose stores look the same to the user, unless it asks for such an id |
| `Privacy.RunTwins` | libbackup/src/network/ServerSession.cpp:46-104 | over every run of a logged-in session without such a request, all that it says and all that its user sees afterwards is fixed by what the user saw before, whatever others have stored |
| `SessionRun.ServerSession.SendEncrypted` | libbackup/src/network/ServerSession.cpp:14-20 | seals and counts once encryption is on |
| `SessionRun.ServerSession.ReceiveEncrypted` | libbackup/src/network/ServerSession.cpp:22-29 | opens and counts once encryption is on, an empty message excepted |
| `SessionRun.ServerSession.HandleHandshake` | libbackup/src/network/ServerSession.cpp:108-146 | the handshake is the machine's step on the first message |
| `SessionRun.ServerSession.HandleLogin` | libbackup/src/network/ServerSession.cpp:150-196 | login, with the proof it waits for, leaves the rest of the run as the machine has it |
| `SessionRun.ServerSession.HandleRegister` | libbackup/src/network/ServerSession.cpp:200-238 | registration is the machine's |
| `SessionRun.ServerSession.HandleBackup` | libbackup/src/network/ServerSession.cpp:242-367 | the receiving loop and the save leave the rest of the run as the machine has it |
| `SessionRun.ServerSession.HandleRestore` | libbackup/src/network/ServerSession.cpp:370-446 | the restore answer is the machine's |
| `SessionRun.ServerSession.HandleListBackups` | libbackup/src/network/ServerSession.cpp:450-471 | the list answer is the machine's |
| `SessionRun.ServerSession.Run` | libbackup/src/network/ServerSession.cpp:46-104 | a whole run of the object ends in the machine's state over everything that arrives |
| `ServerVoice.ActiveStep` | libbackup/src/network/ServerSession.cpp:14-20 | after login a step puts on the wire exactly what it says, sealed under consecutive numbers |
| `Lockstep.AlwaysInStep` | libbackup/src/network/NetworkBackupClient.cpp:26-136 | protocol lockstep: in every reachable state, once the client's encryption is on, keys and user agree, what each side decrypted is what the other sent first, and the k-th message under way opens at the receiver's counter plus k to the one sent |
| `Lockstep.OpensOnlyThere` | libbackup/src/network/TransportEncryptor.cpp:53-79 | and under another number a message under way that is not empty opens to the one sent if and only if the numbers agree in the exclusive or of the low bytes of their halves |
| `Entry.LoginIff` | libbackup/src/network/NetworkBackupClient.cpp:73-105 | three exchanges without a time-out let a registered user's client in if and only if its password hashes, with the stored salt, to the stored hash; the server agrees |
| `Entry.LoginByDigest` | libbackup/src/network/NetworkBackupClient.cpp:73-105 | so they let in exactly the passwords with the digest of the registered one, and none that differs from it in one character |
| `Entry.NewUserGetsIn` | libbackup/src/network/NetworkBackupClient.cpp:109-162 | a backup client with a new name gets in by registering, with its salt and hash stored |
| `Entry.RegisteredLogsIn` | libbackup/src/network/NetworkRestoreClient.cpp:69-101 | after any later sessions three exchanges let the registered user in if and only if the password hashes like the registered one, which is if and only if their digests are the same, and never if they differ in one character |
| `Entry.OtherPasswordGetsIn` | libbackup/src/network/UserManager.cpp:28-60 | a failing input: who registers with "ai" is later let in with "cc" |
| `Admission.OnlyRightPassword` | libbackup/src/network/NetworkBackupClient.cpp:73-162 | in every reachable state of client, server and channels, time-outs and fallback registration included: a client of a registered name is in only if its password hashes, with the stored salt, to the stored hash |
| `Admission.OnlySameDigest` | libbackup/src/network/NetworkBackupClient.cpp:73-162 | and so only with the digest of the password that the hash was made from, and never with one character changed |
| `Admission.OnlyOwnPassword` | libbackup/src/network/NetworkBackupClient.cpp:73-162 | and so, after any later sessions, only with a password that hashes like the one that registered the name, that is with the same digest, and never with one character changed |
| `ClientRun.NetworkClient.SendEncrypted` | libbackup/src/network/NetworkBackupClient.cpp:26-32 | seals and counts once encryption is on |
| `ClientRun.NetworkClient.DoHandshake` | libbackup/src/network/NetworkBackupClient.cpp:45-69 | the hello exchange is the client machine's first step |
| `ClientRun.NetworkClient.DoLogin` | libbackup/src/network/NetworkBackupClient.cpp:73-105 | the login exchange is the client machine's, up to success or the fallback |
| `ClientRun.NetworkClient.DoRegister` | libbackup/src/network/NetworkBackupClient.cpp:109-136 | the registration exchange is the client machine's |
| `ClientRun.NetworkClient.Connect` | libbackup/src/network/NetworkBackupClient.cpp:155-162 | handshake, login and fallback together are the client machine over what arrives |
| `ClientRun.NetworkClient.Upload` | libbackup/src/network/NetworkBackupClient.cpp:164-250 | the name if there is one, the file, its metadata and the end marker are said in this order |
| `ClientRun.NetworkClient.ListBackups` | libbackup/src/network/NetworkRestoreClient.cpp:122-142 | the request is said, and the list that the next message holds is returned line by line |
| `ClientRun.NetworkClient.Restore` | libbackup/src/network/NetworkRestoreClient.cpp:180-233 | the receive loop returns what the plain messages heard since the request say |
| `Delivery.UploadArrives` | libbackup/src/network/ServerSession.cpp:254-367 | whatever happens, once a client says an upload the server either has not read all of it, and has at most an empty directory to show, or holds exactly its bytes as the next backup, named unless the name was taken, and has acknowledged it |
| `Delivery.UploadDelivered` | libbackup/src/network/NetworkBackupClient.cpp:164-250 | what Upload says gets there if the server reads it without a time-out |
| `Delivery.ReplyCollected` | libbackup/src/network/NetworkRestoreClient.cpp:191-233 | of the three messages of an answer a client collects exactly the stored bytes, and with fewer nothing yet |
| `Delivery.ReplyRead` | libbackup/src/network/ServerSession.cpp:410-442 | the three messages of an answer hold the backup's bytes, its records and their number |
| `Delivery.ErrorOutcome` | libbackup/src/network/NetworkRestoreClient.cpp:213-221 | an error answer ends a restore as refused |
| `Delivery.RestoreArrives` | libbackup/src/network/NetworkRestoreClient.cpp:180-233 | whatever happens, what a client has collected of a backup that it asks for, by an id or for the latest, is incomplete, or exactly the stored bytes, and if there is no such backup, a refusal |
| `Delivery.RestoreDelivered` | libbackup/src/network/NetworkRestoreClient.cpp:180-233 | it is the stored bytes once the server has read the request and the client three messages, and the refusal after one |
| `Delivery.ListArrives` | libbackup/src/network/NetworkRestoreClient.cpp:122-142 | whatever happens, a client that asks for the list has been shown nothing yet, or exactly the listed backups in text order, each with its own name and time |
| `Delivery.ListDelivered` | libbackup/src/network/NetworkRestoreClient.cpp:122-142 | and it is these once the server has read the request and the client one message |
| `Delivery.UploadedBytesFetched` | libbackup/src/network/NetworkRestoreClient.cpp:180-240 | client to client: after one client's upload over its channel and any later sessions, another client that comes in and asks over its own for an id that leads to that backup, or for the latest where that is the latest, has collected too little yet, or exactly the bytes that the first one sent |
| `Inventory.LatestFetched` | libbackup/src/network/NetworkRestoreClient.cpp:180-240 | after any sessions on an empty store, a client that asks for the latest has collected too little yet, or exactly the bytes of its user's backup m, under the same exception for numbers that are not aligned, or a refusal if there is none |
| `Inventory.ListFetched` | libbackup/src/network/NetworkRestoreClient.cpp:105-145 | after any sessions on an empty store, a client that asks for the list has been shown nothing yet, or exactly its user's listed backups in text order, each with its own name and time |

## Left out

- Everything under `gui/`, `client/src/main.cpp`, `server/src/main.cpp`, `Logger` and console output: user interface.
- `BackupServer` and concurrent sessions: sessions run one at a time, each loading the user table that the one before it saved; two at once can lose a registration or a name check.
- System calls: `opendir`, `lstat`, `readlink` are a tree of entries; a restore's destination is a map from path to content; directories, links, special files, permissions, owners and times on disk are not written.
- Rule hits: `fnmatch`, owner and group lookup, dates and sizes are one uninterpreted test per rule, so `FilterRule`, `FilterParser` and `ServerConfig` are not modelled.
- Random generation, and how hard hash, key and cipher are to break beyond which inputs they tell apart.
- Delivery.ListArrives: for ids and names below 65536 bytes, the width of their length fields; over runs from an empty store `Inventory.ListFetched` needs no such limit. The times are those of some map, since the server reads them from its disk.
- `deleteBackup`, `registerUser`, `authenticateUser` and `computeChallengeResponse`: no session command calls them.
- Strategy managers: the header's algorithm number selects the strategy directly.
- Symbolic links in the storage directory, names with a NUL, and intermediate directories: a path through one that does not exist is still resolved, and a user name or id that leads to one of the files of a backup or to the user table is a directory of its own.
- Ids that `stoi` accepts with a sign or white space: only ids made of digits after `backup_` have a number, which covers every id the server makes.
- Failed writes: a full disk or a failed send ends or degrades a session in the program; here writes succeed, and a lost connection shows as an empty message.
- A time-out in the middle of a message, after which the program reads the rest of it as a header: time-outs fall between messages.
- A payload of 4 GiB or more in one message, whose 32-bit length field is cut: channels carry whole messages.
- HuffmanCodec.HuffmanIsOptimal: for data below 2^32 bytes, since the 32-bit frequencies wrap above; the same limit is in `HuffmanDepth.DepthBound`.
- HuffmanStream.HuffmanRoundTrip: for data below 2^58 bytes, so that the number of bits fits 64.
- Storage.ServerStorage.SaveUpload: a size field near 2^32 that wraps 19 + metaSize, one that reaches past the end of the upload, and malformed metadata bytes are excluded by `Saveable`; the session machine goes to `Undefined` there.
- Pipeline.BackupThenRestore: Vigenere with an empty password, for which `Engine.RestoreOfBackup` says on what the stages then work; when regular files survive that is not characterised.
- HuffmanStream.Compress: a tree deeper than 64, which only wrapped frequencies can give, makes the program shift by 64 and more.
- HuffmanStream.Decompress: a stream that ends before the announced bytes are decoded, though it announces more bits, makes the program read past the input; asked not to happen, and proved not to for every compressed stream.
- Raw.RestoreFromRaw: a content length whose end wraps around 64 bits, likewise.
- IndexPack.Unpack: entries or ranges that reach past the data, likewise.
- Metadata.DeserializeList: a count or length that reaches past the data, likewise.
- FileRecords.Deserialize: likewise for one record.
- Engine.Restore: input on which one of these happens is the outcome `OutOfRange`, which a backup gives at most under Vigenere with an empty password.
- SessionRun.ServerSession.Run: for arrivals that bring the session to its end without such a read.
- StoreIntegrity.ServeKeeps: needs fewer than 2^32 users, the width of the table file's count.
- Lockstep.AlwaysInStep: for user names below 65536 bytes, the width of their length field; a longer one reaches the server cut and gives another key. The same limit is in `Admission.OnlyRightPassword`, `Delivery.UploadedBytesFetched` and `Inventory.LatestFetched`.
- Delivery.RestoreArrives: for messages that a frame can hold, below 2^32 bytes each; likewise `Inventory.LatestFetched`.
- Delivery.UploadedBytesFetched: for messages that a frame can hold, below 2^32 bytes each.
- Reading back the acknowledged id in the backup client, and what the clients print.
- `freeTree` and other memory management.
