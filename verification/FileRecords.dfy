/** FileInfo, the record of one file, and its serialized form, which is read back at any offset of a
    larger buffer. */
module FileRecords {
  import opened Bytes
  import opened Fields

  // File types of st_mode & S_IFMT.
  const S_IFCHR: word32 := 0x2000
  const S_IFDIR: word32 := 0x4000
  const S_IFBLK: word32 := 0x6000
  const S_IFREG: word32 := 0x8000
  const S_IFLNK: word32 := 0xA000

  /** Everything stored about one file, in the integer widths of the program. */
  datatype FileInfo = FileInfo(
    relativePath: seq<byte>, fileType: word32, permissions: word32, owner: word32, group: word32,
    fileSize: int64, atime: int64, mtime: int64, ctime: int64,
    symlinkTarget: seq<byte>, deviceId: word64, content: seq<byte>)
  {
    predicate IsRegular() { fileType == S_IFREG }
    predicate IsDirectory() { fileType == S_IFDIR }
    predicate IsSymlink() { fileType == S_IFLNK }
    predicate IsDevice() { fileType == S_IFBLK || fileType == S_IFCHR }
  }

  // ----- one record -----

  function DeviceFields(f: FileInfo): Record {
    if f.IsDevice() then Next(Num(f.deviceId, 8), End) else End
  }

  function TimeFields(f: FileInfo): Record {
    Next(Num(ToU64(f.fileSize), 8), Next(Num(ToU64(f.atime), 8), Next(Num(ToU64(f.mtime), 8),
    Next(Num(ToU64(f.ctime), 8), Next(Text(f.symlinkTarget), DeviceFields(f))))))
  }

  function InfoFields(f: FileInfo): Record {
    Next(Text(f.relativePath), Next(Num(f.fileType, 2), Next(Num(f.permissions, 2),
    Next(Num(f.owner, 4), Next(Num(f.group, 4), TimeFields(f))))))
  }

  /** FileInfo::serialize: strings get 16-bit lengths, the mode fields are cut to 16 bits. */
  function Serialized(f: FileInfo): seq<byte> {
    PutAll(InfoFields(f))
  }

  lemma {:induction false} TimesSize(f: FileInfo)
    ensures |PutAll(TimeFields(f))| <= 42 + |f.symlinkTarget|
  {
    hide PutAll, ToU64, Put;
    var r := TimeFields(f);
    PutSize(r);
    PutSize(r.tail);
    PutSize(r.tail.tail);
    PutSize(r.tail.tail.tail);
    PutSize(r.tail.tail.tail.tail);
    PutSize(DeviceFields(f));
    PutSize(End);
  }

  lemma {:induction false} SerializedSize(f: FileInfo)
    ensures |Serialized(f)| <= 56 + |f.relativePath| + |f.symlinkTarget|
  {
    hide PutAll, TimeFields, Put;
    var r := InfoFields(f);
    TimesSize(f);
    PutSize(r);
    PutSize(r.tail);
    PutSize(r.tail.tail);
    PutSize(r.tail.tail.tail);
    PutSize(r.tail.tail.tail.tail);
  }

  method SerializeTimes(f: FileInfo, buf: seq<byte>) returns (r: seq<byte>)
    ensures r == buf + PutAll(TimeFields(f))
  {
    hide Put, LE, ToU64;
    ghost var rest := TimeFields(f);
    PutStep(buf, rest);
    r := WriteLE(buf, ToU64(f.fileSize), 8);
    NumIsLE(rest.head);
    PutStep(r, rest.tail);
    NumIsLE(rest.tail.head);
    rest := rest.tail;
    r := WriteLE(r, ToU64(f.atime), 8);
    PutStep(r, rest.tail);
    NumIsLE(rest.tail.head);
    rest := rest.tail;
    r := WriteLE(r, ToU64(f.mtime), 8);
    PutStep(r, rest.tail);
    NumIsLE(rest.tail.head);
    rest := rest.tail;
    r := WriteLE(r, ToU64(f.ctime), 8);
    PutStep(r, rest.tail);
    rest := rest.tail;
    r := WriteText(r, f.symlinkTarget);
    if f.IsDevice() {
      PutStep(r, rest.tail);
      NumIsLE(rest.tail.head);
      r := WriteLE(r, f.deviceId, 8);
    }
    assert r + [] == r;
  }

  lemma {:induction false} NumIsLE(f: Field)
    requires f.Num?
    ensures Put(f) == LE(f.value, f.width)
  {
  }

  method Serialize(f: FileInfo) returns (r: seq<byte>)
    ensures r == Serialized(f)
  {
    hide Put, LE, TimeFields;
    ghost var rest := InfoFields(f);
    PutStep([], rest);
    assert [] + PutAll(rest) == PutAll(rest);
    r := WriteText([], f.relativePath);
    PutStep(r, rest.tail);
    NumIsLE(rest.tail.head);
    rest := rest.tail;
    r := WriteLE(r, f.fileType, 2);
    PutStep(r, rest.tail);
    NumIsLE(rest.tail.head);
    rest := rest.tail;
    r := WriteLE(r, f.permissions, 2);
    PutStep(r, rest.tail);
    NumIsLE(rest.tail.head);
    rest := rest.tail;
    r := WriteLE(r, f.owner, 4);
    PutStep(r, rest.tail);
    NumIsLE(rest.tail.head);
    r := WriteLE(r, f.group, 4);
    r := SerializeTimes(f, r);
  }

  /** The second half of deserialize: sizes, times, link and device number, added to `head`. */
  function ParsedTail(data: seq<byte>, offset: nat, head: FileInfo): (r: Option<(FileInfo, nat)>)
    ensures r.Some? ==> r.value.1 <= |data|
  {
    var (size, o1) :- GetNum(data, offset, 8);
    var (atime, o2) :- GetNum(data, o1, 8);
    var (mtime, o3) :- GetNum(data, o2, 8);
    var (ctime, o4) :- GetNum(data, o3, 8);
    var (link, o5) :- GetText(data, o4);
    Widths();
    var info := head.(fileSize := FromU64(size), atime := FromU64(atime), mtime := FromU64(mtime),
                      ctime := FromU64(ctime), symlinkTarget := link);
    if info.IsDevice() then
      var (dev, o6) :- GetNum(data, o5, 8);
      Some((info.(deviceId := dev), o6))
    else Some((info, o5))
  }

  /** FileInfo::deserialize at an offset of a larger buffer; None when it would read past the end. */
  function ParsedInfo(data: seq<byte>, offset: nat): (r: Option<(FileInfo, nat)>)
    ensures r.Some? ==> r.value.1 <= |data|
  {
    var (path, o1) :- GetText(data, offset);
    var (fileType, o2) :- GetNum(data, o1, 2);
    var (permissions, o3) :- GetNum(data, o2, 2);
    var (owner, o4) :- GetNum(data, o3, 4);
    var (group, o5) :- GetNum(data, o4, 4);
    Widths();
    ParsedTail(data, o5, FileInfo(path, fileType, permissions, owner, group, 0, 0, 0, 0, [], 0, []))
  }

  method Deserialize(data: seq<byte>, offset: nat) returns (info: FileInfo, next: nat)
    requires ParsedInfo(data, offset).Some?
    ensures ParsedInfo(data, offset) == Some((info, next))
  {
    hide FromLE;
    Widths();
    var path, fileType, permissions, owner, group, size, atime, mtime, ctime, link;
    path, next := ReadTextAt(data, offset);
    fileType, next := ReadLE(data, next, 2);
    permissions, next := ReadLE(data, next, 2);
    owner, next := ReadLE(data, next, 4);
    group, next := ReadLE(data, next, 4);
    size, next := ReadLE(data, next, 8);
    atime, next := ReadLE(data, next, 8);
    mtime, next := ReadLE(data, next, 8);
    ctime, next := ReadLE(data, next, 8);
    link, next := ReadTextAt(data, next);
    info := FileInfo(path, fileType, permissions, owner, group, FromU64(size), FromU64(atime),
                     FromU64(mtime), FromU64(ctime), link, 0, []);
    if info.IsDevice() {
      var dev;
      dev, next := ReadLE(data, next, 8);
      info := info.(deviceId := dev);
    }
  }

  /** The field limits of the format. */
  predicate Storable(f: FileInfo) {
    |f.relativePath| < U16 && |f.symlinkTarget| < U16 && f.fileType < U16 && f.permissions < U16
  }

  /** What the format keeps: no content, and a device number only for devices. */
  function Stored(f: FileInfo): FileInfo {
    f.(content := [], deviceId := if f.IsDevice() then f.deviceId else 0)
  }

  /** What the format does not keep is not written either. */
  lemma {:induction false} StoredSame(f: FileInfo)
    ensures Serialized(Stored(f)) == Serialized(f)
  {
    hide PutAll, ToU64;
    assert DeviceFields(Stored(f)) == DeviceFields(f);
    assert InfoFields(Stored(f)) == InfoFields(f);
  }

  lemma {:induction false} SignedRoundTrip(v: int64)
    ensures FromU64(ToU64(v)) == v
  {
  }

  /** What deserialize knows after the first five fields. */
  function Head(f: FileInfo): FileInfo {
    FileInfo(f.relativePath, f.fileType, f.permissions, f.owner, f.group, 0, 0, 0, 0, [], 0, [])
  }

  lemma {:induction false} SignedAll(f: FileInfo)
    ensures FromU64(ToU64(f.fileSize)) == f.fileSize && FromU64(ToU64(f.atime)) == f.atime
    ensures FromU64(ToU64(f.mtime)) == f.mtime && FromU64(ToU64(f.ctime)) == f.ctime
  {
    SignedRoundTrip(f.fileSize);
    SignedRoundTrip(f.atime);
    SignedRoundTrip(f.mtime);
    SignedRoundTrip(f.ctime);
  }

  /** The four numbers of the second half. */
  lemma {:induction false} NumbersRead(f: FileInfo, data: seq<byte>, offset: nat, post: seq<byte>)
    requires Ahead(data, offset, TimeFields(f), post)
    ensures GetNum(data, offset, 8) == Some((ToU64(f.fileSize), offset + 8))
    ensures GetNum(data, offset + 8, 8) == Some((ToU64(f.atime), offset + 16))
    ensures GetNum(data, offset + 16, 8) == Some((ToU64(f.mtime), offset + 24))
    ensures GetNum(data, offset + 24, 8) == Some((ToU64(f.ctime), offset + 32))
    ensures Ahead(data, offset + 32, Next(Text(f.symlinkTarget), DeviceFields(f)), post)
  {
    Widths();
    hide Put, GetNum, ToU64, PutAll, Ahead;
    var r := TimeFields(f);
    ReadNum(data, offset, r, post);
    ReadNum(data, offset + 8, r.tail, post);
    ReadNum(data, offset + 16, r.tail.tail, post);
    ReadNum(data, offset + 24, r.tail.tail.tail, post);
  }

  /** The link and, for a device, its number. */
  lemma {:induction false} LinkRead(f: FileInfo, data: seq<byte>, offset: nat, post: seq<byte>) returns (next: nat)
    requires Storable(f) && Ahead(data, offset, Next(Text(f.symlinkTarget), DeviceFields(f)), post)
    ensures var o := offset + 2 + |f.symlinkTarget|;
            && GetText(data, offset) == Some((f.symlinkTarget, o))
            && (if f.IsDevice() then GetNum(data, o, 8) == Some((f.deviceId, next)) else next == o)
    ensures next <= |data| && data[next..] == post
  {
    Widths();
    var r := Next(Text(f.symlinkTarget), DeviceFields(f));
    hide Put, GetNum, GetText, PutAll;
    ReadText(data, offset, r, post);
    next := offset + 2 + |f.symlinkTarget|;
    if f.IsDevice() {
      ReadNum(data, next, r.tail, post);
      next := next + 8;
    }
    NothingAhead(data, next, post);
  }

  lemma {:induction false} TailRoundTrip(f: FileInfo, data: seq<byte>, offset: nat, post: seq<byte>)
    requires Storable(f) && Ahead(data, offset, TimeFields(f), post)
    ensures ParsedTail(data, offset, Head(f)).Some?
    ensures ParsedTail(data, offset, Head(f)).value.0 == Stored(f)
    ensures data[ParsedTail(data, offset, Head(f)).value.1..] == post
  {
    hide Put, GetNum, GetText, ToU64, FromU64, LE, PutAll, TimeFields;
    NumbersRead(f, data, offset, post);
    hide Ahead;
    var o := LinkRead(f, data, offset + 32, post);
    SignedAll(f);
  }

  lemma {:induction false} HeadRoundTrip(f: FileInfo, data: seq<byte>, offset: nat, post: seq<byte>) returns (o: nat)
    requires Storable(f) && Ahead(data, offset, InfoFields(f), post)
    ensures Ahead(data, o, TimeFields(f), post)
    ensures ParsedInfo(data, offset) == ParsedTail(data, o, Head(f))
  {
    Widths();
    hide Put, GetNum, GetText, ToU64, FromU64, LE, PutAll, ParsedTail, TimeFields;
    var r := InfoFields(f);
    o := offset;
    ReadText(data, o, r, post);
    r, o := r.tail, o + 2 + |f.relativePath|;
    ReadNum(data, o, r, post);
    r, o := r.tail, o + 2;
    ReadNum(data, o, r, post);
    r, o := r.tail, o + 2;
    ReadNum(data, o, r, post);
    r, o := r.tail, o + 4;
    ReadNum(data, o, r, post);
    r, o := r.tail, o + 4;
  }

  /** In-place round trip: wherever a serialized record sits in a larger buffer, reading it gives
      back what the format keeps and stops exactly at its end. */
  lemma {:induction false} InfoRoundTrip(f: FileInfo, data: seq<byte>, offset: nat, post: seq<byte>)
    requires Storable(f) && offset <= |data| && data[offset..] == Serialized(f) + post
    ensures ParsedInfo(data, offset) == Some((Stored(f), offset + |Serialized(f)|))
    ensures offset + |Serialized(f)| <= |data| && data[offset + |Serialized(f)|..] == post
  {
    hide ParsedTail, ParsedInfo, InfoFields, TimeFields, PutAll;
    TakeAhead(data, offset, Serialized(f), post);
    var o := HeadRoundTrip(f, data, offset, post);
    TailRoundTrip(f, data, o, post);
    var end := ParsedTail(data, o, Head(f)).value.1;
    assert |data| - end == |post|;
  }
}
