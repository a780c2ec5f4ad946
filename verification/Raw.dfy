/** The unpacked payload: the number of non-empty regular files, then path and content of each, and
    the reader that refuses what does not fit. */
module Raw {
  import opened Bytes
  import opened Fields
  import opened FileRecords

  const MOST_FILES: nat := 1000000

  predicate Kept(f: FileInfo) {
    f.IsRegular() && f.content != []
  }

  function CountKept(fs: seq<FileInfo>): (n: nat)
    ensures n <= |fs|
  {
    if fs == [] then 0 else (if Kept(fs[0]) then 1 else 0) + CountKept(fs[1..])
  }

  function KeptOnly(fs: seq<FileInfo>): (r: seq<FileInfo>)
    ensures |r| == CountKept(fs)
    ensures forall k :: 0 <= k < |r| ==> Kept(r[k]) && r[k] in fs
  {
    if fs == [] then [] else (if Kept(fs[0]) then [fs[0]] else []) + KeptOnly(fs[1..])
  }

  /** [pathLen: 2][path][contentLen: 8][content] */
  function FileFields(f: FileInfo): Record {
    Next(Text(f.relativePath), Next(Num(|f.content|, 8), End))
  }

  function FileBytes(f: FileInfo): seq<byte> {
    PutAll(FileFields(f)) + f.content
  }

  function AllBytes(fs: seq<FileInfo>): seq<byte> {
    if fs == [] then [] else FileBytes(fs[0]) + AllBytes(fs[1..])
  }

  function BytesOf(f: FileInfo): seq<byte> {
    if Kept(f) then FileBytes(f) else []
  }

  function KeptBytes(fs: seq<FileInfo>): seq<byte> {
    AllBytes(KeptOnly(fs))
  }

  /** concatFiles. */
  function Concatenated(fs: seq<FileInfo>): seq<byte> {
    LE(CountKept(fs), 4) + KeptBytes(fs)
  }

  lemma {:induction false} CountStep(fs: seq<FileInfo>, i: nat)
    requires i < |fs|
    ensures CountKept(fs[..i + 1]) == CountKept(fs[..i]) + (if Kept(fs[i]) then 1 else 0)
    decreases i
  {
    if i > 0 {
      CountStep(fs[1..], i - 1);
      assert fs[..i + 1][1..] == fs[1..][..i] && fs[..i][1..] == fs[1..][..i - 1];
    } else {
      assert fs[..1][1..] == [];
    }
  }

  lemma {:induction false} BytesStep(fs: seq<FileInfo>, i: nat)
    requires i < |fs|
    ensures KeptBytes(fs[..i + 1]) == KeptBytes(fs[..i]) + BytesOf(fs[i])
    decreases i
  {
    hide KeptBytes, BytesOf;
    if i == 0 {
      FirstBytes(fs);
    } else {
      var head, x := BytesOf(fs[0]), BytesOf(fs[i]);
      BytesStep(fs[1..], i - 1);
      ShiftSlices(fs, i);
      HeadBytes(fs[..i + 1]);
      HeadBytes(fs[..i]);
      hide *;
      var before := KeptBytes(fs[1..][..i - 1]);
      assert head + (before + x) == (head + before) + x;
    }
  }

  lemma {:induction false} ShiftSlices(fs: seq<FileInfo>, i: nat)
    requires 0 < i < |fs|
    ensures fs[..i + 1][1..] == fs[1..][..i] && fs[..i][1..] == fs[1..][..i - 1]
    ensures fs[..i + 1][0] == fs[..i][0] == fs[0] && fs[1..][i - 1] == fs[i]
  {
  }

  lemma {:induction false} FirstBytes(fs: seq<FileInfo>)
    requires fs != []
    ensures KeptBytes(fs[..1]) == KeptBytes(fs[..0]) + BytesOf(fs[0])
  {
    var one, none := fs[..1], fs[..0];
    assert one[1..] == [] && none == [] && one[0] == fs[0];
    HeadBytes(one);
    assert KeptBytes([]) == [];
    hide *;
    assert [] + BytesOf(fs[0]) == BytesOf(fs[0]) == BytesOf(fs[0]) + [];
  }

  lemma {:induction false} HeadBytes(fs: seq<FileInfo>)
    requires fs != []
    ensures KeptBytes(fs) == BytesOf(fs[0]) + KeptBytes(fs[1..])
  {
    hide FileBytes, Kept;
    var rest := KeptOnly(fs[1..]);
    assert ([fs[0]] + rest)[1..] == rest;
    assert [] + rest == rest;
  }

  method CountFiles(files: seq<FileInfo>) returns (fileCount: nat)
    ensures fileCount == CountKept(files)
  {
    fileCount := 0;
    for i := 0 to |files|
      invariant fileCount == CountKept(files[..i])
    {
      CountStep(files, i);
      if files[i].IsRegular() && files[i].content != [] {
        fileCount := fileCount + 1;
      }
    }
    assert files[..|files|] == files;
  }

  method WriteFile(f: FileInfo, buf: seq<byte>) returns (r: seq<byte>)
    ensures r == buf + FileBytes(f)
  {
    hide LE;
    ghost var rest := FileFields(f);
    PutStep(buf, rest);
    r := WriteText(buf, f.relativePath);
    PutStep(r, rest.tail);
    r := WriteLE(r, |f.content|, 8);
    assert r + [] == r;
    r := r + f.content;
  }

  lemma {:induction false} NothingKept(pre: seq<byte>)
    ensures pre + KeptBytes([]) == pre
  {
  }

  lemma {:induction false} PrependStep(pre: seq<byte>, fs: seq<FileInfo>, i: nat)
    requires i < |fs|
    ensures pre + KeptBytes(fs[..i + 1]) ==
            (pre + KeptBytes(fs[..i])) + BytesOf(fs[i])
  {
    hide KeptBytes, FileBytes;
    BytesStep(fs, i);
  }

  method WriteKept(files: seq<FileInfo>, pre: seq<byte>) returns (result: seq<byte>)
    ensures result == pre + KeptBytes(files)
  {
    hide KeptBytes, FileBytes;
    result := pre;
    NothingKept(pre);
    assert files[..0] == [];
    for i := 0 to |files|
      invariant result == pre + KeptBytes(files[..i])
    {
      PrependStep(pre, files, i);
      if files[i].IsRegular() && files[i].content != [] {
        result := WriteFile(files[i], result);
      } else {
        assert result + [] == result;
      }
    }
    assert files[..|files|] == files;
  }

  method ConcatFiles(files: seq<FileInfo>) returns (result: seq<byte>)
    ensures result == Concatenated(files)
  {
    hide KeptBytes, LE, CountKept;
    var fileCount := CountFiles(files);
    result := WriteLE([], fileCount, 4);
    assert [] + LE(fileCount, 4) == LE(fileCount, 4);
    result := WriteKept(files, result);
  }

  // ----- reading -----

  /** A regular file with no metadata but its size, a 64-bit length cast to a signed one. */
  function RawInfo(path: seq<byte>, content: seq<byte>): FileInfo {
    FileInfo(path, S_IFREG, 0, 0, 0, FromU64(|content| % U64), 0, 0, 0, [], 0, content)
  }

  /** Refused is the early `return false`. Wild is a read past the end: a length so large that its end wraps
      around 64 bits passes the test. */
  datatype Reading<+T> = Wild | Refused | Read(value: T) {
    predicate IsFailure() { !Read? }

    function PropagateFailure<U>(): Reading<U>
      requires !Read?
    {
      if Wild? then Wild else Refused
    }

    function Extract(): T
      requires Read?
    {
      value
    }
  }

  function OrRefused<T>(o: Option<T>): Reading<T> {
    if o.Some? then Read(o.value) else Refused
  }

  /** The bytes of a content, after the test in 64 bits. */
  function ContentAt(data: seq<byte>, offset: nat, n: nat): (r: Reading<(seq<byte>, nat)>)
    ensures r.Read? ==> r.value.1 == offset + n <= |data| && r.value.0 == data[offset..offset + n]
  {
    if (offset + n) % U64 > |data| then Refused
    else if offset + n > |data| then Wild
    else Read((data[offset..offset + n], offset + n))
  }

  function ParsedFile(data: seq<byte>, offset: nat): Reading<(FileInfo, nat)> {
    var (path, o1) :- OrRefused(GetText(data, offset));
    var (n, o2) :- OrRefused(GetNum(data, o1, 8));
    var (content, o3) :- ContentAt(data, o2, n);
    Read((RawInfo(path, content), o3))
  }

  function ParsedFiles(data: seq<byte>, offset: nat, count: nat): Reading<seq<FileInfo>>
    decreases count
  {
    if count == 0 then Read([]) else
      var (f, o) :- ParsedFile(data, offset);
      var rest :- ParsedFiles(data, o, count - 1);
      Read([f] + rest)
  }

  /** restoreFromRaw: a short payload or more than a million files is refused. */
  function Parsed(data: seq<byte>): Reading<seq<FileInfo>> {
    var (count, o) :- OrRefused(GetNum(data, 0, 4));
    if count > MOST_FILES then Refused else ParsedFiles(data, o, count)
  }

  method ReadFile(data: seq<byte>, offset: nat) returns (ok: bool, info: FileInfo, next: nat)
    requires !ParsedFile(data, offset).Wild?
    ensures ParsedFile(data, offset) == if ok then Read((info, next)) else Refused
  {
    hide FromLE;
    info, next := RawInfo([], []), offset;
    if next + 2 > |data| {
      return false, info, next;
    }
    var pathLen, contentLen;
    pathLen, next := ReadLE(data, next, 2);
    if next + pathLen > |data| {
      return false, info, next;
    }
    var path := data[next..next + pathLen];
    next := next + pathLen;
    if next + 8 > |data| {
      return false, info, next;
    }
    contentLen, next := ReadLE(data, next, 8);
    if (next + contentLen) % U64 > |data| {
      return false, info, next;
    }
    info := RawInfo(path, data[next..next + contentLen]);
    next := next + contentLen;
    ok := true;
  }

  method RestoreFromRaw(data: seq<byte>) returns (ok: bool, outFiles: seq<FileInfo>)
    requires !Parsed(data).Wild?
    ensures ok <==> Parsed(data).Read?
    ensures ok ==> Parsed(data) == Read(outFiles)
  {
    hide ParsedFile, FromLE;
    outFiles := [];
    if |data| < 4 {
      return false, outFiles;
    }
    var fileCount, offset := ReadLE(data, 0, 4);
    if fileCount > MOST_FILES {
      return false, outFiles;
    }
    ghost var whole := ParsedFiles(data, offset, fileCount);
    assert whole.Read? ==> [] + whole.value == whole.value;
    for i := 0 to fileCount
      invariant !ParsedFiles(data, offset, fileCount - i).Wild?
      invariant whole.Read? <==> ParsedFiles(data, offset, fileCount - i).Read?
      invariant whole.Read? ==> whole.value == outFiles + ParsedFiles(data, offset, fileCount - i).value
    {
      var fileOk, info, next := ReadFile(data, offset);
      if !fileOk {
        return false, outFiles;
      }
      ghost var rest := ParsedFiles(data, next, fileCount - i - 1);
      if rest.Read? {
        Regroup(outFiles, info, [info] + rest.value, rest.value);
      }
      outFiles := outFiles + [info];
      offset := next;
    }
    assert outFiles + [] == outFiles;
    ok := true;
  }

  // ----- round trip -----

  ghost predicate FitRaw(fs: seq<FileInfo>) {
    forall k :: 0 <= k < |fs| ==> |fs[k].relativePath| < U16 && |fs[k].content| < U64
  }

  lemma {:induction false} KeptFit(fs: seq<FileInfo>)
    requires FitRaw(fs)
    ensures FitRaw(KeptOnly(fs))
  {
    hide KeptOnly;
  }

  function RawViews(fs: seq<FileInfo>): (r: seq<FileInfo>)
    ensures |r| == |fs|
    ensures forall k :: 0 <= k < |fs| ==> r[k] == RawInfo(fs[k].relativePath, fs[k].content)
  {
    seq(|fs|, k requires 0 <= k < |fs| => RawInfo(fs[k].relativePath, fs[k].content))
  }

  lemma {:induction false} FileRoundTrip(f: FileInfo, data: seq<byte>, offset: nat, rest: seq<byte>)
    requires FitRaw([f]) && offset <= |data| && data[offset..] == FileBytes(f) + rest
    ensures ParsedFile(data, offset) == Read((RawInfo(f.relativePath, f.content), offset + |FileBytes(f)|))
    ensures offset + |FileBytes(f)| <= |data| && data[offset + |FileBytes(f)|..] == rest
  {
    FileParts(f, data, offset, rest);
    TakeAhead(data, offset, FileBytes(f), rest);
    hide PutAll, GetNum, GetText, RawInfo, FileBytes;
    var o := offset + 2 + |f.relativePath| + 8;
    TakeAhead(data, o, f.content, rest);
    FileLength(f);
    hide FitRaw;
    assert ContentAt(data, o, |f.content|) == Read((f.content, o + |f.content|)) by { NoWrap(o + |f.content|, |data|); }
    hide ContentAt;
  }

  lemma {:induction false} NoWrap(end: nat, size: nat)
    ensures end <= size ==> end % U64 <= size
  {
  }

  lemma {:induction false} FileLength(f: FileInfo)
    ensures |FileBytes(f)| == 2 + |f.relativePath| + 8 + |f.content|
  {
    var r := FileFields(f);
    assert PutAll(r) == Put(r.head) + (Put(r.tail.head) + PutAll(End));
    hide LE;
  }

  /** Path and length are read, and the content is next. */
  lemma {:induction false} FileParts(f: FileInfo, data: seq<byte>, offset: nat, rest: seq<byte>)
    requires FitRaw([f]) && offset <= |data| && data[offset..] == FileBytes(f) + rest
    ensures var o := offset + 2 + |f.relativePath|;
            && GetText(data, offset) == Some((f.relativePath, o)) && GetNum(data, o, 8) == Some((|f.content|, o + 8))
            && o + 8 <= |data| && data[o + 8..] == f.content + rest
  {
    Widths();
    assert [f][0] == f;
    hide Put, PutAll, LE, GetNum, GetText;
    var r, post := FileFields(f), f.content + rest;
    assert FileBytes(f) + rest == PutAll(r) + post;
    ReadText(data, offset, r, post);
    var o := offset + 2 + |f.relativePath|;
    ReadNum(data, o, r.tail, post);
    NothingAhead(data, o + 8, post);
  }

  lemma {:induction false} FilesRoundTrip(fs: seq<FileInfo>, data: seq<byte>, offset: nat)
    requires offset <= |data| && data[offset..] == AllBytes(fs)
    requires FitRaw(fs)
    ensures ParsedFiles(data, offset, |fs|) == Read(RawViews(fs))
    decreases |fs|
  {
    hide ParsedFile, FileBytes, RawInfo;
    if fs == [] {
    } else {
      FileRoundTrip(fs[0], data, offset, AllBytes(fs[1..]));
      FilesRoundTrip(fs[1..], data, offset + |FileBytes(fs[0])|);
      assert [RawInfo(fs[0].relativePath, fs[0].content)] + RawViews(fs[1..]) == RawViews(fs);
    }
  }

  /** With at most a million non-empty regular files, exactly those come back, in order. */
  lemma {:induction false} RawRoundTrip(fs: seq<FileInfo>)
    requires FitRaw(fs) && |fs| < U32
    ensures Parsed(Concatenated(fs)) == if CountKept(fs) <= MOST_FILES then Read(RawViews(KeptOnly(fs))) else Refused
  {
    hide AllBytes, LE, FromLE, RawInfo;
    var data, n := Concatenated(fs), CountKept(fs);
    TakeAhead(data, 0, LE(n, 4), AllBytes(KeptOnly(fs)));
    Widths();
    LERoundTrip(n, 4);
    KeptFit(fs);
    FilesRoundTrip(KeptOnly(fs), data, 4);
  }

  /** A failing input: one file with an empty path and a length of 2^64 - 14, whose end wraps to 0. */
  lemma {:induction false} WrappedLength()
    ensures Parsed(LE(1, 4) + LE(0, 2) + LE(U64 - 14, 8)) == Wild
  {
    var count, path, size := LE(1, 4), LE(0, 2), LE(U64 - 14, 8);
    var data := count + path + size;
    Widths();
    LERoundTrip(1, 4);
    LERoundTrip(0, 2);
    LERoundTrip(U64 - 14, 8);
    assert data[0..4] == count && data[4..6] == path && data[6..14] == size;
    hide LE, FromLE;
    assert GetText(data, 4) == Some(([], 6)) by { assert data[6..6] == []; }
    assert GetNum(data, 6, 8) == Some((U64 - 14, 14));
    assert ContentAt(data, 14, U64 - 14) == Wild;
    assert ParsedFile(data, 4) == Wild;
    assert ParsedFiles(data, 4, 1) == Wild;
  }
}
