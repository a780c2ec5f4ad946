/** The tar-like archive: 512-byte headers, contents padded to 512 bytes,
    two zero blocks at the end. */
module TarPack {
  import opened Bytes
  import opened FileRecords

  const BLOCK: nat := 512

  // ----- octal numbers -----

  function Pow8(n: nat): (r: nat)
    ensures r >= 1
  {
    if n == 0 then 1 else 8 * Pow8(n - 1)
  }

  /** The low n octal digits of v as text, most significant first. */
  function Digits(v: nat, n: nat): (r: seq<byte>)
    ensures |r| == n
    ensures forall k :: 0 <= k < n ==> 48 <= r[k] <= 55
  {
    if n == 0 then [] else Digits(v / 8, n - 1) + [48 + v % 8]
  }

  /** A field of `len` bytes: len - 1 digits and a NUL. */
  function OctalField(len: nat, v: nat): (r: seq<byte>)
    requires len >= 2
    ensures |r| == len
  {
    Digits(v, len - 1) + [0]
  }

  function Fill(b: byte, n: nat): (r: seq<byte>)
    ensures |r| == n
  {
    seq(n, i => b)
  }

  lemma {:induction false} DigitsOfZero(n: nat)
    ensures Digits(0, n) == Fill(48, n)
  {
    if n == 0 {
    } else {
      DigitsOfZero(n - 1);
    }
  }

  /** b1 is b0 with mid written at off. */
  ghost predicate Written(b0: seq<byte>, b1: seq<byte>, off: nat, mid: seq<byte>) {
    off + |mid| <= |b0| && b1 == b0[..off] + mid + b0[off + |mid|..]
  }

  lemma {:induction false} WrittenByIndex(b0: seq<byte>, b1: seq<byte>, off: nat, mid: seq<byte>)
    requires |b0| == |b1| && off + |mid| <= |b0|
    requires forall k :: 0 <= k < |b0| && !(off <= k < off + |mid|) ==> b1[k] == b0[k]
    requires forall k :: off <= k < off + |mid| ==> b1[k] == mid[k - off]
    ensures Written(b0, b1, off, mid)
  {
  }

  /** The digit loop of writeOctal on a field already filled with '0': digits go in from the right
      while any are left. */
  method WriteDigits(buf: array<byte>, off: nat, n: nat, val: nat)
    requires n >= 1 && off + n <= buf.Length
    requires forall k :: off <= k < off + n ==> buf[k] == 48
    modifies buf
    ensures forall k :: 0 <= k < buf.Length && !(off <= k < off + n) ==> buf[k] == old(buf[k])
    ensures forall k :: off <= k < off + n ==> buf[k] == Digits(val, n)[k - off]
  {
    var pos: int := n - 1;
    var rest := val;
    ghost var tail: seq<byte> := [];
    assert Digits(val, n) + [] == Digits(val, n);
    while rest > 0 && pos >= 0
      invariant -1 <= pos <= n - 1 && |tail| == n - 1 - pos
      invariant forall k :: 0 <= k < buf.Length && !(off <= k < off + n) ==> buf[k] == old(buf[k])
      invariant forall k :: off <= k <= off + pos ==> buf[k] == 48
      invariant forall k :: off + pos < k < off + n ==> buf[k] == tail[k - (off + pos + 1)]
      invariant Digits(rest, pos + 1) + tail == Digits(val, n)
      decreases pos + 1
    {
      DigitsTail(rest, pos, tail);
      buf[off + pos] := 48 + rest % 8;
      tail := [48 + rest % 8] + tail;
      rest := rest / 8;
      pos := pos - 1;
    }
    if rest == 0 {
      DigitsOfZero(pos + 1);
    }
    assert Digits(rest, pos + 1) == Fill(48, pos + 1);
    assert forall k :: off <= k < off + n ==> buf[k] == (Fill(48, pos + 1) + tail)[k - off];
  }

  /** writeOctal: fill with '0', terminate, write the digits. */
  method WriteOctal(buf: array<byte>, off: nat, len: nat, val: nat)
    requires len >= 2 && off + len <= buf.Length
    modifies buf
    ensures Written(old(buf[..]), buf[..], off, OctalField(len, val))
  {
    ghost var b0 := buf[..];
    for i := 0 to len
      invariant forall k :: 0 <= k < buf.Length && !(off <= k < off + len) ==> buf[k] == b0[k]
      invariant forall k :: off <= k < off + i ==> buf[k] == 48
    {
      buf[off + i] := 48;
    }
    buf[off + len - 1] := 0;
    WriteDigits(buf, off, len - 1, val);
    hide Digits;
    WrittenByIndex(b0, buf[..], off, OctalField(len, val));
  }

  lemma {:induction false} DigitsTail(v: nat, pos: nat, tail: seq<byte>)
    ensures Digits(v, pos + 1) + tail == Digits(v / 8, pos) + ([48 + v % 8] + tail)
  {
  }

  /** readOctal: digits up to the first NUL, anything else skipped. */
  function OctalValue(s: seq<byte>, acc: nat): nat {
    if s == [] || s[0] == 0 then acc
    else OctalValue(s[1..], if 48 <= s[0] <= 55 then 8 * acc + (s[0] - 48) else acc)
  }

  lemma {:induction false} OctalBound(s: seq<byte>, acc: nat)
    ensures OctalValue(s, acc) < (acc + 1) * Pow8(|s|)
  {
    if s == [] || s[0] == 0 {
      MulMonotone(1, Pow8(|s|), acc + 1);
    } else {
      var next := if 48 <= s[0] <= 55 then 8 * acc + (s[0] - 48) else acc;
      OctalBound(s[1..], next);
      NextDigitBound(acc, next, Pow8(|s| - 1));
    }
  }

  lemma {:induction false} NextDigitBound(acc: nat, next: nat, p: nat)
    requires next + 1 <= 8 * acc + 8
    ensures (next + 1) * p <= (acc + 1) * (8 * p)
  {
    MulMonotone(next + 1, 8 * acc + 8, p);
    assert (acc + 1) * (8 * p) == (8 * acc + 8) * p;
  }

  method ReadOctal(s: seq<byte>) returns (val: word64)
    ensures val == OctalValue(s, 0) % U64
  {
    val := 0;
    ghost var exact: nat := 0;
    var i := 0;
    while i < |s| && s[i] != 0
      invariant 0 <= i <= |s| && val == exact % U64
      invariant OctalValue(s[i..], exact) == OctalValue(s, 0)
    {
      assert s[i..][1..] == s[i + 1..];
      if 48 <= s[i] <= 55 {
        NextDigitWraps(exact, s[i] - 48);
        val := (8 * val + (s[i] - 48)) % U64;
        exact := 8 * exact + (s[i] - 48);
      }
      i := i + 1;
    }
  }

  lemma {:induction false} NextDigitWraps(exact: nat, d: nat)
    ensures (8 * (exact % U64) + d) % U64 == (8 * exact + d) % U64
  {
    var q := exact / U64;
    assert 8 * exact + d == 8 * (exact % U64) + d + U64 * (8 * q);
    ModAdd(8 * (exact % U64) + d, 8 * q);
  }

  lemma {:induction false} ModAdd(a: nat, k: nat)
    ensures (a + U64 * k) % U64 == a % U64
    decreases k
  {
    if k == 0 {
    } else {
      ModAdd(a, k - 1);
      assert a + U64 * k == (a + U64 * (k - 1)) + U64;
    }
  }

  /** The number read so far, with the low digits of v behind it. */
  function WithDigits(acc: nat, v: nat, p: nat): nat
    requires p > 0
  {
    acc * p + v % p
  }

  lemma {:induction false} ReadDigits(v: nat, n: nat, acc: nat, rest: seq<byte>)
    ensures OctalValue(Digits(v, n) + rest, acc) == OctalValue(rest, WithDigits(acc, v, Pow8(n)))
  {
    if n == 0 {
      assert Digits(v, 0) + rest == rest;
    } else {
      var d: seq<byte>, p := [48 + v % 8], Pow8(n - 1);
      DigitsTail(v, n - 1, rest);
      assert Pow8(n) == 8 * p;
      hide Digits, OctalValue, Pow8, WithDigits;
      ReadDigits(v / 8, n - 1, acc, d + rest);
      ReadDigit(v % 8, rest, WithDigits(acc, v / 8, p));
      OctalArithmetic(v, p, acc);
    }
  }

  lemma {:induction false} ReadDigit(d: nat, rest: seq<byte>, acc: nat)
    requires d < 8
    ensures OctalValue([48 + d] + rest, acc) == OctalValue(rest, 8 * acc + d)
  {
    assert ([48 + d] + rest)[1..] == rest;
  }

  lemma {:induction false} OctalArithmetic(v: nat, p: nat, acc: nat)
    requires p > 0
    ensures 8 * WithDigits(acc, v / 8, p) + v % 8 == WithDigits(acc, v, 8 * p)
  {
    var q := v / 8;
    var r := q / p;
    assert q == r * p + q % p;
    assert v == 8 * (r * p) + (8 * (q % p) + v % 8);
    assert 8 * (r * p) == r * (8 * p);
    DivUnique(v, 8 * p, r, 8 * (q % p) + v % 8);
    assert v == (v / (8 * p)) * (8 * p) + v % (8 * p);
    assert 8 * (acc * p) == acc * (8 * p);
  }

  /** Reading back a written number: its low len - 1 octal digits. */
  lemma {:induction false} OctalRoundTrip(len: nat, v: nat)
    requires len >= 2
    ensures OctalValue(OctalField(len, v), 0) == v % Pow8(len - 1)
  {
    ReadDigits(v, len - 1, 0, [0]);
  }

  // ----- C strings -----

  /** The characters before the first NUL. */
  function CString(s: seq<byte>): (r: seq<byte>)
    ensures 0 !in r && |r| <= |s|
  {
    if s == [] || s[0] == 0 then [] else [s[0]] + CString(s[1..])
  }

  function Cut(s: seq<byte>): (r: seq<byte>)
    ensures |r| <= 100
  {
    var c := CString(s);
    if |c| <= 100 then c else c[..100]
  }

  /** What strncpy leaves in a 100-byte field. */
  function NameField(s: seq<byte>): (r: seq<byte>)
    ensures |r| == 100
  {
    Cut(s) + Zeros(100 - |Cut(s)|)
  }

  lemma {:induction false} CStringThrough(s: seq<byte>, more: seq<byte>)
    requires 0 !in s
    ensures CString(s + more) == s + CString(more)
  {
    if s == [] {
      assert [] + more == more;
    } else {
      var all, rest := s + more, s[1..];
      assert all[0] == s[0] != 0 && all[1..] == rest + more;
      assert CString(all) == [s[0]] + CString(rest + more);
      hide CString;
      CStringThrough(rest, more);
      assert [s[0]] + (rest + CString(more)) == s + CString(more);
    }
  }

  lemma {:induction false} CStringOfPadded(c: seq<byte>, n: nat)
    requires 0 !in c
    ensures CString(c + Zeros(n)) == c
  {
    CStringThrough(c, Zeros(n));
    assert CString(Zeros(n)) == [];
    assert c + [] == c;
  }

  lemma {:induction false} NameRoundTrip(s: seq<byte>)
    ensures CString(NameField(s)) == Cut(s)
  {
    CStringOfPadded(Cut(s), 100 - |Cut(s)|);
  }

  lemma {:induction false} CStringWhole(s: seq<byte>)
    ensures CString(s) == s <==> 0 !in s
  {
    if s != [] && s[0] != 0 {
      CStringWhole(s[1..]);
      assert s == [s[0]] + s[1..];
    }
  }

  lemma {:induction false} CutWhole(s: seq<byte>)
    ensures Cut(s) == s <==> 0 !in s && |s| <= 100
  {
    CStringWhole(s);
  }

  /** A path of 100 bytes and more is cut to them. */
  lemma {:induction false} CutPrefix(short: seq<byte>, more: seq<byte>)
    requires |short| == 100 && 0 !in short
    ensures Cut(short + more) == short
  {
    CStringThrough(short, more);
    hide CString;
  }

  /** strncpy of at most 100 characters into a zeroed field. */
  method CopyName(buf: array<byte>, off: nat, s: seq<byte>)
    requires off + 100 <= buf.Length && buf[off..off + 100] == Zeros(100)
    modifies buf
    ensures Written(old(buf[..]), buf[..], off, NameField(s))
  {
    ghost var b0 := buf[..];
    assert forall k :: off <= k < off + 100 ==> buf[k] == buf[off..off + 100][k - off];
    var i := 0;
    while i < 100 && i < |s| && s[i] != 0
      invariant 0 <= i <= 100 && i <= |s|
      invariant forall k :: 0 <= k < buf.Length && !(off <= k < off + 100) ==> buf[k] == b0[k]
      invariant forall k :: off <= k < off + i ==> buf[k] == s[k - off]
      invariant 0 !in s[..i]
      invariant forall k :: off + i <= k < off + 100 ==> buf[k] == 0
    {
      buf[off + i] := s[i];
      i := i + 1;
    }
    CutAt(s, i);
    WrittenByIndex(b0, buf[..], off, NameField(s));
  }

  lemma {:induction false} CStringPrefix(s: seq<byte>, i: nat)
    requires i <= |s| && 0 !in s[..i]
    ensures CString(s) == s[..i] + CString(s[i..])
  {
    if i == 0 {
      assert s[0..] == s;
    } else {
      assert s[..i][0] == s[0] && s[..i] == [s[0]] + s[1..][..i - 1];
      CStringPrefix(s[1..], i - 1);
      assert s[1..][i - 1..] == s[i..];
    }
  }

  lemma {:induction false} CutAt(s: seq<byte>, i: nat)
    requires i <= 100 && i <= |s| && 0 !in s[..i]
    requires i == 100 || i == |s| || s[i] == 0
    ensures Cut(s) == s[..i]
  {
    CStringPrefix(s, i);
    assert i == |s| ==> CString(s[i..]) == [];
    assert i < |s| && s[i] == 0 ==> CString(s[i..]) == [];
  }

  // ----- headers -----

  function TypeFlag(f: FileInfo): byte {
    if f.IsDirectory() then 53 else if f.IsSymlink() then 50 else 48
  }

  function DataSize(f: FileInfo): nat {
    if f.IsRegular() then |f.content| else 0
  }

  /** The numeric fields of a header, bytes 100 to 148. */
  function Numbers(f: FileInfo): (r: seq<byte>)
    ensures |r| == 48
  {
    OctalField(8, f.permissions) + OctalField(8, f.owner) + OctalField(8, f.group)
    + OctalField(12, DataSize(f)) + OctalField(12, ToU64(f.mtime))
  }

  function LinkField(f: FileInfo): (r: seq<byte>)
    ensures |r| == 100
  {
    if f.IsSymlink() then NameField(f.symlinkTarget) else Zeros(100)
  }

  function Header(f: FileInfo): (r: seq<byte>)
    ensures |r| == BLOCK
  {
    NameField(f.relativePath) + Numbers(f) + Zeros(8) + [TypeFlag(f)] + LinkField(f) + Zeros(255)
  }

  /** The first part of a 512-byte header is done, the rest is still zero. */
  ghost predicate Built(buf: seq<byte>, done: seq<byte>) {
    |done| <= BLOCK && buf == done + Zeros(BLOCK - |done|)
  }

  lemma {:induction false} Extend(b0: seq<byte>, done: seq<byte>, field: seq<byte>, b1: seq<byte>)
    requires Built(b0, done) && Written(b0, b1, |done|, field)
    ensures Built(b1, done + field)
  {
  }

  method AddOctal(buf: array<byte>, ghost done: seq<byte>, off: nat, len: nat, val: nat)
    requires buf.Length == BLOCK && Built(buf[..], done) && |done| == off
    requires len >= 2 && off + len <= BLOCK
    modifies buf
    ensures Built(buf[..], done + OctalField(len, val))
  {
    ghost var b0 := buf[..];
    WriteOctal(buf, off, len, val);
    Extend(b0, done, OctalField(len, val), buf[..]);
  }

  method AddName(buf: array<byte>, ghost done: seq<byte>, off: nat, s: seq<byte>)
    requires buf.Length == BLOCK && Built(buf[..], done) && |done| == off <= BLOCK - 100
    modifies buf
    ensures Built(buf[..], done + NameField(s))
  {
    ghost var b0 := buf[..];
    assert b0[off..off + 100] == Zeros(100);
    CopyName(buf, off, s);
    Extend(b0, done, NameField(s), buf[..]);
  }

  method AddNumbers(f: FileInfo, buf: array<byte>, ghost name: seq<byte>)
    requires buf.Length == BLOCK && Built(buf[..], name) && |name| == 100
    modifies buf
    ensures Built(buf[..], name + Numbers(f))
  {
    hide OctalField, Built, ToU64;
    ghost var a, b, c := OctalField(8, f.permissions), OctalField(8, f.owner), OctalField(8, f.group);
    ghost var d, e := OctalField(12, DataSize(f)), OctalField(12, ToU64(f.mtime));
    AddOctal(buf, name, 100, 8, f.permissions);
    AddOctal(buf, name + a, 108, 8, f.owner);
    AddOctal(buf, name + a + b, 116, 8, f.group);
    AddOctal(buf, name + a + b + c, 124, 12, DataSize(f));
    AddOctal(buf, name + a + b + c + d, 136, 12, ToU64(f.mtime));
    assert name + a + b + c + d + e == name + (a + b + c + d + e);
  }

  method AddTypeAndLink(f: FileInfo, buf: array<byte>, ghost front: seq<byte>)
    requires buf.Length == BLOCK && Built(buf[..], front) && |front| == 148
    modifies buf
    ensures buf[..] == front + Zeros(8) + [TypeFlag(f)] + LinkField(f) + Zeros(255)
  {
    ghost var skipped := front + Zeros(8);
    ghost var b0 := buf[..];
    assert Built(b0, skipped);
    buf[156] := TypeFlag(f);
    WrittenByIndex(b0, buf[..], 156, [TypeFlag(f)]);
    Extend(b0, skipped, [TypeFlag(f)], buf[..]);
    ghost var done := skipped + [TypeFlag(f)];
    if f.IsSymlink() {
      AddName(buf, done, 157, f.symlinkTarget);
    } else {
      assert Built(buf[..], done + Zeros(100));
    }
  }

  method BuildHeader(f: FileInfo) returns (header: seq<byte>)
    ensures header == Header(f)
  {
    hide Numbers, NameField, LinkField, TypeFlag;
    var buf := new byte[BLOCK](_ => 0);
    assert Built(buf[..], []);
    AddName(buf, [], 0, f.relativePath);
    ghost var name := NameField(f.relativePath);
    assert [] + name == name;
    AddNumbers(f, buf, name);
    AddTypeAndLink(f, buf, name + Numbers(f));
    header := buf[..];
  }

  /** A number of at most 12 octal digits is below 2^36. */
  function Octal(s: seq<byte>): (v: nat)
    requires |s| <= 12
    ensures v < 0x10_0000_0000 && (|s| <= 8 ==> v < U32)
  {
    Pow8Values();
    OctalBound(s, 0);
    Pow8Monotone(|s|, 12);
    Pow8Monotone(|s|, if |s| <= 8 then 8 else 12);
    OctalValue(s, 0)
  }

  lemma {:induction false} Pow8Values()
    ensures Pow8(7) == 0x20_0000 && Pow8(8) == 0x100_0000 && Pow8(11) == 0x2_0000_0000 && Pow8(12) == 0x10_0000_0000
  {
    assert Pow8(4) == 0x1000;
    assert Pow8(6) == 0x4_0000;
    assert Pow8(10) == 0x4000_0000;
  }

  lemma {:induction false} Pow8Monotone(a: nat, b: nat)
    requires a <= b
    ensures Pow8(a) <= Pow8(b)
    decreases b
  {
    if a >= b {
    } else {
      Pow8Monotone(a, b - 1);
    }
  }

  /** parseHeader: a record without content. */
  function ParsedEntry(h: seq<byte>): FileInfo
    requires |h| == BLOCK
  {
    var mtime := Octal(h[136..148]);
    FileInfo(CString(h[0..100]),
             if h[156] == 53 then S_IFDIR else if h[156] == 50 then S_IFLNK else S_IFREG,
             Octal(h[100..108]), Octal(h[108..116]), Octal(h[116..124]), Octal(h[124..136]),
             mtime, mtime, mtime, if h[156] == 50 then CString(h[157..257]) else [], 0, [])
  }

  // ----- what a header keeps -----

  /** The record that comes back from an archive: names cut at the first NUL and at 100 bytes,
      numbers cut to their octal fields, one time stamp, and three file types. */
  function TarView(f: FileInfo): FileInfo {
    Pow8Values();
    var mtime: int64 := ToU64(f.mtime) % Pow8(11);
    FileInfo(Cut(f.relativePath),
             if f.IsDirectory() then S_IFDIR else if f.IsSymlink() then S_IFLNK else S_IFREG,
             f.permissions % Pow8(7), f.owner % Pow8(7), f.group % Pow8(7), DataSize(f) % Pow8(11),
             mtime, mtime, mtime, if f.IsSymlink() then Cut(f.symlinkTarget) else [], 0,
             if f.IsRegular() then f.content else [])
  }

  lemma {:induction false} NumberSlices(a: seq<byte>, b: seq<byte>, c: seq<byte>, d: seq<byte>, e: seq<byte>, pre: seq<byte>, post: seq<byte>)
    requires |a| == |b| == |c| == 8 && |d| == |e| == 12 && |pre| == 100
    ensures var h := pre + (a + b + c + d + e) + post;
            h[100..108] == a && h[108..116] == b && h[116..124] == c && h[124..136] == d && h[136..148] == e
  {
  }

  lemma {:induction false} HeaderSlices(name: seq<byte>, numbers: seq<byte>, flag: byte, link: seq<byte>)
    requires |name| == 100 && |numbers| == 48 && |link| == 100
    ensures var h := name + numbers + Zeros(8) + [flag] + link + Zeros(255);
            h[0..100] == name && h[156] == flag && h[157..257] == link
            && h == name + numbers + (Zeros(8) + [flag] + link + Zeros(255))
  {
  }

  /** Parsing a built header gives the view without the content. */
  lemma {:induction false} HeaderRoundTrip(f: FileInfo)
    ensures ParsedEntry(Header(f)) == TarView(f).(content := [])
  {
    Pow8Values();
    hide OctalField, NameField, Octal, OctalValue, CString, Cut, ToU64, Zeros;
    HeaderSlices(NameField(f.relativePath), Numbers(f), TypeFlag(f), LinkField(f));
    NumberSlices(OctalField(8, f.permissions), OctalField(8, f.owner), OctalField(8, f.group),
                 OctalField(12, DataSize(f)), OctalField(12, ToU64(f.mtime)), NameField(f.relativePath),
                 Zeros(8) + [TypeFlag(f)] + LinkField(f) + Zeros(255));
    NameRoundTrip(f.relativePath);
    NameRoundTrip(f.symlinkTarget);
    OctalFieldBack(8, f.permissions);
    OctalFieldBack(8, f.owner);
    OctalFieldBack(8, f.group);
    OctalFieldBack(12, DataSize(f));
    OctalFieldBack(12, ToU64(f.mtime));
  }

  lemma {:induction false} OctalFieldBack(len: nat, v: nat)
    requires 2 <= len <= 12
    ensures Octal(OctalField(len, v)) == v % Pow8(len - 1)
  {
    OctalRoundTrip(len, v);
  }

  // ----- archives -----

  function Padding(n: nat): nat { (BLOCK - n % BLOCK) % BLOCK }

  function Body(f: FileInfo): seq<byte> {
    if f.IsRegular() then f.content + Zeros(Padding(|f.content|)) else []
  }

  function Entries(fs: seq<FileInfo>): seq<byte> {
    if fs == [] then [] else (Header(fs[0]) + Body(fs[0])) + Entries(fs[1..])
  }

  function Packed(fs: seq<FileInfo>): seq<byte> {
    Entries(fs) + Zeros(2 * BLOCK)
  }

  lemma {:induction false} EntriesAppend(fs: seq<FileInfo>, f: FileInfo)
    ensures Entries(fs + [f]) == Entries(fs) + (Header(f) + Body(f))
  {
    hide Header, Body;
    if fs == [] {
      assert ([] + [f])[1..] == [] && Entries([]) == [];
    } else {
      EntriesAppend(fs[1..], f);
      assert (fs + [f])[1..] == fs[1..] + [f];
    }
  }

  method PackEntry(f: FileInfo, buf: seq<byte>) returns (result: seq<byte>)
    ensures result == buf + (Header(f) + Body(f))
  {
    hide Header;
    var header := BuildHeader(f);
    result := buf + header;
    if f.IsRegular() && f.content != [] {
      result := result + f.content;
      var padding := BLOCK - |f.content| % BLOCK;
      if padding < BLOCK {
        result := result + Zeros(padding);
      }
    }
  }

  method Pack(files: seq<FileInfo>) returns (result: seq<byte>)
    ensures result == Packed(files)
  {
    result := [];
    assert files[..0] == [];
    for i := 0 to |files|
      invariant result == Entries(files[..i])
    {
      hide Header, Body, Entries;
      result := PackEntry(files[i], result);
      EntriesAppend(files[..i], files[i]);
      assert files[..i] + [files[i]] == files[..i + 1];
    }
    assert files[..|files|] == files;
    result := result + Zeros(2 * BLOCK);
  }

  predicate AllZero(data: seq<byte>, from: nat, to: nat)
    requires from <= to <= |data|
  {
    forall i :: from <= i < to ==> data[i] == 0
  }

  /** Two zero blocks end the archive. */
  predicate EndMark(data: seq<byte>, offset: nat)
    requires offset + BLOCK <= |data|
  {
    AllZero(data, offset, offset + BLOCK) && offset + 2 * BLOCK <= |data| && AllZero(data, offset + BLOCK, offset + 2 * BLOCK)
  }

  /** The entry at offset: its data is taken only for regular files and only if it is all there. */
  function EntryAt(data: seq<byte>, offset: nat): FileInfo
    requires offset + BLOCK <= |data|
  {
    var info := ParsedEntry(data[offset..offset + BLOCK]);
    var start := offset + BLOCK;
    if info.IsRegular() && 0 < info.fileSize && start + info.fileSize <= |data|
    then info.(content := data[start..start + info.fileSize])
    else info
  }

  /** The announced size, rounded up to whole blocks. */
  function Skipped(size: int): (n: nat)
    requires size >= 0
    ensures n == 512 * ((size + 511) / 512) && size <= n < size + BLOCK
  {
    ((size + BLOCK - 1) / BLOCK) * BLOCK
  }

  lemma {:induction false} SizeNotNegative(h: seq<byte>)
    requires |h| == BLOCK
    ensures ParsedEntry(h).fileSize >= 0
  {
  }

  function Unpacked(data: seq<byte>, offset: nat): seq<FileInfo>
    decreases |data| - offset
  {
    if offset + BLOCK <= |data| && !EndMark(data, offset) then
      var info := EntryAt(data, offset);
      SizeNotNegative(data[offset..offset + BLOCK]);
      [info] + Unpacked(data, offset + BLOCK + Skipped(info.fileSize))
    else []
  }

  method IsZeroRange(data: seq<byte>, from: nat, to: nat) returns (allZero: bool)
    requires from <= to <= |data|
    ensures allZero == AllZero(data, from, to)
  {
    var i := from;
    while i < to
      invariant from <= i <= to && AllZero(data, from, i)
    {
      if data[i] != 0 {
        return false;
      }
      i := i + 1;
    }
    allZero := true;
  }

  method ParseHeader(h: seq<byte>) returns (info: FileInfo)
    requires |h| == BLOCK
    ensures info == ParsedEntry(h)
  {
    var permissions := ReadOctal(h[100..108]);
    var owner := ReadOctal(h[108..116]);
    var group := ReadOctal(h[116..124]);
    var size := ReadOctal(h[124..136]);
    var mtime := ReadOctal(h[136..148]);
    hide OctalValue;
    assert Octal(h[124..136]) < U64 && Octal(h[136..148]) < U64;
    assert permissions == Octal(h[100..108]) && owner == Octal(h[108..116]) && group == Octal(h[116..124]);
    assert size == Octal(h[124..136]) && mtime == Octal(h[136..148]);
    info := FileInfo(CString(h[0..100]), S_IFREG, permissions, owner, group, size, mtime, mtime, mtime, [], 0, []);
    if h[156] == 53 {
      info := info.(fileType := S_IFDIR);
    } else if h[156] == 50 {
      info := info.(fileType := S_IFLNK, symlinkTarget := CString(h[157..257]));
    }
  }

  method AtEnd(data: seq<byte>, offset: nat) returns (end: bool)
    requires offset + BLOCK <= |data|
    ensures end == EndMark(data, offset)
  {
    var allZero := IsZeroRange(data, offset, offset + BLOCK);
    if allZero && offset + 2 * BLOCK <= |data| {
      end := IsZeroRange(data, offset + BLOCK, offset + 2 * BLOCK);
    } else {
      end := false;
    }
  }

  method UnpackEntry(data: seq<byte>, offset: nat) returns (info: FileInfo, next: nat)
    requires offset + BLOCK <= |data|
    ensures info == EntryAt(data, offset) && info.fileSize >= 0
    ensures next == offset + BLOCK + Skipped(info.fileSize)
  {
    info := ParseHeader(data[offset..offset + BLOCK]);
    SizeNotNegative(data[offset..offset + BLOCK]);
    hide ParsedEntry;
    next := offset + BLOCK;
    if info.IsRegular() && info.fileSize > 0 {
      if next + info.fileSize <= |data| {
        info := info.(content := data[next..next + info.fileSize]);
      }
    }
    next := next + Skipped(info.fileSize);
  }

  method Unpack(data: seq<byte>) returns (outFiles: seq<FileInfo>)
    ensures outFiles == Unpacked(data, 0)
  {
    hide EntryAt, EndMark, Skipped;
    outFiles := [];
    var offset := 0;
    while offset + BLOCK <= |data|
      invariant outFiles + Unpacked(data, offset) == Unpacked(data, 0)
      decreases |data| - offset
    {
      var end := AtEnd(data, offset);
      if end {
        break;
      }
      var info, next := UnpackEntry(data, offset);
      Regroup(outFiles, info, [info] + Unpacked(data, next), Unpacked(data, next));
      outFiles := outFiles + [info];
      offset := next;
    }
    assert outFiles + [] == outFiles;
  }

  // ----- round trip -----

  /** No header is a zero block: its mode field holds digits. */
  lemma {:induction false} HeaderNotZero(f: FileInfo, data: seq<byte>, offset: nat)
    requires offset + BLOCK <= |data| && data[offset..offset + BLOCK] == Header(f)
    ensures !EndMark(data, offset)
  {
    hide NameField, LinkField, ToU64;
    assert OctalField(8, f.permissions)[0] >= 48;
    assert Header(f)[100] == Numbers(f)[0] == OctalField(8, f.permissions)[0];
    assert data[offset + 100] == data[offset..offset + BLOCK][100];
  }

  lemma {:induction false} HeaderDigitAndNul(f: FileInfo)
    ensures Header(f)[100] >= 48 && Header(f)[107] == 0
  {
    hide NameField, LinkField, ToU64;
    assert OctalField(8, f.permissions)[0] >= 48 && OctalField(8, f.permissions)[7] == 0;
    assert Numbers(f)[0] == OctalField(8, f.permissions)[0] && Numbers(f)[7] == OctalField(8, f.permissions)[7];
    assert Header(f)[100] == Numbers(f)[0] && Header(f)[107] == Numbers(f)[7];
  }

  /** A cut name is free of NULs and at most 100 bytes long. */
  lemma {:induction false} CutClean(s: seq<byte>)
    ensures 0 !in Cut(s) && |Cut(s)| <= 100
  {
  }

  lemma {:induction false} BodyIsBlocks(f: FileInfo)
    requires DataSize(f) < Pow8(11)
    ensures |Body(f)| == Skipped(DataSize(f))
  {
  }

  lemma {:induction false} ContentAhead(f: FileInfo, data: seq<byte>, start: nat, rest: seq<byte>)
    requires f.IsRegular() && start <= |data| && data[start..] == Body(f) + rest
    ensures start + |f.content| <= |data| && data[start..start + |f.content|] == f.content
  {
    assert Body(f) + rest == f.content + (Zeros(Padding(|f.content|)) + rest);
    TakeAhead(data, start, f.content, Zeros(Padding(|f.content|)) + rest);
  }

  /** The entry ahead is recovered, and the offset moves exactly over it. */
  lemma {:induction false} EntryRoundTrip(f: FileInfo, data: seq<byte>, offset: nat, rest: seq<byte>)
    requires DataSize(f) < Pow8(11)
    requires offset <= |data| && data[offset..] == (Header(f) + Body(f)) + rest
    ensures offset + BLOCK <= |data| && !EndMark(data, offset) && EntryAt(data, offset) == TarView(f)
    ensures TarView(f).fileSize == DataSize(f)
    ensures var next := offset + BLOCK + Skipped(DataSize(f));
            next <= |data| && data[next..] == rest
  {
    hide Header, Body, ParsedEntry, EntryAt, TarView, EndMark, Skipped;
    var start := offset + BLOCK;
    HeaderThenBody(f, rest);
    TakeAhead(data, offset, Header(f), Body(f) + rest);
    HeaderNotZero(f, data, offset);
    TakeAhead(data, start, Body(f), rest);
    BodyIsBlocks(f);
    HeaderRoundTrip(f);
    if f.IsRegular() {
      ContentAhead(f, data, start, rest);
    }
    ViewOf(f, data, offset);
  }

  lemma {:induction false} HeaderThenBody(f: FileInfo, rest: seq<byte>)
    ensures (Header(f) + Body(f)) + rest == Header(f) + (Body(f) + rest)
  {
    hide Header, Body;
  }

  lemma {:induction false} ViewOf(f: FileInfo, data: seq<byte>, offset: nat)
    requires offset + BLOCK <= |data| && ParsedEntry(data[offset..offset + BLOCK]) == TarView(f).(content := [])
    requires DataSize(f) < Pow8(11)
    requires f.IsRegular() ==> offset + BLOCK + |f.content| <= |data|
    requires f.IsRegular() ==> data[offset + BLOCK..offset + BLOCK + |f.content|] == f.content
    ensures EntryAt(data, offset) == TarView(f) && TarView(f).fileSize == DataSize(f)
  {
    ViewFields(f);
    hide ParsedEntry, TarView, Pow8;
    var start := offset + BLOCK;
    var info := ParsedEntry(data[offset..start]);
    assert info.fileSize == DataSize(f) && (f.IsRegular() ==> info.IsRegular() && |f.content| == DataSize(f));
    assert TarView(f) == info.(content := TarView(f).content);
  }

  lemma {:induction false} ViewFields(f: FileInfo)
    requires DataSize(f) < Pow8(11)
    ensures TarView(f).fileSize == DataSize(f)
    ensures TarView(f).content == if f.IsRegular() then f.content else []
    ensures if f.IsRegular() then TarView(f).IsRegular() else DataSize(f) == 0
  {
    Pow8Values();
    hide Cut, ToU64, Pow8;
    assert DataSize(f) % Pow8(11) == DataSize(f);
  }

  /** The only limit of the layout: content sizes fit eleven octal digits. */
  ghost predicate SizesFit(fs: seq<FileInfo>) {
    forall k :: 0 <= k < |fs| ==> DataSize(fs[k]) < Pow8(11)
  }

  function TarViews(fs: seq<FileInfo>): (r: seq<FileInfo>)
    ensures |r| == |fs|
    ensures forall k :: 0 <= k < |fs| ==> r[k] == TarView(fs[k])
  {
    seq(|fs|, k requires 0 <= k < |fs| => TarView(fs[k]))
  }

  lemma {:induction false} EntriesRoundTrip(fs: seq<FileInfo>, data: seq<byte>, offset: nat)
    requires SizesFit(fs) && offset <= |data| && data[offset..] == Packed(fs)
    ensures Unpacked(data, offset) == TarViews(fs)
    decreases |fs|
  {
    hide Header, Body, TarView, EntryAt, Skipped;
    if fs == [] {
      assert Entries(fs) + Zeros(2 * BLOCK) == Zeros(2 * BLOCK);
      assert forall i :: offset <= i < offset + 2 * BLOCK ==> data[i] == data[offset..][i - offset];
    } else {
      var f, rest := fs[0], Packed(fs[1..]);
      assert Packed(fs) == (Header(f) + Body(f)) + rest;
      EntryRoundTrip(f, data, offset, rest);
      EntriesRoundTrip(fs[1..], data, offset + BLOCK + Skipped(DataSize(f)));
      assert [TarView(f)] + TarViews(fs[1..]) == TarViews(fs);
    }
  }

  /** For every list whose contents fit the size field, unpacking gives back the view of every
      entry in order: whatever is lost is lost inside an entry, never to another one. */
  lemma {:induction false} TarRoundTrip(fs: seq<FileInfo>)
    requires SizesFit(fs)
    ensures Unpacked(Packed(fs), 0) == TarViews(fs)
  {
    assert Packed(fs)[0..] == Packed(fs);
    EntriesRoundTrip(fs, Packed(fs), 0);
  }

  /** The limits within which an entry survives. */
  predicate WithinTar(f: FileInfo) {
    && 0 !in f.relativePath && |f.relativePath| <= 100
    && f.permissions < Pow8(7) && f.owner < Pow8(7) && f.group < Pow8(7) && 0 <= f.mtime < Pow8(11)
    && (f.IsRegular() || f.IsDirectory() || f.IsSymlink())
    && (if f.IsSymlink() then 0 !in f.symlinkTarget && |f.symlinkTarget| <= 100 else f.symlinkTarget == [])
    && (f.IsRegular() || f.content == [])
  }

  /** Path, type, permissions, owner, group, modification time, link and content survive exactly
      within those limits. */
  lemma {:induction false} TarKeepsEntry(f: FileInfo)
    ensures var v := TarView(f);
            (v.relativePath == f.relativePath && v.fileType == f.fileType && v.permissions == f.permissions
             && v.owner == f.owner && v.group == f.group && v.mtime == f.mtime
             && v.symlinkTarget == f.symlinkTarget && v.content == f.content) <==> WithinTar(f)
  {
    Pow8Values();
    hide Cut;
    CutWhole(f.relativePath);
    CutWhole(f.symlinkTarget);
  }

  // ----- an archive that has lost its first eight bytes -----

  lemma {:induction false} BlankPacked(f: FileInfo)
    requires |f.relativePath| <= 8 && Body(f) == []
    ensures |Packed([f])| == 3 * BLOCK
    ensures forall k :: 0 <= k < |Packed([f])[8..]| && k % BLOCK == 0 ==> Packed([f])[8..][k] == 0
  {
    var data, name := Packed([f]), NameField(f.relativePath);
    assert Entries([f]) == Header(f) by { assert [f][1..] == []; assert (Header(f) + []) + [] == Header(f); }
    CutShort(f.relativePath);
    assert name[8] == 0;
    assert Header(f)[8] == name[8] by { hide NameField, Numbers, LinkField; }
    hide Header, NameField, Entries;
    assert data[8] == Header(f)[8] && data[BLOCK + 8] == 0 && data[2 * BLOCK + 8] == 0;
  }

  lemma {:induction false} CutShort(s: seq<byte>)
    ensures |Cut(s)| <= |s|
  {
  }

  /** Where every block starts with a zero, every path is empty. */
  lemma {:induction false} BlankNames(data: seq<byte>, offset: nat)
    requires offset % BLOCK == 0 && forall k :: 0 <= k < |data| && k % BLOCK == 0 ==> data[k] == 0
    ensures forall k :: 0 <= k < |Unpacked(data, offset)| ==> Unpacked(data, offset)[k].relativePath == []
    decreases |data| - offset
  {
    hide EndMark;
    if offset + BLOCK <= |data| && !EndMark(data, offset) {
      var info := EntryAt(data, offset);
      assert info.relativePath == [] by { BlankName(data, offset); }
      SizeNotNegative(data[offset..offset + BLOCK]);
      hide EntryAt;
      var next := offset + BLOCK + Skipped(info.fileSize);
      BlankNames(data, next);
      assert Unpacked(data, offset) == [info] + Unpacked(data, next);
    } else {
      assert Unpacked(data, offset) == [];
    }
  }

  lemma {:induction false} BlankName(data: seq<byte>, offset: nat)
    requires offset + BLOCK <= |data| && data[offset] == 0
    ensures EntryAt(data, offset).relativePath == []
  {
    hide Octal;
    var h := data[offset..offset + BLOCK];
    var name := h[0..100];
    assert |name| == 100 && name[0] == h[0] == data[offset];
    assert CString(name) == [];
  }
}
