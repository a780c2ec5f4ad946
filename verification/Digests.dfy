module Digests {
  /** What of a password, a key or a sequence number reaches the bytes that are made from it: one byte each. */

  import opened Bytes
  import opened Ciphers
  import opened Transport
  import opened Users

  // ----- the generator in its low byte -----

  /** 1103515245 and 12345 modulo 256. */
  function LowStep(b: byte): byte {
    (109 * b + 57) % 256
  }

  function LowSkip(b: byte, n: nat): byte {
    if n == 0 then b else LowStep(LowSkip(b, n - 1))
  }

  lemma {:induction false} SameLow(x: int, y: int, k: int)
    requires x == y + 256 * k
    ensures x % 256 == y % 256
  {
  }

  lemma {:induction false} LowOfWord(v: nat)
    ensures (v % U32) % 256 == v % 256
  {
    SameLow(v, v % U32, 0x100_0000 * (v / U32));
  }

  lemma {:induction false} StepIsLow(state: nat)
    ensures LcgStep(state) % 256 == LowStep(state % 256)
  {
    var b: byte := state % 256;
    LowOfWord(1103515245 * state + 12345);
    hide LcgStep;
    assert LcgStep(state) % 256 == (1103515245 * state + 12345) % 256 by { WordStep(state); }
    SameLow(1103515245 * state + 12345, 109 * b + 57, 1103515245 * (state / 256) + 4310606 * b + 48);
  }

  lemma {:induction false} WordStep(state: nat)
    ensures LcgStep(state) == (1103515245 * state + 12345) % U32
  {
  }

  /** The low bytes of the states are a generator of their own. */
  lemma {:induction false} SkipIsLow(state: nat, n: nat)
    ensures LcgSkip(state, n) % 256 == LowSkip(state % 256, n)
  {
    hide LcgStep, LowStep;
    if n == 0 {
    } else {
      SkipIsLow(state, n - 1);
      StepIsLow(LcgSkip(state, n - 1));
    }
  }

  /** 101 is the inverse of 109, so a step loses nothing. */
  lemma {:induction false} LowStepSame(a: byte, b: byte)
    ensures LowStep(a) == LowStep(b) <==> a == b
  {
    Unstep(a);
    Unstep(b);
  }

  lemma {:induction false} Unstep(a: byte)
    ensures (101 * (LowStep(a) + 199)) % 256 == a
  {
    var v := 109 * a + 57;
    SameLow(101 * (v % 256 + 199), a, 43 * a + 101 - 101 * (v / 256));
  }

  lemma {:induction false} LowSkipSame(a: byte, b: byte, n: nat)
    ensures LowSkip(a, n) == LowSkip(b, n) <==> a == b
  {
    hide LowStep;
    if n == 0 {
    } else {
      LowSkipSame(a, b, n - 1);
      LowStepSame(LowSkip(a, n - 1), LowSkip(b, n - 1));
    }
  }

  lemma {:induction false} SkipSame(a: nat, b: nat, n: nat)
    ensures LcgSkip(a, n) % 256 == LcgSkip(b, n) % 256 <==> a % 256 == b % 256
  {
    SkipIsLow(a, n);
    SkipIsLow(b, n);
    LowSkipSame(a % 256, b % 256, n);
  }

  // ----- streams -----

  lemma {:induction false} StreamAt(state: nat, n: nat, k: nat)
    requires k < n
    ensures KeyStream(state, n)[k] == LcgSkip(state, k + 1) % 256
  {
    hide LcgSkip;
    if k < n - 1 {
      StreamAt(state, n - 1, k);
    } else {
    }
  }

  /** Two streams are the same exactly if their seeds agree in the low byte. */
  lemma {:induction false} StreamSame(a: nat, b: nat, n: nat)
    requires n > 0
    ensures KeyStream(a, n) == KeyStream(b, n) <==> a % 256 == b % 256
  {
    hide KeyStream, LcgSkip;
    StreamAt(a, n, 0);
    StreamAt(b, n, 0);
    SkipSame(a, b, 1);
    if a % 256 == b % 256 {
      forall k | 0 <= k < n ensures KeyStream(a, n)[k] == KeyStream(b, n)[k] {
        StreamAt(a, n, k);
        StreamAt(b, n, k);
        SkipSame(a, b, k + 1);
      }
    }
  }

  // ----- exclusive or -----

  lemma {:induction false} XorBitsSwap(a: nat, b: nat, n: nat)
    ensures XorBits(a, b, n) == XorBits(b, a, n)
    decreases n
  {
    if n == 0 {
    } else {
      XorBitsSwap(a / 2, b / 2, n - 1);
    }
  }

  function BitOfTwo(a: nat, b: nat): nat {
    (a % 2 + b % 2) % 2
  }

  lemma {:induction false} XorBitsStep(a: nat, b: nat, n: nat)
    requires n > 0
    ensures var x := XorBits(a, b, n);
            x / 2 == XorBits(a / 2, b / 2, n - 1) && x % 2 == BitOfTwo(a, b) && x == BitOfTwo(a, b) + 2 * XorBits(a / 2, b / 2, n - 1)
  {
  }

  lemma {:induction false} XorBitsRegroup(a: nat, b: nat, c: nat, n: nat)
    ensures XorBits(XorBits(a, b, n), c, n) == XorBits(a, XorBits(b, c, n), n)
    decreases n
  {
    if n == 0 {
    } else {
      var ab, bc := XorBits(a, b, n), XorBits(b, c, n);
      XorBitsStep(a, b, n);
      XorBitsStep(b, c, n);
      XorBitsStep(ab, c, n);
      XorBitsStep(a, bc, n);
      BitRegroup(a, b, c, ab, bc);
      hide XorBits, BitOfTwo;
      XorBitsRegroup(a / 2, b / 2, c / 2, n - 1);
    }
  }

  lemma {:induction false} BitRegroup(a: nat, b: nat, c: nat, ab: nat, bc: nat)
    requires ab % 2 == BitOfTwo(a, b) && bc % 2 == BitOfTwo(b, c)
    ensures BitOfTwo(ab, c) == BitOfTwo(a, bc)
  {
  }

  /** The low bits of a longer exclusive or. */
  lemma {:induction false} XorBitsLow(a: nat, b: nat, n: nat, m: nat)
    requires n <= m
    ensures XorBits(a, b, m) % Pow2(n) == XorBits(a, b, n)
    ensures XorBits(a % Pow2(n), b % Pow2(n), n) == XorBits(a, b, n)
    decreases n
  {
    if n == 0 {
    } else {
      var p, x := Pow2(n - 1), XorBits(a, b, m);
      assert Pow2(n) == 2 * p;
      XorBitsLow(a / 2, b / 2, n - 1, m - 1);
      XorBitsStep(a, b, n);
      XorBitsStep(a, b, m);
      XorBitsStep(a % Pow2(n), b % Pow2(n), n);
      HalfOfLow(a, p);
      HalfOfLow(b, p);
      HalfOfLow(x, p);
      assert BitOfTwo(a % Pow2(n), b % Pow2(n)) == BitOfTwo(a, b);
      hide XorBits, Pow2, BitOfTwo;
      SameHalves(x % (2 * p), XorBits(a, b, n));
    }
  }

  lemma {:induction false} SameHalves(x: nat, y: nat)
    requires x / 2 == y / 2 && x % 2 == y % 2
    ensures x == y
  {
  }

  lemma {:induction false} HalfOfLow(a: nat, p: nat)
    requires p > 0
    ensures (a % (2 * p)) / 2 == (a / 2) % p && (a % (2 * p)) % 2 == a % 2
  {
    var h := a / 2;
    DivMod(h, p);
    assert a == (2 * p) * (h / p) + (2 * (h % p) + a % 2) by { Shuffle(2, p, h / p); }
    DivUnique(a, 2 * p, h / p, 2 * (h % p) + a % 2);
    DivMod(a, 2 * p);
  }

  lemma {:induction false} LowXor(a: nat, b: nat)
    ensures XorBits(a, b, 32) % 256 == Xor(a % 256, b % 256)
  {
    Pow2Of8();
    XorBitsLow(a, b, 8, 32);
  }

  lemma {:induction false} XorCancels(x: byte, a: byte, b: byte)
    ensures Xor(a, x) == Xor(b, x) <==> a == b
    ensures Xor(x, a) == Xor(x, b) <==> a == b
  {
    XorTwice(a, x);
    XorTwice(b, x);
    XorBitsSwap(x, a, 8);
    XorBitsSwap(x, b, 8);
    hide XorBits;
  }

  lemma {:induction false} XorRegroups(a: byte, b: byte, c: byte)
    ensures Xor(Xor(a, b), c) == Xor(a, Xor(b, c))
  {
    XorBitsRegroup(a, b, c, 8);
  }

  /** Text under two keys is the same exactly if the keys are. */
  lemma {:induction false} XorAllSame(text: seq<byte>, k: seq<byte>, l: seq<byte>)
    requires |text| == |k| == |l|
    ensures XorAll(text, k) == XorAll(text, l) <==> k == l
  {
    hide Xor;
    if XorAll(text, k) == XorAll(text, l) {
      forall i | 0 <= i < |text| ensures k[i] == l[i] {
        assert XorAll(text, k)[i] == XorAll(text, l)[i];
        XorCancels(text[i], k[i], l[i]);
      }
    }
  }

  // ----- the digest of a text -----

  /** seed * base + c, over the text, in one byte. */
  function Digest(base: byte, start: byte, text: seq<byte>): byte {
    if text == [] then start else (Digest(base, start, text[..|text| - 1]) * base + text[|text| - 1]) % 256
  }

  function Power(base: nat, n: nat): nat {
    if n == 0 then 1 else base * Power(base, n - 1)
  }

  /** Each character by the power of the base that counts the characters after it. */
  function Weighted(base: nat, text: seq<byte>): nat {
    if text == [] then 0 else text[0] * Power(base, |text| - 1) + Weighted(base, text[1..])
  }

  lemma {:induction false} WeightedSnoc(base: nat, text: seq<byte>, c: byte)
    ensures Weighted(base, text + [c]) == base * Weighted(base, text) + c
  {
    var all := text + [c];
    if text == [] {
      assert all[1..] == [];
    } else {
      assert all[0] == text[0] && all[1..] == text[1..] + [c];
      WeightedSnoc(base, text[1..], c);
      var a, p, w := text[0], Power(base, |text| - 1), Weighted(base, text[1..]);
      assert Power(base, |text|) == base * p;
      hide Weighted, Power;
      Shuffle(a, base, p);
      Swapped(base, p);
      Shuffle(base, a, p);
      Distribute(base, a * p, w);
      assert a * (base * p) == base * (a * p) by { Commute(a, base, p); }
    }
  }

  lemma {:induction false} Commute(a: nat, b: nat, p: nat)
    ensures a * (b * p) == b * (a * p)
  {
  }

  /** The digest is the weighted sum, with the start in front of everything. */
  lemma {:induction false} DigestIsSum(base: byte, start: byte, text: seq<byte>)
    ensures Digest(base, start, text) == (start * Power(base, |text|) + Weighted(base, text)) % 256
  {
    if text == [] {
    } else {
      var n := |text| - 1;
      var pre, c := text[..n], text[n];
      DigestIsSum(base, start, pre);
      WeightedSnoc(base, pre, c);
      assert pre + [c] == text;
      assert Power(base, n + 1) == base * Power(base, n);
      hide Weighted, Power;
      NextSum(base, start, Power(base, n), Weighted(base, pre), c, Digest(base, start, pre));
    }
  }

  lemma {:induction false} NextSum(base: byte, start: byte, p: nat, w: nat, c: byte, d: byte)
    requires d == (start * p + w) % 256
    ensures (d * base + c) % 256 == (start * (base * p) + (base * w + c)) % 256
  {
    var v := start * p + w;
    Distribute(base, start * p, w);
    Commute(start, base, p);
    assert v * base == base * v by { Swapped(v, base); }
    assert start * (base * p) + (base * w + c) == v * base + c;
    ProductLow(v, base, c);
  }

  lemma {:induction false} ProductLow(v: nat, base: byte, c: nat)
    ensures ((v % 256) * base + c) % 256 == (v * base + c) % 256
  {
    var q := v / 256;
    assert v * base == (v % 256) * base + 256 * (q * base) by { Spread(v, q, base); }
    SameLow(v * base + c, (v % 256) * base + c, q * base);
  }

  lemma {:induction false} Spread(v: nat, q: nat, base: nat)
    requires q == v / 256
    ensures v * base == (v % 256) * base + 256 * (q * base)
  {
    var r := v % 256;
    assert v == 256 * q + r;
    Distribute(base, 256 * q, r);
    Swapped(v, base);
    Swapped(base, r);
    assert base * (256 * q) == 256 * (q * base);
  }

  // ----- what a digest tells apart -----

  predicate OddBase(base: byte) {
    base == 31 || base == 131
  }

  /** A further character loses nothing of what came before. */
  lemma {:induction false} MixSame(base: byte, x: byte, y: byte, c: byte)
    requires OddBase(base)
    ensures (x * base + c) % 256 == (y * base + c) % 256 <==> x == y
  {
    Unmix(base, x, c);
    Unmix(base, y, c);
  }

  lemma {:induction false} Unmix(base: byte, x: byte, c: byte)
    requires OddBase(base)
    ensures ((if base == 31 then 223 else 43) * ((x * base + c) % 256 + 256 - c)) % 256 == x
  {
    var v := x * base + c;
    if base == 31 {
      SameLow(223 * (v % 256 + 256 - c), x, 27 * x + 223 - 223 * (v / 256));
    } else {
      SameLow(43 * (v % 256 + 256 - c), x, 22 * x + 43 - 43 * (v / 256));
    }
  }

  /** The same text after different digests keeps them different. */
  lemma {:induction false} DigestSame(base: byte, a: byte, b: byte, text: seq<byte>)
    requires OddBase(base)
    ensures Digest(base, a, text) == Digest(base, b, text) <==> a == b
  {
    if text == [] {
    } else {
      var pre := text[..|text| - 1];
      DigestSame(base, a, b, pre);
      MixSame(base, Digest(base, a, pre), Digest(base, b, pre), text[|text| - 1]);
    }
  }

  /** Two texts of one length that differ in one place. */
  ghost predicate OneApart(p: seq<byte>, q: seq<byte>) {
    |p| == |q| && exists i :: 0 <= i < |p| && p[i] != q[i] && forall j :: 0 <= j < |p| && j != i ==> p[j] == q[j]
  }

  lemma {:induction false} DigestJoined(base: byte, start: byte, a: seq<byte>, b: seq<byte>)
    ensures Digest(base, start, a + b) == Digest(base, Digest(base, start, a), b)
  {
    if b == [] {
      assert a + b == a;
    } else {
      var n := |b| - 1;
      DigestJoined(base, start, a, b[..n]);
      assert (a + b)[..|a + b| - 1] == a + b[..n];
    }
  }

  /** A change of one character always shows in the digest. */
  lemma {:induction false} OneApartShows(base: byte, start: byte, p: seq<byte>, q: seq<byte>)
    requires OddBase(base) && OneApart(p, q)
    ensures Digest(base, start, p) != Digest(base, start, q)
  {
    var i :| 0 <= i < |p| && p[i] != q[i] && forall j :: 0 <= j < |p| && j != i ==> p[j] == q[j];
    var front, back := p[..i], p[i + 1..];
    assert p == (front + [p[i]]) + back && q == (front + [q[i]]) + back;
    DigestJoined(base, start, front + [p[i]], back);
    DigestJoined(base, start, front + [q[i]], back);
    LastDiffers(base, start, front, p[i], q[i]);
    hide Digest;
    DigestSame(base, Digest(base, start, front + [p[i]]), Digest(base, start, front + [q[i]]), back);
  }

  lemma {:induction false} LastDiffers(base: byte, start: byte, front: seq<byte>, a: byte, b: byte)
    requires a != b
    ensures Digest(base, start, front + [a]) != Digest(base, start, front + [b])
  {
    DigestSnoc(base, start, front, a);
    DigestSnoc(base, start, front, b);
    hide Digest;
    SumDiffers(Digest(base, start, front) * base, a, b);
  }

  lemma {:induction false} DigestSnoc(base: byte, start: byte, front: seq<byte>, a: byte)
    ensures Digest(base, start, front + [a]) == (Digest(base, start, front) * base + a) % 256
  {
    assert (front + [a])[..|front|] == front;
  }

  lemma {:induction false} SumDiffers(d: nat, a: byte, b: byte)
    requires a != b
    ensures (d + a) % 256 != (d + b) % 256
  {
  }

  // ----- seeds -----

  lemma {:induction false} WordMix(seed: nat, base: byte, c: byte)
    ensures ((seed * base + c) % U32) % 256 == ((seed % 256) * base + c) % 256
  {
    LowOfWord(seed * base + c);
    ProductLow(seed, base, c);
  }

  lemma {:induction false} SeedIsDigest(seed: nat, text: seq<byte>)
    ensures SeedFrom(seed, text) % 256 == Digest(31, seed % 256, text)
  {
    if text == [] {
    } else {
      var pre := text[..|text| - 1];
      SeedIsDigest(seed, pre);
      WordMix(SeedFrom(seed, pre), 31, text[|text| - 1]);
    }
  }

  lemma {:induction false} HashSeedIsDigest(seed: nat, text: seq<byte>)
    ensures HashSeed(seed, text) % 256 == Digest(131, seed % 256, text)
  {
    if text == [] {
    } else {
      var pre := text[..|text| - 1];
      HashSeedIsDigest(seed, pre);
      WordMix(HashSeed(seed, pre), 131, text[|text| - 1]);
    }
  }

  // ----- the XOR cipher -----

  /** What of a password the XOR cipher uses. */
  function CipherDigest(password: seq<byte>): byte {
    Digest(31, 0, password)
  }

  /** The cipher in bytes: sixteen steps are skipped, then one is taken for each byte of text. */
  lemma {:induction false} XorCipherIsLow(input: seq<byte>, password: seq<byte>)
    ensures forall k :: 0 <= k < |input| ==> XorCrypted(input, password)[k] == Xor(input[k], LowSkip(CipherDigest(password), 16 + (k + 1)))
  {
    var seed := SeedFrom(0, password);
    SeedIsDigest(0, password);
    hide SeedFrom, LcgSkip, KeyStream, Digest, Xor, LowSkip;
    forall k | 0 <= k < |input|
      ensures XorCrypted(input, password)[k] == Xor(input[k], LowSkip(CipherDigest(password), 16 + (k + 1)))
    {
      StreamAt(LcgSkip(seed, 16), |input|, k);
      SkipAdd(seed, 16, k + 1);
      SkipIsLow(seed, 16 + (k + 1));
    }
  }

  /** Two passwords encrypt alike exactly if their digests are the same, and never if they differ in one
      character. */
  lemma {:induction false} XorCipherSame(input: seq<byte>, p: seq<byte>, q: seq<byte>)
    requires input != []
    ensures XorCrypted(input, p) == XorCrypted(input, q) <==> CipherDigest(p) == CipherDigest(q)
    ensures OneApart(p, q) ==> XorCrypted(input, p) != XorCrypted(input, q)
  {
    SeedIsDigest(0, p);
    SeedIsDigest(0, q);
    var a, b := LcgSkip(SeedFrom(0, p), 16), LcgSkip(SeedFrom(0, q), 16);
    SkipSame(SeedFrom(0, p), SeedFrom(0, q), 16);
    StreamSame(a, b, |input|);
    XorAllSame(input, KeyStream(a, |input|), KeyStream(b, |input|));
    hide SeedFrom, LcgSkip, KeyStream, XorAll, Digest, OneApart;
    if OneApart(p, q) {
      OneApartShows(31, 0, p, q);
    }
  }

  /** A file opens under another password exactly if that one has the same digest. */
  lemma {:induction false} XorOpensIff(input: seq<byte>, p: seq<byte>, q: seq<byte>)
    ensures XorDecrypted(XorEncrypted(input, p), q) == input <==> input == [] || CipherDigest(p) == CipherDigest(q)
  {
    var cipher := XorCrypted(input, p);
    assert XorEncrypted(input, p)[8..] == cipher && |XorEncrypted(input, p)| >= 8;
    XorRoundTrip(input, p);
    hide XorEncrypted, CipherDigest;
    assert XorCrypted(cipher, p) == input;
    if input != [] {
      XorCipherSame(cipher, p, q);
    }
    hide XorCrypted;
  }

  // ----- the session key -----

  /** What of name and challenge the session key uses. */
  function KeyDigest(name: seq<byte>, challenge: seq<byte>): byte {
    Digest(31, 0, name + challenge)
  }

  lemma {:induction false} KeySeed(name: seq<byte>, challenge: seq<byte>)
    ensures SeedFrom(SeedFrom(0, name), challenge) % 256 == KeyDigest(name, challenge)
  {
    SeedIsDigest(0, name);
    SeedIsDigest(SeedFrom(0, name), challenge);
    DigestJoined(31, 0, name, challenge);
  }

  /** The key in bytes: sixteen steps are skipped, then every fourth is taken. */
  lemma {:induction false} SessionKeyIsLow(name: seq<byte>, challenge: seq<byte>)
    ensures forall i :: 0 <= i < KEY_SIZE ==> SessionKey(name, challenge)[i] == LowSkip(KeyDigest(name, challenge), 16 + 4 * (i + 1))
  {
    var seed := SeedFrom(SeedFrom(0, name), challenge);
    KeySeed(name, challenge);
    hide SeedFrom, LcgSkip, KeyDigest, LowSkip;
    forall i | 0 <= i < KEY_SIZE ensures SessionKey(name, challenge)[i] == LowSkip(KeyDigest(name, challenge), 16 + 4 * (i + 1)) {
      SkipIsLow(seed, 16 + 4 * (i + 1));
    }
  }

  /** Two sessions have the same key exactly if name and challenge have the same digest, and not if one of
      them differs in one character. */
  lemma {:induction false} KeySame(name: seq<byte>, challenge: seq<byte>, name': seq<byte>, challenge': seq<byte>)
    ensures SessionKey(name, challenge) == SessionKey(name', challenge') <==> KeyDigest(name, challenge) == KeyDigest(name', challenge')
    ensures OneApart(name + challenge, name' + challenge') ==> SessionKey(name, challenge) != SessionKey(name', challenge')
  {
    var a, b := SeedFrom(SeedFrom(0, name), challenge), SeedFrom(SeedFrom(0, name'), challenge');
    var k, l := SessionKey(name, challenge), SessionKey(name', challenge');
    KeySeed(name, challenge);
    KeySeed(name', challenge');
    hide SeedFrom, LcgSkip, Digest, OneApart;
    forall i | 0 <= i < KEY_SIZE ensures k[i] == l[i] <==> a % 256 == b % 256 {
      SkipSame(a, b, 16 + 4 * (i + 1));
    }
    assert k == l ==> k[0] == l[0];
    if OneApart(name + challenge, name' + challenge') {
      OneApartShows(31, 0, name + challenge, name' + challenge');
    }
  }

  // ----- sealing -----

  /** What of a sequence number the sealing uses: the low bytes of its two halves. */
  function NumberByte(n: nat): byte {
    Xor(n % 256, (n / U32) % 256)
  }

  lemma {:induction false} MessageSeedLow(key: seq<byte>, n: nat)
    ensures MessageSeed(key, n) % 256 == Xor(CipherDigest(key), NumberByte(n))
  {
    var seed := SeedFrom(0, key);
    var low := XorBits(seed, n % U32, 32);
    SeedIsDigest(0, key);
    LowXor(seed, n % U32);
    LowXor(low, n / U32);
    LowOfWord(n);
    hide SeedFrom, XorBits, Digest, Xor;
    assert MessageSeed(key, n) % 256 == Xor(low % 256, (n / U32) % 256) by { SeedParts(key, n); }
    XorRegroups(CipherDigest(key), n % 256, (n / U32) % 256);
  }

  lemma {:induction false} SeedParts(key: seq<byte>, n: nat)
    ensures MessageSeed(key, n) == XorBits(XorBits(SeedFrom(0, key), n % U32, 32), n / U32, 32)
  {
  }

  /** Sealing in bytes: eight steps are skipped, then one is taken for each byte of text. */
  lemma {:induction false} SealedIsLow(key: seq<byte>, plain: seq<byte>, n: nat)
    ensures forall k :: 0 <= k < |plain| ==>
              Sealed(key, plain, n)[k] == Xor(plain[k], LowSkip(Xor(CipherDigest(key), NumberByte(n)), 8 + (k + 1)))
  {
    var seed, low := MessageSeed(key, n), Xor(CipherDigest(key), NumberByte(n));
    MessageSeedLow(key, n);
    hide MessageSeed, LcgSkip, KeyStream, CipherDigest, NumberByte, Xor, LowSkip;
    forall k | 0 <= k < |plain| ensures Sealed(key, plain, n)[k] == Xor(plain[k], LowSkip(low, 8 + (k + 1))) {
      StreamAt(LcgSkip(seed, 8), |plain|, k);
      SkipAdd(seed, 8, k + 1);
      SkipIsLow(seed, 8 + (k + 1));
    }
  }

  lemma {:induction false} SealedSeeds(key: seq<byte>, other: seq<byte>, plain: seq<byte>, m: nat, n: nat)
    requires plain != []
    ensures Sealed(key, plain, m) == Sealed(other, plain, n) <==> MessageSeed(key, m) % 256 == MessageSeed(other, n) % 256
  {
    hide MessageSeed, LcgSkip, KeyStream, XorAll;
    var a, b := LcgSkip(MessageSeed(key, m), 8), LcgSkip(MessageSeed(other, n), 8);
    SkipSame(MessageSeed(key, m), MessageSeed(other, n), 8);
    StreamSame(a, b, |plain|);
    XorAllSame(plain, KeyStream(a, |plain|), KeyStream(b, |plain|));
  }

  /** A message sealed under two numbers looks the same exactly if the numbers agree in that byte, and under
      two keys exactly if these have the same digest. */
  lemma {:induction false} SealedSame(key: seq<byte>, other: seq<byte>, plain: seq<byte>, m: nat, n: nat)
    requires plain != []
    ensures Sealed(key, plain, m) == Sealed(key, plain, n) <==> NumberByte(m) == NumberByte(n)
    ensures Sealed(key, plain, m) == Sealed(other, plain, m) <==> CipherDigest(key) == CipherDigest(other)
  {
    SealedSeeds(key, key, plain, m, n);
    SealedSeeds(key, other, plain, m, m);
    MessageSeedLow(key, m);
    MessageSeedLow(key, n);
    MessageSeedLow(other, m);
    XorCancels(CipherDigest(key), NumberByte(m), NumberByte(n));
    XorCancels(NumberByte(m), CipherDigest(key), CipherDigest(other));
    hide Sealed, MessageSeed, Xor, NumberByte, CipherDigest;
  }

  /** For numbers below 2^32 that is agreeing modulo 256. */
  lemma {:induction false} SmallNumbers(m: nat, n: nat)
    requires m < U32 && n < U32
    ensures NumberByte(m) == NumberByte(n) <==> m % 256 == n % 256
  {
    assert m / U32 == 0 && n / U32 == 0;
    hide Xor;
    XorCancels(0, m % 256, n % 256);
  }

  /** A sealed message opens to what it was exactly under the numbers that agree with its own in that byte. */
  lemma {:induction false} OpensIff(key: seq<byte>, plain: seq<byte>, m: nat, n: nat)
    ensures Sealed(key, Sealed(key, plain, m), n) == plain <==> plain == [] || NumberByte(m) == NumberByte(n)
  {
    var wire := Sealed(key, plain, m);
    SealedTwice(key, plain, m);
    if plain != [] {
      SealedSame(key, key, wire, m, n);
    }
    hide Sealed, NumberByte;
  }

  // ----- passwords -----

  /** What of a password its hash uses. */
  function PasswordDigest(password: seq<byte>): byte {
    Digest(131, 0xEF, password)
  }

  lemma {:induction false} SaltedSeed(password: seq<byte>, salt: seq<byte>)
    ensures HashSeed(HashSeed(0xDEADBEEF, password), salt) % 256 == Digest(131, PasswordDigest(password), salt)
  {
    HashSeedIsDigest(0xDEADBEEF, password);
    HashSeedIsDigest(HashSeed(0xDEADBEEF, password), salt);
    hide HashSeed, Digest;
    assert 0xDEADBEEF % 256 == 0xEF;
  }

  lemma {:induction false} HashBytesSame(a: nat, b: nat, i: nat)
    ensures HashByte(a, i) == HashByte(b, i) <==> a % 256 == b % 256
  {
    SkipSame(a, b, 32 + 4 * i + 1);
    hide LcgSkip;
  }

  lemma {:induction false} AccumulatedSame(a: nat, b: nat, n: nat)
    requires a % 256 == b % 256
    ensures Accumulated(a, n) == Accumulated(b, n)
  {
    hide HashByte, Xor;
    if n == 0 {
    } else {
      AccumulatedSame(a, b, n - 1);
      HashBytesSame(a, b, n - 1);
    }
  }

  /** The last generated byte goes into a hash byte twice, and so not at all. */
  lemma {:induction false} HashByteIs(seed: nat, i: nat)
    ensures Xor(HashByte(seed, i), Accumulated(seed, i + 1)) == Accumulated(seed, i)
  {
    var b, a := HashByte(seed, i), Accumulated(seed, i);
    assert Accumulated(seed, i + 1) == Xor(a, b);
    XorTwice(a, b);
    XorBitsSwap(b, Xor(a, b), 8);
    hide HashByte, XorBits, Accumulated;
  }

  lemma {:induction false} XorBitsZero(a: nat, n: nat)
    requires a < Pow2(n)
    ensures XorBits(0, a, n) == a
    decreases n
  {
    if n == 0 {
    } else {
      XorBitsZero(a / 2, n - 1);
    }
  }

  lemma {:induction false} XorZero(a: byte)
    ensures Xor(0, a) == a
  {
    Pow2Of8();
    XorBitsZero(a, 8);
  }

  /** The first i of every fourth byte after 32 skipped ones, folded into one. */
  function Folded(digest: byte, i: nat): byte {
    if i == 0 then 0 else Xor(Folded(digest, i - 1), LowSkip(digest, 32 + 4 * (i - 1) + 1))
  }

  lemma {:induction false} AccumulatedIsLow(seed: nat, n: nat)
    ensures Accumulated(seed, n) == Folded(seed % 256, n)
  {
    hide LcgSkip, LowSkip, Xor;
    if n == 0 {
    } else {
      AccumulatedIsLow(seed, n - 1);
      SkipIsLow(seed, 32 + 4 * (n - 1) + 1);
    }
  }

  /** The hash in bytes. Its first one is always zero. */
  lemma {:induction false} HashIsLow(password: seq<byte>, salt: seq<byte>)
    ensures forall i :: 0 <= i < 32 ==> HashOf(password, salt)[i] == Folded(Digest(131, PasswordDigest(password), salt), i)
  {
    var seed := HashSeed(HashSeed(0xDEADBEEF, password), salt);
    SaltedSeed(password, salt);
    hide HashSeed, HashByte, Xor, Accumulated, Digest, PasswordDigest, Folded;
    forall i | 0 <= i < 32 ensures HashOf(password, salt)[i] == Folded(Digest(131, PasswordDigest(password), salt), i) {
      HashByteIs(seed, i);
      AccumulatedIsLow(seed, i);
    }
  }

  /** The second byte of a hash is the first that the generator gave. */
  lemma {:induction false} FirstShows(seed: nat)
    ensures Xor(HashByte(seed, 1), Accumulated(seed, 2)) == HashByte(seed, 0)
  {
    HashByteIs(seed, 1);
    assert Accumulated(seed, 0) == 0 && Accumulated(seed, 1) == Xor(0, HashByte(seed, 0));
    hide HashByte, Xor, Accumulated;
    XorZero(HashByte(seed, 0));
  }

  /** Two salted passwords have the same hash exactly if their digests agree. */
  lemma {:induction false} HashSame(p: seq<byte>, salt: seq<byte>, q: seq<byte>, other: seq<byte>)
    ensures HashOf(p, salt) == HashOf(q, other) <==> Digest(131, PasswordDigest(p), salt) == Digest(131, PasswordDigest(q), other)
  {
    var a, b := HashSeed(HashSeed(0xDEADBEEF, p), salt), HashSeed(HashSeed(0xDEADBEEF, q), other);
    var h, g := HashOf(p, salt), HashOf(q, other);
    SaltedSeed(p, salt);
    SaltedSeed(q, other);
    hide HashSeed, HashByte, Xor, Accumulated, Digest, PasswordDigest;
    if a % 256 == b % 256 {
      forall i | 0 <= i < 32 ensures h[i] == g[i] {
        HashBytesSame(a, b, i);
        AccumulatedSame(a, b, i + 1);
      }
      assert h == g;
    }
    if h == g {
      assert h[1] == g[1];
      FirstShows(a);
      FirstShows(b);
      HashBytesSame(a, b, 0);
    }
  }

  /** Under one salt: exactly if the passwords have the same digest, and never if they differ in one
      character. For one password, two salts that differ in one byte give different hashes. */
  lemma {:induction false} PasswordSame(p: seq<byte>, q: seq<byte>, salt: seq<byte>, other: seq<byte>)
    ensures HashOf(p, salt) == HashOf(q, salt) <==> PasswordDigest(p) == PasswordDigest(q)
    ensures OneApart(p, q) ==> HashOf(p, salt) != HashOf(q, salt)
    ensures OneApart(salt, other) ==> HashOf(p, salt) != HashOf(p, other)
  {
    HashSame(p, salt, q, salt);
    HashSame(p, salt, p, other);
    hide HashOf, Digest, OneApart;
    DigestSame(131, PasswordDigest(p), PasswordDigest(q), salt);
    if OneApart(p, q) {
      OneApartShows(131, 0xEF, p, q);
    }
    if OneApart(salt, other) {
      OneApartShows(131, PasswordDigest(p), salt, other);
    }
  }

  /** In numbers: 0xEF and the characters, each times 131 as often as characters come after it. */
  lemma {:induction false} PasswordDigestIs(password: seq<byte>)
    ensures PasswordDigest(password) == (0xEF * Power(131, |password|) + Weighted(131, password)) % 256
  {
    DigestIsSum(131, 0xEF, password);
  }

  /** Different passwords that no salt tells apart: "ai" and "cc". */
  lemma {:induction false} SameDigest()
    ensures PasswordDigest([97, 105]) == PasswordDigest([99, 99])
  {
    hide PasswordDigest;
    TwoCharacters(97, 105);
    TwoCharacters(99, 99);
    assert (0xEF * 131 + 97) % 256 == 174 && (174 * 131 + 105) % 256 == 115;
    assert (0xEF * 131 + 99) % 256 == 176 && (176 * 131 + 99) % 256 == 115;
  }

  lemma {:induction false} TwoCharacters(a: byte, b: byte)
    ensures PasswordDigest([a, b]) == (((0xEF * 131 + a) % 256) * 131 + b) % 256
  {
    assert [a, b][..1] == [a] && [a][..0] == [];
    assert Digest(131, 0xEF, []) == 0xEF;
    assert Digest(131, 0xEF, [a]) == (0xEF * 131 + a) % 256;
  }
}
