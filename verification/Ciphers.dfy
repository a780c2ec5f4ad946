/** The XOR stream cipher and the Vigenere cipher of backup files. */
module Ciphers {
  import opened Bytes

  // ----- the linear congruential generator -----

  function LcgStep(state: nat): (r: nat)
    ensures r < U32
  {
    (1103515245 * state + 12345) % U32
  }

  function LcgSkip(state: nat, n: nat): (r: nat)
    ensures state < U32 ==> r < U32
  {
    if n == 0 then state else LcgStep(LcgSkip(state, n - 1))
  }

  /** The low bytes of the n states after `state`. */
  function KeyStream(state: nat, n: nat): (r: seq<byte>)
    ensures |r| == n
  {
    if n == 0 then [] else KeyStream(state, n - 1) + [LcgSkip(state, n) % 256]
  }

  class Lcg {
    var state: nat

    constructor (seed: nat)
      ensures state == seed
    {
      state := seed;
    }

    method Next() returns (b: byte)
      modifies this
      ensures state == LcgStep(old(state)) && b == state % 256
    {
      state := (1103515245 * state + 12345) % U32;
      b := state % 256;
    }

    method Skip(n: nat)
      modifies this
      ensures state == LcgSkip(old(state), n)
    {
      for i := 0 to n
        invariant state == LcgSkip(old(state), i)
      {
        var _ := Next();
      }
    }
  }

  // ----- exclusive or -----

  /** Bitwise exclusive or of the low n bits. */
  function XorBits(a: nat, b: nat, n: nat): (r: nat)
    ensures r < Pow2(n)
  {
    if n == 0 then 0 else (a % 2 + b % 2) % 2 + 2 * XorBits(a / 2, b / 2, n - 1)
  }

  lemma {:induction false} XorBitsTwice(a: nat, b: nat, n: nat)
    requires a < Pow2(n)
    ensures XorBits(XorBits(a, b, n), b, n) == a
  {
    if n == 0 {
    } else {
      XorBitsTwice(a / 2, b / 2, n - 1);
      var x, half := XorBits(a, b, n), XorBits(a / 2, b / 2, n - 1);
      Parity(a, b, half, x);
    }
  }

  lemma {:induction false} Parity(a: nat, b: nat, half: nat, x: nat)
    requires x == (a % 2 + b % 2) % 2 + 2 * half
    ensures x / 2 == half && (x % 2 + b % 2) % 2 == a % 2
  {
  }

  lemma {:induction false} Pow2Of8()
    ensures Pow2(8) == 256
  {
    assert Pow2(4) == 16;
  }

  function Xor(a: byte, b: byte): byte {
    Pow2Of8();
    XorBits(a, b, 8)
  }

  lemma {:induction false} XorTwice(a: byte, k: byte)
    ensures Xor(Xor(a, k), k) == a
  {
    Pow2Of8();
    XorBitsTwice(a, k, 8);
  }

  /** Each byte combined with the key byte at its place. */
  function XorAll(data: seq<byte>, key: seq<byte>): (r: seq<byte>)
    requires |data| == |key|
    ensures |r| == |data|
  {
    seq(|data|, i requires 0 <= i < |data| => Xor(data[i], key[i]))
  }

  lemma {:induction false} XorAllTwice(data: seq<byte>, key: seq<byte>)
    requires |data| == |key|
    ensures XorAll(XorAll(data, key), key) == data
  {
    forall i | 0 <= i < |data| ensures Xor(Xor(data[i], key[i]), key[i]) == data[i] {
      XorTwice(data[i], key[i]);
    }
  }

  /** The stream loop: the generator's next byte for every byte of input. */
  method XorWithStream(input: seq<byte>, lcg: Lcg) returns (result: seq<byte>)
    modifies lcg
    ensures result == XorAll(input, KeyStream(old(lcg.state), |input|))
  {
    result := [];
    ghost var s0 := lcg.state;
    for i := 0 to |input|
      invariant lcg.state == LcgSkip(s0, i)
      invariant result == XorAll(input[..i], KeyStream(s0, i))
    {
      var k := lcg.Next();
      result := result + [Xor(input[i], k)];
    }
    assert input[..|input|] == input;
  }

  // ----- XOR strategy -----

  /** seed = seed * 31 + c in 32 bits. */
  function SeedFrom(seed: nat, text: seq<byte>): (r: nat)
    ensures seed < U32 ==> r < U32
  {
    if text == [] then seed else (SeedFrom(seed, text[..|text| - 1]) * 31 + text[|text| - 1]) % U32
  }

  method ComputeSeed(start: nat, text: seq<byte>) returns (seed: nat)
    ensures seed == SeedFrom(start, text)
  {
    seed := start;
    for i := 0 to |text|
      invariant seed == SeedFrom(start, text[..i])
    {
      assert text[..i + 1][..i] == text[..i];
      seed := (seed * 31 + text[i]) % U32;
    }
    assert text[..|text|] == text;
  }

  function XorCrypted(input: seq<byte>, password: seq<byte>): (r: seq<byte>)
    ensures |r| == |input|
  {
    XorAll(input, KeyStream(LcgSkip(SeedFrom(0, password), 16), |input|))
  }

  function XorEncrypted(input: seq<byte>, password: seq<byte>): seq<byte> {
    LE(|input|, 8) + XorCrypted(input, password)
  }

  function XorDecrypted(input: seq<byte>, password: seq<byte>): seq<byte> {
    if |input| < 8 then [] else XorCrypted(input[8..], password)
  }

  method XorCrypt(input: seq<byte>, password: seq<byte>) returns (result: seq<byte>)
    ensures result == XorCrypted(input, password)
  {
    var seed := ComputeSeed(0, password);
    var lcg := new Lcg(seed);
    lcg.Skip(16);
    result := XorWithStream(input, lcg);
  }

  method XorEncrypt(input: seq<byte>, password: seq<byte>) returns (result: seq<byte>)
    ensures result == XorEncrypted(input, password)
  {
    result := WriteLE([], |input|, 8);
    var cipher := XorCrypt(input, password);
    assert [] + LE(|input|, 8) == LE(|input|, 8);
    result := result + cipher;
  }

  method XorDecrypt(input: seq<byte>, password: seq<byte>) returns (result: seq<byte>)
    ensures result == XorDecrypted(input, password)
  {
    if |input| < 8 {
      return [];
    }
    result := XorCrypt(input[8..], password);
  }

  /** Any data and any password, the empty one included. */
  lemma {:induction false} XorRoundTrip(input: seq<byte>, password: seq<byte>)
    ensures XorDecrypted(XorEncrypted(input, password), password) == input
  {
    hide KeyStream, LcgSkip, SeedFrom;
    var cipher := XorCrypted(input, password);
    assert XorEncrypted(input, password)[8..] == cipher;
    XorAllTwice(input, KeyStream(LcgSkip(SeedFrom(0, password), 16), |input|));
  }

  // ----- Vigenere strategy -----

  function Plus(a: byte, k: byte): byte {
    var sum: int := a as int + k as int;
    sum % 256
  }

  function Minus(a: byte, k: byte): byte {
    var difference: int := a as int - k as int + 256;
    difference % 256
  }

  function Shifted(input: seq<byte>, key: seq<byte>): (r: seq<byte>)
    requires key != []
    ensures |r| == |input|
  {
    seq(|input|, i requires 0 <= i < |input| => Plus(input[i], key[i % |key|]))
  }

  function Unshifted(input: seq<byte>, key: seq<byte>): (r: seq<byte>)
    requires key != []
    ensures |r| == |input|
  {
    seq(|input|, i requires 0 <= i < |input| => Minus(input[i], key[i % |key|]))
  }

  function VigenereEncrypted(input: seq<byte>, password: seq<byte>): seq<byte> {
    if password == [] then input else LE(|input|, 8) + Shifted(input, password)
  }

  function VigenereDecrypted(input: seq<byte>, password: seq<byte>): seq<byte> {
    if |input| < 8 then []
    else if password == [] then input[8..]
    else Unshifted(input[8..], password)
  }

  method VigenereEncrypt(input: seq<byte>, password: seq<byte>) returns (result: seq<byte>)
    ensures result == VigenereEncrypted(input, password)
  {
    if password == [] {
      return input;
    }
    result := WriteLE([], |input|, 8);
    for i := 0 to |input|
      invariant result == LE(|input|, 8) + Shifted(input[..i], password)
    {
      result := result + [Plus(input[i], password[i % |password|])];
    }
    assert input[..|input|] == input;
  }

  method VigenereDecrypt(input: seq<byte>, password: seq<byte>) returns (result: seq<byte>)
    ensures result == VigenereDecrypted(input, password)
  {
    if |input| < 8 {
      return [];
    }
    if password == [] {
      return input[8..];
    }
    result := [];
    for i := 0 to |input| - 8
      invariant result == Unshifted(input[8..8 + i], password)
    {
      result := result + [Minus(input[8 + i], password[i % |password|])];
    }
    assert input[8..8 + (|input| - 8)] == input[8..];
  }

  lemma {:induction false} UnshiftShift(input: seq<byte>, key: seq<byte>)
    requires key != []
    ensures Unshifted(Shifted(input, key), key) == input
  {
  }

  /** Decryption undoes encryption exactly when there is a password or nothing to protect:
      without a password the plain data goes out and its first eight bytes are then dropped. */
  lemma {:induction false} VigenereRoundTrip(input: seq<byte>, password: seq<byte>)
    ensures VigenereDecrypted(VigenereEncrypted(input, password), password) == input <==> password != [] || input == []
  {
    if password != [] {
      UnshiftShift(input, password);
      assert VigenereEncrypted(input, password)[8..] == Shifted(input, password);
    }
  }

  // ----- the password matters -----

  /** What a key shifts byte i by. */
  function KeyAt(key: seq<byte>, i: nat): byte {
    if key == [] then 0 else key[i % |key|]
  }

  predicate SameShifts(a: seq<byte>, b: seq<byte>, n: nat) {
    forall i :: 0 <= i < n ==> KeyAt(a, i) == KeyAt(b, i)
  }

  lemma {:induction false} ShiftsApart(x: byte, k: byte, l: byte)
    ensures Plus(x, k) == Plus(x, l) <==> k == l
    ensures Minus(Plus(x, k), l) == x <==> k == l
  {
  }

  /** Two passwords give the same cipher text exactly if they shift every byte alike. */
  lemma {:induction false} VigenereSame(input: seq<byte>, a: seq<byte>, b: seq<byte>)
    requires a != [] && b != []
    ensures VigenereEncrypted(input, a) == VigenereEncrypted(input, b) <==> SameShifts(a, b, |input|)
  {
    var x, y := Shifted(input, a), Shifted(input, b);
    assert VigenereEncrypted(input, a)[8..] == x && VigenereEncrypted(input, b)[8..] == y;
    forall i | 0 <= i < |input| ensures x[i] == y[i] <==> KeyAt(a, i) == KeyAt(b, i) {
      ShiftsApart(input[i], a[i % |a|], b[i % |b|]);
    }
    hide Shifted, KeyAt;
  }

  /** A password opens what another one encrypted exactly if the two shift every byte alike; what was not
      encrypted, only if it is empty. */
  lemma {:induction false} VigenereOpensIff(input: seq<byte>, a: seq<byte>, b: seq<byte>)
    ensures VigenereDecrypted(VigenereEncrypted(input, a), b) == input <==> input == [] || (a != [] && SameShifts(a, b, |input|))
  {
    if a != [] {
      var out := VigenereDecrypted(VigenereEncrypted(input, a), b);
      OpenedAt(input, a, b);
      hide KeyAt, VigenereEncrypted, VigenereDecrypted;
      forall i | 0 <= i < |input| ensures out[i] == input[i] <==> KeyAt(a, i) == KeyAt(b, i) {
        ShiftsApart(input[i], KeyAt(a, i), KeyAt(b, i));
      }
      hide Plus, Minus;
    } else {
      hide Unshifted;
    }
  }

  lemma {:induction false} OpenedAt(input: seq<byte>, a: seq<byte>, b: seq<byte>)
    requires a != []
    ensures var out := VigenereDecrypted(VigenereEncrypted(input, a), b);
            |out| == |input| && forall i :: 0 <= i < |input| ==> out[i] == Minus(Plus(input[i], KeyAt(a, i)), KeyAt(b, i))
  {
    var cipher := Shifted(input, a);
    assert VigenereEncrypted(input, a)[8..] == cipher;
    hide LE;
    assert forall x: byte :: Minus(x, 0) == x;
    hide Plus, Minus;
  }
}
