/** Bytes and fixed-width integers, with the little- and big-endian fields that every format shares.
    A byte is an int below 256, so that arithmetic on it is integer arithmetic and every cut to a width
    is a modulus; None stands for a read past the end of a buffer. */
module Bytes {

  type byte = b: int | 0 <= b < 256

  const U16: nat := 0x1_0000
  const U32: nat := 0x1_0000_0000
  const U64: nat := 0x1_0000_0000_0000_0000

  type word32 = n: int | 0 <= n < 0x1_0000_0000
  type word64 = n: int | 0 <= n < 0x1_0000_0000_0000_0000
  type int64 = n: int | -0x8000_0000_0000_0000 <= n < 0x8000_0000_0000_0000

  /** None stands for a read past the end of a buffer, or for a refused input. */
  datatype Option<+T> = None | Some(value: T) {
    predicate IsFailure() { None? }

    function PropagateFailure<U>(): Option<U>
      requires None?
    {
      None
    }

    function Extract(): T
      requires Some?
    {
      value
    }
  }

  function Pow2(n: nat): (r: nat)
    ensures r >= 1
  {
    if n == 0 then 1 else 2 * Pow2(n - 1)
  }

  function Pow256(n: nat): (r: nat)
    ensures r >= 1
  {
    if n == 0 then 1 else 256 * Pow256(n - 1)
  }

  lemma {:induction false} Widths()
    ensures Pow256(1) == 256 && Pow256(2) == U16 && Pow256(4) == U32 && Pow256(8) == U64
  {
    assert Pow256(3) == 0x100_0000;
    assert Pow256(5) == 0x100_0000_0000;
    assert Pow256(6) == 0x1_0000_0000_0000;
    assert Pow256(7) == 0x100_0000_0000_0000;
  }

  // ----- little endian -----

  /** The low n bytes of v, least significant first (higher bytes are cut off). */
  function LE(v: nat, n: nat): (r: seq<byte>)
    ensures |r| == n
  {
    if n == 0 then [] else [v % 256] + LE(v / 256, n - 1)
  }

  function FromLE(s: seq<byte>): (v: nat)
    ensures v < Pow256(|s|)
  {
    if s == [] then 0 else s[0] + 256 * FromLE(s[1..])
  }

  lemma {:induction false} LERoundTrip(v: nat, n: nat)
    requires v < Pow256(n)
    ensures FromLE(LE(v, n)) == v
  {
    if n == 0 {
    } else {
      LERoundTrip(v / 256, n - 1);
      assert LE(v, n)[1..] == LE(v / 256, n - 1);
    }
  }

  lemma {:induction false} LESnoc(v: nat, n: nat)
    ensures LE(v, n + 1) == LE(v, n) + [(v / Pow256(n)) % 256]
  {
    if n == 0 {
    } else {
      LESnoc(v / 256, n - 1);
      assert (v / 256) / Pow256(n - 1) == v / Pow256(n) by { DivDiv(v, 256, Pow256(n - 1)); }
      assert LE(v, n + 1) == [v % 256] + LE(v / 256, n);
    }
  }

  lemma {:induction false} DivDiv(v: nat, k: nat, p: nat)
    requires k > 0 && p > 0
    ensures k * p > 0 && (v / k) / p == v / (k * p)
  {
    var q := v / k;
    DivMod(v, k);
    DivMod(q, p);
    DivNested(v, k, p, q, v % k, q / p, q % p);
  }

  lemma {:induction false} DivMod(v: nat, d: nat)
    requires d > 0
    ensures v == d * (v / d) + v % d && 0 <= v % d < d
  {
  }

  lemma {:induction false} DivNested(v: nat, k: nat, p: nat, q: nat, y: nat, r: nat, x: nat)
    requires v == k * q + y && y < k && q == p * r + x && x < p
    ensures k * p > 0 && v / (k * p) == r
  {
    Swapped(p, r);
    Nested(k, p, r, x, y);
    DivUnique(v, k * p, r, k * x + y);
  }

  lemma {:induction false} Nested(k: nat, p: nat, r: nat, x: nat, y: nat)
    requires x < p && y < k
    ensures k * (r * p + x) + y == r * (k * p) + (k * x + y) && k * x + y < k * p
  {
    Distribute(k, r * p, x);
    Shuffle(k, r, p);
    MulStep(x, p, k);
    Swapped(x, k);
    Swapped(p, k);
  }

  lemma {:induction false} Distribute(a: int, b: int, c: int)
    ensures a * (b + c) == a * b + a * c
  {
  }

  lemma {:induction false} Swapped(a: nat, b: nat)
    ensures a * b == b * a
  {
  }

  lemma {:induction false} Shuffle(k: nat, r: nat, p: nat)
    ensures k * (r * p) == r * (k * p)
  {
  }

  lemma {:induction false} DivUnique(v: nat, d: nat, q: nat, r: nat)
    requires d > 0 && v == q * d + r && r < d
    ensures v / d == q
  {
    var k := v / d;
    assert v == k * d + v % d;
    if k < q {
      MulStep(k, q, d);
    } else if k > q {
      MulStep(q, k, d);
    }
  }

  lemma {:induction false} MulMonotone(a: nat, b: nat, d: nat)
    requires a <= b
    ensures a * d <= b * d
  {
    assert b * d == a * d + (b - a) * d;
  }

  lemma {:induction false} MulStep(a: nat, b: nat, d: nat)
    requires a < b
    ensures a * d + d <= b * d
  {
    assert b * d == a * d + (b - a) * d;
    assert (b - a) * d == d + (b - a - 1) * d;
  }

  lemma {:induction false} FromLESnoc(s: seq<byte>, b: byte)
    ensures FromLE(s + [b]) == FromLE(s) + Pow256(|s|) * b
  {
    if s != [] {
      FromLESnoc(s[1..], b);
      assert (s + [b])[1..] == s[1..] + [b] && (s + [b])[0] == s[0];
      var p := Pow256(|s| - 1);
      assert Pow256(|s|) == 256 * p;
      hide Pow256, FromLE;
      assert 256 * (p * b) == (256 * p) * b;
    } else {
      assert FromLE([b]) == b + 256 * FromLE([b][1..]);
    }
  }

  /** Appends the n low bytes of v, one shifted byte at a time. */
  method WriteLE(buf: seq<byte>, v: nat, n: nat) returns (r: seq<byte>)
    ensures r == buf + LE(v, n)
  {
    r := buf;
    for i := 0 to n
      invariant r == buf + LE(v, i)
    {
      LESnoc(v, i);
      r := r + [(v / Pow256(i)) % 256];
    }
  }

  /** Reads n bytes at offset, adding each at its shift, and advances the offset. */
  method ReadLE(data: seq<byte>, offset: nat, n: nat) returns (v: nat, next: nat)
    requires offset + n <= |data|
    ensures v == FromLE(data[offset..offset + n])
    ensures next == offset + n
  {
    v := 0;
    for i := 0 to n
      invariant v == FromLE(data[offset..offset + i])
    {
      FromLESnoc(data[offset..offset + i], data[offset + i]);
      assert data[offset..offset + i] + [data[offset + i]] == data[offset..offset + i + 1];
      v := v + Pow256(i) * data[offset + i];
    }
    next := offset + n;
  }

  // ----- big endian -----

  function BE(v: nat, n: nat): (r: seq<byte>)
    ensures |r| == n
  {
    if n == 0 then [] else BE(v / 256, n - 1) + [v % 256]
  }

  function FromBE(s: seq<byte>): (v: nat)
    ensures v < Pow256(|s|)
  {
    if s == [] then 0 else 256 * FromBE(s[..|s| - 1]) + s[|s| - 1]
  }

  lemma {:induction false} BERoundTrip(v: nat, n: nat)
    requires v < Pow256(n)
    ensures FromBE(BE(v, n)) == v
  {
    if n == 0 {
    } else {
      BERoundTrip(v / 256, n - 1);
      assert BE(v, n)[..n - 1] == BE(v / 256, n - 1);
    }
  }

  // ----- signed 64-bit fields -----

  /** static_cast<uint64_t> of a signed 64-bit value. */
  function ToU64(v: int64): word64 {
    if v < 0 then v + U64 else v
  }

  /** static_cast back to a signed 64-bit value. */
  function FromU64(r: word64): int64 {
    if r < 0x8000_0000_0000_0000 then r else r - U64
  }

  // ----- sequences -----

  /** The field that starts after pre inside pre + mid + post. */
  lemma {:induction false} SliceMid<T>(pre: seq<T>, mid: seq<T>, post: seq<T>)
    ensures (pre + mid + post)[|pre|..|pre| + |mid|] == mid
    ensures (pre + mid + post)[|pre| + |mid|..] == post
  {
  }

  function Zeros(n: nat): (r: seq<byte>)
    ensures |r| == n
    ensures forall i :: 0 <= i < n ==> r[i] == 0
  {
    seq(n, i => 0)
  }

  lemma {:induction false} Regroup<T>(a: seq<T>, x: T, before: seq<T>, after: seq<T>)
    requires before == [x] + after
    ensures a + before == (a + [x]) + after
  {
  }

  /** What is ahead in the data is sliced off its front. */
  lemma {:induction false} TakeAhead(data: seq<byte>, offset: nat, a: seq<byte>, rest: seq<byte>)
    requires offset <= |data| && data[offset..] == a + rest
    ensures offset + |a| <= |data| && data[offset..offset + |a|] == a && data[offset + |a|..] == rest
  {
    assert data[offset..offset + |a|] == data[offset..][..|a|];
    assert data[offset + |a|..] == data[offset..][|a|..];
  }
}
