/** Backup ids: "backup_" and a number padded to six digits. Reading the number back, and how the
    order of ids as text compares with the order of their numbers. */
module BackupIds {
  import opened Bytes

  type Id = seq<byte>

  /** "backup_" */
  const PREFIX: seq<byte> := [98, 97, 99, 107, 117, 112, 95]
  const INT_MAX: nat := 0x7FFF_FFFF

  function Pow10(n: nat): (r: nat)
    ensures r >= 1
  {
    if n == 0 then 1 else 10 * Pow10(n - 1)
  }

  /** The low w decimal digits of n as text. */
  function Digits(n: nat, w: nat): (r: seq<byte>)
    ensures |r| == w
    ensures forall k :: 0 <= k < w ==> 48 <= r[k] <= 57
  {
    if w == 0 then [] else Digits(n / 10, w - 1) + [48 + n % 10]
  }

  /** The number of decimal digits, at least six: what setw(6) with '0' fill prints. */
  function Width(n: nat): (w: nat)
    ensures w >= 6 && n < Pow10(w)
    ensures w > 6 ==> n >= Pow10(w - 1)
  {
    MillionIs();
    if n < 1000000 then 6 else Width(n / 10) + 1
  }

  lemma {:induction false} MillionIs()
    ensures Pow10(6) == 1000000
  {
    assert Pow10(3) == 1000;
  }

  function IdOf(n: nat): Id {
    PREFIX + Digits(n, Width(n))
  }

  // ----- reading the number back -----

  /** stoi on text of digits: the leading digits, nothing without one or above the int range. */
  function LeadingNumber(s: seq<byte>, acc: nat): nat {
    if s == [] || !(48 <= s[0] <= 57) then acc else LeadingNumber(s[1..], 10 * acc + (s[0] - 48))
  }

  function NumberOf(id: Id): Option<nat> {
    if |id| > 7 && id[..7] == PREFIX && 48 <= id[7] <= 57 && LeadingNumber(id[7..], 0) <= INT_MAX
    then Some(LeadingNumber(id[7..], 0)) else None
  }

  lemma {:induction false} ReadDigits(n: nat, w: nat, acc: nat, rest: seq<byte>)
    ensures LeadingNumber(Digits(n, w) + rest, acc) == LeadingNumber(rest, acc * Pow10(w) + n % Pow10(w))
  {
    if w == 0 {
      assert Digits(n, 0) + rest == rest;
    } else {
      var d: seq<byte> := [48 + n % 10];
      assert Digits(n, w) + rest == Digits(n / 10, w - 1) + (d + rest);
      ReadDigits(n / 10, w - 1, acc, d + rest);
      assert (d + rest)[1..] == rest;
      DigitArithmetic(n, Pow10(w - 1), acc);
    }
  }

  lemma {:induction false} DigitArithmetic(n: nat, p: nat, acc: nat)
    requires p > 0
    ensures 10 * (acc * p + (n / 10) % p) + n % 10 == acc * (10 * p) + n % (10 * p)
  {
    var q := n / 10;
    var r := q / p;
    assert q == r * p + q % p;
    assert n == 10 * (r * p) + (10 * (q % p) + n % 10);
    assert 10 * (r * p) == r * (10 * p);
    DivUnique(n, 10 * p, r, 10 * (q % p) + n % 10);
    assert n == (n / (10 * p)) * (10 * p) + n % (10 * p);
    assert 10 * (acc * p) == acc * (10 * p);
  }

  /** The number of an id is the number it was made from. */
  lemma {:induction false} NumberOfId(n: nat)
    ensures NumberOf(IdOf(n)) == if n <= INT_MAX then Some(n) else None
  {
    var w := Width(n);
    var id := IdOf(n);
    assert id[..7] == PREFIX && id[7..] == Digits(n, w) && id[7] == Digits(n, w)[0];
    ReadDigits(n, w, 0, []);
    assert Digits(n, w) + [] == Digits(n, w);
    ModSmall(n, Pow10(w));
    hide Digits, Width, Pow10, IdOf;
  }

  lemma {:induction false} ModSmall(n: nat, p: nat)
    requires n < p
    ensures n % p == n && n / p == 0
  {
  }

  // ----- order as text -----

  /** std::string's order. */
  predicate AtMost(a: seq<byte>, b: seq<byte>) {
    a == [] || (b != [] && (a[0] < b[0] || (a[0] == b[0] && AtMost(a[1..], b[1..]))))
  }

  lemma {:induction false} AtMostSelf(a: seq<byte>)
    ensures AtMost(a, a)
  {
    if a != [] { AtMostSelf(a[1..]); }
  }

  lemma {:induction false} AtMostTotal(a: seq<byte>, b: seq<byte>)
    ensures AtMost(a, b) || AtMost(b, a)
    ensures AtMost(a, b) && AtMost(b, a) ==> a == b
  {
    if a != [] && b != [] {
      AtMostTotal(a[1..], b[1..]);
      assert a == [a[0]] + a[1..] && b == [b[0]] + b[1..];
    }
  }

  lemma {:induction false} AtMostTransitive(a: seq<byte>, b: seq<byte>, c: seq<byte>)
    requires AtMost(a, b) && AtMost(b, c)
    ensures AtMost(a, c)
  {
    if a != [] && a[0] == b[0] == c[0] {
      AtMostTransitive(a[1..], b[1..], c[1..]);
    }
  }

  lemma {:induction false} CommonPrefix(p: seq<byte>, a: seq<byte>, b: seq<byte>)
    ensures AtMost(p + a, p + b) <==> AtMost(a, b)
  {
    if p == [] {
      assert p + a == a && p + b == b;
    } else {
      CommonPrefix(p[1..], a, b);
      assert (p + a)[1..] == p[1..] + a && (p + b)[1..] == p[1..] + b;
    }
  }

  /** Text of one length: the last byte decides only between equal fronts. */
  lemma {:induction false} AtMostSnoc(a: seq<byte>, b: seq<byte>, x: byte, y: byte)
    requires |a| == |b|
    ensures AtMost(a + [x], b + [y]) <==> (AtMost(a, b) && a != b) || (a == b && x <= y)
  {
    if a == [] {
      assert a + [x] == [x] && b + [y] == [y] && [x][1..] == [] && [y][1..] == [];
    } else {
      AtMostSnoc(a[1..], b[1..], x, y);
      assert (a + [x])[1..] == a[1..] + [x] && (b + [y])[1..] == b[1..] + [y];
      assert a == [a[0]] + a[1..] && b == [b[0]] + b[1..];
    }
  }

  lemma {:induction false} DigitsEqual(m: nat, n: nat, w: nat)
    requires m < Pow10(w) && n < Pow10(w)
    ensures Digits(m, w) == Digits(n, w) <==> m == n
  {
    if w == 0 {
    } else {
      DigitsEqual(m / 10, n / 10, w - 1);
      var a, b := Digits(m / 10, w - 1), Digits(n / 10, w - 1);
      assert (a + [48 + m % 10])[..w - 1] == a && (b + [48 + n % 10])[..w - 1] == b;
      assert (a + [48 + m % 10])[w - 1] == 48 + m % 10 && (b + [48 + n % 10])[w - 1] == 48 + n % 10;
    }
  }

  /** Equal widths: text order is number order. */
  lemma {:induction false} DigitsOrdered(m: nat, n: nat, w: nat)
    requires m < Pow10(w) && n < Pow10(w)
    ensures AtMost(Digits(m, w), Digits(n, w)) <==> m <= n
  {
    if w == 0 {
    } else {
      DigitsOrdered(m / 10, n / 10, w - 1);
      DigitsEqual(m / 10, n / 10, w - 1);
      AtMostSnoc(Digits(m / 10, w - 1), Digits(n / 10, w - 1), 48 + m % 10, 48 + n % 10);
    }
  }

  lemma {:induction false} ShorterFirst(a: seq<byte>, b: seq<byte>, c: seq<byte>)
    requires |a| == |b|
    ensures AtMost(a, b + c) <==> AtMost(a, b)
    ensures c != [] ==> (AtMost(b + c, a) <==> AtMost(b, a) && a != b)
  {
    if a == [] {
      assert b + c == c;
    } else {
      ShorterFirst(a[1..], b[1..], c);
      assert (b + c)[1..] == b[1..] + c;
      assert a == [a[0]] + a[1..] && b == [b[0]] + b[1..];
    }
  }

  /** The first digits of a longer number are its quotient. */
  lemma {:induction false} FrontDigits(n: nat, v: nat, w: nat)
    requires w <= v
    ensures Digits(n, v)[..w] == Digits(n / Pow10(v - w), w)
    decreases v - w
  {
    if w < v {
      FrontDigits(n / 10, v - 1, w);
      assert Digits(n, v)[..w] == Digits(n / 10, v - 1)[..w];
      DivDiv(n, 10, Pow10(v - 1 - w));
    } else {
      assert Digits(n, v)[..w] == Digits(n, v);
    }
  }

  lemma {:induction false} Pow10Monotone(a: nat, b: nat)
    requires a <= b
    ensures Pow10(a) <= Pow10(b)
    decreases b
  {
    if a < b { Pow10Monotone(a, b - 1); }
  }

  lemma {:induction false} WidthMonotone(m: nat, n: nat)
    requires m <= n
    ensures Width(m) <= Width(n)
  {
    if Width(m) > Width(n) {
      Pow10Monotone(Width(n), Width(m) - 1);
    }
  }

  /** Text order of two ids, for numbers m <= n: the shorter is compared with the front of the longer. */
  lemma {:induction false} IdsOrdered(m: nat, n: nat)
    requires m <= n
    ensures Width(m) <= Width(n)
    ensures AtMost(IdOf(m), IdOf(n)) <==> m <= n / Pow10(Width(n) - Width(m))
  {
    hide Digits, AtMost, Width, Pow10;
    var w, v := Width(m), Width(n);
    WidthMonotone(m, n);
    CommonPrefix(PREFIX, Digits(m, w), Digits(n, v));
    var front := n / Pow10(v - w);
    FrontDigits(n, v, w);
    FrontBelow(n, v, w);
    assert Digits(n, v) == Digits(n, v)[..w] + Digits(n, v)[w..];
    ShorterFirst(Digits(m, w), Digits(front, w), Digits(n, v)[w..]);
    DigitsOrdered(m, front, w);
  }

  lemma {:induction false} Pow10Add(a: nat, b: nat)
    ensures Pow10(a + b) == Pow10(a) * Pow10(b)
  {
    if a > 0 { Pow10Add(a - 1, b); }
  }

  lemma {:induction false} FrontBelow(n: nat, v: nat, w: nat)
    requires w <= v && n < Pow10(v)
    ensures n / Pow10(v - w) < Pow10(w)
  {
    Pow10Add(w, v - w);
    assert Pow10(v) == Pow10(w) * Pow10(v - w);
    hide Pow10;
    var p, q := Pow10(v - w), n / Pow10(v - w);
    assert n == q * p + n % p;
    if q >= Pow10(w) {
      MulMonotone(Pow10(w), q, p);
    }
  }

  /** No id of a smaller number comes after the id of m. */
  ghost predicate LastAsText(m: nat) {
    forall n: nat :: 1 <= n <= m ==> AtMost(IdOf(n), IdOf(m))
  }

  /** Where text order agrees with number order: up to six digits, and at the last ten numbers of
      every longer width, whose leading digits are all nines. */
  predicate Aligned(m: nat) {
    m <= 999999 || m + 10 >= Pow10(Width(m))
  }

  /** Latest backup: the highest number is last as text exactly for aligned numbers; the first
      failure is 1000000, which sorts before 999999. */
  lemma {:induction false} LastAsTextIff(m: nat)
    requires m >= 1
    ensures LastAsText(m) <==> Aligned(m)
  {
    MillionIs();
    if Aligned(m) {
      forall n: nat | 1 <= n <= m ensures AtMost(IdOf(n), IdOf(m)) {
        IdsOrdered(n, m);
        AlignedFront(n, m);
      }
    } else {
      WidthAtLeast7(m);
      var n := Pow10(Width(m) - 1) - 1;
      Pow10Monotone(6, Width(m) - 1);
      WidthOfNines(Width(m) - 1);
      IdsOrdered(n, m);
      assert Pow10(1) == 10;
      assert n > m / 10;
      assert !AtMost(IdOf(n), IdOf(m));
    }
  }

  /** The number among 1 to m whose id is last as text: m, or the last one of the width before. */
  function LastNumber(m: nat): nat {
    if Aligned(m) then m else Pow10(Width(m) - 1) - 1
  }

  lemma {:induction false} NinesBefore(m: nat)
    requires !Aligned(m)
    ensures var n := LastNumber(m); 1 <= n < m && Aligned(n) && Width(n) == Width(m) - 1 && m / 10 < n
  {
    MillionIs();
    WidthAtLeast7(m);
    WidthOfNines(Width(m) - 1);
    Pow10Monotone(6, Width(m) - 1);
  }

  /** No id of a number from 1 to m comes after that one. */
  lemma {:induction false} LastNumberIsLast(m: nat, n: nat)
    requires 1 <= n <= m
    ensures 1 <= LastNumber(m) <= m && AtMost(IdOf(n), IdOf(LastNumber(m)))
  {
    var last := LastNumber(m);
    if Aligned(m) {
      LastAsTextIff(m);
    } else {
      NinesBefore(m);
      LastAsTextIff(last);
      if n > last {
        IdsOrdered(last, n);
        WidthMonotone(last, n);
        WidthMonotone(n, m);
        assert Pow10(0) == 1 && Pow10(1) == 10;
        assert n / 10 <= m / 10;
        hide IdOf, AtMost, Width, Aligned, Pow10;
        AtMostTotal(IdOf(n), IdOf(last));
      }
    }
  }

  lemma {:induction false} WidthAtLeast7(m: nat)
    requires m > 999999
    ensures Width(m) >= 7 && Pow10(Width(m)) == 10 * Pow10(Width(m) - 1)
  {
  }

  lemma {:induction false} WidthOfNines(w: nat)
    requires w >= 6
    ensures Width(Pow10(w) - 1) == w
  {
    var n := Pow10(w) - 1;
    if Width(n) > w {
      Pow10Monotone(w, Width(n) - 1);
    } else if Width(n) < w {
      Pow10Monotone(Width(n), w - 1);
    }
  }

  lemma {:induction false} AlignedFront(n: nat, m: nat)
    requires 1 <= n <= m && Aligned(m) && Width(n) <= Width(m)
    ensures n <= m / Pow10(Width(m) - Width(n))
  {
    var w, v := Width(n), Width(m);
    if w == v {
      assert Pow10(0) == 1;
    } else {
      MillionIs();
      WidthMonotone(n, m);
      var p := Pow10(v - w);
      Pow10Add(w, v - w);
      Pow10Monotone(1, v - w);
      assert Pow10(1) == 10;
      assert m <= 999999 ==> Width(m) == 6;
      MulMonotone(n + 1, Pow10(w), p);
      assert (n + 1) * p == n * p + p;
      assert n * p <= m;
      DivAtLeast(n, p, m);
    }
  }

  lemma {:induction false} DivAtLeast(n: nat, p: nat, m: nat)
    requires p > 0 && n * p <= m
    ensures n <= m / p
  {
    var q := m / p;
    assert m == q * p + m % p;
    if q < n {
      MulStep(q, n, p);
    }
  }
}
