/** Prefix-free codes satisfy Kraft's inequality. */
module PrefixCodes {
  import opened Bytes
  import opened HuffmanOptimal

  type Bits = seq<bool>

  ghost predicate Comparable(a: Bits, b: Bits) {
    a <= b || b <= a
  }

  ghost predicate Apart(cs: seq<Bits>, c: Bits) {
    forall i :: 0 <= i < |cs| ==> !Comparable(cs[i], c)
  }

  /** No code of the list is a prefix of an earlier or a later one. */
  ghost predicate PrefixFree(cs: seq<Bits>) {
    cs == [] || (PrefixFree(cs[..|cs| - 1]) && Apart(cs[..|cs| - 1], cs[|cs| - 1]))
  }

  function Lengths(cs: seq<Bits>): (ds: seq<nat>)
    ensures |ds| == |cs|
    ensures forall k :: 0 <= k < |cs| ==> ds[k] == |cs[k]|
  {
    seq(|cs|, k requires 0 <= k < |cs| => |cs[k]|)
  }

  ghost predicate NoLonger(cs: seq<Bits>, m: nat) {
    forall k :: 0 <= k < |cs| ==> |cs[k]| <= m
  }

  /** Sum of 2^(m - |c|). */
  ghost function KraftSum(cs: seq<Bits>, m: nat): nat
    requires NoLonger(cs, m)
  {
    if cs == [] then 0 else KraftSum(cs[..|cs| - 1], m) + Pow2(m - |cs[|cs| - 1]|)
  }

  lemma {:induction false} KraftSumIsKraft(cs: seq<Bits>, m: nat)
    requires NoLonger(cs, m)
    ensures KraftSum(cs, m) == Kraft(Lengths(cs), m)
  {
    if cs == [] {
    } else {
      KraftSumIsKraft(cs[..|cs| - 1], m);
      assert Lengths(cs)[..|cs| - 1] == Lengths(cs[..|cs| - 1]);
    }
  }

  /** The codes that start with the bit, without it. */
  ghost function Tails(cs: seq<Bits>, bit: bool): seq<Bits> {
    if cs == [] then [] else
      var c := cs[|cs| - 1];
      Tails(cs[..|cs| - 1], bit) + (if c != [] && c[0] == bit then [c[1..]] else [])
  }

  lemma {:induction false} TailsMember(cs: seq<Bits>, bit: bool, x: Bits)
    requires x in Tails(cs, bit)
    ensures [bit] + x in cs
  {
    var c := cs[|cs| - 1];
    if c != [] && c[0] == bit && x == c[1..] {
      assert [bit] + x == c;
    } else {
      TailsMember(cs[..|cs| - 1], bit, x);
    }
  }

  lemma {:induction false} TailsPrefixFree(cs: seq<Bits>, bit: bool)
    requires PrefixFree(cs)
    ensures PrefixFree(Tails(cs, bit))
  {
    if cs == [] {
    } else {
      var pre, c := cs[..|cs| - 1], cs[|cs| - 1];
      TailsPrefixFree(pre, bit);
      if c != [] && c[0] == bit {
        var ts := Tails(pre, bit);
        assert Tails(cs, bit) == ts + [c[1..]];
        assert (ts + [c[1..]])[..|ts|] == ts;
        forall i | 0 <= i < |ts| ensures !Comparable(ts[i], c[1..]) {
          TailsMember(pre, bit, ts[i]);
          ConsComparable(bit, ts[i], c);
        }
      } else {
        assert Tails(cs, bit) == Tails(pre, bit);
      }
    }
  }

  lemma {:induction false} ConsComparable(bit: bool, x: Bits, c: Bits)
    requires c != [] && c[0] == bit && !Comparable([bit] + x, c)
    ensures !Comparable(x, c[1..])
  {
    assert c == [bit] + c[1..];
    assert x <= c[1..] ==> [bit] + x <= c;
    assert c[1..] <= x ==> c <= [bit] + x;
  }

  lemma {:induction false} TailsNoLonger(cs: seq<Bits>, m: nat, bit: bool)
    requires NoLonger(cs, m) && m > 0
    ensures NoLonger(Tails(cs, bit), m - 1)
  {
    if cs == [] {
    } else {
      assert forall k :: 0 <= k < |cs| - 1 ==> cs[..|cs| - 1][k] == cs[k];
      TailsNoLonger(cs[..|cs| - 1], m, bit);
    }
  }

  /** Without an empty code the sum splits by first bit. */
  lemma {:induction false} KraftSplits(cs: seq<Bits>, m: nat)
    requires NoLonger(cs, m) && m > 0 && [] !in cs
    ensures NoLonger(Tails(cs, false), m - 1) && NoLonger(Tails(cs, true), m - 1)
    ensures KraftSum(cs, m) == KraftSum(Tails(cs, false), m - 1) + KraftSum(Tails(cs, true), m - 1)
  {
    TailsNoLonger(cs, m, false);
    TailsNoLonger(cs, m, true);
    if cs == [] {
    } else {
      var pre, c := cs[..|cs| - 1], cs[|cs| - 1];
      assert c in cs;
      KraftSplits(pre, m);
      assert Tails(cs, c[0]) == Tails(pre, c[0]) + [c[1..]] && Tails(cs, !c[0]) == Tails(pre, !c[0]);
      assert KraftSum(cs, m) == KraftSum(pre, m) + Pow2(m - |c|);
      hide Tails, KraftSum;
      KraftSnoc(Tails(pre, c[0]), c[1..], m - 1);
    }
  }

  lemma {:induction false} KraftSnoc(cs: seq<Bits>, c: Bits, m: nat)
    requires NoLonger(cs, m) && |c| <= m
    ensures NoLonger(cs + [c], m) && KraftSum(cs + [c], m) == KraftSum(cs, m) + Pow2(m - |c|)
  {
    assert (cs + [c])[..|cs|] == cs;
  }

  /** Kraft's inequality. */
  lemma {:induction false} KraftInequality(cs: seq<Bits>, m: nat)
    requires PrefixFree(cs) && NoLonger(cs, m)
    ensures KraftSum(cs, m) <= Pow2(m)
    decreases m
  {
    if m == 0 && cs != [] {
      assert cs[0] == [] && cs[0] in cs;
    }
    if [] in cs {
      EmptyCodeAlone(cs);
      assert cs[..0] == [];
    } else if m > 0 {
      hide KraftSum, Tails, PrefixFree;
      KraftSplits(cs, m);
      TailsPrefixFree(cs, false);
      TailsPrefixFree(cs, true);
      KraftInequality(Tails(cs, false), m - 1);
      KraftInequality(Tails(cs, true), m - 1);
    }
  }

  lemma {:induction false} EmptyCodeAlone(cs: seq<Bits>)
    requires PrefixFree(cs) && [] in cs
    ensures |cs| == 1 && cs[0] == []
  {
    var pre, c := cs[..|cs| - 1], cs[|cs| - 1];
    assert forall i :: 0 <= i < |pre| ==> Comparable(pre[i], []);
    assert Comparable([], c);
  }
}
