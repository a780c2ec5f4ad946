/** Composite include/exclude filters over uninterpreted rules. */
module Filter {
  import opened Bytes
  import opened FileRecords

  datatype Action = Include | Exclude

  const DIMENSIONS: nat := 9

  type dimension = d: int | 0 <= d < 9

  /** One rule: what it looks at, what it does, and which records it hits. */
  datatype Rule = Rule(dim: dimension, action: Action, hit: FileInfo -> bool)

  // ----- what the loops compute -----

  predicate Excluded(rules: seq<Rule>, info: FileInfo) {
    exists i :: 0 <= i < |rules| && rules[i].action.Exclude? && rules[i].hit(info)
  }

  /** Some include rule looks at the dimension. */
  predicate Restricts(rules: seq<Rule>, d: dimension) {
    exists i :: 0 <= i < |rules| && rules[i].action.Include? && rules[i].dim == d
  }

  /** Some include rule of the dimension hits. */
  predicate Accepts(rules: seq<Rule>, d: dimension, info: FileInfo) {
    exists i :: 0 <= i < |rules| && rules[i].action.Include? && rules[i].dim == d && rules[i].hit(info)
  }

  /** Nothing excludes the record, and every restricted dimension has an include rule that hits. */
  predicate Matches(rules: seq<Rule>, info: FileInfo) {
    !Excluded(rules, info) && forall d: dimension :: Restricts(rules, d) ==> Accepts(rules, d, info)
  }

  class CompositeFilter {
    var rules: seq<Rule>

    constructor ()
      ensures rules == []
    {
      rules := [];
    }

    method AddRule(rule: Rule)
      modifies this
      ensures rules == old(rules) + [rule]
    {
      rules := rules + [rule];
    }

    method IsExcluded(info: FileInfo) returns (b: bool)
      ensures b == Excluded(rules, info)
    {
      for i := 0 to |rules|
        invariant !Excluded(rules[..i], info)
      {
        if rules[i].action.Exclude? && rules[i].hit(info) {
          return true;
        }
        assert rules[..i + 1] == rules[..i] + [rules[i]];
      }
      assert rules[..|rules|] == rules;
      b := false;
    }

    /** Tracks, for each dimension, whether an include rule was seen and whether one hit. */
    method IsMatch(info: FileInfo) returns (b: bool)
      ensures b == Matches(rules, info)
    {
      if rules == [] {
        return true;
      }
      var hasInclude, matched := new bool[DIMENSIONS](_ => false), new bool[DIMENSIONS](_ => false);
      for i := 0 to |rules|
        invariant !Excluded(rules[..i], info)
        invariant forall d: dimension :: hasInclude[d] == Restricts(rules[..i], d)
        invariant forall d: dimension :: matched[d] == Accepts(rules[..i], d, info)
      {
        var r := rules[i];
        var hit := r.hit(info);
        Snoc(rules[..i], r, info);
        assert rules[..i + 1] == rules[..i] + [r];
        if r.action.Exclude? {
          if hit {
            assert rules[i].action.Exclude? && rules[i].hit(info);
            return false;
          }
        } else {
          hasInclude[r.dim] := true;
          matched[r.dim] := matched[r.dim] || hit;
        }
      }
      assert rules[..|rules|] == rules;
      for d := 0 to DIMENSIONS
        invariant forall c: dimension :: c < d ==> Restricts(rules, c) ==> Accepts(rules, c, info)
      {
        if hasInclude[d] && !matched[d] {
          return false;
        }
      }
      b := true;
    }
  }

  lemma {:induction false} Snoc(rules: seq<Rule>, r: Rule, info: FileInfo)
    ensures Excluded(rules + [r], info) <==> Excluded(rules, info) || (r.action.Exclude? && r.hit(info))
    ensures forall d: dimension :: Restricts(rules + [r], d) <==> Restricts(rules, d) || (r.action.Include? && r.dim == d)
    ensures forall d: dimension ::
      Accepts(rules + [r], d, info) <==> Accepts(rules, d, info) || (r.action.Include? && r.dim == d && r.hit(info))
  {
    var all := rules + [r];
    assert all[|rules|] == r;
    assert forall i :: 0 <= i < |rules| ==> all[i] == rules[i];
  }

  // ----- properties -----

  /** Only which rules there are matters, not their order or their repetitions. */
  lemma {:induction false} OrderDoesNotMatter(a: seq<Rule>, b: seq<Rule>, info: FileInfo)
    requires forall r :: r in a <==> r in b
    ensures Matches(a, info) == Matches(b, info) && Excluded(a, info) == Excluded(b, info)
  {
    SameRules(a, b, info);
    SameRules(b, a, info);
  }

  lemma {:induction false} SameRules(a: seq<Rule>, b: seq<Rule>, info: FileInfo)
    requires forall r :: r in a ==> r in b
    ensures Excluded(a, info) ==> Excluded(b, info)
    ensures forall d: dimension :: Restricts(a, d) ==> Restricts(b, d)
    ensures forall d: dimension :: Accepts(a, d, info) ==> Accepts(b, d, info)
  {
    assert forall i :: 0 <= i < |a| ==> a[i] in b;
  }

  /** Another exclude rule excludes more and matches less, whatever was there before. */
  lemma {:induction false} AddingExclude(rules: seq<Rule>, r: Rule, info: FileInfo)
    requires r.action.Exclude?
    ensures Excluded(rules, info) ==> Excluded(rules + [r], info)
    ensures Matches(rules + [r], info) ==> Matches(rules, info)
  {
    Snoc(rules, r, info);
  }

  /** Another include rule for a dimension already restricted matches more and excludes the same. */
  lemma {:induction false} AddingInclude(rules: seq<Rule>, r: Rule, info: FileInfo)
    requires r.action.Include? && Restricts(rules, r.dim)
    ensures Excluded(rules, info) == Excluded(rules + [r], info)
    ensures Matches(rules, info) ==> Matches(rules + [r], info)
  {
    Snoc(rules, r, info);
  }
}
