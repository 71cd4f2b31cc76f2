/** How good a finished draw is: maximal, at least half of the best possible, and of exact size when
    only rules are capped. */
module SamplerBounds {
  import opened Sampling
  import opened SamplerLaws

  // ---------------------------------------------------------------- maximality

  /** At most the capped number of items per rule and per family. */
  ghost predicate Obeys(s: seq<Item>, caps: Caps) {
    && (forall r :: Tally(s, Rule(r)) <= caps.rule)
    && (caps.family.Some? ==> forall f :: Tally(s, Family(f)) <= caps.family.value)
  }

  /** The item could not be added: its rule or its family is full. */
  ghost predicate Blocked(picked: seq<Item>, caps: Caps, x: Item) {
    || Tally(picked, Rule(x.rule)) >= caps.rule
    || (caps.family.Some? && Tally(picked, Family(x.family)) >= caps.family.value)
  }

  /** Every item left out is blocked. */
  ghost predicate Maximal(pool: seq<Item>, picked: seq<Item>, caps: Caps) {
    forall x: Item :: multiset(picked)[x] < multiset(pool)[x] ==> Blocked(picked, caps, x)
  }

  lemma SoundObeys(pool: seq<Item>, s: Draw, caps: Caps)
    requires Sound(pool, s, caps)
    ensures Obeys(s.picked, caps)
  {
    forall r: nat ensures Tally(s.picked, Rule(r)) <= caps.rule {
      assert At(s.taken, r) == Tally(s.picked, Rule(r));
    }
    if caps.family.Some? {
      forall f: nat ensures Tally(s.picked, Family(f)) <= caps.family.value {
        assert At(s.families, f) == Tally(s.picked, Family(f));
      }
    }
  }

  lemma ShutIsMaximal(pool: seq<Item>, s: Draw, caps: Caps, x: Item)
    requires Sound(pool, s, caps) && Shut(s.groups, s.picked, caps.rule, x.cwe)
    requires multiset(s.picked)[x] < multiset(pool)[x]
    ensures Blocked(s.picked, caps, x)
  {
    if multiset(s.dropped)[x] > 0 {
      assert x in s.dropped;
    } else {
      assert x in Group(s.groups, x.cwe, x.rule);
    }
  }

  // ---------------------------------------------------------------- against any rival

  ghost predicate Touches(x: Item, full: set<Label>) {
    exists l :: l in full && Has(x, l)
  }

  /** The items of `s` under some label of `full`. */
  ghost function Under(s: seq<Item>, full: set<Label>): seq<Item> {
    if s == [] then []
    else Under(s[..|s| - 1], full) + if Touches(s[|s| - 1], full) then [s[|s| - 1]] else []
  }

  /** The items of `s` under no label of `full`. */
  ghost function Outside(s: seq<Item>, full: set<Label>): seq<Item> {
    if s == [] then []
    else Outside(s[..|s| - 1], full) + if Touches(s[|s| - 1], full) then [] else [s[|s| - 1]]
  }

  lemma {:induction false} UnderAndOutside(s: seq<Item>, full: set<Label>)
    ensures |Under(s, full)| + |Outside(s, full)| == |s|
  {
    if s != [] {
      UnderAndOutside(s[..|s| - 1], full);
    }
  }

  lemma {:induction false} OutsideCounts(s: seq<Item>, full: set<Label>, x: Item)
    ensures multiset(Outside(s, full))[x] == if Touches(x, full) then 0 else multiset(s)[x]
  {
    if s != [] {
      OutsideCounts(s[..|s| - 1], full, x);
      assert s == s[..|s| - 1] + [s[|s| - 1]];
    }
  }

  lemma {:induction false} UnderGrows(s: seq<Item>, a: set<Label>, b: set<Label>)
    requires a <= b
    ensures |Under(s, a)| <= |Under(s, b)|
  {
    if s != [] {
      UnderGrows(s[..|s| - 1], a, b);
    }
  }

  lemma {:induction false} UnderUnion(s: seq<Item>, a: set<Label>, b: set<Label>)
    ensures |Under(s, a + b)| <= |Under(s, a)| + |Under(s, b)|
  {
    if s != [] {
      UnderUnion(s[..|s| - 1], a, b);
    }
  }

  /** Labels of one kind: no item carries two of them. */
  ghost predicate OneKind(full: set<Label>) {
    (forall l :: l in full ==> l.Rule?) || (forall l :: l in full ==> l.Family?)
  }

  lemma {:induction false} UnderAddsUp(s: seq<Item>, full: set<Label>, l: Label)
    requires OneKind(full + {l}) && l !in full
    ensures |Under(s, full + {l})| == |Under(s, full)| + Tally(s, l)
  {
    if s != [] {
      var x := s[|s| - 1];
      UnderAddsUp(s[..|s| - 1], full, l);
      assert Touches(x, full + {l}) <==> Touches(x, full) || Has(x, l);
      assert !(Touches(x, full) && Has(x, l));
    }
  }

  /** Counting against saturated labels: what fits under them is no more than what sits there. */
  lemma {:induction false} UnderBounded(rival: seq<Item>, picked: seq<Item>, full: set<Label>)
    requires OneKind(full)
    requires forall l :: l in full ==> Tally(rival, l) <= Tally(picked, l)
    ensures |Under(rival, full)| <= |Under(picked, full)|
  {
    if full == {} {
      NoneUnder(rival);
      NoneUnder(picked);
    } else {
      var l :| l in full;
      var rest := full - {l};
      assert full == rest + {l};
      UnderBounded(rival, picked, rest);
      UnderAddsUp(rival, rest, l);
      UnderAddsUp(picked, rest, l);
    }
  }

  lemma {:induction false} NoneUnder(s: seq<Item>)
    ensures Under(s, {}) == []
  {
    if s != [] {
      NoneUnder(s[..|s| - 1]);
    }
  }

  lemma CardMonotone(a: multiset<Item>, b: multiset<Item>)
    requires forall x: Item :: a[x] <= b[x]
    ensures |a| <= |b|
  {
    assert a <= b;
    assert b == a + (b - a);
  }

  /** Outside the full labels the rival can only use items that were picked. */
  lemma OutsideBounded(rival: seq<Item>, picked: seq<Item>, full: set<Label>)
    requires forall x :: x in rival && !Touches(x, full) ==> multiset(rival)[x] <= multiset(picked)[x]
    ensures |Outside(rival, full)| <= |Outside(picked, full)|
  {
    var a, b := multiset(Outside(rival, full)), multiset(Outside(picked, full));
    forall x: Item ensures a[x] <= b[x] {
      OutsideCounts(rival, full, x);
      OutsideCounts(picked, full, x);
      if a[x] > 0 {
        assert multiset(rival)[x] > 0;
        assert x in rival;
      }
    }
    CardMonotone(a, b);
  }

  ghost function FullRules(rival: seq<Item>, picked: seq<Item>, caps: Caps): set<Label> {
    set i | 0 <= i < |rival| && Tally(picked, Rule(rival[i].rule)) >= caps.rule :: Rule(rival[i].rule)
  }

  ghost function FullFamilies(rival: seq<Item>, picked: seq<Item>, caps: Caps): set<Label> {
    set i | 0 <= i < |rival| && caps.family.Some? && Tally(picked, Family(rival[i].family)) >= caps.family.value
      :: Family(rival[i].family)
  }

  lemma UnblockedIsPicked(pool: seq<Item>, picked: seq<Item>, rival: seq<Item>, caps: Caps, x: Item)
    requires Maximal(pool, picked, caps) && multiset(rival) <= multiset(pool)
    requires x in rival && !Touches(x, FullRules(rival, picked, caps) + FullFamilies(rival, picked, caps))
    ensures multiset(rival)[x] <= multiset(picked)[x]
  {
    var full := FullRules(rival, picked, caps) + FullFamilies(rival, picked, caps);
    var i :| 0 <= i < |rival| && rival[i] == x;
    if Blocked(picked, caps, x) {
      if Tally(picked, Rule(rival[i].rule)) >= caps.rule {
        assert Rule(rival[i].rule) in full && Has(x, Rule(rival[i].rule));
      } else {
        assert Family(rival[i].family) in full && Has(x, Family(rival[i].family));
      }
    }
    assert multiset(rival)[x] <= multiset(pool)[x];
  }

  /** A maximal draw holds at least half as many items as any other that obeys the caps. */
  lemma AtLeastHalfOfAnyRival(pool: seq<Item>, picked: seq<Item>, rival: seq<Item>, caps: Caps)
    requires Maximal(pool, picked, caps)
    requires multiset(rival) <= multiset(pool) && Obeys(rival, caps)
    ensures |rival| <= 2 * |picked|
    ensures caps.family.None? ==> |rival| <= |picked|
  {
    var rules, families := FullRules(rival, picked, caps), FullFamilies(rival, picked, caps);
    var full := rules + families;
    UnderBounded(rival, picked, rules);
    UnderBounded(rival, picked, families);
    UnderUnion(rival, rules, families);
    UnderGrows(picked, rules, full);
    UnderGrows(picked, families, full);
    forall x | x in rival && !Touches(x, full) ensures multiset(rival)[x] <= multiset(picked)[x] {
      UnblockedIsPicked(pool, picked, rival, caps, x);
    }
    OutsideBounded(rival, picked, full);
    UnderAndOutside(rival, full);
    UnderAndOutside(picked, full);
    if caps.family.None? {
      assert families == {};
      NoneUnder(rival);
    }
  }

  // ---------------------------------------------------------------- the exact size

  /** The sum over rules below n of min(cap, number of pool items with that rule). */
  function Capacity(pool: seq<Item>, cap: nat, n: nat): nat {
    if n == 0 then 0
    else Capacity(pool, cap, n - 1) + Min(cap, Tally(pool, Rule(n - 1)))
  }

  function Min(a: int, b: int): int {
    if a < b then a else b
  }

  function PerRule(s: seq<Item>, n: nat): nat {
    if n == 0 then 0 else PerRule(s, n - 1) + Tally(s, Rule(n - 1))
  }

  lemma {:induction false} PerRulePush(s: seq<Item>, x: Item, n: nat)
    ensures PerRule(s + [x], n) == PerRule(s, n) + if x.rule < n then 1 else 0
  {
    if n > 0 {
      PerRulePush(s, x, n - 1);
      TallyPush(s, x, Rule(n - 1));
    }
  }

  lemma {:induction false} PerRuleIsSize(s: seq<Item>, n: nat)
    requires forall x :: x in s ==> x.rule < n
    ensures PerRule(s, n) == |s|
  {
    if s == [] {
      PerRuleEmpty(n);
    } else {
      var rest := s[..|s| - 1];
      PerRuleIsSize(rest, n);
      PerRulePush(rest, s[|s| - 1], n);
      assert s == rest + [s[|s| - 1]];
    }
  }

  lemma {:induction false} PerRuleEmpty(n: nat)
    ensures PerRule([], n) == 0
  {
    if n > 0 {
      PerRuleEmpty(n - 1);
    }
  }

  lemma {:induction false} TallyOfPart(part: seq<Item>, pool: seq<Item>, l: Label)
    requires multiset(part) <= multiset(pool)
    ensures Tally(part, l) <= Tally(pool, l)
    ensures (forall x: Item :: Has(x, l) ==> multiset(part)[x] == multiset(pool)[x])
            ==> Tally(part, l) == Tally(pool, l)
  {
    TallyIsUnder(part, l);
    TallyIsUnder(pool, l);
    var a, b := multiset(Under(part, {l})), multiset(Under(pool, {l}));
    forall x: Item ensures a[x] <= b[x] {
      UnderCounts(part, l, x);
      UnderCounts(pool, l, x);
    }
    CardMonotone(a, b);
    if forall x: Item :: Has(x, l) ==> multiset(part)[x] == multiset(pool)[x] {
      forall x: Item ensures b[x] <= a[x] {
        UnderCounts(part, l, x);
        UnderCounts(pool, l, x);
      }
      CardMonotone(b, a);
    }
  }

  lemma {:induction false} TallyIsUnder(s: seq<Item>, l: Label)
    ensures Tally(s, l) == |Under(s, {l})|
  {
    if s != [] {
      TallyIsUnder(s[..|s| - 1], l);
    }
  }

  lemma {:induction false} UnderCounts(s: seq<Item>, l: Label, x: Item)
    ensures multiset(Under(s, {l}))[x] == if Has(x, l) then multiset(s)[x] else 0
  {
    if s != [] {
      UnderCounts(s[..|s| - 1], l, x);
      assert s == s[..|s| - 1] + [s[|s| - 1]];
    }
  }

  /** With rules alone capped, a maximal draw takes min(cap, supply) of every rule. */
  lemma MaximalRuleCount(pool: seq<Item>, picked: seq<Item>, caps: Caps, r: nat)
    requires Maximal(pool, picked, caps) && Obeys(picked, caps) && caps.family.None?
    requires multiset(picked) <= multiset(pool)
    ensures Tally(picked, Rule(r)) == Min(caps.rule, Tally(pool, Rule(r)))
  {
    TallyOfPart(picked, pool, Rule(r));
    if Tally(picked, Rule(r)) < caps.rule {
      forall x: Item | Has(x, Rule(r)) ensures multiset(picked)[x] == multiset(pool)[x] {
        assert !Blocked(picked, caps, x);
      }
    }
  }

  lemma {:induction false} CapacityReached(pool: seq<Item>, picked: seq<Item>, caps: Caps, n: nat)
    requires forall r :: Tally(picked, Rule(r)) == Min(caps.rule, Tally(pool, Rule(r)))
    ensures PerRule(picked, n) == Capacity(pool, caps.rule, n)
  {
    if n > 0 {
      CapacityReached(pool, picked, caps, n - 1);
    }
  }

  lemma {:induction false} CapacityBounds(pool: seq<Item>, picked: seq<Item>, caps: Caps, n: nat)
    requires Obeys(picked, caps) && multiset(picked) <= multiset(pool)
    ensures PerRule(picked, n) <= Capacity(pool, caps.rule, n)
  {
    if n > 0 {
      CapacityBounds(pool, picked, caps, n - 1);
      TallyOfPart(picked, pool, Rule(n - 1));
    }
  }

  /** The size of a draw with rules alone capped: the quota, or all that the cap lets through. */
  lemma ExactSize(pool: seq<Item>, picked: seq<Item>, caps: Caps, n: nat)
    requires caps.quota >= 0 && |picked| <= caps.quota && caps.family.None?
    requires |picked| < caps.quota ==> Maximal(pool, picked, caps)
    requires Obeys(picked, caps) && multiset(picked) <= multiset(pool)
    requires forall x :: x in pool ==> x.rule < n
    ensures |picked| == Min(caps.quota, Capacity(pool, caps.rule, n))
  {
    SubsetMembers(picked, pool);
    PerRuleIsSize(picked, n);
    CapacityBounds(pool, picked, caps, n);
    if |picked| < caps.quota {
      forall r ensures Tally(picked, Rule(r)) == Min(caps.rule, Tally(pool, Rule(r))) {
        MaximalRuleCount(pool, picked, caps, r);
      }
      CapacityReached(pool, picked, caps, n);
    }
  }

  /** No rule has more than a fifth of the draw. */
  ghost predicate FifthAtMost(picked: seq<Item>) {
    forall r: nat :: 5 * Tally(picked, Rule(r)) <= |picked|
  }

  /** Under either sampler the fifth holds once the draw has five times the cap, and so whenever it meets
      a quota of five or more. */
  lemma LargeDrawMeetsFifth(picked: seq<Item>, caps: Caps)
    requires Obeys(picked, caps) && 5 * caps.rule <= |picked|
    ensures FifthAtMost(picked)
  {
    forall r: nat ensures 5 * Tally(picked, Rule(r)) <= |picked| {
      assert Tally(picked, Rule(r)) <= caps.rule;
    }
  }

  /** When the pool allows ten times the cap, every draw under both caps meets the fifth, short or not. */
  lemma AmplePoolMeetsFifth(pool: seq<Item>, picked: seq<Item>, rival: seq<Item>, caps: Caps)
    requires Obeys(picked, caps) && 5 * caps.rule <= caps.quota && |picked| <= caps.quota
    requires |picked| < caps.quota ==> Maximal(pool, picked, caps)
    requires multiset(rival) <= multiset(pool) && Obeys(rival, caps) && 10 * caps.rule <= |rival|
    ensures FifthAtMost(picked)
  {
    if |picked| < caps.quota {
      AtLeastHalfOfAnyRival(pool, picked, rival, caps);
    }
    LargeDrawMeetsFifth(picked, caps);
  }

  /** A draw of one to four items never meets the fifth: so v2, whose cap is at least 1, breaks it for
      every quota of one to four even when it meets the quota. */
  lemma FewerThanFiveBreakFifth(picked: seq<Item>)
    requires 0 < |picked| < 5
    ensures !FifthAtMost(picked)
  {
    var rest, x := picked[..|picked| - 1], picked[|picked| - 1];
    TallyPush(rest, x, Rule(x.rule));
    assert picked == rest + [x];
  }

  /** The cap is a fifth of the size asked for, not of the draw: with rules alone capped, the fifth holds of
      the draw exactly when no rule's capped supply is more than a fifth of what the whole pool can give. */
  lemma FifthExactlyWhen(pool: seq<Item>, picked: seq<Item>, caps: Caps, n: nat)
    requires caps.quota >= 0 && |picked| <= caps.quota && caps.family.None? && 5 * caps.rule <= caps.quota
    requires |picked| < caps.quota ==> Maximal(pool, picked, caps)
    requires Obeys(picked, caps) && multiset(picked) <= multiset(pool)
    requires forall x :: x in pool ==> x.rule < n
    ensures FifthAtMost(picked) <==>
            forall r: nat :: 5 * Min(caps.rule, Tally(pool, Rule(r))) <= Min(caps.quota, Capacity(pool, caps.rule, n))
  {
    ExactSize(pool, picked, caps, n);
    if |picked| < caps.quota {
      forall r: nat ensures Tally(picked, Rule(r)) == Min(caps.rule, Tally(pool, Rule(r))) {
        MaximalRuleCount(pool, picked, caps, r);
      }
    } else {
      forall r: nat ensures 5 * Tally(picked, Rule(r)) <= |picked| {
        assert Tally(picked, Rule(r)) <= caps.rule;
      }
    }
  }

  /** Documented as a limit of one fifth, it fails when the pool has one rule: that rule is the whole draw. */
  lemma OneRuleIsTheWholeDraw(pool: seq<Item>, picked: seq<Item>, r: nat)
    requires multiset(picked) <= multiset(pool) && picked != []
    requires forall x :: x in pool ==> x.rule == r
    ensures Tally(picked, Rule(r)) == |picked| && !FifthAtMost(picked)
  {
    SubsetMembers(picked, pool);
    AllTallied(picked, Rule(r));
  }

  lemma {:induction false} AllTallied(s: seq<Item>, l: Label)
    requires forall x :: x in s ==> Has(x, l)
    ensures Tally(s, l) == |s|
  {
    if s != [] {
      AllTallied(s[..|s| - 1], l);
    }
  }
}
