/** The rotation: across CWEs no one that can still be drawn from falls more than one pick behind,
    and inside a CWE the turns are dealt evenly over its rules. */
module SamplerRotation {
  import opened Sampling
  import opened SamplerLaws

  // ---------------------------------------------------------------- across CWEs

  /** After `rounds` visits CWE c has one pick per visit, or fewer because it is shut. */
  ghost predicate Paced(s: Draw, caps: Caps, c: nat, rounds: nat) {
    && Tally(s.picked, Cwe(c)) <= rounds
    && (Tally(s.picked, Cwe(c)) == rounds || Shut(s.groups, s.picked, caps.rule, c))
  }

  /** Visits CWE b has had when the pass after `rounds` full ones has covered `from` up to `stop`. */
  function Visits(b: nat, from: nat, stop: nat, rounds: nat): nat {
    if from <= b < stop then rounds + 1 else rounds
  }

  /** A turn that picks for c proves c was not shut, so c was on pace. */
  lemma TurnKeepsPace(pool: seq<Item>, s: Draw, caps: Caps, c: nat, rule: nat, b: nat, n: nat)
    requires Sound(pool, s, caps) && Paced(s, caps, b, n)
    requires Group(s.groups, c, rule) != [] && At(s.taken, rule) < caps.rule
    ensures Paced(Turn(s, caps, c, rule), caps, b,
                  if b == c && HasRoom(s, caps, Top(s.groups, c, rule).family) then n + 1 else n)
  {
    var it := Top(s.groups, c, rule);
    TopIsPooled(pool, s.groups, s.picked, s.dropped, c, rule);
    TallyPush(s.picked, it, Cwe(b));
    assert At(s.taken, rule) == Tally(s.picked, Rule(rule));
    if Shut(s.groups, s.picked, caps.rule, b) {
      TurnKeepsShut(s, caps, c, rule, b);
    }
  }

  lemma {:induction false} VisitKeepsPace(pool: seq<Item>, g0: Groups, s: Draw, caps: Caps, c: nat, order: seq<nat>,
                                          b: nat, n: nat)
    requires Sound(pool, s, caps) && Listed(g0, s.groups, order) && Paced(s, caps, b, n)
    ensures Paced(Visit(s, caps, c, order), caps, b, if b == c then n + 1 else n)
    decreases Stock(s.groups, c, order)
  {
    if Rules(s, caps, c, order) == [] {
      NoRulesIsShut(g0, s, caps, c, order);
    } else {
      var rule := Due(s, caps, c, order);
      PopShrinksStock(s.groups, c, rule, order);
      TurnKeepsPace(pool, s, caps, c, rule, b, n);
      if !HasRoom(s, caps, Top(s.groups, c, rule).family) {
        TurnKeepsSound(pool, s, caps, c, rule);
        TurnKeepsListed(g0, s, caps, c, rule, order);
        VisitKeepsPace(pool, g0, Turn(s, caps, c, rule), caps, c, order, b, n);
      }
    }
  }

  lemma VisitKeepsAll(pool: seq<Item>, g0: Groups, s: Draw, caps: Caps, c: nat, order: seq<nat>, b: nat, n: nat)
    requires Sound(pool, s, caps) && Listed(g0, s.groups, order) && Paced(s, caps, b, n)
    ensures var v := Visit(s, caps, c, order);
            Sound(pool, v, caps) && Listed(g0, v.groups, order) && Paced(v, caps, b, Visits(b, c, c + 1, n))
  {
    VisitKeepsSound(pool, s, caps, c, order);
    VisitKeepsListed(g0, s, caps, c, order);
    VisitKeepsPace(pool, g0, s, caps, c, order, b, n);
  }

  lemma {:induction false} PassKeepsPace(pool: seq<Item>, g0: Groups, s: Draw, caps: Caps, c: nat, cwes: nat,
                                         order: seq<nat>, b: nat, n: nat)
    requires Sound(pool, s, caps) && Listed(g0, s.groups, order) && Paced(s, caps, b, n)
    ensures var (t, stop) := Pass(s, caps, c, cwes, order);
            Paced(t, caps, b, Visits(b, c, stop, n))
    decreases cwes - c
  {
    if c < cwes && |s.picked| < caps.quota {
      VisitKeepsAll(pool, g0, s, caps, c, order, b, n);
      PassKeepsPace(pool, g0, Visit(s, caps, c, order), caps, c + 1, cwes, order, b, Visits(b, c, c + 1, n));
    }
  }

  /** A CWE that can still be drawn from is at most one pick behind any other. */
  ghost predicate Fair(s: Draw, caps: Caps) {
    forall a: nat, b: nat :: !Shut(s.groups, s.picked, caps.rule, b) ==>
      Tally(s.picked, Cwe(a)) <= Tally(s.picked, Cwe(b)) + 1
  }

  /** CWEs below `stop` have had `rounds + 1` visits and the others `rounds`. */
  ghost predicate MidPass(s: Draw, caps: Caps, stop: nat, cwes: nat, rounds: nat) {
    forall b: nat :: b < cwes ==> Paced(s, caps, b, Visits(b, 0, stop, rounds))
  }

  lemma MidPassIsFair(pool: seq<Item>, s: Draw, caps: Caps, stop: nat, cwes: nat, rounds: nat)
    requires Sound(pool, s, caps) && MidPass(s, caps, stop, cwes, rounds)
    requires forall x :: x in pool ==> x.cwe < cwes
    ensures Fair(s, caps)
  {
    forall a: nat, b: nat | !Shut(s.groups, s.picked, caps.rule, b)
      ensures Tally(s.picked, Cwe(a)) <= Tally(s.picked, Cwe(b)) + 1
    {
      if a >= cwes {
        BeyondBound(pool, s, a);
      } else if b >= cwes {
        BeyondBound(pool, s, b);
      } else {
        assert Paced(s, caps, a, Visits(a, 0, stop, rounds));
        assert Paced(s, caps, b, Visits(b, 0, stop, rounds));
      }
    }
  }

  lemma PassOnPace(pool: seq<Item>, g0: Groups, s: Draw, caps: Caps, cwes: nat, order: seq<nat>, rounds: nat, b: nat)
    requires Sound(pool, s, caps) && Listed(g0, s.groups, order) && MidPass(s, caps, 0, cwes, rounds) && b < cwes
    ensures var (t, stop) := Pass(s, caps, 0, cwes, order); Paced(t, caps, b, Visits(b, 0, stop, rounds))
  {
    assert Paced(s, caps, b, Visits(b, 0, 0, rounds));
    PassKeepsPace(pool, g0, s, caps, 0, cwes, order, b, rounds);
  }

  lemma PassToMidPass(pool: seq<Item>, g0: Groups, s: Draw, caps: Caps, cwes: nat, order: seq<nat>, rounds: nat)
    requires Sound(pool, s, caps) && Listed(g0, s.groups, order) && MidPass(s, caps, 0, cwes, rounds)
    ensures var (t, stop) := Pass(s, caps, 0, cwes, order); MidPass(t, caps, stop, cwes, rounds)
  {
    var (t, stop) := Pass(s, caps, 0, cwes, order);
    forall b: nat | b < cwes ensures Paced(t, caps, b, Visits(b, 0, stop, rounds)) {
      PassOnPace(pool, g0, s, caps, cwes, order, rounds, b);
    }
  }

  lemma FullPassIsMidPass(t: Draw, caps: Caps, stop: nat, cwes: nat, rounds: nat)
    requires MidPass(t, caps, stop, cwes, rounds) && stop >= cwes
    ensures MidPass(t, caps, 0, cwes, rounds + 1)
  {
    var next := rounds + 1;
    forall b: nat | b < cwes ensures Paced(t, caps, b, Visits(b, 0, 0, next)) {
      assert Paced(t, caps, b, Visits(b, 0, stop, rounds));
    }
  }

  lemma PassKeepsBoth(pool: seq<Item>, g0: Groups, s: Draw, caps: Caps, cwes: nat, order: seq<nat>)
    requires Sound(pool, s, caps) && Listed(g0, s.groups, order)
    ensures var t := Pass(s, caps, 0, cwes, order).0;
            Sound(pool, t, caps) && Listed(g0, t.groups, order)
            && (|t.picked| == |s.picked| || |s.picked| < |t.picked|)
  {
    PassKeepsSound(pool, s, caps, 0, cwes, order);
    PassKeepsListed(g0, s, caps, 0, cwes, order);
    PassGrows(s, caps, 0, cwes, order);
  }

  lemma CutPassEndsDraw(s: Draw, caps: Caps, cwes: nat, order: seq<nat>)
    requires |s.picked| < caps.quota
    ensures var (t, stop) := Pass(s, caps, 0, cwes, order);
            (|t.picked| == |s.picked| || stop < cwes) ==> Rounds(s, caps, cwes, order) == t
  {
    PassGrows(s, caps, 0, cwes, order);
  }

  lemma {:induction false} RoundsAreFair(pool: seq<Item>, g0: Groups, s: Draw, caps: Caps, cwes: nat, order: seq<nat>,
                                         rounds: nat)
    requires Sound(pool, s, caps) && Listed(g0, s.groups, order) && MidPass(s, caps, 0, cwes, rounds)
    requires forall x :: x in pool ==> x.cwe < cwes
    ensures Fair(Rounds(s, caps, cwes, order), caps)
    decreases caps.quota - |s.picked|
  {
    if |s.picked| >= caps.quota {
      MidPassIsFair(pool, s, caps, 0, cwes, rounds);
    } else {
      var (t, stop) := Pass(s, caps, 0, cwes, order);
      PassKeepsBoth(pool, g0, s, caps, cwes, order);
      PassToMidPass(pool, g0, s, caps, cwes, order, rounds);
      CutPassEndsDraw(s, caps, cwes, order);
      if |t.picked| == |s.picked| || stop < cwes {
        MidPassIsFair(pool, t, caps, stop, cwes, rounds);
      } else {
        FullPassIsMidPass(t, caps, stop, cwes, rounds);
        RoundsAreFair(pool, g0, t, caps, cwes, order, rounds + 1);
      }
    }
  }

  // ---------------------------------------------------------------- inside a CWE

  ghost predicate Distinct(order: seq<nat>) {
    forall i, j :: 0 <= i < j < |order| ==> order[i] != order[j]
  }

  /** Two states with the same eligible rules list them in the same order. */
  lemma {:induction false} SameOpen(g: Groups, taken: Counter, g': Groups, taken': Counter, cap: nat, c: nat,
                                    order: seq<nat>)
    requires forall r :: r in order ==>
      ((Group(g, c, r) != [] && At(taken, r) < cap) <==> (Group(g', c, r) != [] && At(taken', r) < cap))
    ensures Open(g, taken, cap, c, order) == Open(g', taken', cap, c, order)
  {
    if order != [] {
      var rest := order[..|order| - 1];
      assert forall r :: r in rest ==> r in order;
      SameOpen(g, taken, g', taken', cap, c, rest);
    }
  }

  /** Listing from an order without repeats has no repeats. */
  lemma {:induction false} OpenDistinct(g: Groups, taken: Counter, cap: nat, c: nat, order: seq<nat>)
    requires Distinct(order)
    ensures Distinct(Open(g, taken, cap, c, order))
  {
    if order != [] {
      var rest := order[..|order| - 1];
      OpenDistinct(g, taken, cap, c, rest);
      assert order[|order| - 1] !in rest;
      assert order[|order| - 1] !in Open(g, taken, cap, c, rest);
    }
  }

  /** Turns that fall on place j of m when the turns 0..t-1 are dealt round and round. */
  function Share(t: int, m: nat, j: nat): int
    requires j < m
  {
    t / m + if t % m > j then 1 else 0
  }

  lemma DivisionIs(t: int, m: nat, q: int, k: nat)
    requires k < m && t == q * m + k
    ensures t / m == q && t % m == k
  {
    var q', k' := t / m, t % m;
    var e := q' - q;
    assert e * m == k - k';
    assert e >= 1 ==> e * m >= m;
    assert -e >= 1 ==> -e * m >= m;
  }

  lemma ShareStep(t: int, m: nat, j: nat)
    requires j < m
    ensures Share(t + 1, m, j) == Share(t, m, j) + if t % m == j then 1 else 0
  {
    var q, k := t / m, t % m;
    assert t == q * m + k;
    if k + 1 < m {
      DivisionIs(t + 1, m, q, k + 1);
    } else {
      assert t + 1 == (q + 1) * m + 0;
      DivisionIs(t + 1, m, q + 1, 0);
    }
  }

  function Popped(g0: Groups, g: Groups, c: nat, r: nat): int {
    |Group(g0, c, r)| - |Group(g, c, r)|
  }

  /** Every rule of c that had items can still be drawn from. */
  ghost predicate AllOpen(g0: Groups, s: Draw, caps: Caps, c: nat) {
    forall r :: Group(g0, c, r) != [] ==> Group(s.groups, c, r) != [] && Tally(s.picked, Rule(r)) < caps.rule
  }

  /** The turns of CWE c, dealt round and round over the rules it had at the start. */
  ghost predicate Dealt(g0: Groups, s: Draw, rules: seq<nat>, c: nat) {
    forall j :: 0 <= j < |rules| ==> Popped(g0, s.groups, c, rules[j]) == Share(At(s.turn, c), |rules|, j)
  }

  function FirstRules(g0: Groups, caps: Caps, c: nat, order: seq<nat>): seq<nat> {
    Open(g0, map[], caps.rule, c, order)
  }

  ghost predicate InStep(g0: Groups, s: Draw, caps: Caps, c: nat, order: seq<nat>) {
    AllOpen(g0, s, caps, c) ==> Dealt(g0, s, FirstRules(g0, caps, c, order), c)
  }

  /** Eligibility never comes back, seen backwards. */
  lemma StillAllOpen(g0: Groups, s: Draw, caps: Caps, c: nat, rule: nat, b: nat)
    requires Group(s.groups, c, rule) != [] && AllOpen(g0, Turn(s, caps, c, rule), caps, b)
    ensures AllOpen(g0, s, caps, b)
  {
    forall r | Group(g0, b, r) != [] ensures Group(s.groups, b, r) != [] && Tally(s.picked, Rule(r)) < caps.rule {
      TallyPush(s.picked, Top(s.groups, c, rule), Rule(r));
      GroupAfterPop(s.groups, c, rule, b, r);
    }
  }

  /** While none of c's rules is lost, its list of rules is the first one. */
  lemma RulesAreFirst(g0: Groups, s: Draw, caps: Caps, c: nat, order: seq<nat>)
    requires Counted(s.picked, s.taken, caps.rule) && Listed(g0, s.groups, order) && AllOpen(g0, s, caps, c)
    ensures Rules(s, caps, c, order) == FirstRules(g0, caps, c, order)
  {
    forall r | r in order
      ensures (Group(s.groups, c, r) != [] && At(s.taken, r) < caps.rule)
         <==> (Group(g0, c, r) != [] && At(map[], r) < caps.rule)
    {
      assert At(s.taken, r) == Tally(s.picked, Rule(r));
    }
    SameOpen(s.groups, s.taken, g0, map[], caps.rule, c, order);
  }

  lemma TurnPops(g0: Groups, s: Draw, caps: Caps, c: nat, rule: nat, r: nat)
    requires Group(s.groups, c, rule) != []
    ensures var t := Turn(s, caps, c, rule);
            && Popped(g0, t.groups, c, r) == Popped(g0, s.groups, c, r) + (if r == rule then 1 else 0)
            && At(t.turn, c) == At(s.turn, c) + 1
  {
    GroupAfterPop(s.groups, c, rule, c, r);
  }

  lemma TurnDealsOne(g0: Groups, s: Draw, caps: Caps, c: nat, rules: seq<nat>, k: nat, j: nat)
    requires Distinct(rules) && k < |rules| && j < |rules| && k == At(s.turn, c) % |rules|
    requires Group(s.groups, c, rules[k]) != []
    requires Popped(g0, s.groups, c, rules[j]) == Share(At(s.turn, c), |rules|, j)
    ensures var t := Turn(s, caps, c, rules[k]);
            Popped(g0, t.groups, c, rules[j]) == Share(At(t.turn, c), |rules|, j)
  {
    TurnPops(g0, s, caps, c, rules[k], rules[j]);
    ShareStep(At(s.turn, c), |rules|, j);
  }

  lemma TurnDeals(g0: Groups, s: Draw, caps: Caps, c: nat, order: seq<nat>)
    requires Distinct(order) && Rules(s, caps, c, order) != []
    requires Rules(s, caps, c, order) == FirstRules(g0, caps, c, order)
    requires Dealt(g0, s, FirstRules(g0, caps, c, order), c)
    ensures Dealt(g0, Turn(s, caps, c, Due(s, caps, c, order)), FirstRules(g0, caps, c, order), c)
  {
    var rules, rule := FirstRules(g0, caps, c, order), Due(s, caps, c, order);
    var t := Turn(s, caps, c, rule);
    OpenDistinct(g0, map[], caps.rule, c, order);
    forall j | 0 <= j < |rules| ensures Popped(g0, t.groups, c, rules[j]) == Share(At(t.turn, c), |rules|, j) {
      assert Popped(g0, s.groups, c, rules[j]) == Share(At(s.turn, c), |rules|, j);
      TurnDealsOne(g0, s, caps, c, rules, At(s.turn, c) % |rules|, j);
    }
  }

  lemma TurnKeepsStep(g0: Groups, s: Draw, caps: Caps, c: nat, order: seq<nat>, b: nat)
    requires Counted(s.picked, s.taken, caps.rule) && Listed(g0, s.groups, order) && Distinct(order)
    requires Rules(s, caps, c, order) != []
    requires InStep(g0, s, caps, b, order)
    ensures InStep(g0, Turn(s, caps, c, Due(s, caps, c, order)), caps, b, order)
  {
    var rule := Due(s, caps, c, order);
    var t := Turn(s, caps, c, rule);
    if AllOpen(g0, t, caps, b) {
      StillAllOpen(g0, s, caps, c, rule, b);
      if b == c {
        RulesAreFirst(g0, s, caps, c, order);
        TurnDeals(g0, s, caps, c, order);
      } else {
        var rules := FirstRules(g0, caps, b, order);
        forall j | 0 <= j < |rules| ensures Popped(g0, t.groups, b, rules[j]) == Share(At(t.turn, b), |rules|, j) {
          GroupAfterPop(s.groups, c, rule, b, rules[j]);
          assert Popped(g0, s.groups, b, rules[j]) == Share(At(s.turn, b), |rules|, j);
        }
      }
    }
  }

  lemma {:induction false} VisitKeepsStep(pool: seq<Item>, g0: Groups, s: Draw, caps: Caps, c: nat, order: seq<nat>,
                                          b: nat)
    requires Sound(pool, s, caps) && Listed(g0, s.groups, order) && Distinct(order) && InStep(g0, s, caps, b, order)
    ensures InStep(g0, Visit(s, caps, c, order), caps, b, order)
    decreases Stock(s.groups, c, order)
  {
    if Rules(s, caps, c, order) != [] {
      var rule := Due(s, caps, c, order);
      PopShrinksStock(s.groups, c, rule, order);
      TurnKeepsStep(g0, s, caps, c, order, b);
      if !HasRoom(s, caps, Top(s.groups, c, rule).family) {
        TurnKeepsSound(pool, s, caps, c, rule);
        TurnKeepsListed(g0, s, caps, c, rule, order);
        VisitKeepsStep(pool, g0, Turn(s, caps, c, rule), caps, c, order, b);
      }
    }
  }

  lemma {:induction false} PassKeepsStep(pool: seq<Item>, g0: Groups, s: Draw, caps: Caps, c: nat, cwes: nat,
                                         order: seq<nat>, b: nat)
    requires Sound(pool, s, caps) && Listed(g0, s.groups, order) && Distinct(order) && InStep(g0, s, caps, b, order)
    ensures InStep(g0, Pass(s, caps, c, cwes, order).0, caps, b, order)
    decreases cwes - c
  {
    if c < cwes && |s.picked| < caps.quota {
      VisitKeepsSound(pool, s, caps, c, order);
      VisitKeepsListed(g0, s, caps, c, order);
      VisitKeepsStep(pool, g0, s, caps, c, order, b);
      PassKeepsStep(pool, g0, Visit(s, caps, c, order), caps, c + 1, cwes, order, b);
    }
  }

  lemma {:induction false} RoundsKeepStep(pool: seq<Item>, g0: Groups, s: Draw, caps: Caps, cwes: nat,
                                          order: seq<nat>, b: nat)
    requires Sound(pool, s, caps) && Listed(g0, s.groups, order) && Distinct(order) && InStep(g0, s, caps, b, order)
    ensures InStep(g0, Rounds(s, caps, cwes, order), caps, b, order)
    decreases caps.quota - |s.picked|
  {
    if |s.picked| < caps.quota {
      PassGrows(s, caps, 0, cwes, order);
      PassKeepsSound(pool, s, caps, 0, cwes, order);
      PassKeepsListed(g0, s, caps, 0, cwes, order);
      PassKeepsStep(pool, g0, s, caps, 0, cwes, order, b);
      var t := Pass(s, caps, 0, cwes, order).0;
      if |t.picked| > |s.picked| {
        RoundsKeepStep(pool, g0, t, caps, cwes, order, b);
      }
    }
  }

  /** Rules of a CWE that has lost none are within one turn of each other. */
  ghost predicate Rotates(g0: Groups, s: Draw, caps: Caps) {
    forall c: nat, r: nat, r': nat ::
      AllOpen(g0, s, caps, c) && Group(g0, c, r) != [] && Group(g0, c, r') != [] ==>
        Popped(g0, s.groups, c, r) <= Popped(g0, s.groups, c, r') + 1
  }

  lemma InStepRotates(g0: Groups, s: Draw, caps: Caps, order: seq<nat>)
    requires forall c: nat :: InStep(g0, s, caps, c, order)
    requires Listed(g0, g0, order)
    ensures Rotates(g0, s, caps)
  {
    forall c: nat, r: nat, r': nat | AllOpen(g0, s, caps, c) && Group(g0, c, r) != [] && Group(g0, c, r') != []
      ensures Popped(g0, s.groups, c, r) <= Popped(g0, s.groups, c, r') + 1
    {
      assert InStep(g0, s, caps, c, order);
      assert Tally(s.picked, Rule(r)) < caps.rule;
      var rules := FirstRules(g0, caps, c, order);
      assert r in rules && r' in rules;
      var j :| 0 <= j < |rules| && rules[j] == r;
      var j' :| 0 <= j' < |rules| && rules[j'] == r';
      assert Popped(g0, s.groups, c, rules[j]) == Share(At(s.turn, c), |rules|, j);
      assert Popped(g0, s.groups, c, rules[j']) == Share(At(s.turn, c), |rules|, j');
    }
  }
}
