/** What every draw keeps, from one turn to the whole selection. */
module SamplerLaws {
  import opened Sampling

  // ---------------------------------------------------------------- bookkeeping of pops

  /** Every pool item is still in its group, picked, or discarded. */
  ghost predicate Books(pool: seq<Item>, g: Groups, picked: seq<Item>, dropped: seq<Item>) {
    && (forall x: Item ::
          multiset(pool)[x] == multiset(Group(g, x.cwe, x.rule))[x] + multiset(picked)[x] + multiset(dropped)[x])
    && (forall c, r, x :: x in Group(g, c, r) ==> Has(x, Slot(c, r)))
  }

  lemma BooksSubset(pool: seq<Item>, g: Groups, picked: seq<Item>, dropped: seq<Item>)
    requires Books(pool, g, picked, dropped)
    ensures multiset(picked) <= multiset(pool)
    ensures |picked| + |dropped| <= |pool|
    ensures forall c, r, x :: x in Group(g, c, r) ==> x in pool
  {
    var both := multiset(picked) + multiset(dropped);
    assert both <= multiset(pool);
    var rest := multiset(pool) - both;
    assert multiset(pool) == both + rest;
    assert |multiset(pool)| == |pool|;
    forall c, r, x | x in Group(g, c, r) ensures x in pool {
      assert x in multiset(Group(g, x.cwe, x.rule));
      assert x in multiset(pool);
    }
  }

  lemma TopIsPooled(pool: seq<Item>, g: Groups, picked: seq<Item>, dropped: seq<Item>, c: nat, r: nat)
    requires Books(pool, g, picked, dropped) && Group(g, c, r) != []
    ensures Has(Top(g, c, r), Slot(c, r))
  {
    assert Top(g, c, r) in Group(g, c, r);
  }

  lemma GroupAfterPop(g: Groups, c: nat, r: nat, c': nat, r': nat)
    requires Group(g, c, r) != []
    ensures Group(g, c', r') == Group(Pop(g, c, r), c', r') + if (c', r') == (c, r) then [Top(g, c, r)] else []
  {
  }

  lemma PickKeepsBooks(pool: seq<Item>, g: Groups, picked: seq<Item>, dropped: seq<Item>, c: nat, r: nat)
    requires Books(pool, g, picked, dropped) && Group(g, c, r) != []
    ensures Books(pool, Pop(g, c, r), picked + [Top(g, c, r)], dropped)
  {
    var g', it := Pop(g, c, r), Top(g, c, r);
    TopIsPooled(pool, g, picked, dropped, c, r);
    forall x: Item
      ensures multiset(pool)[x]
           == multiset(Group(g', x.cwe, x.rule))[x] + multiset(picked + [it])[x] + multiset(dropped)[x]
    {
      GroupAfterPop(g, c, r, x.cwe, x.rule);
    }
    forall c', r', x | x in Group(g', c', r') ensures Has(x, Slot(c', r')) {
      GroupAfterPop(g, c, r, c', r');
    }
  }

  /** The books do not care whether an item went to the picks or to the discards. */
  lemma DropKeepsBooks(pool: seq<Item>, g: Groups, picked: seq<Item>, dropped: seq<Item>, c: nat, r: nat)
    requires Books(pool, g, picked, dropped) && Group(g, c, r) != []
    ensures Books(pool, Pop(g, c, r), picked, dropped + [Top(g, c, r)])
  {
    var g', it := Pop(g, c, r), Top(g, c, r);
    PickKeepsBooks(pool, g, picked, dropped, c, r);
    forall x: Item
      ensures multiset(pool)[x]
           == multiset(Group(g', x.cwe, x.rule))[x] + multiset(picked)[x] + multiset(dropped + [it])[x]
    {
      assert multiset(picked + [it])[x] + multiset(dropped)[x] == multiset(picked)[x] + multiset(dropped + [it])[x];
    }
  }

  // ---------------------------------------------------------------- soundness

  /** The rule counter is honest and its cap respected. */
  ghost predicate Counted(picked: seq<Item>, taken: Counter, cap: nat) {
    forall r: nat :: At(taken, r) == Tally(picked, Rule(r)) <= cap
  }

  /** The family counter is honest and its cap respected. */
  ghost predicate FamiliesCounted(picked: seq<Item>, families: Counter, cap: nat) {
    forall f: nat :: At(families, f) == Tally(picked, Family(f)) <= cap
  }

  /** Only items of full families were discarded. */
  ghost predicate DroppedFull(picked: seq<Item>, dropped: seq<Item>, cap: nat) {
    forall x :: x in dropped ==> Tally(picked, Family(x.family)) == cap
  }

  /** With a family cap, the counter is honest and discards have full families; without one nothing
      is discarded. */
  ghost predicate FamiliesKept(s: Draw, caps: Caps) {
    match caps.family
    case None => s.dropped == []
    case Some(cap) => FamiliesCounted(s.picked, s.families, cap) && DroppedFull(s.picked, s.dropped, cap)
  }

  ghost predicate Sound(pool: seq<Item>, s: Draw, caps: Caps) {
    && Books(pool, s.groups, s.picked, s.dropped)
    && Counted(s.picked, s.taken, caps.rule)
    && FamiliesKept(s, caps)
  }

  lemma PickKeepsCount(picked: seq<Item>, taken: Counter, cap: nat, it: Item)
    requires Counted(picked, taken, cap) && At(taken, it.rule) < cap
    ensures Counted(picked + [it], taken[it.rule := At(taken, it.rule) + 1], cap)
  {
    var taken' := taken[it.rule := At(taken, it.rule) + 1];
    forall r: nat ensures At(taken', r) == Tally(picked + [it], Rule(r)) <= cap {
      TallyPush(picked, it, Rule(r));
    }
  }

  lemma PickKeepsFamilies(picked: seq<Item>, families: Counter, dropped: seq<Item>, cap: nat, it: Item)
    requires FamiliesCounted(picked, families, cap) && DroppedFull(picked, dropped, cap)
    requires At(families, it.family) < cap
    ensures FamiliesCounted(picked + [it], families[it.family := At(families, it.family) + 1], cap)
    ensures DroppedFull(picked + [it], dropped, cap)
  {
    var families' := families[it.family := At(families, it.family) + 1];
    forall f: nat ensures At(families', f) == Tally(picked + [it], Family(f)) <= cap {
      TallyPush(picked, it, Family(f));
    }
    forall x | x in dropped ensures Tally(picked + [it], Family(x.family)) == cap {
      TallyPush(picked, it, Family(x.family));
    }
  }

  lemma DropKeepsFamilies(picked: seq<Item>, families: Counter, dropped: seq<Item>, cap: nat, it: Item)
    requires FamiliesCounted(picked, families, cap) && DroppedFull(picked, dropped, cap)
    requires At(families, it.family) >= cap
    ensures DroppedFull(picked, dropped + [it], cap)
  {
    forall x | x in dropped + [it] ensures Tally(picked, Family(x.family)) == cap {
      assert x in dropped || x == it;
    }
  }

  lemma TurnKeepsBooks(pool: seq<Item>, s: Draw, caps: Caps, c: nat, rule: nat)
    requires Books(pool, s.groups, s.picked, s.dropped) && Group(s.groups, c, rule) != []
    ensures var t := Turn(s, caps, c, rule); Books(pool, t.groups, t.picked, t.dropped)
  {
    if HasRoom(s, caps, Top(s.groups, c, rule).family) {
      PickKeepsBooks(pool, s.groups, s.picked, s.dropped, c, rule);
    } else {
      DropKeepsBooks(pool, s.groups, s.picked, s.dropped, c, rule);
    }
  }

  lemma TurnKeepsCounted(s: Draw, caps: Caps, c: nat, rule: nat)
    requires Counted(s.picked, s.taken, caps.rule)
    requires Group(s.groups, c, rule) != [] && At(s.taken, rule) < caps.rule
    requires Top(s.groups, c, rule).rule == rule
    ensures var t := Turn(s, caps, c, rule); Counted(t.picked, t.taken, caps.rule)
  {
    if HasRoom(s, caps, Top(s.groups, c, rule).family) {
      PickKeepsCount(s.picked, s.taken, caps.rule, Top(s.groups, c, rule));
    }
  }

  lemma TurnKeepsFamilies(s: Draw, caps: Caps, c: nat, rule: nat)
    requires FamiliesKept(s, caps) && Group(s.groups, c, rule) != []
    ensures FamiliesKept(Turn(s, caps, c, rule), caps)
  {
    var it := Top(s.groups, c, rule);
    match caps.family
    case None =>
    case Some(cap) =>
      if At(s.families, it.family) < cap {
        PickKeepsFamilies(s.picked, s.families, s.dropped, cap, it);
      } else {
        DropKeepsFamilies(s.picked, s.families, s.dropped, cap, it);
      }
  }

  lemma TurnKeepsSound(pool: seq<Item>, s: Draw, caps: Caps, c: nat, rule: nat)
    requires Sound(pool, s, caps)
    requires Group(s.groups, c, rule) != [] && At(s.taken, rule) < caps.rule
    ensures Sound(pool, Turn(s, caps, c, rule), caps)
  {
    TopIsPooled(pool, s.groups, s.picked, s.dropped, c, rule);
    TurnKeepsBooks(pool, s, caps, c, rule);
    TurnKeepsCounted(s, caps, c, rule);
    TurnKeepsFamilies(s, caps, c, rule);
  }

  lemma {:induction false} VisitKeepsSound(pool: seq<Item>, s: Draw, caps: Caps, c: nat, order: seq<nat>)
    requires Sound(pool, s, caps)
    ensures Sound(pool, Visit(s, caps, c, order), caps)
    decreases Stock(s.groups, c, order)
  {
    if Rules(s, caps, c, order) != [] {
      var rule := Due(s, caps, c, order);
      PopShrinksStock(s.groups, c, rule, order);
      TurnKeepsSound(pool, s, caps, c, rule);
      if !HasRoom(s, caps, Top(s.groups, c, rule).family) {
        VisitKeepsSound(pool, Turn(s, caps, c, rule), caps, c, order);
      }
    }
  }

  lemma {:induction false} PassKeepsSound(pool: seq<Item>, s: Draw, caps: Caps, c: nat, cwes: nat, order: seq<nat>)
    requires Sound(pool, s, caps)
    ensures Sound(pool, Pass(s, caps, c, cwes, order).0, caps)
    decreases cwes - c
  {
    if c < cwes && |s.picked| < caps.quota {
      VisitKeepsSound(pool, s, caps, c, order);
      PassKeepsSound(pool, Visit(s, caps, c, order), caps, c + 1, cwes, order);
    }
  }

  lemma {:induction false} RoundsKeepSound(pool: seq<Item>, s: Draw, caps: Caps, cwes: nat, order: seq<nat>)
    requires Sound(pool, s, caps) && |s.picked| <= caps.quota
    ensures Sound(pool, Rounds(s, caps, cwes, order), caps)
    ensures |Rounds(s, caps, cwes, order).picked| <= caps.quota
    decreases caps.quota - |s.picked|
  {
    if |s.picked| < caps.quota {
      var t := Pass(s, caps, 0, cwes, order).0;
      PassKeepsSound(pool, s, caps, 0, cwes, order);
      PassGrows(s, caps, 0, cwes, order);
      if |t.picked| == |s.picked| {
        assert Rounds(s, caps, cwes, order) == t;
      } else {
        assert Rounds(s, caps, cwes, order) == Rounds(t, caps, cwes, order);
        RoundsKeepSound(pool, t, caps, cwes, order);
      }
    }
  }

  // ---------------------------------------------------------------- a draw that falls short

  /** No rule of CWE c can be drawn from: each of its non-empty groups has a full rule. */
  ghost predicate Shut(g: Groups, picked: seq<Item>, cap: nat, c: nat) {
    forall r :: Group(g, c, r) != [] ==> Tally(picked, Rule(r)) >= cap
  }

  /** Eligibility never comes back: groups only shrink and counts only grow. */
  lemma TurnKeepsShut(s: Draw, caps: Caps, c: nat, rule: nat, b: nat)
    requires Group(s.groups, c, rule) != [] && Shut(s.groups, s.picked, caps.rule, b)
    ensures Shut(Turn(s, caps, c, rule).groups, Turn(s, caps, c, rule).picked, caps.rule, b)
  {
    var t := Turn(s, caps, c, rule);
    forall r | Group(t.groups, b, r) != [] ensures Tally(t.picked, Rule(r)) >= caps.rule {
      TallyPush(s.picked, Top(s.groups, c, rule), Rule(r));
      assert Group(s.groups, b, r) != [];
    }
  }

  lemma {:induction false} VisitKeepsShut(s: Draw, caps: Caps, c: nat, order: seq<nat>, b: nat)
    requires Shut(s.groups, s.picked, caps.rule, b)
    ensures var t := Visit(s, caps, c, order); Shut(t.groups, t.picked, caps.rule, b)
    decreases Stock(s.groups, c, order)
  {
    if Rules(s, caps, c, order) != [] {
      var rule := Due(s, caps, c, order);
      PopShrinksStock(s.groups, c, rule, order);
      TurnKeepsShut(s, caps, c, rule, b);
      if !HasRoom(s, caps, Top(s.groups, c, rule).family) {
        VisitKeepsShut(Turn(s, caps, c, rule), caps, c, order, b);
      }
    }
  }

  /** A group that still has items had some at the start, and its rule is listed. */
  ghost predicate Listed(g0: Groups, g: Groups, order: seq<nat>) {
    forall c, r :: Group(g, c, r) != [] ==> Group(g0, c, r) != [] && r in order
  }

  lemma TurnKeepsListed(g0: Groups, s: Draw, caps: Caps, c: nat, rule: nat, order: seq<nat>)
    requires Listed(g0, s.groups, order) && Group(s.groups, c, rule) != []
    ensures Listed(g0, Turn(s, caps, c, rule).groups, order)
  {
    forall c', r | Group(Turn(s, caps, c, rule).groups, c', r) != [] ensures Group(g0, c', r) != [] && r in order {
      GroupAfterPop(s.groups, c, rule, c', r);
    }
  }

  lemma {:induction false} VisitKeepsListed(g0: Groups, s: Draw, caps: Caps, c: nat, order: seq<nat>)
    requires Listed(g0, s.groups, order)
    ensures Listed(g0, Visit(s, caps, c, order).groups, order)
    decreases Stock(s.groups, c, order)
  {
    if Rules(s, caps, c, order) != [] {
      var rule := Due(s, caps, c, order);
      PopShrinksStock(s.groups, c, rule, order);
      TurnKeepsListed(g0, s, caps, c, rule, order);
      if !HasRoom(s, caps, Top(s.groups, c, rule).family) {
        VisitKeepsListed(g0, Turn(s, caps, c, rule), caps, c, order);
      }
    }
  }

  lemma NoRulesIsShut(g0: Groups, s: Draw, caps: Caps, c: nat, order: seq<nat>)
    requires Counted(s.picked, s.taken, caps.rule) && Listed(g0, s.groups, order)
    requires Rules(s, caps, c, order) == []
    ensures Shut(s.groups, s.picked, caps.rule, c)
  {
    forall r: nat | Group(s.groups, c, r) != [] ensures Tally(s.picked, Rule(r)) >= caps.rule {
      assert At(s.taken, r) == Tally(s.picked, Rule(r));
      assert r !in Rules(s, caps, c, order);
    }
  }

  /** A visit that picks nothing leaves the CWE shut. */
  lemma {:induction false} IdleVisitShuts(pool: seq<Item>, g0: Groups, s: Draw, caps: Caps, c: nat, order: seq<nat>)
    requires Sound(pool, s, caps) && Listed(g0, s.groups, order)
    ensures var t := Visit(s, caps, c, order); |t.picked| == |s.picked| ==> Shut(t.groups, t.picked, caps.rule, c)
    decreases Stock(s.groups, c, order)
  {
    if Rules(s, caps, c, order) == [] {
      NoRulesIsShut(g0, s, caps, c, order);
    } else {
      var rule := Due(s, caps, c, order);
      PopShrinksStock(s.groups, c, rule, order);
      if !HasRoom(s, caps, Top(s.groups, c, rule).family) {
        TurnKeepsSound(pool, s, caps, c, rule);
        TurnKeepsListed(g0, s, caps, c, rule, order);
        IdleVisitShuts(pool, g0, Turn(s, caps, c, rule), caps, c, order);
      }
    }
  }

  lemma {:induction false} PassKeepsListed(g0: Groups, s: Draw, caps: Caps, c: nat, cwes: nat, order: seq<nat>)
    requires Listed(g0, s.groups, order)
    ensures Listed(g0, Pass(s, caps, c, cwes, order).0.groups, order)
    decreases cwes - c
  {
    if c < cwes && |s.picked| < caps.quota {
      VisitKeepsListed(g0, s, caps, c, order);
      PassKeepsListed(g0, Visit(s, caps, c, order), caps, c + 1, cwes, order);
    }
  }

  lemma {:induction false} PassKeepsShut(s: Draw, caps: Caps, c: nat, cwes: nat, order: seq<nat>, b: nat)
    requires Shut(s.groups, s.picked, caps.rule, b)
    ensures var t := Pass(s, caps, c, cwes, order).0; Shut(t.groups, t.picked, caps.rule, b)
    decreases cwes - c
  {
    if c < cwes && |s.picked| < caps.quota {
      VisitKeepsShut(s, caps, c, order, b);
      PassKeepsShut(Visit(s, caps, c, order), caps, c + 1, cwes, order, b);
    }
  }

  /** A pass that picks nothing leaves every CWE it came to shut. */
  lemma {:induction false} IdlePassShuts(pool: seq<Item>, g0: Groups, s: Draw, caps: Caps, c: nat, cwes: nat,
                                         order: seq<nat>, b: nat)
    requires Sound(pool, s, caps) && Listed(g0, s.groups, order)
    requires |s.picked| < caps.quota && c <= b < cwes
    requires |Pass(s, caps, c, cwes, order).0.picked| == |s.picked|
    ensures var t := Pass(s, caps, c, cwes, order).0; Shut(t.groups, t.picked, caps.rule, b)
    decreases cwes - c
  {
    var v := Visit(s, caps, c, order);
    VisitGrows(s, caps, c, order);
    PassGrows(v, caps, c + 1, cwes, order);
    if b == c {
      IdleVisitShuts(pool, g0, s, caps, c, order);
      PassKeepsShut(v, caps, c + 1, cwes, order, b);
    } else {
      VisitKeepsSound(pool, s, caps, c, order);
      VisitKeepsListed(g0, s, caps, c, order);
      IdlePassShuts(pool, g0, v, caps, c + 1, cwes, order, b);
    }
  }

  /** A draw that falls short of its quota has shut every CWE. */
  lemma {:induction false} ShortDrawIsShut(pool: seq<Item>, g0: Groups, s: Draw, caps: Caps, cwes: nat,
                                           order: seq<nat>, b: nat)
    requires Sound(pool, s, caps) && Listed(g0, s.groups, order) && b < cwes
    requires |Rounds(s, caps, cwes, order).picked| < caps.quota
    ensures var t := Rounds(s, caps, cwes, order); Shut(t.groups, t.picked, caps.rule, b)
    decreases caps.quota - |s.picked|
  {
    var t := Pass(s, caps, 0, cwes, order).0;
    PassGrows(s, caps, 0, cwes, order);
    if |t.picked| == |s.picked| {
      IdlePassShuts(pool, g0, s, caps, 0, cwes, order, b);
    } else {
      PassKeepsSound(pool, s, caps, 0, cwes, order);
      PassKeepsListed(g0, s, caps, 0, cwes, order);
      ShortDrawIsShut(pool, g0, t, caps, cwes, order, b);
    }
  }

  // ---------------------------------------------------------------- the start, and beyond the bounds

  lemma StartIsSound(pool: seq<Item>, g: Groups, caps: Caps, order: seq<nat>)
    requires Holds(g, pool)
    requires forall x :: x in pool ==> x.rule in order
    ensures Sound(pool, Start(g), caps) && Listed(g, g, order)
  {
    forall c, r | Group(g, c, r) != [] ensures r in order {
      var x := Group(g, c, r)[0];
      assert x in Group(g, c, r);
      assert multiset(Group(g, c, r))[x] == multiset(pool)[x];
      assert x in multiset(Group(g, c, r));
      assert x in multiset(pool);
    }
  }

  lemma SubsetMembers(a: seq<Item>, b: seq<Item>)
    requires multiset(a) <= multiset(b)
    ensures forall x :: x in a ==> x in b
  {
    forall x | x in a ensures x in b {
      assert x in multiset(a);
      assert x in multiset(b);
    }
  }

  lemma {:induction false} NoneTallied(s: seq<Item>, l: Label)
    requires forall x :: x in s ==> !Has(x, l)
    ensures Tally(s, l) == 0
  {
    if s != [] {
      NoneTallied(s[..|s| - 1], l);
    }
  }

  lemma GroupedCwe(pool: seq<Item>, s: Draw, c: nat, r: nat, bound: nat)
    requires Books(pool, s.groups, s.picked, s.dropped) && Group(s.groups, c, r) != []
    requires forall x :: x in pool ==> x.cwe < bound
    ensures c < bound
  {
    BooksSubset(pool, s.groups, s.picked, s.dropped);
    var x := Group(s.groups, c, r)[0];
    assert x in Group(s.groups, c, r);
    assert Has(x, Slot(c, r));
  }

  /** A CWE beyond every item's has nothing to draw and nothing drawn. */
  lemma BeyondBound(pool: seq<Item>, s: Draw, b: nat)
    requires Books(pool, s.groups, s.picked, s.dropped)
    requires forall x :: x in pool ==> x.cwe < b
    ensures forall r :: Group(s.groups, b, r) == []
    ensures Tally(s.picked, Cwe(b)) == 0
  {
    BooksSubset(pool, s.groups, s.picked, s.dropped);
    SubsetMembers(s.picked, pool);
    NoneTallied(s.picked, Cwe(b));
    forall r ensures Group(s.groups, b, r) == [] {
      if Group(s.groups, b, r) != [] {
        GroupedCwe(pool, s, b, r, b);
      }
    }
  }
}
