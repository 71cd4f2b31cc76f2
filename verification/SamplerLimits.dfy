/** Draws of the v2 sampler on two small pools, which show that its bounds cannot be improved: one
    draw is half the best, and the same pool can meet the limit of a fifth or not. */
module SamplerLimits {
  import opened Options
  import opened Sampling
  import opened SamplerLaws
  import opened SamplerBounds
  import opened SamplerOrder
  import opened Samplers

  // ---------------------------------------------------------------- what is popped first

  lemma SortedGroup(pool: seq<Item>, c: nat, r: nat)
    requires pool != []
    ensures var it := pool[|pool| - 1];
            Group(Sorted(pool), c, r)
              == Group(Sorted(pool[..|pool| - 1]), c, r) + if Has(it, Slot(c, r)) then [it] else []
  {
    GroupAfterAdd(Sorted(pool[..|pool| - 1]), pool[|pool| - 1], c, r);
  }

  lemma {:induction false} SortedEmpty(pool: seq<Item>, c: nat, r: nat)
    requires forall j :: 0 <= j < |pool| ==> !Has(pool[j], Slot(c, r))
    ensures Group(Sorted(pool), c, r) == []
  {
    if pool == [] {
    } else {
      SortedEmpty(pool[..|pool| - 1], c, r);
      SortedGroup(pool, c, r);
    }
  }

  lemma {:induction false} SortedTop(pool: seq<Item>, i: nat)
    requires i < |pool| && forall j :: i < j < |pool| ==> !Has(pool[j], Slot(pool[i].cwe, pool[i].rule))
    ensures var it := pool[i];
            Group(Sorted(pool), it.cwe, it.rule) != [] && Top(Sorted(pool), it.cwe, it.rule) == it
  {
    SortedGroup(pool, pool[i].cwe, pool[i].rule);
    if i < |pool| - 1 {
      SortedTop(pool[..|pool| - 1], i);
    }
  }

  /** CWE c has one rule, and `it` is the first to be popped. */
  ghost predicate NextIn(g: Groups, c: nat, it: Item) {
    && it.cwe == c && Group(g, c, it.rule) != [] && Top(g, c, it.rule) == it
    && forall r :: r != it.rule ==> Group(g, c, r) == []
  }

  /** The last item of a CWE whose items share their rule. */
  lemma LastIsNext(pool: seq<Item>, i: nat)
    requires i < |pool| && forall j :: i < j < |pool| ==> pool[j].cwe != pool[i].cwe
    requires forall j :: 0 <= j < |pool| && pool[j].cwe == pool[i].cwe ==> pool[j].rule == pool[i].rule
    ensures NextIn(Sorted(pool), pool[i].cwe, pool[i])
  {
    SortedTop(pool, i);
    forall r | r != pool[i].rule ensures Group(Sorted(pool), pool[i].cwe, r) == [] {
      SortedEmpty(pool, pool[i].cwe, r);
    }
  }

  // ---------------------------------------------------------------- following a draw

  /** CWE c has one rule left to draw from, its top item fits: the visit picks it. */
  lemma VisitPicks(s: Draw, caps: Caps, c: nat, rule: nat, order: seq<nat>)
    requires rule in order && Group(s.groups, c, rule) != [] && At(s.taken, rule) < caps.rule
    requires forall r :: r != rule ==> Group(s.groups, c, r) == []
    requires HasRoom(s, caps, Top(s.groups, c, rule).family)
    ensures Visit(s, caps, c, order) == Turn(s, caps, c, rule)
  {
    assert rule in Rules(s, caps, c, order);
    assert Due(s, caps, c, order) == rule;
  }

  lemma PassStep(s: Draw, caps: Caps, c: nat, cwes: nat, order: seq<nat>)
    requires c < cwes && |s.picked| < caps.quota
    ensures Pass(s, caps, c, cwes, order) == Pass(Visit(s, caps, c, order), caps, c + 1, cwes, order)
  {
  }

  /** What was picked stays first. */
  lemma {:induction false} RoundsGrow(s: Draw, caps: Caps, cwes: nat, order: seq<nat>)
    ensures s.picked <= Rounds(s, caps, cwes, order).picked
    decreases caps.quota - |s.picked|
  {
    if |s.picked| < caps.quota {
      var t := Pass(s, caps, 0, cwes, order).0;
      PassGrows(s, caps, 0, cwes, order);
      if |t.picked| > |s.picked| {
        RoundsGrow(t, caps, cwes, order);
      }
    }
  }

  /** So what a pass has picked half way is in the draw. */
  lemma PrefixOfSelection(g0: Groups, s: Draw, caps: Caps, c: nat, cwes: nat, order: seq<nat>)
    requires caps.quota > 0 && c <= cwes
    requires Pass(Start(g0), caps, 0, cwes, order) == Pass(s, caps, c, cwes, order) && s.picked != []
    ensures s.picked <= Selection(g0, caps, cwes, order).picked
  {
    var t := Pass(s, caps, c, cwes, order).0;
    PassGrows(s, caps, c, cwes, order);
    RoundsGrow(t, caps, cwes, order);
  }

  ghost predicate PassReaches(g: Groups, s: Draw, caps: Caps, c: nat, cwes: nat, order: seq<nat>) {
    Pass(Start(g), caps, 0, cwes, order) == Pass(s, caps, c, cwes, order)
  }

  ghost predicate UntouchedFrom(g: Groups, s: Draw, c: nat) {
    forall b: nat, r: nat :: b >= c ==> Group(s.groups, b, r) == Group(g, b, r)
  }

  ghost predicate CountersRight(s: Draw) {
    && (forall r: nat :: At(s.taken, r) == Tally(s.picked, Rule(r)))
    && (forall f: nat :: At(s.families, f) == Tally(s.picked, Family(f)))
  }

  /** The first pass, followed up to CWE c. */
  ghost predicate Following(g: Groups, s: Draw, caps: Caps, c: nat, cwes: nat, order: seq<nat>) {
    PassReaches(g, s, caps, c, cwes, order) && UntouchedFrom(g, s, c) && CountersRight(s)
  }

  lemma FollowStart(g: Groups, caps: Caps, cwes: nat, order: seq<nat>)
    ensures Following(g, Start(g), caps, 0, cwes, order)
  {
  }

  lemma TurnCounts(s: Draw, caps: Caps, c: nat, it: Item)
    requires Group(s.groups, c, it.rule) != [] && it == Top(s.groups, c, it.rule)
    requires caps.family.Some? && HasRoom(s, caps, it.family) && CountersRight(s)
    ensures Turn(s, caps, c, it.rule).picked == s.picked + [it] && CountersRight(Turn(s, caps, c, it.rule))
  {
    forall l: Label ensures Tally(s.picked + [it], l) == Tally(s.picked, l) + if Has(it, l) then 1 else 0 {
      TallyPush(s.picked, it, l);
    }
  }

  lemma TurnTouchesOne(g: Groups, s: Draw, caps: Caps, c: nat, rule: nat)
    requires Group(s.groups, c, rule) != [] && UntouchedFrom(g, s, c)
    ensures UntouchedFrom(g, Turn(s, caps, c, rule), c + 1)
  {
  }

  lemma NextIsNext(g: Groups, s: Draw, c: nat, it: Item)
    requires NextIn(g, c, it) && UntouchedFrom(g, s, c)
    ensures NextIn(s.groups, c, it)
  {
  }

  /** The next CWE has one rule, and its top item fits. */
  lemma FollowPick(g: Groups, s: Draw, caps: Caps, c: nat, cwes: nat, order: seq<nat>, it: Item) returns (t: Draw)
    requires Following(g, s, caps, c, cwes, order) && c < cwes && |s.picked| < caps.quota && caps.family.Some?
    requires NextIn(g, c, it) && it.rule in order
    requires Tally(s.picked, Rule(it.rule)) < caps.rule && Tally(s.picked, Family(it.family)) < caps.family.value
    ensures Following(g, t, caps, c + 1, cwes, order) && t.picked == s.picked + [it]
  {
    NextIsNext(g, s, c, it);
    t := Turn(s, caps, c, it.rule);
    VisitPicks(s, caps, c, it.rule, order);
    PassStep(s, caps, c, cwes, order);
    TurnCounts(s, caps, c, it);
    TurnTouchesOne(g, s, caps, c, it.rule);
  }

  /** After the items before it, the i-th fits. */
  ghost predicate Fits(items: seq<Item>, caps: Caps, i: nat)
    requires i < |items| && caps.family.Some?
  {
    && Tally(items[..i], Rule(items[i].rule)) < caps.rule
    && Tally(items[..i], Family(items[i].family)) < caps.family.value
  }

  /** The items come one from each CWE in turn, each first in its CWE and fitting. */
  ghost predicate OneEach(g: Groups, items: seq<Item>, caps: Caps, order: seq<nat>)
    requires caps.family.Some?
  {
    forall i :: 0 <= i < |items| ==> NextIn(g, i, items[i]) && items[i].rule in order && Fits(items, caps, i)
  }

  lemma {:induction false} FollowList(g: Groups, caps: Caps, cwes: nat, order: seq<nat>, items: seq<Item>, n: nat)
    returns (s: Draw)
    requires caps.family.Some? && n <= |items| <= cwes && |items| <= caps.quota && OneEach(g, items, caps, order)
    ensures Following(g, s, caps, n, cwes, order) && s.picked == items[..n]
  {
    if n == 0 {
      FollowStart(g, caps, cwes, order);
      s := Start(g);
    } else {
      var t := FollowList(g, caps, cwes, order, items, n - 1);
      var it := AtOne(g, items, caps, order, n - 1);
      s := FollowPick(g, t, caps, n - 1, cwes, order, it);
    }
  }

  lemma AtOne(g: Groups, items: seq<Item>, caps: Caps, order: seq<nat>, i: nat) returns (it: Item)
    requires i < |items| && caps.family.Some? && OneEach(g, items, caps, order)
    ensures it == items[i] && NextIn(g, i, it) && it.rule in order && items[..i + 1] == items[..i] + [it]
    ensures Tally(items[..i], Rule(it.rule)) < caps.rule && Tally(items[..i], Family(it.family)) < caps.family.value
  {
    it := items[i];
    assert Fits(items, caps, i);
  }

  /** Then the draw starts with them. */
  lemma StartsWithList(g: Groups, caps: Caps, cwes: nat, order: seq<nat>, items: seq<Item>)
    requires caps.family.Some? && 0 < |items| <= cwes && |items| <= caps.quota && OneEach(g, items, caps, order)
    ensures items <= Selection(g, caps, cwes, order).picked
  {
    var s := FollowList(g, caps, cwes, order, items, |items|);
    assert items[..|items|] == items;
    PrefixOfSelection(g, s, caps, |items|, cwes, order);
  }

  // ---------------------------------------------------------------- what can follow

  lemma {:induction false} TallyGrows(s: seq<Item>, n: nat, l: Label)
    requires n <= |s|
    ensures Tally(s[..n], l) <= Tally(s, l)
  {
    if n == |s| {
      assert s[..n] == s;
    } else {
      TallyGrows(s[..|s| - 1], n, l);
      assert s[..|s| - 1][..n] == s[..n];
    }
  }

  /** An item beyond the first n adds to what they count. */
  lemma TallyBeyond(s: seq<Item>, n: nat, i: nat, l: Label)
    requires n <= i < |s| && Has(s[i], l)
    ensures Tally(s[..n], l) < Tally(s, l)
  {
    TallyGrows(s, i + 1, l);
    TallyGrows(s[..i], n, l);
    TallyPush(s[..i], s[i], l);
    assert s[..i + 1] == s[..i] + [s[i]] && s[..i][..n] == s[..n];
  }

  /** What comes after the first items is not blocked by them. */
  lemma RestIsOpen(picked: seq<Item>, head: seq<Item>, caps: Caps, i: nat)
    requires head <= picked && Obeys(picked, caps) && |head| <= i < |picked|
    ensures !Blocked(head, caps, picked[i])
  {
    var x := picked[i];
    assert picked[..|head|] == head;
    TallyBeyond(picked, |head|, i, Rule(x.rule));
    TallyBeyond(picked, |head|, i, Family(x.family));
  }

  lemma TallyOfTwo(b: Item, c: Item, l: Label)
    ensures Tally([b], l) == if Has(b, l) then 1 else 0
    ensures Tally([b, c], l) == (if Has(b, l) then 1 else 0) + if Has(c, l) then 1 else 0
  {
    TallyPush([], b, l);
    assert [] + [b] == [b];
    TallyPush([b], c, l);
    assert [b] + [c] == [b, c];
  }

  /** The draw from the groups in pool order. */
  function DrawOf(pool: seq<Item>, caps: Caps, cwes: nat, rules: nat): seq<Item> {
    Selection(Sorted(pool), caps, cwes, Ascending(rules)).picked
  }

  lemma DrawFinishes(pool: seq<Item>, caps: Caps, cwes: nat, rules: nat)
    requires caps.quota >= 0 && forall x :: x in pool ==> x.cwe < cwes && x.rule < rules
    ensures Holds(Sorted(pool), pool)
    ensures multiset(DrawOf(pool, caps, cwes, rules)) <= multiset(pool)
    ensures |DrawOf(pool, caps, cwes, rules)| <= caps.quota && Obeys(DrawOf(pool, caps, cwes, rules), caps)
  {
    SortedHolds(pool);
    SelectionFinishes(pool, Sorted(pool), caps, cwes, rules);
  }

  // ---------------------------------------------------------------- half of the best

  /** A and B share a family and are popped first; A' and B' share their rules, C and D their family. */
  const A := Item(0, 0, 0, 0)
  const A' := Item(1, 0, 0, 1)
  const B := Item(2, 1, 1, 0)
  const B' := Item(3, 1, 1, 2)
  const C := Item(4, 2, 2, 0)
  const D := Item(5, 3, 3, 0)

  const HALVED := [A', A, B', B, C, D]

  /** One item per rule and, as in the source, two per family. */
  function OneAndTwo(quota: nat): Caps {
    Caps(quota, 1, Some(2))
  }

  lemma TwoFit(quota: nat)
    ensures Fits([A, B], OneAndTwo(quota), 0) && Fits([A, B], OneAndTwo(quota), 1)
  {
    assert [A, B][..0] == [] && [A, B][..1] == [A];
    TallyOfTwo(A, A, Rule(1));
    TallyOfTwo(A, A, Family(0));
  }

  lemma AAndBFirst(quota: nat)
    requires quota >= 2
    ensures [A, B] <= DrawOf(HALVED, OneAndTwo(quota), 4, 4)
  {
    var order := Ascending(4);
    assert order[0] == 0 && order[1] == 1;
    assert HALVED[1] == A && HALVED[3] == B;
    LastIsNext(HALVED, 1);
    LastIsNext(HALVED, 3);
    TwoFit(quota);
    StartsWithList(Sorted(HALVED), OneAndTwo(quota), 4, order, [A, B]);
  }

  /** With A and B picked, everything else is blocked. */
  lemma OthersAreBlocked(caps: Caps, x: Item)
    requires caps.rule == 1 && caps.family == Some(2) && x in HALVED
    ensures Blocked([A, B], caps, x)
  {
    TallyOfTwo(A, B, Rule(0));
    TallyOfTwo(A, B, Rule(1));
    TallyOfTwo(A, B, Family(0));
  }

  lemma NothingMore(picked: seq<Item>, caps: Caps)
    requires [A, B] <= picked && multiset(picked) <= multiset(HALVED) && Obeys(picked, caps)
    requires caps.rule == 1 && caps.family == Some(2)
    ensures picked == [A, B]
  {
    if |picked| > 2 {
      SubsetMembers(picked, HALVED);
      assert picked[2] in picked;
      OthersAreBlocked(caps, picked[2]);
      RestIsOpen(picked, [A, B], caps, 2);
    }
  }

  const RIVAL := [A', B', C, D]

  lemma TallyOfFour(l: Label)
    requires l.Rule? || l.Family?
    ensures Tally(RIVAL, l) <= if l.Rule? then 1 else 2
  {
    TallyOfTwo(A', B', l);
    TallyPush([A', B'], C, l);
    TallyPush([A', B', C], D, l);
    assert [A', B'] + [C] == [A', B', C] && [A', B', C] + [D] == RIVAL;
  }

  lemma RivalIsInPool()
    ensures multiset(RIVAL) <= multiset(HALVED)
  {
    assert multiset(HALVED) == multiset{A', A, B', B, C, D};
    assert multiset(RIVAL) == multiset{A', B', C, D};
  }

  lemma RivalObeys(caps: Caps)
    requires caps.rule == 1 && caps.family == Some(2)
    ensures Obeys(RIVAL, caps)
  {
    forall r: nat ensures Tally(RIVAL, Rule(r)) <= 1 {
      TallyOfFour(Rule(r));
    }
    forall f: nat ensures Tally(RIVAL, Family(f)) <= 2 {
      TallyOfFour(Family(f));
    }
  }

  lemma HalvedFinishes(quota: nat)
    ensures Holds(Sorted(HALVED), HALVED) && multiset(DrawOf(HALVED, OneAndTwo(quota), 4, 4)) <= multiset(HALVED)
    ensures Obeys(DrawOf(HALVED, OneAndTwo(quota), 4, 4), OneAndTwo(quota))
  {
    forall x | x in HALVED ensures x.cwe < 4 && x.rule < 4 {
    }
    DrawFinishes(HALVED, OneAndTwo(quota), 4, 4);
  }

  lemma DrawIsAAndB(quota: nat)
    requires quota >= 2
    ensures DrawOf(HALVED, OneAndTwo(quota), 4, 4) == [A, B]
  {
    HalvedFinishes(quota);
    AAndBFirst(quota);
    NothingMore(DrawOf(HALVED, OneAndTwo(quota), 4, 4), OneAndTwo(quota));
  }

  /** The factor of two is attained by a draw: with one item per rule and two per family, the v2 sampler
      picks two items of this pool where four obey the caps. */
  lemma HalfIsReached(quota: nat)
    requires quota >= 4
    ensures Holds(Sorted(HALVED), HALVED)
    ensures |DrawOf(HALVED, OneAndTwo(quota), 4, 4)| == 2 && |RIVAL| == 4
    ensures Obeys(RIVAL, OneAndTwo(quota)) && multiset(RIVAL) <= multiset(HALVED)
  {
    HalvedFinishes(quota);
    DrawIsAAndB(quota);
    RivalObeys(OneAndTwo(quota));
    RivalIsInPool();
  }

  // ---------------------------------------------------------------- the fifth, on one pool

  /** X and one of P, Q share a family with R, and P and Q share a rule. */
  const X := Item(0, 0, 5, 0)
  const P := Item(1, 1, 0, 0)
  const Q := Item(2, 1, 0, 1)
  const R := Item(3, 2, 1, 0)
  const S := Item(4, 3, 2, 2)
  const T := Item(5, 4, 3, 3)

  /** One pool in two orders: only which of P and Q is popped first differs. */
  const PFIRST := [X, Q, P, R, S, T]
  const QFIRST := [X, P, Q, R, S, T]

  /** The caps of v2 for a quota of five. */
  function Five(): Caps {
    OneAndTwo(5)
  }

  /** Nothing before the i-th item has its rule or its family. */
  lemma FitsIfNew(items: seq<Item>, caps: Caps, i: nat)
    requires i < |items| && caps.family.Some? && caps.rule > 0 && caps.family.value > 0
    requires forall j :: 0 <= j < i ==> items[j].rule != items[i].rule && items[j].family != items[i].family
    ensures Fits(items, caps, i)
  {
    NoneTallied(items[..i], Rule(items[i].rule));
    NoneTallied(items[..i], Family(items[i].family));
  }

  /** P popped first shares its family with X, of which there may be two. */
  lemma PFits()
    ensures Fits([X, P], Five(), 1)
  {
    assert [X, P][..1] == [X];
    TallyOfTwo(X, X, Rule(0));
    TallyOfTwo(X, X, Family(0));
  }

  /** R too, when Q was popped first. */
  lemma RFits(items: seq<Item>)
    requires items == [X, Q, R, S, T]
    ensures Fits(items, Five(), 2)
  {
    assert items[..2] == [X, Q];
    TallyOfTwo(X, Q, Rule(1));
    TallyOfTwo(X, Q, Family(0));
  }

  lemma PIsFirst()
    ensures [X, P] <= DrawOf(PFIRST, Five(), 5, 6)
  {
    var items, order := [X, P], Ascending(6);
    assert order[5] == 5 && order[0] == 0;
    assert PFIRST[0] == X && PFIRST[2] == P;
    LastIsNext(PFIRST, 0);
    LastIsNext(PFIRST, 2);
    FitsIfNew(items, Five(), 0);
    PFits();
    StartsWithList(Sorted(PFIRST), Five(), 5, order, items);
  }

  lemma NextOfQFirst(c: nat)
    requires c < 5
    ensures NextIn(Sorted(QFIRST), c, [X, Q, R, S, T][c])
  {
    var i := if c == 0 then 0 else c + 1;
    assert QFIRST[i] == [X, Q, R, S, T][c];
    LastIsNext(QFIRST, i);
  }

  lemma QIsFirst()
    ensures [X, Q, R, S, T] <= DrawOf(QFIRST, Five(), 5, 6)
  {
    var items, order := [X, Q, R, S, T], Ascending(6);
    forall i | 0 <= i < 5
      ensures NextIn(Sorted(QFIRST), i, items[i]) && items[i].rule in order && Fits(items, Five(), i)
    {
      NextOfQFirst(i);
      assert order[items[i].rule] == items[i].rule;
      if i == 2 {
        RFits(items);
      } else {
        FitsIfNew(items, Five(), i);
      }
    }
    StartsWithList(Sorted(QFIRST), Five(), 5, order, items);
  }

  /** Exchanging two neighbours changes no multiset. */
  lemma Exchanged(a: seq<Item>, x: Item, y: Item, b: seq<Item>)
    ensures multiset(a + [x, y] + b) == multiset(a + [y, x] + b)
  {
    assert multiset([x, y]) == multiset([y, x]);
    assert multiset(a + [x, y] + b) == multiset(a) + multiset([x, y]) + multiset(b);
    assert multiset(a + [y, x] + b) == multiset(a) + multiset([y, x]) + multiset(b);
  }

  lemma OnePool()
    ensures multiset(PFIRST) == multiset(QFIRST)
  {
    Exchanged([X], Q, P, [R, S, T]);
    assert PFIRST == [X] + [Q, P] + [R, S, T] && QFIRST == [X] + [P, Q] + [R, S, T];
  }

  /** With X and P picked, only S and T are open. */
  lemma OpenAfterP(x: Item)
    requires x in PFIRST && !Blocked([X, P], Five(), x)
    ensures x == S || x == T
  {
    TallyOfTwo(X, P, Rule(x.rule));
    TallyOfTwo(X, P, Family(x.family));
  }

  /** At most one S and one T can follow. */
  lemma RestIsShort(picked: seq<Item>, rest: seq<Item>)
    requires picked == [X, P] + rest && multiset(picked) <= multiset(PFIRST)
    requires forall x :: x in rest ==> x == S || x == T
    ensures |rest| <= 2
  {
    forall x: Item ensures multiset(rest)[x] <= multiset{S, T}[x] {
      assert multiset(rest)[x] <= multiset(picked)[x] <= multiset(PFIRST)[x];
      if multiset(rest)[x] > 0 {
        assert x in rest;
      }
    }
    CardMonotone(multiset(rest), multiset{S, T});
  }

  /** With P drawn, neither Q nor R is: at most four items. */
  lemma AtMostFour(picked: seq<Item>)
    requires [X, P] <= picked && multiset(picked) <= multiset(PFIRST) && Obeys(picked, Five())
    ensures |picked| <= 4
  {
    var rest := picked[2..];
    assert picked == [X, P] + rest;
    SubsetMembers(picked, PFIRST);
    forall x | x in rest ensures x == S || x == T {
      var i :| 0 <= i < |rest| && rest[i] == x;
      RestIsOpen(picked, [X, P], Five(), 2 + i);
      OpenAfterP(x);
    }
    RestIsShort(picked, rest);
  }

  lemma BothFinish(pool: seq<Item>)
    requires pool == PFIRST || pool == QFIRST
    ensures Holds(Sorted(pool), pool) && multiset(DrawOf(pool, Five(), 5, 6)) <= multiset(pool)
    ensures Obeys(DrawOf(pool, Five(), 5, 6), Five())
  {
    forall x | x in pool ensures x.cwe < 5 && x.rule < 6 {
    }
    DrawFinishes(pool, Five(), 5, 6);
  }

  /** One pool, two shuffles of it, the caps of v2 for a quota of five: one draw meets the fifth and the
      other does not, so nothing about the pool alone decides it. */
  lemma FifthDependsOnTheShuffle()
    ensures Holds(Sorted(PFIRST), PFIRST) && Holds(Sorted(QFIRST), PFIRST)
    ensures !FifthAtMost(DrawOf(PFIRST, Five(), 5, 6)) && FifthAtMost(DrawOf(QFIRST, Five(), 5, 6))
  {
    BothFinish(PFIRST);
    BothFinish(QFIRST);
    OnePool();
    HoldsInAnyOrder(Sorted(QFIRST), QFIRST, PFIRST);
    PIsFirst();
    QIsFirst();
    AtMostFour(DrawOf(PFIRST, Five(), 5, 6));
    FewerThanFiveBreakFifth(DrawOf(PFIRST, Five(), 5, 6));
    LargeDrawMeetsFifth(DrawOf(QFIRST, Five(), 5, 6), Five());
  }
}
