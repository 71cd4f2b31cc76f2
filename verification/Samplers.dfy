/** The two samplers as their source writes them, with what a caller gets from each. */
module Samplers {
  import opened Options
  import opened Sampling
  import opened SamplerLaws
  import opened SamplerRotation
  import opened SamplerBounds
  import opened SamplerOrder

  /** Everything promised of a finished draw from shuffled groups g0. */
  ghost predicate Finished(pool: seq<Item>, g0: Groups, s: Draw, caps: Caps) {
    && multiset(s.picked) <= multiset(pool)
    && |s.picked| <= caps.quota
    && Obeys(s.picked, caps)
    && (|s.picked| < caps.quota ==> Maximal(pool, s.picked, caps))
    && Fair(s, caps)
    && Rotates(g0, s, caps)
    && FamiliesKept(s, caps)
    && GoesRound(s.picked)
    && forall c, r :: FromTheEnd(g0, s, c, r)
  }

  function Ascending(n: nat): (order: seq<nat>)
    ensures |order| == n && forall i :: 0 <= i < n ==> order[i] == i
  {
    seq(n, i => i)
  }

  lemma SelectionShort(pool: seq<Item>, g0: Groups, caps: Caps, cwes: nat, order: seq<nat>)
    requires Sound(pool, Start(g0), caps) && Listed(g0, g0, order)
    requires forall x :: x in pool ==> x.cwe < cwes
    requires Sound(pool, Selection(g0, caps, cwes, order), caps)
    ensures var s := Selection(g0, caps, cwes, order);
            |s.picked| < caps.quota ==> Maximal(pool, s.picked, caps)
  {
    var s := Selection(g0, caps, cwes, order);
    if |s.picked| < caps.quota {
      forall x: Item | multiset(s.picked)[x] < multiset(pool)[x] ensures Blocked(s.picked, caps, x) {
        assert x in multiset(pool);
        ShortDrawIsShut(pool, g0, Start(g0), caps, cwes, order, x.cwe);
        ShutIsMaximal(pool, s, caps, x);
      }
    }
  }

  lemma SelectionRotates(pool: seq<Item>, g0: Groups, caps: Caps, cwes: nat, order: seq<nat>)
    requires Sound(pool, Start(g0), caps) && Listed(g0, g0, order) && Distinct(order)
    ensures Rotates(g0, Selection(g0, caps, cwes, order), caps)
  {
    forall b: nat ensures InStep(g0, Selection(g0, caps, cwes, order), caps, b, order) {
      RoundsKeepStep(pool, g0, Start(g0), caps, cwes, order, b);
    }
    InStepRotates(g0, Selection(g0, caps, cwes, order), caps, order);
  }

  /** The draw, from its definition to its promises. */
  lemma SelectionFinishes(pool: seq<Item>, g0: Groups, caps: Caps, cwes: nat, rules: nat)
    requires Holds(g0, pool) && caps.quota >= 0
    requires forall x :: x in pool ==> x.cwe < cwes && x.rule < rules
    ensures Finished(pool, g0, Selection(g0, caps, cwes, Ascending(rules)), caps)
  {
    var order := Ascending(rules);
    forall x | x in pool ensures x.rule in order {
      assert order[x.rule] == x.rule;
    }
    StartIsSound(pool, g0, caps, order);
    RoundsKeepSound(pool, Start(g0), caps, cwes, order);
    var s := Selection(g0, caps, cwes, order);
    SoundObeys(pool, s, caps);
    BooksSubset(pool, s.groups, s.picked, s.dropped);
    SelectionShort(pool, g0, caps, cwes, order);
    StartIsPaced(g0, caps, cwes);
    RoundsAreFair(pool, g0, Start(g0), caps, cwes, order, 0);
    SelectionRotates(pool, g0, caps, cwes, order);
    RoundsGoRound(pool, g0, Start(g0), caps, cwes, order, 0);
    forall c, r ensures FromTheEnd(g0, s, c, r) {
      StartIsFromTheEnd(g0, c, r);
      RoundsKeepEnd(pool, g0, Start(g0), caps, cwes, order, c, r);
    }
  }

  lemma StartIsPaced(g0: Groups, caps: Caps, cwes: nat)
    ensures MidPass(Start(g0), caps, 0, cwes, 0)
  {
  }

  lemma SelectionHasExactSize(pool: seq<Item>, g0: Groups, caps: Caps, cwes: nat, rules: nat)
    requires Finished(pool, g0, Selection(g0, caps, cwes, Ascending(rules)), caps)
    requires caps.quota >= 0 && caps.family.None?
    requires forall x :: x in pool ==> x.rule < rules
    ensures |Selection(g0, caps, cwes, Ascending(rules)).picked| == Min(caps.quota, Capacity(pool, caps.rule, rules))
  {
    ExactSize(pool, Selection(g0, caps, cwes, Ascending(rules)).picked, caps, rules);
  }

  lemma VisitUnrolls(s: Draw, caps: Caps, c: nat, order: seq<nat>)
    requires Rules(s, caps, c, order) != []
    ensures var rule := Due(s, caps, c, order);
            var t := Turn(s, caps, c, rule);
            && Stock(t.groups, c, order) < Stock(s.groups, c, order)
            && (if HasRoom(s, caps, Top(s.groups, c, rule).family) then Visit(s, caps, c, order) == t
                else Visit(s, caps, c, order) == Visit(t, caps, c, order)
                     && Rules(t, caps, c, order) == Nonempty(t.groups, c, Rules(s, caps, c, order)))
  {
    var rule := Due(s, caps, c, order);
    PopShrinksStock(s.groups, c, rule, order);
    RefilterIsOpen(s.groups, Pop(s.groups, c, rule), s.taken, caps.rule, c, order);
  }

  /** The loops of the v1 sampler: CWEs in turn, one item of the rule whose turn it is. */
  method DrawV1(g0: Groups, total: nat, cap: nat, cwes: nat, order: seq<nat>) returns (s: Draw)
    ensures s == Selection(g0, Caps(total, cap, None), cwes, order)
  {
    var caps := Caps(total, cap, None);
    s := Start(g0);
    while |s.picked| < total
      invariant Selection(g0, caps, cwes, order) == Rounds(s, caps, cwes, order)
      decreases total - |s.picked|
    {
      var progress := false;
      ghost var before := s;
      PassGrows(before, caps, 0, cwes, order);
      for cwe := 0 to cwes
        invariant Pass(before, caps, 0, cwes, order).0 == Pass(s, caps, cwe, cwes, order).0
        invariant |s.picked| >= |before.picked| && (progress <==> |s.picked| > |before.picked|)
      {
        var rules := Open(s.groups, s.taken, cap, cwe, order);
        if rules == [] || |s.picked| >= total {
          continue;
        }
        VisitUnrolls(s, caps, cwe, order);
        var rule := rules[At(s.turn, cwe) % |rules|];
        s := TakeTurn(s, caps, cwe, rule);
        progress := true;
      }
      if !progress {
        break;
      }
    }
  }

  /** One turn: advance it, pop the item, and pick it with its counters or discard it. */
  method TakeTurn(s: Draw, caps: Caps, cwe: nat, rule: nat) returns (t: Draw)
    requires Group(s.groups, cwe, rule) != []
    ensures t == Turn(s, caps, cwe, rule)
  {
    var turn, taken, families, picked, dropped := s.turn, s.taken, s.families, s.picked, s.dropped;
    turn := turn[cwe := At(turn, cwe) + 1];
    var it := Top(s.groups, cwe, rule);
    if caps.family == None || At(families, it.family) < caps.family.value {
      picked := picked + [it];
      taken := taken[rule := At(taken, rule) + 1];
      if caps.family != None {
        families := families[it.family := At(families, it.family) + 1];
      }
    } else {
      dropped := dropped + [it];
    }
    t := Draw(Pop(s.groups, cwe, rule), taken, families, turn, picked, dropped);
  }

  /** The v1 sampler under a cap per rule. */
  method SelectV1(items: seq<Item>, total: nat, cap: nat, shuffle: Shuffle) returns (s: Draw, g0: Groups)
    requires Permutes(shuffle)
    ensures Holds(g0, items) && Shuffled(g0, shuffle, items)
    ensures s == Selection(g0, Caps(total, cap, None), CweBound(items), Ascending(RuleBound(items)))
    ensures Finished(items, g0, s, Caps(total, cap, None))
    ensures forall c, r :: PickedBack(g0, s, c, r)
    ensures |s.picked| == Min(total, Capacity(items, cap, RuleBound(items)))
  {
    var cwes, rules := CweBound(items), RuleBound(items);
    g0 := Grouped(items, shuffle);
    s := DrawV1(g0, total, cap, cwes, Ascending(rules));
    SelectionFinishes(items, g0, Caps(total, cap, None), cwes, rules);
    SelectionHasExactSize(items, g0, Caps(total, cap, None), cwes, rules);
    forall c, r ensures PickedBack(g0, s, c, r) {
      AllPoppedArePicked(g0, s, Caps(total, cap, None), c, r);
    }
  }

  /** What left a group was picked, from the last item back. */
  ghost predicate PickedBack(g0: Groups, s: Draw, c: nat, r: nat) {
    && Group(s.groups, c, r) <= Group(g0, c, r)
    && Only(s.picked, c, r) == Back(Group(g0, c, r), |Group(s.groups, c, r)|)
  }

  /** Without a family cap nothing is discarded. */
  lemma AllPoppedArePicked(g0: Groups, s: Draw, caps: Caps, c: nat, r: nat)
    requires FamiliesKept(s, caps) && caps.family.None? && FromTheEnd(g0, s, c, r)
    ensures PickedBack(g0, s, c, r)
  {
    MergesAlone(Only(s.picked, c, r), Back(Group(g0, c, r), |Group(s.groups, c, r)|));
  }

  /** The loops of the v2 sampler: as v1, but an item whose family is full is discarded and the CWE
      tries again until it picks or has no rule left. */
  method DrawV2(g0: Groups, quota: int, cap: nat, familyCap: nat, cwes: nat, order: seq<nat>) returns (s: Draw)
    ensures s == Selection(g0, Caps(quota, cap, Some(familyCap)), cwes, order)
  {
    var caps := Caps(quota, cap, Some(familyCap));
    s := Start(g0);
    while |s.picked| < quota
      invariant Selection(g0, caps, cwes, order) == Rounds(s, caps, cwes, order)
      decreases quota - |s.picked|
    {
      var progress := false;
      ghost var before := s;
      PassGrows(before, caps, 0, cwes, order);
      for cwe := 0 to cwes
        invariant Pass(before, caps, 0, cwes, order).0 == Pass(s, caps, cwe, cwes, order).0
        invariant |s.picked| >= |before.picked| && (progress <==> |s.picked| > |before.picked|)
      {
        if |s.picked| >= quota {
          break;
        }
        var picks: bool;
        s, picks := VisitV2(s, caps, cwe, order);
        progress := progress || picks;
      }
      if !progress {
        break;
      }
    }
  }

  /** The inner loop of the v2 sampler. */
  method VisitV2(s0: Draw, caps: Caps, cwe: nat, order: seq<nat>) returns (s: Draw, progress: bool)
    ensures s == Visit(s0, caps, cwe, order)
    ensures |s.picked| == |s0.picked| + if progress then 1 else 0
  {
    s, progress := s0, false;
    var rules := Open(s.groups, s.taken, caps.rule, cwe, order);
    while rules != []
      invariant s.picked == s0.picked
      invariant rules == Open(s.groups, s.taken, caps.rule, cwe, order)
      invariant Visit(s0, caps, cwe, order) == Visit(s, caps, cwe, order)
      decreases Stock(s.groups, cwe, order)
    {
      VisitUnrolls(s, caps, cwe, order);
      var rule := rules[At(s.turn, cwe) % |rules|];
      progress := HasRoom(s, caps, Top(s.groups, cwe, rule).family);
      s := TakeTurn(s, caps, cwe, rule);
      if progress {
        return;
      }
      rules := Nonempty(s.groups, cwe, rules);
    }
  }

  /** The v2 sampler under a cap per rule and a cap per family. */
  method SelectV2(pool: seq<Item>, quota: nat, cap: nat, familyCap: nat, shuffle: Shuffle) returns (s: Draw, g0: Groups)
    requires Permutes(shuffle)
    ensures Holds(g0, pool) && Shuffled(g0, shuffle, ByKey(pool))
    ensures s == Selection(g0, Caps(quota, cap, Some(familyCap)), CweBound(ByKey(pool)),
                           Ascending(RuleBound(ByKey(pool))))
    ensures Finished(pool, g0, s, Caps(quota, cap, Some(familyCap)))
    ensures |s.picked| < quota ==>
              forall rival :: multiset(rival) <= multiset(pool) && Obeys(rival, Caps(quota, cap, Some(familyCap)))
                ==> |rival| <= 2 * |s.picked|
  {
    var caps := Caps(quota, cap, Some(familyCap));
    var ordered := ByKey(pool);
    ByKeySorts(pool);
    var cwes, rules := CweBound(ordered), RuleBound(ordered);
    g0 := Grouped(ordered, shuffle);
    HoldsInAnyOrder(g0, ordered, pool);
    forall x | x in pool ensures x in ordered {
      assert x in multiset(pool);
    }
    s := DrawV2(g0, quota, cap, familyCap, cwes, Ascending(rules));
    SelectionFinishes(pool, g0, caps, cwes, rules);
    NoRivalTwiceAsLarge(pool, s.picked, caps);
  }

  lemma NoRivalTwiceAsLarge(pool: seq<Item>, picked: seq<Item>, caps: Caps)
    requires |picked| < caps.quota ==> Maximal(pool, picked, caps)
    ensures |picked| < caps.quota ==>
              forall rival :: multiset(rival) <= multiset(pool) && Obeys(rival, caps) ==> |rival| <= 2 * |picked|
  {
    if |picked| < caps.quota {
      forall rival | multiset(rival) <= multiset(pool) && Obeys(rival, caps) ensures |rival| <= 2 * |picked| {
        AtLeastHalfOfAnyRival(pool, picked, rival, caps);
      }
    }
  }
}
