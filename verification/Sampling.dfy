/** What the two samplers share: items, label counts, the shuffled groups they pop from, and
    the facts that one pop keeps.

    A CWE, rule or family name is used only for equality and for its place in a sorted list, so a
    name is modelled by its rank in that order and a sorted list of names is 0, 1, 2, ... */
module Sampling {
  import opened Options

  datatype Item = Item(key: nat, cwe: nat, rule: nat, family: nat)

  /** Something an item can be counted under. */
  datatype Label = Cwe(id: nat) | Rule(id: nat) | Family(id: nat) | Slot(cwe: nat, rule: nat)

  predicate Has(x: Item, l: Label) {
    match l
    case Cwe(c) => x.cwe == c
    case Rule(r) => x.rule == r
    case Family(f) => x.family == f
    case Slot(c, r) => x.cwe == c && x.rule == r
  }

  /** How many items of `s` carry label `l`. */
  function Tally(s: seq<Item>, l: Label): nat {
    if s == [] then 0 else Tally(s[..|s| - 1], l) + if Has(s[|s| - 1], l) then 1 else 0
  }

  /** Python's Counter: a missing key reads as zero. */
  type Counter = map<int, int>

  function At(m: Counter, k: int): int {
    if k in m then m[k] else 0
  }

  /** Python's nested defaultdict: groups[cwe][rule], a missing group reads as empty. */
  type Groups = map<(nat, nat), seq<Item>>

  function Group(g: Groups, c: nat, r: nat): seq<Item> {
    if (c, r) in g then g[(c, r)] else []
  }

  function CweBound(s: seq<Item>): (n: nat)
    ensures forall x :: x in s ==> x.cwe < n
  {
    if s == [] then 0
    else
      var n := CweBound(s[1..]);
      if s[0].cwe < n then n else s[0].cwe + 1
  }

  function RuleBound(s: seq<Item>): (n: nat)
    ensures forall x :: x in s ==> x.rule < n
  {
    if s == [] then 0
    else
      var n := RuleBound(s[1..]);
      if s[0].rule < n then n else s[0].rule + 1
  }

  lemma TallyPush(s: seq<Item>, x: Item, l: Label)
    ensures Tally(s + [x], l) == Tally(s, l) + if Has(x, l) then 1 else 0
  {
    assert (s + [x])[..|s|] == s;
  }

  // ---------------------------------------------------------------- the eligible rules of a CWE

  /** The rules of a CWE, in order, that have an item left and are under their cap. */
  function Open(g: Groups, taken: Counter, cap: nat, c: nat, order: seq<nat>): (rules: seq<nat>)
    ensures forall r :: r in rules <==> r in order && Group(g, c, r) != [] && At(taken, r) < cap
  {
    if order == [] then []
    else
      var r := order[|order| - 1];
      Open(g, taken, cap, c, order[..|order| - 1])
      + if Group(g, c, r) != [] && At(taken, r) < cap then [r] else []
  }

  /** Those of the rules that still have an item. */
  function Nonempty(g: Groups, c: nat, rules: seq<nat>): (kept: seq<nat>)
    ensures forall r :: r in kept <==> r in rules && Group(g, c, r) != []
  {
    if rules == [] then []
    else
      var r := rules[|rules| - 1];
      Nonempty(g, c, rules[..|rules| - 1]) + if Group(g, c, r) != [] then [r] else []
  }

  lemma NonemptyPush(g: Groups, c: nat, rules: seq<nat>, r: nat)
    ensures Nonempty(g, c, rules + [r]) == Nonempty(g, c, rules) + if Group(g, c, r) != [] then [r] else []
  {
    assert (rules + [r])[..|rules|] == rules;
  }

  /** Re-filtering the rules after a pop gives the list a fresh look would give. */
  lemma {:induction false} RefilterIsOpen(g: Groups, g': Groups, taken: Counter, cap: nat, c: nat, order: seq<nat>)
    requires forall r :: Group(g', c, r) != [] ==> Group(g, c, r) != []
    ensures Nonempty(g', c, Open(g, taken, cap, c, order)) == Open(g', taken, cap, c, order)
  {
    if order != [] {
      var rest, r := order[..|order| - 1], order[|order| - 1];
      RefilterIsOpen(g, g', taken, cap, c, rest);
      var a := Open(g, taken, cap, c, rest);
      if Group(g, c, r) != [] && At(taken, r) < cap {
        assert Open(g, taken, cap, c, order) == a + [r];
        NonemptyPush(g', c, a, r);
      } else {
        assert Open(g, taken, cap, c, order) == a;
      }
    }
  }

  // ---------------------------------------------------------------- building the groups

  type Shuffle = ((nat, nat), seq<Item>) -> seq<Item>

  ghost predicate Permutes(shuffle: Shuffle) {
    forall slot, s :: multiset(shuffle(slot, s)) == multiset(s)
  }

  /** The groups hold exactly the items of `pool`, each under its own CWE and rule. */
  ghost predicate Holds(g: Groups, pool: seq<Item>) {
    && (forall x: Item :: multiset(Group(g, x.cwe, x.rule))[x] == multiset(pool)[x])
    && (forall c, r, x :: x in Group(g, c, r) ==> Has(x, Slot(c, r)))
    && (forall c, r :: |Group(g, c, r)| == Tally(pool, Slot(c, r)))
  }

  function Add(g: Groups, it: Item): Groups {
    g[(it.cwe, it.rule) := Group(g, it.cwe, it.rule) + [it]]
  }

  lemma GroupAfterAdd(g: Groups, it: Item, c: nat, r: nat)
    ensures Group(Add(g, it), c, r) == Group(g, c, r) + if Has(it, Slot(c, r)) then [it] else []
  {
  }

  lemma CountPush(s: seq<Item>, it: Item, x: Item)
    ensures multiset(s + [it])[x] == multiset(s)[x] + if x == it then 1 else 0
  {
  }

  lemma AddKeepsHolds(g: Groups, pool: seq<Item>, it: Item)
    requires Holds(g, pool)
    ensures Holds(Add(g, it), pool + [it])
  {
    var g' := Add(g, it);
    forall x: Item ensures multiset(Group(g', x.cwe, x.rule))[x] == multiset(pool + [it])[x] {
      GroupAfterAdd(g, it, x.cwe, x.rule);
      CountPush(pool, it, x);
      CountPush(Group(g, x.cwe, x.rule), it, x);
    }
    forall c, r, x | x in Group(g', c, r) ensures Has(x, Slot(c, r)) {
      GroupAfterAdd(g, it, c, r);
    }
    forall c, r ensures |Group(g', c, r)| == Tally(pool + [it], Slot(c, r)) {
      GroupAfterAdd(g, it, c, r);
      TallyPush(pool, it, Slot(c, r));
    }
  }

  lemma ShuffleKeepsHolds(g: Groups, g': Groups, pool: seq<Item>)
    requires Holds(g, pool)
    requires forall c, r :: multiset(Group(g', c, r)) == multiset(Group(g, c, r))
    ensures Holds(g', pool)
  {
    forall c, r ensures |Group(g', c, r)| == |Group(g, c, r)| {
      assert |multiset(Group(g', c, r))| == |Group(g', c, r)|;
      assert |multiset(Group(g, c, r))| == |Group(g, c, r)|;
    }
    forall c, r, x | x in Group(g', c, r) ensures Has(x, Slot(c, r)) {
      assert x in multiset(Group(g', c, r));
      assert x in Group(g, c, r);
    }
  }

  /** Grouping by CWE and rule in pool order. */
  function Sorted(pool: seq<Item>): Groups {
    if pool == [] then map[] else Add(Sorted(pool[..|pool| - 1]), pool[|pool| - 1])
  }

  lemma NothingHeld()
    ensures Holds(map[], [])
  {
  }

  lemma {:induction false} SortedHolds(pool: seq<Item>)
    ensures Holds(Sorted(pool), pool)
  {
    if pool == [] {
      NothingHeld();
    } else {
      var rest, it := pool[..|pool| - 1], pool[|pool| - 1];
      SortedHolds(rest);
      HoldsNext(Sorted(rest), Sorted(pool), rest, pool, it);
    }
  }

  lemma HoldsNext(g: Groups, g': Groups, rest: seq<Item>, pool: seq<Item>, it: Item)
    requires Holds(g, rest) && g' == Add(g, it) && pool == rest + [it]
    ensures Holds(g', pool)
  {
    AddKeepsHolds(g, rest, it);
  }

  lemma ShuffledHolds(g: Groups, shuffle: Shuffle, pool: seq<Item>)
    requires Permutes(shuffle) && Holds(g, pool)
    ensures Holds(map slot | slot in g :: shuffle(slot, g[slot]), pool)
  {
    var g' := map slot | slot in g :: shuffle(slot, g[slot]);
    forall c, r ensures multiset(Group(g', c, r)) == multiset(Group(g, c, r)) {
    }
    ShuffleKeepsHolds(g, g', pool);
  }

  /** The items of one CWE and rule, in the order of `s`. */
  function Only(s: seq<Item>, c: nat, r: nat): seq<Item> {
    if s == [] then []
    else Only(s[..|s| - 1], c, r) + if Has(s[|s| - 1], Slot(c, r)) then [s[|s| - 1]] else []
  }

  lemma OnlyPush(s: seq<Item>, x: Item, c: nat, r: nat)
    ensures Only(s + [x], c, r) == Only(s, c, r) + if Has(x, Slot(c, r)) then [x] else []
  {
    assert (s + [x])[..|s|] == s;
  }

  /** An item of that CWE and rule stands behind as many as come before it, and nothing else is there. */
  lemma {:induction false} OnlyAt(s: seq<Item>, c: nat, r: nat)
    ensures |Only(s, c, r)| == Tally(s, Slot(c, r))
    ensures forall i :: 0 <= i < |s| && Has(s[i], Slot(c, r)) ==>
              Tally(s[..i], Slot(c, r)) < |Only(s, c, r)| && Only(s, c, r)[Tally(s[..i], Slot(c, r))] == s[i]
  {
    if s == [] {
    } else {
      var rest := s[..|s| - 1];
      OnlyAt(rest, c, r);
      forall i | 0 <= i < |s| && Has(s[i], Slot(c, r))
        ensures Tally(s[..i], Slot(c, r)) < |Only(s, c, r)| && Only(s, c, r)[Tally(s[..i], Slot(c, r))] == s[i]
      {
        if i < |rest| {
          assert rest[i] == s[i] && rest[..i] == s[..i];
        }
      }
    }
  }

  lemma {:induction false} SortedIsOnly(pool: seq<Item>, c: nat, r: nat)
    ensures Group(Sorted(pool), c, r) == Only(pool, c, r)
  {
    if pool == [] {
    } else {
      SortedIsOnly(pool[..|pool| - 1], c, r);
      GroupAfterAdd(Sorted(pool[..|pool| - 1]), pool[|pool| - 1], c, r);
    }
  }

  lemma ShuffledIs(g: Groups, shuffle: Shuffle, pool: seq<Item>, c: nat, r: nat)
    requires Permutes(shuffle) && g == Sorted(pool)
    ensures Group(map slot | slot in g :: shuffle(slot, g[slot]), c, r) == shuffle((c, r), Only(pool, c, r))
  {
    SortedIsOnly(pool, c, r);
    if (c, r) !in g {
      assert multiset(shuffle((c, r), [])) == multiset{};
    }
  }

  /** Each group is the shuffle of its items in pool order. */
  ghost predicate Shuffled(g: Groups, shuffle: Shuffle, pool: seq<Item>) {
    forall c, r :: Group(g, c, r) == shuffle((c, r), Only(pool, c, r))
  }

  /** Groups the pool by CWE and rule, then shuffles each group. The seeded shuffle is any function
      that gives back a permutation. */
  method Grouped(pool: seq<Item>, shuffle: Shuffle) returns (g: Groups)
    requires Permutes(shuffle)
    ensures Holds(g, pool) && Shuffled(g, shuffle, pool)
  {
    var plain: Groups := map[];
    for i := 0 to |pool|
      invariant plain == Sorted(pool[..i])
    {
      assert pool[..i + 1][..i] == pool[..i];
      plain := Add(plain, pool[i]);
    }
    assert pool[..|pool|] == pool;
    SortedHolds(pool);
    ShuffledHolds(plain, shuffle, pool);
    g := map slot | slot in plain :: shuffle(slot, plain[slot]);
    forall c, r ensures Group(g, c, r) == shuffle((c, r), Only(pool, c, r)) {
      ShuffledIs(plain, shuffle, pool, c, r);
    }
  }

  // ---------------------------------------------------------------- the draw

  function Pop(g: Groups, c: nat, r: nat): Groups
    requires Group(g, c, r) != []
  {
    g[(c, r) := Group(g, c, r)[..|Group(g, c, r)| - 1]]
  }

  function Top(g: Groups, c: nat, r: nat): Item
    requires Group(g, c, r) != []
  {
    Group(g, c, r)[|Group(g, c, r)| - 1]
  }

  /** The size asked for, the cap per rule, and the cap per family (v1 has none). */
  datatype Caps = Caps(quota: int, rule: nat, family: Option<nat>)

  /** What a sampler's loops update, with the discarded items kept for the record. */
  datatype Draw = Draw(groups: Groups, taken: Counter, families: Counter, turn: Counter,
                       picked: seq<Item>, dropped: seq<Item>)

  predicate HasRoom(s: Draw, caps: Caps, f: nat) {
    caps.family == None || At(s.families, f) < caps.family.value
  }

  /** One turn of CWE c falling on `rule`: pop, then pick the item or discard it. */
  function Turn(s: Draw, caps: Caps, c: nat, rule: nat): Draw
    requires Group(s.groups, c, rule) != []
  {
    var it := Top(s.groups, c, rule);
    var popped := s.(groups := Pop(s.groups, c, rule), turn := s.turn[c := At(s.turn, c) + 1]);
    if HasRoom(s, caps, it.family) then
      popped.(picked := s.picked + [it],
              taken := s.taken[rule := At(s.taken, rule) + 1],
              families := if caps.family == None then s.families
                          else s.families[it.family := At(s.families, it.family) + 1])
    else
      popped.(dropped := s.dropped + [it])
  }

  /** The rules CWE c can draw from. */
  function Rules(s: Draw, caps: Caps, c: nat, order: seq<nat>): seq<nat> {
    Open(s.groups, s.taken, caps.rule, c, order)
  }

  /** The rule whose turn it is. */
  function Due(s: Draw, caps: Caps, c: nat, order: seq<nat>): (rule: nat)
    requires Rules(s, caps, c, order) != []
    ensures rule in order && Group(s.groups, c, rule) != [] && At(s.taken, rule) < caps.rule
  {
    var rules := Rules(s, caps, c, order);
    var rule := rules[At(s.turn, c) % |rules|];
    assert rule in rules;
    rule
  }

  /** Items CWE c still has under the rules of `order`. */
  function Stock(g: Groups, c: nat, order: seq<nat>): nat {
    if order == [] then 0
    else Stock(g, c, order[..|order| - 1]) + |Group(g, c, order[|order| - 1])|
  }

  lemma {:induction false} PopShrinksStock(g: Groups, c: nat, r: nat, order: seq<nat>)
    requires Group(g, c, r) != []
    ensures Stock(Pop(g, c, r), c, order) <= Stock(g, c, order)
    ensures r in order ==> Stock(Pop(g, c, r), c, order) < Stock(g, c, order)
  {
    if order != [] {
      PopShrinksStock(g, c, r, order[..|order| - 1]);
    }
  }

  /** A visit to CWE c: turns until an item is picked or no rule is left to draw from. */
  function Visit(s: Draw, caps: Caps, c: nat, order: seq<nat>): Draw
    decreases Stock(s.groups, c, order)
  {
    if Rules(s, caps, c, order) == [] then s
    else
      var rule := Due(s, caps, c, order);
      var t := Turn(s, caps, c, rule);
      PopShrinksStock(s.groups, c, rule, order);
      if HasRoom(s, caps, Top(s.groups, c, rule).family) then t else Visit(t, caps, c, order)
  }

  /** A pass over the CWEs from c on, cut short once the quota is met; also where it stopped. */
  function Pass(s: Draw, caps: Caps, c: nat, cwes: nat, order: seq<nat>): (r: (Draw, nat))
    ensures c <= r.1 && (c <= cwes ==> r.1 <= cwes)
    decreases cwes - c
  {
    if c >= cwes || |s.picked| >= caps.quota then (s, c)
    else Pass(Visit(s, caps, c, order), caps, c + 1, cwes, order)
  }

  lemma {:induction false} VisitGrows(s: Draw, caps: Caps, c: nat, order: seq<nat>)
    ensures var t := Visit(s, caps, c, order);
            t.picked == s.picked || (|t.picked| == |s.picked| + 1 && t.picked[..|s.picked|] == s.picked)
    decreases Stock(s.groups, c, order)
  {
    if Rules(s, caps, c, order) != [] {
      var rule := Due(s, caps, c, order);
      PopShrinksStock(s.groups, c, rule, order);
      if !HasRoom(s, caps, Top(s.groups, c, rule).family) {
        VisitGrows(Turn(s, caps, c, rule), caps, c, order);
      }
    }
  }

  lemma {:induction false} PassGrows(s: Draw, caps: Caps, c: nat, cwes: nat, order: seq<nat>)
    requires c <= cwes
    ensures var (t, stop) := Pass(s, caps, c, cwes, order);
            && |s.picked| <= |t.picked| && t.picked[..|s.picked|] == s.picked
            && (|s.picked| <= caps.quota ==> |t.picked| <= caps.quota)
            && (stop < cwes ==> |t.picked| >= caps.quota)
    decreases cwes - c
  {
    if c < cwes && |s.picked| < caps.quota {
      VisitGrows(s, caps, c, order);
      PassGrows(Visit(s, caps, c, order), caps, c + 1, cwes, order);
    }
  }

  /** Passes until the quota is met or a pass picks nothing. */
  function Rounds(s: Draw, caps: Caps, cwes: nat, order: seq<nat>): Draw
    decreases caps.quota - |s.picked|
  {
    if |s.picked| >= caps.quota then s
    else
      var t := Pass(s, caps, 0, cwes, order).0;
      PassGrows(s, caps, 0, cwes, order);
      if |t.picked| == |s.picked| then t else Rounds(t, caps, cwes, order)
  }

  function Start(g: Groups): Draw {
    Draw(g, map[], map[], map[], [], [])
  }

  /** The whole draw from shuffled groups. */
  function Selection(g: Groups, caps: Caps, cwes: nat, order: seq<nat>): Draw {
    Rounds(Start(g), caps, cwes, order)
  }
}
