/** In which order items are drawn: how the v2 pool is sorted, which end of a group is popped, and
    how the picks go round the CWEs. */
module SamplerOrder {
  import opened Options
  import opened Sampling
  import opened SamplerLaws
  import opened SamplerRotation
  import opened SamplerBounds

  // ---------------------------------------------------------------- the pool sorted by key

  /** Python's stable sort by key: an item goes behind those whose key is not greater. */
  function ByKey(pool: seq<Item>): seq<Item> {
    if pool == [] then [] else Inserted(ByKey(pool[..|pool| - 1]), pool[|pool| - 1])
  }

  function Inserted(s: seq<Item>, it: Item): seq<Item> {
    if s == [] || s[|s| - 1].key <= it.key then s + [it]
    else Inserted(s[..|s| - 1], it) + [s[|s| - 1]]
  }

  ghost predicate Ascends(s: seq<Item>) {
    forall i, j :: 0 <= i < j < |s| ==> s[i].key <= s[j].key
  }

  /** The items with one key, in the order of `s`. */
  function OfKey(s: seq<Item>, k: nat): seq<Item> {
    if s == [] then [] else OfKey(s[..|s| - 1], k) + if s[|s| - 1].key == k then [s[|s| - 1]] else []
  }

  lemma OfKeyPush(s: seq<Item>, x: Item, k: nat)
    ensures OfKey(s + [x], k) == OfKey(s, k) + if x.key == k then [x] else []
  {
    assert (s + [x])[..|s|] == s;
  }

  lemma LastSplit(s: seq<Item>)
    requires s != []
    ensures s == s[..|s| - 1] + [s[|s| - 1]] && multiset(s) == multiset(s[..|s| - 1]) + multiset{s[|s| - 1]}
  {
    assert s == s[..|s| - 1] + [s[|s| - 1]];
  }

  lemma {:induction false} InsertedIs(s: seq<Item>, it: Item)
    ensures multiset(Inserted(s, it)) == multiset(s) + multiset{it}
    ensures Ascends(s) ==> Ascends(Inserted(s, it))
  {
    if s == [] || s[|s| - 1].key <= it.key {
    } else {
      var rest, last := s[..|s| - 1], s[|s| - 1];
      InsertedIs(rest, it);
      LastSplit(s);
      InsertedAscends(rest, Inserted(rest, it), last, it);
    }
  }

  lemma InsertedAscends(rest: seq<Item>, out: seq<Item>, last: Item, it: Item)
    requires multiset(out) == multiset(rest) + multiset{it} && last.key > it.key
    ensures Ascends(rest + [last]) && Ascends(out) ==> Ascends(out + [last])
  {
    if Ascends(rest + [last]) {
      forall x | x in out ensures x.key <= last.key {
        assert x in multiset(out);
        if x != it {
          var i :| 0 <= i < |rest| && rest[i] == x;
          assert (rest + [last])[i].key <= (rest + [last])[|rest|].key;
        }
      }
    }
  }

  lemma {:induction false} InsertedIsStable(s: seq<Item>, it: Item, k: nat)
    ensures OfKey(Inserted(s, it), k) == OfKey(s + [it], k)
  {
    OfKeyPush(s, it, k);
    if s == [] || s[|s| - 1].key <= it.key {
    } else {
      var rest, last := s[..|s| - 1], s[|s| - 1];
      InsertedIsStable(rest, it, k);
      OfKeyPush(rest, it, k);
      OfKeyPush(Inserted(rest, it), last, k);
    }
  }

  /** The sorted pool has the same items with ascending keys, and items of one key in pool order. */
  lemma {:induction false} ByKeySorts(pool: seq<Item>)
    ensures multiset(ByKey(pool)) == multiset(pool) && Ascends(ByKey(pool))
    ensures forall k :: OfKey(ByKey(pool), k) == OfKey(pool, k)
  {
    if pool == [] {
    } else {
      var rest, it := pool[..|pool| - 1], pool[|pool| - 1];
      ByKeySorts(rest);
      InsertedIs(ByKey(rest), it);
      LastSplit(pool);
      forall k ensures OfKey(ByKey(pool), k) == OfKey(pool, k) {
        InsertedIsStable(ByKey(rest), it, k);
        OfKeyPush(ByKey(rest), it, k);
        OfKeyPush(rest, it, k);
      }
    }
  }

  /** No two different items share a key. */
  ghost predicate KeysTell(s: seq<Item>) {
    forall x, y :: x in s && y in s && x.key == y.key ==> x == y
  }

  lemma LastIsLargest(a: seq<Item>, b: seq<Item>)
    requires a != [] && multiset(a) == multiset(b) && Ascends(a)
    ensures b != [] && b[|b| - 1] in a && b[|b| - 1].key <= a[|a| - 1].key
  {
    assert a[0] in multiset(b);
    var y := b[|b| - 1];
    assert y in multiset(a);
    var i :| 0 <= i < |a| && a[i] == y;
  }

  lemma SameLast(a: seq<Item>, b: seq<Item>)
    requires a != [] && multiset(a) == multiset(b) && Ascends(a) && Ascends(b) && KeysTell(a)
    ensures b != [] && a[|a| - 1] == b[|b| - 1]
  {
    LastIsLargest(a, b);
    LastIsLargest(b, a);
  }

  lemma ButLast(a: seq<Item>)
    requires a != []
    ensures Ascends(a) ==> Ascends(a[..|a| - 1])
    ensures KeysTell(a) ==> KeysTell(a[..|a| - 1])
  {
    assert forall x :: x in a[..|a| - 1] ==> x in a;
  }

  lemma SameRest(a: multiset<Item>, b: multiset<Item>, x: Item)
    requires a + multiset{x} == b + multiset{x}
    ensures a == b
  {
    assert a == (a + multiset{x}) - multiset{x} && b == (b + multiset{x}) - multiset{x};
  }

  lemma {:induction false} OneAscending(a: seq<Item>, b: seq<Item>)
    requires multiset(a) == multiset(b) && Ascends(a) && Ascends(b) && KeysTell(a)
    ensures a == b
  {
    if a == [] {
      assert |multiset(b)| == |b|;
    } else {
      SameLast(a, b);
      LastSplit(a);
      LastSplit(b);
      SameRest(multiset(a[..|a| - 1]), multiset(b[..|b| - 1]), a[|a| - 1]);
      ButLast(a);
      ButLast(b);
      OneAscending(a[..|a| - 1], b[..|b| - 1]);
    }
  }

  /** When keys tell items apart, the sorted pool does not depend on the order of the pool. */
  lemma SortForgetsOrder(a: seq<Item>, b: seq<Item>)
    requires multiset(a) == multiset(b) && KeysTell(a)
    ensures ByKey(a) == ByKey(b)
  {
    ByKeySorts(a);
    ByKeySorts(b);
    forall x | x in ByKey(a) ensures x in a {
      assert x in multiset(ByKey(a));
    }
    OneAscending(ByKey(a), ByKey(b));
  }

  /** Groups hold a pool whatever the order of the pool. */
  lemma HoldsInAnyOrder(g: Groups, a: seq<Item>, b: seq<Item>)
    requires Holds(g, a) && multiset(a) == multiset(b)
    ensures Holds(g, b)
  {
    forall l: Label ensures Tally(a, l) == Tally(b, l) {
      TallyOfPart(a, b, l);
      TallyOfPart(b, a, l);
    }
  }

  // ---------------------------------------------------------------- the rules in order

  ghost predicate Rises(order: seq<nat>) {
    forall i, j :: 0 <= i < j < |order| ==> order[i] < order[j]
  }

  /** The rules a CWE can draw from are listed in the order of all rules. */
  lemma {:induction false} RulesRise(s: Draw, caps: Caps, c: nat, order: seq<nat>)
    requires Rises(order)
    ensures Rises(Rules(s, caps, c, order))
  {
    if order == [] {
    } else {
      var rest, last := order[..|order| - 1], order[|order| - 1];
      RulesRise(s, caps, c, rest);
      forall r | r in Rules(s, caps, c, rest) ensures r < last {
        assert r in rest;
      }
      RisesPush(Rules(s, caps, c, rest), last);
      if Group(s.groups, c, last) != [] && At(s.taken, last) < caps.rule {
        assert Rules(s, caps, c, order) == Rules(s, caps, c, rest) + [last];
      } else {
        assert Rules(s, caps, c, order) == Rules(s, caps, c, rest);
      }
    }
  }

  lemma RisesPush(order: seq<nat>, last: nat)
    requires Rises(order) && forall r :: r in order ==> r < last
    ensures Rises(order + [last])
  {
    forall i, j | 0 <= i < j < |order + [last]| ensures (order + [last])[i] < (order + [last])[j] {
      assert order[i] in order;
    }
  }

  // ---------------------------------------------------------------- popping from the end

  /** The items of `s` from the last one down to the one at n. */
  function Back(s: seq<Item>, n: nat): seq<Item>
    requires n <= |s|
    decreases |s| - n
  {
    if n == |s| then [] else Back(s, n + 1) + [s[n]]
  }

  /** `all` is a and b, each in its order. */
  ghost predicate Merges(a: seq<Item>, b: seq<Item>, all: seq<Item>) {
    if all == [] then a == [] && b == []
    else
      var rest, last := all[..|all| - 1], all[|all| - 1];
      || (a != [] && a[|a| - 1] == last && Merges(a[..|a| - 1], b, rest))
      || (b != [] && b[|b| - 1] == last && Merges(a, b[..|b| - 1], rest))
  }

  lemma MergesPush(a: seq<Item>, b: seq<Item>, all: seq<Item>, x: Item)
    requires Merges(a, b, all)
    ensures Merges(a + [x], b, all + [x]) && Merges(a, b + [x], all + [x])
  {
    assert (all + [x])[..|all|] == all && (a + [x])[..|a|] == a && (b + [x])[..|b|] == b;
  }

  lemma {:induction false} MergesAlone(a: seq<Item>, all: seq<Item>)
    requires Merges(a, [], all)
    ensures a == all
  {
    if all != [] {
      MergesAlone(a[..|a| - 1], all[..|all| - 1]);
      LastSplit(a);
      LastSplit(all);
    }
  }

  /** A group is what it was without the items popped, which were picked or discarded in the order
      they stood in, from the last one back. */
  ghost predicate FromTheEnd(g0: Groups, s: Draw, c: nat, r: nat) {
    PoppedTo(Group(g0, c, r), Group(s.groups, c, r), Only(s.picked, c, r), Only(s.dropped, c, r))
  }

  ghost predicate PoppedTo(all: seq<Item>, left: seq<Item>, picked: seq<Item>, dropped: seq<Item>) {
    left <= all && Merges(picked, dropped, Back(all, |left|))
  }

  lemma StartIsFromTheEnd(g0: Groups, c: nat, r: nat)
    ensures FromTheEnd(g0, Start(g0), c, r)
  {
  }

  lemma PopTakesLast(all: seq<Item>, left: seq<Item>, picked: seq<Item>, dropped: seq<Item>)
    requires left != [] && PoppedTo(all, left, picked, dropped)
    ensures var it, left' := left[|left| - 1], left[..|left| - 1];
            PoppedTo(all, left', picked + [it], dropped) && PoppedTo(all, left', picked, dropped + [it])
  {
    var it := left[|left| - 1];
    MergesPush(picked, dropped, Back(all, |left|), it);
    assert Back(all, |left| - 1) == Back(all, |left|) + [it];
  }

  lemma TurnOfOwn(s: Draw, caps: Caps, c: nat, rule: nat)
    requires Group(s.groups, c, rule) != [] && Has(Top(s.groups, c, rule), Slot(c, rule))
    ensures var t, it := Turn(s, caps, c, rule), Top(s.groups, c, rule);
            var group := Group(s.groups, c, rule);
            && Group(t.groups, c, rule) == group[..|group| - 1]
            && ((Only(t.picked, c, rule) == Only(s.picked, c, rule) + [it]
                 && Only(t.dropped, c, rule) == Only(s.dropped, c, rule))
                || (Only(t.picked, c, rule) == Only(s.picked, c, rule)
                    && Only(t.dropped, c, rule) == Only(s.dropped, c, rule) + [it]))
  {
    OnlyPush(s.picked, Top(s.groups, c, rule), c, rule);
    OnlyPush(s.dropped, Top(s.groups, c, rule), c, rule);
  }

  lemma TurnOfOther(s: Draw, caps: Caps, c: nat, rule: nat, c': nat, r': nat)
    requires Group(s.groups, c, rule) != [] && (c', r') != (c, rule)
    requires !Has(Top(s.groups, c, rule), Slot(c', r'))
    ensures var t := Turn(s, caps, c, rule);
            && Group(t.groups, c', r') == Group(s.groups, c', r')
            && Only(t.picked, c', r') == Only(s.picked, c', r')
            && Only(t.dropped, c', r') == Only(s.dropped, c', r')
  {
    GroupAfterPop(s.groups, c, rule, c', r');
    OnlyPush(s.picked, Top(s.groups, c, rule), c', r');
    OnlyPush(s.dropped, Top(s.groups, c, rule), c', r');
  }

  lemma TurnKeepsEnd(pool: seq<Item>, g0: Groups, s: Draw, caps: Caps, c: nat, rule: nat, c': nat, r': nat)
    requires Sound(pool, s, caps) && Group(s.groups, c, rule) != [] && FromTheEnd(g0, s, c', r')
    ensures FromTheEnd(g0, Turn(s, caps, c, rule), c', r')
  {
    TopIsPooled(pool, s.groups, s.picked, s.dropped, c, rule);
    if (c', r') == (c, rule) {
      PopTakesLast(Group(g0, c, rule), Group(s.groups, c, rule), Only(s.picked, c, rule), Only(s.dropped, c, rule));
      TurnOfOwn(s, caps, c, rule);
    } else {
      TurnOfOther(s, caps, c, rule, c', r');
    }
  }

  lemma {:induction false} VisitKeepsEnd(pool: seq<Item>, g0: Groups, s: Draw, caps: Caps, c: nat, order: seq<nat>,
                                         c': nat, r': nat)
    requires Sound(pool, s, caps) && FromTheEnd(g0, s, c', r')
    ensures FromTheEnd(g0, Visit(s, caps, c, order), c', r')
    decreases Stock(s.groups, c, order)
  {
    if Rules(s, caps, c, order) != [] {
      var rule := Due(s, caps, c, order);
      PopShrinksStock(s.groups, c, rule, order);
      TurnKeepsEnd(pool, g0, s, caps, c, rule, c', r');
      if !HasRoom(s, caps, Top(s.groups, c, rule).family) {
        TurnKeepsSound(pool, s, caps, c, rule);
        VisitKeepsEnd(pool, g0, Turn(s, caps, c, rule), caps, c, order, c', r');
      }
    }
  }

  lemma {:induction false} PassKeepsEnd(pool: seq<Item>, g0: Groups, s: Draw, caps: Caps, c: nat, cwes: nat,
                                        order: seq<nat>, c': nat, r': nat)
    requires Sound(pool, s, caps) && FromTheEnd(g0, s, c', r')
    ensures FromTheEnd(g0, Pass(s, caps, c, cwes, order).0, c', r')
    decreases cwes - c
  {
    if c < cwes && |s.picked| < caps.quota {
      VisitKeepsSound(pool, s, caps, c, order);
      VisitKeepsEnd(pool, g0, s, caps, c, order, c', r');
      PassKeepsEnd(pool, g0, Visit(s, caps, c, order), caps, c + 1, cwes, order, c', r');
    }
  }

  lemma {:induction false} RoundsKeepEnd(pool: seq<Item>, g0: Groups, s: Draw, caps: Caps, cwes: nat,
                                         order: seq<nat>, c': nat, r': nat)
    requires Sound(pool, s, caps) && FromTheEnd(g0, s, c', r')
    ensures FromTheEnd(g0, Rounds(s, caps, cwes, order), c', r')
    decreases caps.quota - |s.picked|
  {
    if |s.picked| < caps.quota {
      PassGrows(s, caps, 0, cwes, order);
      PassKeepsSound(pool, s, caps, 0, cwes, order);
      PassKeepsEnd(pool, g0, s, caps, 0, cwes, order, c', r');
      var t := Pass(s, caps, 0, cwes, order).0;
      if |t.picked| > |s.picked| {
        RoundsKeepEnd(pool, g0, t, caps, cwes, order, c', r');
      }
    }
  }

  // ---------------------------------------------------------------- going round the CWEs

  /** How many items of its own CWE were picked before pick i. */
  function Earlier(picked: seq<Item>, i: nat): nat
    requires i < |picked|
  {
    Tally(picked[..i], Cwe(picked[i].cwe))
  }

  /** Pick i belongs before pick j: it is an earlier pick of its CWE than j is of its own, or the
      same one and its CWE comes first. */
  ghost predicate Precedes(picked: seq<Item>, i: nat, j: nat)
    requires i < |picked| && j < |picked|
  {
    || Earlier(picked, i) < Earlier(picked, j)
    || (Earlier(picked, i) == Earlier(picked, j) && picked[i].cwe < picked[j].cwe)
  }

  /** All the first picks of a CWE come first, by CWE, then all the second picks, and so on. */
  ghost predicate GoesRound(picked: seq<Item>) {
    forall i, j :: 0 <= i < j < |picked| ==> Precedes(picked, i, j)
  }

  /** All picks come before pick number `rounds` of CWE c. */
  ghost predicate Behind(picked: seq<Item>, rounds: nat, c: nat) {
    forall i :: 0 <= i < |picked| ==>
      Earlier(picked, i) < rounds || (Earlier(picked, i) == rounds && picked[i].cwe < c)
  }

  lemma EarlierPush(picked: seq<Item>, it: Item, i: nat)
    requires i <= |picked|
    ensures Earlier(picked + [it], i) == if i < |picked| then Earlier(picked, i) else Tally(picked, Cwe(it.cwe))
  {
    var all := picked + [it];
    if i < |picked| {
      assert all[..i] == picked[..i] && all[i] == picked[i];
    } else {
      assert all[..i] == picked;
    }
  }

  lemma PickGoesRound(picked: seq<Item>, all: seq<Item>, it: Item, rounds: nat)
    requires GoesRound(picked) && Behind(picked, rounds, it.cwe) && Tally(picked, Cwe(it.cwe)) == rounds
    requires all == picked + [it]
    ensures GoesRound(all) && Behind(all, rounds, it.cwe + 1)
  {
    forall i, j | 0 <= i < j < |all| ensures Precedes(all, i, j) {
      EarlierPush(picked, it, i);
      EarlierPush(picked, it, j);
      assert j < |picked| ==> Precedes(picked, i, j);
    }
    forall i | 0 <= i < |all|
      ensures Earlier(all, i) < rounds || (Earlier(all, i) == rounds && all[i].cwe < it.cwe + 1)
    {
      EarlierPush(picked, it, i);
    }
  }

  lemma RulesAreNotShut(s: Draw, caps: Caps, c: nat, order: seq<nat>)
    requires Counted(s.picked, s.taken, caps.rule) && Rules(s, caps, c, order) != []
    ensures !Shut(s.groups, s.picked, caps.rule, c)
  {
    var r := Rules(s, caps, c, order)[0];
    assert r in Rules(s, caps, c, order);
    assert At(s.taken, r) == Tally(s.picked, Rule(r));
  }

  /** What a visit picks is of its CWE. */
  lemma {:induction false} VisitPicksItsOwn(pool: seq<Item>, s: Draw, caps: Caps, c: nat, order: seq<nat>)
    requires Sound(pool, s, caps)
    ensures var t := Visit(s, caps, c, order);
            t.picked == s.picked || exists it: Item :: it.cwe == c && t.picked == s.picked + [it]
    decreases Stock(s.groups, c, order)
  {
    if Rules(s, caps, c, order) != [] {
      var rule := Due(s, caps, c, order);
      PopShrinksStock(s.groups, c, rule, order);
      TopIsPooled(pool, s.groups, s.picked, s.dropped, c, rule);
      if !HasRoom(s, caps, Top(s.groups, c, rule).family) {
        TurnKeepsSound(pool, s, caps, c, rule);
        VisitPicksItsOwn(pool, Turn(s, caps, c, rule), caps, c, order);
      }
    }
  }

  lemma VisitGoesRound(pool: seq<Item>, s: Draw, caps: Caps, c: nat, order: seq<nat>, rounds: nat)
    requires Sound(pool, s, caps) && Paced(s, caps, c, rounds)
    requires GoesRound(s.picked) && Behind(s.picked, rounds, c)
    ensures var t := Visit(s, caps, c, order); GoesRound(t.picked) && Behind(t.picked, rounds, c + 1)
  {
    VisitPicksItsOwn(pool, s, caps, c, order);
    var t := Visit(s, caps, c, order);
    if t.picked != s.picked {
      RulesAreNotShut(s, caps, c, order);
      var it: Item :| it.cwe == c && t.picked == s.picked + [it];
      PickGoesRound(s.picked, t.picked, it, rounds);
    }
  }

  /** The CWEs from c on have had `rounds` visits. */
  ghost predicate AheadPaced(s: Draw, caps: Caps, c: nat, cwes: nat, rounds: nat) {
    forall b: nat :: c <= b < cwes ==> Paced(s, caps, b, rounds)
  }

  lemma VisitKeepsAhead(pool: seq<Item>, g0: Groups, s: Draw, caps: Caps, c: nat, cwes: nat, order: seq<nat>,
                        rounds: nat)
    requires Sound(pool, s, caps) && Listed(g0, s.groups, order) && AheadPaced(s, caps, c, cwes, rounds)
    ensures AheadPaced(Visit(s, caps, c, order), caps, c + 1, cwes, rounds)
  {
    forall b: nat | c + 1 <= b < cwes ensures Paced(Visit(s, caps, c, order), caps, b, rounds) {
      VisitKeepsPace(pool, g0, s, caps, c, order, b, rounds);
    }
  }

  lemma {:induction false} PassGoesRound(pool: seq<Item>, g0: Groups, s: Draw, caps: Caps, c: nat, cwes: nat,
                                         order: seq<nat>, rounds: nat)
    requires Sound(pool, s, caps) && Listed(g0, s.groups, order) && AheadPaced(s, caps, c, cwes, rounds)
    requires GoesRound(s.picked) && Behind(s.picked, rounds, c)
    ensures var (t, stop) := Pass(s, caps, c, cwes, order); GoesRound(t.picked) && Behind(t.picked, rounds, stop)
    decreases cwes - c
  {
    if c < cwes && |s.picked| < caps.quota {
      VisitKeepsSound(pool, s, caps, c, order);
      VisitKeepsListed(g0, s, caps, c, order);
      VisitKeepsAhead(pool, g0, s, caps, c, cwes, order, rounds);
      VisitGoesRound(pool, s, caps, c, order, rounds);
      PassGoesRound(pool, g0, Visit(s, caps, c, order), caps, c + 1, cwes, order, rounds);
    }
  }

  lemma NextRound(picked: seq<Item>, rounds: nat, stop: nat)
    requires Behind(picked, rounds, stop)
    ensures Behind(picked, rounds + 1, 0)
  {
  }

  lemma AheadAtStart(s: Draw, caps: Caps, cwes: nat, rounds: nat)
    requires MidPass(s, caps, 0, cwes, rounds)
    ensures AheadPaced(s, caps, 0, cwes, rounds)
  {
    forall b: nat | b < cwes ensures Paced(s, caps, b, rounds) {
      assert Paced(s, caps, b, Visits(b, 0, 0, rounds));
    }
  }

  lemma {:induction false} RoundsGoRound(pool: seq<Item>, g0: Groups, s: Draw, caps: Caps, cwes: nat, order: seq<nat>,
                                         rounds: nat)
    requires Sound(pool, s, caps) && Listed(g0, s.groups, order) && MidPass(s, caps, 0, cwes, rounds)
    requires GoesRound(s.picked) && Behind(s.picked, rounds, 0)
    ensures GoesRound(Rounds(s, caps, cwes, order).picked)
    decreases caps.quota - |s.picked|
  {
    if |s.picked| < caps.quota {
      var (t, stop) := Pass(s, caps, 0, cwes, order);
      AheadAtStart(s, caps, cwes, rounds);
      PassGoesRound(pool, g0, s, caps, 0, cwes, order, rounds);
      PassKeepsBoth(pool, g0, s, caps, cwes, order);
      PassToMidPass(pool, g0, s, caps, cwes, order, rounds);
      CutPassEndsDraw(s, caps, cwes, order);
      if |t.picked| != |s.picked| && stop >= cwes {
        FullPassIsMidPass(t, caps, stop, cwes, rounds);
        NextRound(t.picked, rounds, stop);
        RoundsGoRound(pool, g0, t, caps, cwes, order, rounds + 1);
      }
    }
  }
}
