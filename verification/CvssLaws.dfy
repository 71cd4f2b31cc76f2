/** Laws of the base score: it follows severity, it is zero exactly without impact, and it gives the
    scores that are published for ten vectors. */
module CvssLaws {
  import opened CvssRoundup
  import opened CvssVector
  import opened CvssScore

  // ---------------------------------------------------------------- severity

  /** The values of a metric from the least severe to the most; scope has no such order. */
  function Ranked(name: string): seq<string> {
    match name
    case "AV" => ["P", "L", "A", "N"]
    case "AC" => ["H", "L"]
    case "PR" => ["H", "L", "N"]
    case "UI" => ["R", "N"]
    case "C" => ["N", "L", "H"]
    case "I" => ["N", "L", "H"]
    case "A" => ["N", "L", "H"]
    case _ => []
  }

  /** These are the tabled values, and scope is unchanged or changed. */
  lemma RankedAreTabled(name: string, value: string)
    requires name in NAMES
    ensures name != "S" ==> (value in Values(name) <==> value in Ranked(name))
    ensures name == "S" ==> (value in Values(name) <==> value == "U" || value == "C")
  {
  }

  ghost predicate Milder(name: string, v: string, w: string) {
    exists i, j :: 0 <= i <= j < |Ranked(name)| && Ranked(name)[i] == v && Ranked(name)[j] == w
  }

  // ---------------------------------------------------------------- exploitability

  lemma ProductGrows(a: real, b: real, a': real, b': real)
    requires 0.0 <= a <= a' && 0.0 <= b <= b'
    ensures 0.0 <= a * b <= a' * b'
  {
    assert a * b <= a' * b;
    assert a' * b <= a' * b';
  }

  /** The four factors of exploitability. */
  function Reach(av: string, ac: string, pr: string, ui: string, changed: bool): real {
    AttackVector(av) * AttackComplexity(ac) * Privileges(pr, changed) * Interaction(ui)
  }

  lemma ReachGrows(av: string, ac: string, pr: string, ui: string, av': string, ac': string, pr': string, ui': string,
                   changed: bool)
    requires AttackVector(av) <= AttackVector(av') && AttackComplexity(ac) <= AttackComplexity(ac')
    requires Privileges(pr, changed) <= Privileges(pr', changed) && Interaction(ui) <= Interaction(ui')
    ensures 0.0 <= Reach(av, ac, pr, ui, changed) <= Reach(av', ac', pr', ui', changed)
  {
    var a, b, c, d := AttackVector(av), AttackComplexity(ac), Privileges(pr, changed), Interaction(ui);
    var a', b', c', d' := AttackVector(av'), AttackComplexity(ac'), Privileges(pr', changed), Interaction(ui');
    ProductGrows(a, b, a', b');
    ProductGrows(a * b, c, a' * b', c');
    ProductGrows(a * b * c, d, a' * b' * c', d');
  }

  lemma WeightsFollowSeverity(name: string, v: string, w: string, changed: bool)
    requires Milder(name, v, w)
    ensures name == "AV" ==> AttackVector(v) <= AttackVector(w)
    ensures name == "AC" ==> AttackComplexity(v) <= AttackComplexity(w)
    ensures name == "PR" ==> Privileges(v, changed) <= Privileges(w, changed)
    ensures name == "UI" ==> Interaction(v) <= Interaction(w)
    ensures name in ["C", "I", "A"] ==> 0.0 <= ImpactWeight(v) <= ImpactWeight(w) <= 0.56
  {
  }

  // ---------------------------------------------------------------- impact

  lemma {:induction false} PowerAdd(x: real, m: nat, n: nat)
    ensures Power(x, m + n) == Power(x, m) * Power(x, n)
  {
    if m == 0 {
      NoPower(x, n);
    } else {
      PowerAdd(x, m - 1, n);
      PowerGrows(x, m, n, Power(x, m - 1), Power(x, n));
    }
  }

  lemma NoPower(x: real, n: nat)
    ensures Power(x, 0 + n) == Power(x, 0) * Power(x, n)
  {
    assert Power(x, 0) == 1.0;
  }

  lemma PowerGrows(x: real, m: nat, n: nat, a: real, b: real)
    requires m > 0 && Power(x, m - 1 + n) == a * b && Power(x, m - 1) == a
    ensures Power(x, m + n) == Power(x, m) * b
  {
    PowerStep(x, m);
    PowerStep(x, m + n);
    Regrouped(x, a, b);
  }

  lemma PowerStep(x: real, m: nat)
    requires m > 0
    ensures Power(x, m) == x * Power(x, m - 1)
  {
  }

  lemma Regrouped(a: real, b: real, c: real)
    ensures a * (b * c) == (a * b) * c
  {
  }

  /** The fifteenth power from squares. */
  lemma PowerFifteen(x: real, x2: real, x4: real, x8: real)
    requires x2 == x * x && x4 == x2 * x2 && x8 == x4 * x4
    ensures Power(x, 15) == x8 * (x4 * (x2 * x))
  {
    assert Power(x, 1) == x * Power(x, 0) == x;
    PowerAdd(x, 1, 1);
    PowerAdd(x, 2, 2);
    PowerAdd(x, 4, 4);
    PowerAdd(x, 2, 1);
    PowerAdd(x, 4, 3);
    PowerAdd(x, 8, 7);
  }

  /** What is left unharmed: (1 - C)(1 - I)(1 - A). */
  function Unharmed(c: string, i: string, a: string): real {
    (1.0 - ImpactWeight(c)) * (1.0 - ImpactWeight(i)) * (1.0 - ImpactWeight(a))
  }

  function ChangedImpact(q: real): real {
    7.52 * (0.971 - q) - 3.25 * Power(0.98 - q, 15)
  }

  /** All it can be, from no impact to full impact. */
  const LEVELS := [1.0, 0.78, 0.6084, 0.474552, 0.44, 0.3432, 0.267696, 0.1936, 0.151008, 0.085184]

  /** Bounds for the impact at each level with a changed scope, one above the other. */
  const FLOORS := [-0.22, 1.4, 2.725, 3.7, 3.98, 4.7, 5.2, 5.7, 5.96, 6.04]
  const ROOFS := [-0.21, 1.44, 2.73, 3.74, 3.995, 4.73, 5.3, 5.77, 5.98, 6.05]

  /** Where the impact lies, from a bound on the fifteenth power got by squaring upper bounds. */
  lemma ImpactAt(q: real, x: real, x2: real, x4: real, x8: real)
    requires x == 0.98 - q && x2 == x * x && x4 == x2 * x2 && x8 == x4 * x4
    ensures ChangedImpact(q) == 7.52 * (0.971 - q) - 3.25 * (x8 * (x4 * (x2 * x)))
  {
    PowerFifteen(x, x2, x4, x8);
  }

  ghost predicate Within(q: real, floor: real, roof: real) {
    floor <= ChangedImpact(q) <= roof
  }

  lemma LowLevels()
    ensures Within(1.0, -0.22, -0.21) && Within(0.78, 1.4, 1.44) && Within(0.6084, 2.725, 2.73)
    ensures Within(0.474552, 3.7, 3.74)
  {
    Squares(1.0, -0.02);
    Squares(0.78, 0.2);
    Squares(0.6084, 0.3716);
    Squares(0.474552, 0.505448);
  }

  lemma MiddleLevels()
    ensures Within(0.44, 3.98, 3.995) && Within(0.3432, 4.7, 4.73) && Within(0.267696, 5.2, 5.3)
  {
    Squares(0.44, 0.54);
    Squares(0.3432, 0.6368);
    Squares(0.267696, 0.712304);
  }

  lemma HighLevels()
    ensures Within(0.1936, 5.7, 5.77) && Within(0.151008, 5.96, 5.98) && Within(0.085184, 6.04, 6.05)
  {
    Squares(0.1936, 0.7864);
    Squares(0.151008, 0.828992);
    Squares(0.085184, 0.894816);
  }

  lemma Squares(q: real, x: real)
    requires x == 0.98 - q
    ensures var x2 := x * x;
            var x4 := x2 * x2;
            var x8 := x4 * x4;
            ChangedImpact(q) == 7.52 * (0.971 - q) - 3.25 * (x8 * (x4 * (x2 * x)))
  {
    var x2 := x * x;
    var x4 := x2 * x2;
    ImpactAt(q, x, x2, x4, x4 * x4);
  }

  lemma LevelWithin(k: nat)
    requires k < 10
    ensures Within(LEVELS[k], FLOORS[k], ROOFS[k])
  {
    LowLevels();
    MiddleLevels();
    HighLevels();
  }

  lemma {:induction false} LevelsRise(j: nat, k: nat)
    requires j <= k < 10
    ensures ChangedImpact(LEVELS[j]) <= ChangedImpact(LEVELS[k]) && LEVELS[j] >= LEVELS[k]
    decreases k
  {
    if j < k {
      LevelsRise(j, k - 1);
      LevelWithin(k - 1);
      LevelWithin(k);
      assert ROOFS[k - 1] < FLOORS[k] && LEVELS[k - 1] >= LEVELS[k];
    }
  }

  // ---------------------------------------------------------------- the level of an impact

  function Count(value: string, c: string, i: string, a: string): nat {
    (if c == value then 1 else 0) + (if i == value then 1 else 0) + if a == value then 1 else 0
  }

  predicate IsDegree(value: string) {
    value == "N" || value == "L" || value == "H"
  }

  /** Which level, told from how many of the three are low and how many high. */
  function LevelAt(low: nat, high: nat): nat {
    if high == 0 then low else if high == 1 then 4 + low else if high == 2 then 7 + low else 9
  }

  function Level(c: string, i: string, a: string): nat {
    LevelAt(Count("L", c, i, a), Count("H", c, i, a))
  }

  lemma LevelIs(c: string, i: string, a: string)
    requires IsDegree(c) && IsDegree(i) && IsDegree(a)
    ensures Level(c, i, a) < 10 && Unharmed(c, i, a) == LEVELS[Level(c, i, a)]
  {
    assert ImpactWeight("N") == 0.0 && ImpactWeight("L") == 0.22 && ImpactWeight("H") == 0.56;
  }

  /** One degree more severe is a level at least as high. */
  lemma LevelRises(low: nat, high: nat)
    requires low + high < 3
    ensures LevelAt(low, high) < LevelAt(low + 1, high) < LevelAt(low, high + 1) <= 9
  {
  }

  function One(value: string, degree: string): nat {
    if value == degree then 1 else 0
  }

  /** Beside `low` low and `high` high ones, a more severe degree is a level at least as high. */
  lemma DegreeRises(v: string, w: string, low: nat, high: nat)
    requires low + high <= 2 && Milder("C", v, w)
    ensures LevelAt(low + One(v, "L"), high + One(v, "H")) <= LevelAt(low + One(w, "L"), high + One(w, "H"))
  {
    LevelRises(low, high);
    assert v == "N" || v == "L" || v == "H";
  }

  lemma SameRanking(v: string, w: string)
    ensures Milder("C", v, w) <==> Milder("I", v, w)
    ensures Milder("C", v, w) <==> Milder("A", v, w)
  {
    assert Ranked("C") == Ranked("I") == Ranked("A");
  }

  lemma LevelByOnes(c: string, i: string, a: string)
    ensures Level(c, i, a) == LevelAt(One(i, "L") + One(a, "L") + One(c, "L"), One(i, "H") + One(a, "H") + One(c, "H"))
  {
  }

  lemma AtMostTwo(i: string, a: string)
    requires IsDegree(i) && IsDegree(a)
    ensures One(i, "L") + One(a, "L") + (One(i, "H") + One(a, "H")) <= 2
  {
  }

  /** So for any one of the three values; which one does not matter to the level. */
  lemma LevelFollowsSeverity(c: string, i: string, a: string, w: string)
    requires IsDegree(i) && IsDegree(a) && Milder("C", c, w)
    ensures Level(c, i, a) <= Level(w, i, a)
  {
    AtMostTwo(i, a);
    DegreeRises(c, w, One(i, "L") + One(a, "L"), One(i, "H") + One(a, "H"));
    LevelByOnes(c, i, a);
    LevelByOnes(w, i, a);
  }

  lemma LevelIsSymmetric(c: string, i: string, a: string)
    ensures Level(c, i, a) == Level(i, c, a) == Level(a, i, c)
  {
  }

  /** The three impact values of a full set of metrics. */
  lemma DegreesOf(m: Metrics)
    requires IsFull(m)
    ensures "C" in m && "I" in m && "A" in m && "S" in m
    ensures IsDegree(m["C"]) && IsDegree(m["I"]) && IsDegree(m["A"]) && (m["S"] == "U" || m["S"] == "C")
  {
    Named("C");
    Named("I");
    Named("A");
    Named("S");
    assert m["C"] in Values("C") && m["I"] in Values("I") && m["A"] in Values("A") && m["S"] in Values("S");
  }

  lemma ImpactOf(m: Metrics, q: real)
    requires IsFull(m) && "C" in m && "I" in m && "A" in m && "S" in m && q == Unharmed(m["C"], m["I"], m["A"])
    ensures Impact(m) == if m["S"] == "C" then ChangedImpact(q) else 6.42 * (1.0 - q)
  {
  }

  /** The impact is told by its level. */
  lemma ImpactByLevel(m: Metrics)
    requires IsFull(m) && "C" in m && "I" in m && "A" in m && "S" in m
    ensures var k := Level(m["C"], m["I"], m["A"]);
            k < 10 && Impact(m) == if m["S"] == "C" then ChangedImpact(LEVELS[k]) else 6.42 * (1.0 - LEVELS[k])
  {
    DegreesOf(m);
    LevelIs(m["C"], m["I"], m["A"]);
    ImpactOf(m, LEVELS[Level(m["C"], m["I"], m["A"])]);
  }

  lemma HigherLevel(m: Metrics, m': Metrics)
    requires IsFull(m) && IsFull(m') && "C" in m && "I" in m && "A" in m && "S" in m
    requires "C" in m' && "I" in m' && "A" in m' && "S" in m' && m["S"] == m'["S"]
    requires Level(m["C"], m["I"], m["A"]) <= Level(m'["C"], m'["I"], m'["A"])
    ensures Impact(m) <= Impact(m')
  {
    ImpactByLevel(m);
    ImpactByLevel(m');
    LevelsRise(Level(m["C"], m["I"], m["A"]), Level(m'["C"], m'["I"], m'["A"]));
  }

  // ---------------------------------------------------------------- the score

  lemma ScoreGrows(impact: real, e: real, impact': real, e': real, changed: bool)
    requires impact <= impact' && 0.0 <= e <= e'
    ensures ScoreFrom(impact, e, changed) <= ScoreFrom(impact', e', changed)
  {
    if impact > 0.0 {
      RoundupMonotone(Min(Sum(impact, e, changed), 10.0), Min(Sum(impact', e', changed), 10.0));
    } else if impact' > 0.0 {
      RoundupInRange(Min(Sum(impact', e', changed), 10.0));
    }
  }

  lemma ExploitabilityIs(m: Metrics)
    requires IsFull(m) && forall n :: n in NAMES ==> n in m
    ensures "AV" in m && "AC" in m && "PR" in m && "UI" in m && "S" in m
    ensures Exploitability(m) == 8.22 * Reach(m["AV"], m["AC"], m["PR"], m["UI"], m["S"] == "C")
  {
    Named("AV");
    Named("AC");
    Named("PR");
    Named("UI");
    Named("S");
    var a, b := AttackVector(m["AV"]), AttackComplexity(m["AC"]);
    var c, d := Privileges(m["PR"], m["S"] == "C"), Interaction(m["UI"]);
    assert 8.22 * a * b * c * d == 8.22 * (a * b * c * d) by {
      Regrouped(8.22, a, b);
      Regrouped(8.22, a * b, c);
      Regrouped(8.22, a * b * c, d);
    }
  }

  lemma StillFull(m: Metrics, name: string, w: string)
    requires IsFull(m) && name in NAMES && w in Values(name)
    ensures IsFull(m[name := w])
  {
  }

  lemma ImpactFollowsSeverity(m: Metrics, name: string, w: string)
    requires IsFull(m) && name in NAMES && name != "S" && name in m && Milder(name, m[name], w)
    ensures w in Values(name) && IsFull(m[name := w]) && Impact(m) <= Impact(m[name := w])
  {
    RankedAreTabled(name, w);
    StillFull(m, name, w);
    var m' := m[name := w];
    DegreesOf(m);
    DegreesOf(m');
    SameRanking(m[name], w);
    if name == "C" {
      LevelFollowsSeverity(m["C"], m["I"], m["A"], w);
    } else if name == "I" {
      LevelFollowsSeverity(m["I"], m["C"], m["A"], w);
      LevelIsSymmetric(m["C"], m["I"], m["A"]);
      LevelIsSymmetric(m["C"], w, m["A"]);
    } else if name == "A" {
      LevelFollowsSeverity(m["A"], m["I"], m["C"], w);
      LevelIsSymmetric(m["C"], m["I"], m["A"]);
      LevelIsSymmetric(m["C"], m["I"], w);
    }
    HigherLevel(m, m');
  }

  lemma ExploitabilityFollowsSeverity(m: Metrics, name: string, w: string)
    requires IsFull(m) && name in NAMES && name != "S" && name in m && Milder(name, m[name], w)
    requires IsFull(m[name := w])
    ensures 0.0 <= Exploitability(m) <= Exploitability(m[name := w])
  {
    var m' := m[name := w];
    ExploitabilityIs(m);
    ExploitabilityIs(m');
    WeightsFollowSeverity(name, m[name], w, m["S"] == "C");
    ReachGrows(m["AV"], m["AC"], m["PR"], m["UI"], m'["AV"], m'["AC"], m'["PR"], m'["UI"], m["S"] == "C");
  }

  /** Making one metric more severe never lowers the score. Scope is not a matter of severity. */
  lemma ScoreFollowsSeverity(m: Metrics, name: string, w: string)
    requires IsFull(m) && name in NAMES && name != "S" && name in m && Milder(name, m[name], w)
    ensures IsFull(m[name := w]) && Score(m) <= Score(m[name := w])
  {
    ImpactFollowsSeverity(m, name, w);
    ExploitabilityFollowsSeverity(m, name, w);
    DegreesOf(m);
    DegreesOf(m[name := w]);
    ScoreGrows(Impact(m), Exploitability(m), Impact(m[name := w]), Exploitability(m[name := w]), m["S"] == "C");
  }

  lemma SomeLevel(k: nat)
    requires k < 10
    ensures k == 0 ==> ChangedImpact(LEVELS[k]) < 0.0 && 6.42 * (1.0 - LEVELS[k]) == 0.0
    ensures k > 0 ==> ChangedImpact(LEVELS[k]) >= 1.0 && 6.42 * (1.0 - LEVELS[k]) >= 1.0
  {
    LevelWithin(0);
    LevelWithin(1);
    if k > 0 {
      LevelsRise(1, k);
    }
  }

  /** The score is zero exactly when nothing is harmed. */
  lemma ZeroExactlyWithoutImpact(m: Metrics)
    requires IsFull(m) && forall n :: n in NAMES ==> n in m
    ensures "C" in m && "I" in m && "A" in m
    ensures Score(m) == 0.0 <==> m["C"] == "N" && m["I"] == "N" && m["A"] == "N"
  {
    DegreesOf(m);
    ImpactByLevel(m);
    var k := Level(m["C"], m["I"], m["A"]);
    SomeLevel(k);
    assert k == 0 <==> m["C"] == "N" && m["I"] == "N" && m["A"] == "N";
    if k > 0 {
      NoiseDoesNotAddATenth(10, 0.0);
      RoundupMonotone(1.0, Min(Sum(Impact(m), Exploitability(m), m["S"] == "C"), 10.0));
    }
  }

  // ---------------------------------------------------------------- published scores

  /** The metrics by their values, in table order. */
  function Metric(av: string, ac: string, pr: string, ui: string, s: string, c: string, i: string, a: string): Metrics {
    map["AV" := av, "AC" := ac, "PR" := pr, "UI" := ui, "S" := s, "C" := c, "I" := i, "A" := a]
  }

  lemma MetricIsFull(av: string, ac: string, pr: string, ui: string, s: string, c: string, i: string, a: string)
    requires av in Values("AV") && ac in Values("AC") && pr in Values("PR") && ui in Values("UI") && s in Values("S")
    requires c in Values("C") && i in Values("I") && a in Values("A")
    ensures IsFull(Metric(av, ac, pr, ui, s, c, i, a))
  {
  }

  lemma RoundupIn(raw: real, t: int)
    requires Tenths(t - 1) + 0.00001 < raw <= Tenths(t)
    ensures Roundup(raw) == Tenths(t)
  {
    RoundupIs(raw, t);
    RoundupMonotone(raw, Tenths(t));
    NoiseDoesNotAddATenth(t, 0.0);
    RoundupIsLeastTenth(raw);
    NotBelow(raw, t);
  }

  lemma NotBelow(raw: real, t: int)
    requires Tenths(t - 1) + 0.00001 < raw
    ensures Tenths(t - 1) < Rounded5(raw)
  {
  }

  /** A score is the tenth t when what is rounded lies in the tenth below it, for bounds of the impact. */
  lemma ScoreAt(impact: real, e: real, changed: bool, floor: real, roof: real, t: int)
    requires 0.0 < floor <= impact <= roof
    requires Tenths(t - 1) + 0.00001 < Min(Sum(floor, e, changed), 10.0)
    requires Min(Sum(roof, e, changed), 10.0) <= Tenths(t)
    ensures ScoreFrom(impact, e, changed) == Tenths(t)
  {
    RoundupIn(Min(Sum(impact, e, changed), 10.0), t);
  }

  lemma MetricScore(av: string, ac: string, pr: string, ui: string, s: string, c: string, i: string, a: string)
    requires av in Values("AV") && ac in Values("AC") && pr in Values("PR") && ui in Values("UI") && s in Values("S")
    requires c in Values("C") && i in Values("I") && a in Values("A")
    ensures var m, k := Metric(av, ac, pr, ui, s, c, i, a), Level(c, i, a);
            && IsFull(m) && k < 10
            && Score(m) == ScoreFrom(if s == "C" then ChangedImpact(LEVELS[k]) else 6.42 * (1.0 - LEVELS[k]),
                                     8.22 * Reach(av, ac, pr, ui, s == "C"), s == "C")
  {
    var m := Metric(av, ac, pr, ui, s, c, i, a);
    MetricIsFull(av, ac, pr, ui, s, c, i, a);
    MetricAt(av, ac, pr, ui, s, c, i, a);
    ImpactByLevel(m);
    ExploitabilityIs(m);
  }

  ghost predicate Scores(m: Metrics, score: real) {
    IsFull(m) && Score(m) == score
  }

  lemma Unchanged(av: string, ac: string, pr: string, ui: string, c: string, i: string, a: string, k: nat, e: real,
                  t: int)
    requires av in Values("AV") && ac in Values("AC") && pr in Values("PR") && ui in Values("UI")
    requires c in Values("C") && i in Values("I") && a in Values("A") && k == Level(c, i, a) && 0 < k < 10
    requires e == 8.22 * Reach(av, ac, pr, ui, false)
    requires Tenths(t - 1) + 0.00001 < Min(6.42 * (1.0 - LEVELS[k]) + e, 10.0) <= Tenths(t)
    ensures Scores(Metric(av, ac, pr, ui, "U", c, i, a), Tenths(t))
  {
    MetricScore(av, ac, pr, ui, "U", c, i, a);
    UnchangedAt(k, e, 6.42 * (1.0 - LEVELS[k]), t);
  }

  lemma UnchangedAt(k: nat, e: real, impact: real, t: int)
    requires 0 < k < 10 && impact == 6.42 * (1.0 - LEVELS[k])
    requires Tenths(t - 1) + 0.00001 < Min(impact + e, 10.0) <= Tenths(t)
    ensures ScoreFrom(impact, e, false) == Tenths(t)
  {
    SomeLevel(k);
    ScoreAt(impact, e, false, impact, impact, t);
  }

  lemma Changed(av: string, ac: string, pr: string, ui: string, c: string, i: string, a: string, k: nat, e: real,
                t: int)
    requires av in Values("AV") && ac in Values("AC") && pr in Values("PR") && ui in Values("UI")
    requires c in Values("C") && i in Values("I") && a in Values("A") && k == Level(c, i, a) && 0 < k < 10
    requires e == 8.22 * Reach(av, ac, pr, ui, true)
    requires Tenths(t - 1) + 0.00001 < Min(Sum(FLOORS[k], e, true), 10.0)
    requires Min(Sum(ROOFS[k], e, true), 10.0) <= Tenths(t)
    ensures Scores(Metric(av, ac, pr, ui, "C", c, i, a), Tenths(t))
  {
    MetricScore(av, ac, pr, ui, "C", c, i, a);
    ChangedAt(k, e, FLOORS[k], ROOFS[k], t);
  }

  lemma ChangedAt(k: nat, e: real, floor: real, roof: real, t: int)
    requires 0 < k < 10 && floor == FLOORS[k] && roof == ROOFS[k]
    requires Tenths(t - 1) + 0.00001 < Min(Sum(floor, e, true), 10.0)
    requires Min(Sum(roof, e, true), 10.0) <= Tenths(t)
    ensures ScoreFrom(ChangedImpact(LEVELS[k]), e, true) == Tenths(t)
  {
    LevelWithin(k);
    FloorsArePositive(k);
    ScoreAt(ChangedImpact(LEVELS[k]), e, true, floor, roof, t);
  }

  lemma FloorsArePositive(k: nat)
    requires 0 < k < 10
    ensures FLOORS[k] > 0.0
  {
  }

  lemma VectorNLNNUHHH()
    ensures Scores(Metric("N", "L", "N", "N", "U", "H", "H", "H"), 9.8)
  {
    Unchanged("N", "L", "N", "N", "H", "H", "H", 9, 3.887042775, 98);
  }

  lemma VectorNLNNUHNN()
    ensures Scores(Metric("N", "L", "N", "N", "U", "H", "N", "N"), 7.5)
  {
    Unchanged("N", "L", "N", "N", "H", "N", "N", 4, 3.887042775, 75);
  }

  lemma VectorLLLNUHHH()
    ensures Scores(Metric("L", "L", "L", "N", "U", "H", "H", "H"), 7.8)
  {
    Unchanged("L", "L", "L", "N", "H", "H", "H", 9, 1.83457659, 78);
  }

  lemma VectorLLNRUHHH()
    ensures Scores(Metric("L", "L", "N", "R", "U", "H", "H", "H"), 7.8)
  {
    Unchanged("L", "L", "N", "R", "H", "H", "H", 9, 1.83457659, 78);
  }

  lemma VectorLLLNUNNH()
    ensures Scores(Metric("L", "L", "L", "N", "U", "N", "N", "H"), 5.5)
  {
    Unchanged("L", "L", "L", "N", "N", "N", "H", 4, 1.83457659, 55);
  }

  lemma VectorLLNRUNNL()
    ensures Scores(Metric("L", "L", "N", "R", "U", "N", "N", "L"), 3.3)
  {
    Unchanged("L", "L", "N", "R", "N", "N", "L", 1, 1.83457659, 33);
  }

  lemma VectorNLNNCHHH()
    ensures Scores(Metric("N", "L", "N", "N", "C", "H", "H", "H"), 10.0)
  {
    Changed("N", "L", "N", "N", "H", "H", "H", 9, 3.887042775, 100);
  }

  lemma VectorNLLNCHHH()
    ensures Scores(Metric("N", "L", "L", "N", "C", "H", "H", "H"), 9.9)
  {
    Changed("N", "L", "L", "N", "H", "H", "H", 9, 3.10963422, 99);
  }

  lemma VectorNLNRCLLN()
    ensures Scores(Metric("N", "L", "N", "R", "C", "L", "L", "N"), 6.1)
  {
    Changed("N", "L", "N", "R", "L", "L", "N", 2, 2.83525473, 61);
  }

  /** The scores published for the vectors of unchanged scope that tests/test_cvss.py lists. */
  lemma PublishedUnchanged()
    ensures Scores(Metric("N", "L", "N", "N", "U", "H", "H", "H"), 9.8)
    ensures Scores(Metric("N", "L", "N", "N", "U", "H", "N", "N"), 7.5)
    ensures Scores(Metric("L", "L", "L", "N", "U", "H", "H", "H"), 7.8)
    ensures Scores(Metric("L", "L", "N", "R", "U", "H", "H", "H"), 7.8)
    ensures Scores(Metric("L", "L", "L", "N", "U", "N", "N", "H"), 5.5)
    ensures Scores(Metric("L", "L", "N", "R", "U", "N", "N", "L"), 3.3)
  {
    VectorNLNNUHHH();
    VectorNLNNUHNN();
    VectorLLLNUHHH();
    VectorLLNRUHHH();
    VectorLLLNUNNH();
    VectorLLNRUNNL();
  }

  lemma HarmlessVector()
    ensures Scores(Metric("N", "L", "N", "N", "C", "N", "N", "N"), 0.0)
  {
    MetricIsFull("N", "L", "N", "N", "C", "N", "N", "N");
    MetricAt("N", "L", "N", "N", "C", "N", "N", "N");
    ZeroExactlyWithoutImpact(Metric("N", "L", "N", "N", "C", "N", "N", "N"));
  }

  /** And for those of changed scope. */
  lemma PublishedChanged()
    ensures Scores(Metric("N", "L", "N", "N", "C", "H", "H", "H"), 10.0)
    ensures Scores(Metric("N", "L", "L", "N", "C", "H", "H", "H"), 9.9)
    ensures Scores(Metric("N", "L", "N", "R", "C", "L", "L", "N"), 6.1)
    ensures Scores(Metric("N", "L", "N", "N", "C", "N", "N", "N"), 0.0)
  {
    VectorNLNNCHHH();
    VectorNLLNCHHH();
    VectorNLNRCLLN();
    HarmlessVector();
  }

  lemma VectorALNNUHHH()
    ensures Scores(Metric("A", "L", "N", "N", "U", "H", "H", "H"), 8.8)
  {
    Unchanged("A", "L", "N", "N", "H", "H", "H", 9, 2.83525473, 88);
  }

  lemma VectorLLNNUHHH()
    ensures Scores(Metric("L", "L", "N", "N", "U", "H", "H", "H"), 8.4)
  {
    Unchanged("L", "L", "N", "N", "H", "H", "H", 9, 2.515145325, 84);
  }

  lemma VectorPLNNUHHH()
    ensures Scores(Metric("P", "L", "N", "N", "U", "H", "H", "H"), 6.8)
  {
    Unchanged("P", "L", "N", "N", "H", "H", "H", 9, 0.9145983, 68);
  }

  lemma VectorNHNNUHHH()
    ensures Scores(Metric("N", "H", "N", "N", "U", "H", "H", "H"), 8.1)
  {
    Unchanged("N", "H", "N", "N", "H", "H", "H", 9, 2.2211673, 81);
  }

  lemma VectorNLLNUHHH()
    ensures Scores(Metric("N", "L", "L", "N", "U", "H", "H", "H"), 8.8)
  {
    Unchanged("N", "L", "L", "N", "H", "H", "H", 9, 2.83525473, 88);
  }

  lemma VectorNLHNUHHH()
    ensures Scores(Metric("N", "L", "H", "N", "U", "H", "H", "H"), 7.2)
  {
    Unchanged("N", "L", "H", "N", "H", "H", "H", 9, 1.234707705, 72);
  }

  lemma VectorNLNRUHHH()
    ensures Scores(Metric("N", "L", "N", "R", "U", "H", "H", "H"), 8.8)
  {
    Unchanged("N", "L", "N", "R", "H", "H", "H", 9, 2.83525473, 88);
  }

  lemma VectorALHNCHHH()
    ensures Scores(Metric("A", "L", "H", "N", "C", "H", "H", "H"), 8.4)
  {
    Changed("A", "L", "H", "N", "H", "H", "H", 9, 1.6677969, 84);
  }

  /** The scores one step from the most severe vector of unchanged scope, one for each weight of the
      exploitability, and one with the higher weight of a privilege under changed scope. */
  lemma OneStepFromTheWorst()
    ensures Scores(Metric("A", "L", "N", "N", "U", "H", "H", "H"), 8.8)
    ensures Scores(Metric("L", "L", "N", "N", "U", "H", "H", "H"), 8.4)
    ensures Scores(Metric("P", "L", "N", "N", "U", "H", "H", "H"), 6.8)
    ensures Scores(Metric("N", "H", "N", "N", "U", "H", "H", "H"), 8.1)
    ensures Scores(Metric("N", "L", "L", "N", "U", "H", "H", "H"), 8.8)
    ensures Scores(Metric("N", "L", "H", "N", "U", "H", "H", "H"), 7.2)
    ensures Scores(Metric("N", "L", "N", "R", "U", "H", "H", "H"), 8.8)
    ensures Scores(Metric("A", "L", "H", "N", "C", "H", "H", "H"), 8.4)
  {
    VectorALNNUHHH();
    VectorLLNNUHHH();
    VectorPLNNUHHH();
    VectorNHNNUHHH();
    VectorNLLNUHHH();
    VectorNLHNUHHH();
    VectorNLNRUHHH();
    VectorALHNCHHH();
  }

  // ---------------------------------------------------------------- the text of a vector

  lemma MetricAt(av: string, ac: string, pr: string, ui: string, s: string, c: string, i: string, a: string)
    ensures var m := Metric(av, ac, pr, ui, s, c, i, a);
            && (forall n :: n in NAMES ==> n in m)
            && m["AV"] == av && m["AC"] == ac && m["PR"] == pr && m["UI"] == ui
            && m["S"] == s && m["C"] == c && m["I"] == i && m["A"] == a
  {
  }

  lemma MetricParts(av: string, ac: string, pr: string, ui: string, s: string, c: string, i: string, a: string)
    ensures var m := Metric(av, ac, pr, ui, s, c, i, a);
            && (forall k :: 0 <= k < |NAMES| ==> NAMES[k] in m)
            && PartsOf(NAMES, m) ==
                 ["AV:" + av, "AC:" + ac, "PR:" + pr, "UI:" + ui, "S:" + s, "C:" + c, "I:" + i, "A:" + a]
  {
    MetricAt(av, ac, pr, ui, s, c, i, a);
    var m := Metric(av, ac, pr, ui, s, c, i, a);
    forall k | 0 <= k < |NAMES| ensures NAMES[k] in m {
      assert NAMES[k] in NAMES;
    }
    var parts := PartsOf(NAMES, m);
    assert parts[0] == "AV" + ":" + av == "AV:" + av;
    assert parts[1] == "AC" + ":" + ac == "AC:" + ac;
    assert parts[2] == "PR" + ":" + pr == "PR:" + pr;
    assert parts[3] == "UI" + ":" + ui == "UI:" + ui;
    assert parts[4] == "S" + ":" + s == "S:" + s;
    assert parts[5] == "C" + ":" + c == "C:" + c;
    assert parts[6] == "I" + ":" + i == "I:" + i;
    assert parts[7] == "A" + ":" + a == "A:" + a;
  }

  /** A vector in table order, written out. */
  lemma VectorText(av: string, ac: string, pr: string, ui: string, s: string, c: string, i: string, a: string)
    ensures Print(NAMES, Metric(av, ac, pr, ui, s, c, i, a)) == "CVSS:3.1/" + Join(
      ["AV:" + av, "AC:" + ac, "PR:" + pr, "UI:" + ui, "S:" + s, "C:" + c, "I:" + i, "A:" + a], '/')
  {
    MetricParts(av, ac, pr, ui, s, c, i, a);
  }

  lemma NamesAreAnOrder()
    ensures IsOrder(NAMES)
  {
  }

  /** It reads as those metrics, when the values are tabled. */
  lemma VectorReads(av: string, ac: string, pr: string, ui: string, s: string, c: string, i: string, a: string)
    requires av in Values("AV") && ac in Values("AC") && pr in Values("PR") && ui in Values("UI") && s in Values("S")
    requires c in Values("C") && i in Values("I") && a in Values("A")
    ensures Parsed("CVSS:3.1/" + Join(["AV:" + av, "AC:" + ac, "PR:" + pr, "UI:" + ui,
                                       "S:" + s, "C:" + c, "I:" + i, "A:" + a], '/'))
         == Ok(Metric(av, ac, pr, ui, s, c, i, a))
  {
    MetricIsFull(av, ac, pr, ui, s, c, i, a);
    NamesAreAnOrder();
    PrintedParses(NAMES, Metric(av, ac, pr, ui, s, c, i, a));
    VectorText(av, ac, pr, ui, s, c, i, a);
  }
}
