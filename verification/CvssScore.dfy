/** The CVSS v3.1 base score of section 7.1, as the consumer of the parser and of the rounding. */
module CvssScore {
  import opened CvssRoundup
  import opened CvssVector
  import opened Options

  /** The impact weight of C, I and A. */
  function ImpactWeight(value: string): real {
    if value == "H" then 0.56 else if value == "L" then 0.22 else 0.0
  }

  function AttackVector(value: string): real {
    if value == "N" then 0.85 else if value == "A" then 0.62 else if value == "L" then 0.55 else 0.2
  }

  function AttackComplexity(value: string): real {
    if value == "L" then 0.77 else 0.44
  }

  function Privileges(value: string, changed: bool): real {
    if value == "N" then 0.85
    else if value == "L" then (if changed then 0.68 else 0.62)
    else if changed then 0.5 else 0.27
  }

  function Interaction(value: string): real {
    if value == "N" then 0.85 else 0.62
  }

  function Power(x: real, n: nat): real {
    if n == 0 then 1.0 else x * Power(x, n - 1)
  }

  function Min(a: real, b: real): real {
    if a < b then a else b
  }

  function Impact(m: Metrics): real
    requires IsFull(m)
  {
    Named("C"); Named("I"); Named("A"); Named("S");
    var iss := 1.0 - (1.0 - ImpactWeight(m["C"])) * (1.0 - ImpactWeight(m["I"])) * (1.0 - ImpactWeight(m["A"]));
    if m["S"] == "C" then 7.52 * (iss - 0.029) - 3.25 * Power(iss - 0.02, 15) else 6.42 * iss
  }

  function Exploitability(m: Metrics): (e: real)
    requires IsFull(m)
    ensures e >= 0.0
  {
    Named("AV"); Named("AC"); Named("PR"); Named("UI"); Named("S");
    8.22 * AttackVector(m["AV"]) * AttackComplexity(m["AC"]) * Privileges(m["PR"], m["S"] == "C") * Interaction(m["UI"])
  }

  lemma Named(name: string)
    requires name in ["AV", "AC", "PR", "UI", "S", "C", "I", "A"]
    ensures name in NAMES
  {
  }

  function Score(m: Metrics): real
    requires IsFull(m)
  {
    Named("S");
    ScoreFrom(Impact(m), Exploitability(m), m["S"] == "C")
  }

  /** What is rounded up, before it is cut at 10. */
  function Sum(impact: real, e: real, changed: bool): real {
    if changed then 1.08 * (impact + e) else impact + e
  }

  function ScoreFrom(impact: real, e: real, changed: bool): real {
    if impact <= 0.0 then 0.0 else Roundup(Min(Sum(impact, e, changed), 10.0))
  }

  /** base_score: the score of whatever the vector parses to, or its error. */
  method BaseScore(vector: string) returns (score: real, error: Option<Error>)
    ensures error == match Parsed(vector) case Ok(_) => None case Err(e) => Some(e)
    ensures error == None ==> 0.0 <= score <= 10.0 && exists t :: score == Tenths(t)
    ensures forall m, order :: IsFull(m) && IsOrder(order) && vector == Print(order, m)
              ==> error == None && score == Score(m)
  {
    forall m, order | IsFull(m) && IsOrder(order) && vector == Print(order, m) ensures Parsed(vector) == Ok(m) {
      PrintedParses(order, m);
    }
    var r := Parse(vector);
    match r
    case Err(e) =>
      return 0.0, Some(e);
    case Ok(m) =>
      ScoreInRange(m);
      return Score(m), None;
  }

  lemma RoundupInRange(raw: real)
    requires 0.0 <= raw <= 10.0
    ensures 0.0 <= Roundup(raw) <= 10.0 && exists t :: Roundup(raw) == Tenths(t)
  {
    NoiseDoesNotAddATenth(0, 0.0);
    NoiseDoesNotAddATenth(100, 0.0);
    RoundupMonotone(0.0, raw);
    RoundupMonotone(raw, 10.0);
    RoundupIsLeastTenth(raw);
  }

  /** Every score is a tenth between 0 and 10. */
  lemma ScoreInRange(m: Metrics)
    requires IsFull(m)
    ensures 0.0 <= Score(m) <= 10.0 && exists t :: Score(m) == Tenths(t)
  {
    Named("S");
    ScoreFromInRange(Impact(m), Exploitability(m), m["S"] == "C");
  }

  lemma ScoreFromInRange(impact: real, e: real, changed: bool)
    requires e >= 0.0
    ensures var score := ScoreFrom(impact, e, changed); 0.0 <= score <= 10.0 && exists t :: score == Tenths(t)
  {
    if impact <= 0.0 {
      assert ScoreFrom(impact, e, changed) == Tenths(0);
    } else {
      RoundupInRange(Min(Sum(impact, e, changed), 10.0));
    }
  }
}
