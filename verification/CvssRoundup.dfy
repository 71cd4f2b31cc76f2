/** Rounding up to one decimal as appendix A of the CVSS v3.1 specification has it. */
module CvssRoundup {

  /** Python's round: to the nearest integer, a tie to the even one. */
  function Round(x: real): (n: int)
    ensures n as real - 0.5 <= x <= n as real + 0.5
    ensures x == n as real - 0.5 || x == n as real + 0.5 ==> n % 2 == 0
  {
    var f := x.Floor;
    if x - f as real < 0.5 then f
    else if x - f as real > 0.5 then f + 1
    else if f % 2 == 0 then f else f + 1
  }

  /** roundup: scaled to integers first, so that a float error below the fifth decimal cannot add a tenth. */
  function Roundup(value: real): real {
    var scaled := Round(value * 100000.0);
    if scaled % 10000 == 0 then scaled as real / 100000.0
    else (scaled / 10000 + 1) as real / 10.0
  }

  /** The value rounded to five decimals. */
  function Rounded5(value: real): real {
    Round(value * 100000.0) as real / 100000.0
  }

  function Tenths(t: int): real {
    t as real / 10.0
  }

  lemma TenthOf(value: real) returns (t: int)
    ensures Roundup(value) == Tenths(t) && 10000 * (t - 1) < Round(value * 100000.0) <= 10000 * t
  {
    var scaled := Round(value * 100000.0);
    var q := scaled / 10000;
    assert scaled == 10000 * q + scaled % 10000;
    t := if scaled % 10000 == 0 then q else q + 1;
  }

  lemma BelowTenth(value: real, t: int)
    ensures Rounded5(value) <= Tenths(t) <==> Round(value * 100000.0) <= 10000 * t
  {
  }

  /** Both branches are one ceiling: the result is the least multiple of a tenth that is not below the
      value rounded to five decimals. */
  lemma RoundupIsLeastTenth(value: real)
    ensures exists t :: Roundup(value) == Tenths(t)
    ensures Rounded5(value) <= Roundup(value)
    ensures forall t :: Rounded5(value) <= Tenths(t) ==> Roundup(value) <= Tenths(t)
  {
    var t0 := TenthOf(value);
    BelowTenth(value, t0);
    forall t | Rounded5(value) <= Tenths(t) ensures Roundup(value) <= Tenths(t) {
      BelowTenth(value, t);
    }
  }

  /** A tenth is the result for exactly the values that round to it or less, and to more than the tenth below. */
  lemma RoundupIs(value: real, t: int)
    ensures Roundup(value) == Tenths(t) <==> Tenths(t - 1) < Rounded5(value) <= Tenths(t)
  {
    var t0 := TenthOf(value);
    BelowTenth(value, t);
    BelowTenth(value, t - 1);
  }

  lemma RoundMonotone(x: real, y: real)
    requires x <= y
    ensures Round(x) <= Round(y)
  {
  }

  lemma RoundOfInt(n: int, x: real)
    requires n as real - 0.5 < x < n as real + 0.5
    ensures Round(x) == n
  {
  }

  lemma RoundupMonotone(x: real, y: real)
    requires x <= y
    ensures Roundup(x) <= Roundup(y)
  {
    RoundMonotone(x * 100000.0, y * 100000.0);
    RoundupIsLeastTenth(x);
    RoundupIsLeastTenth(y);
    var t :| Roundup(y) == Tenths(t);
    assert Rounded5(x) <= Tenths(t);
  }

  /** An error of less than half the fifth decimal does not move a score off its tenth. */
  lemma NoiseDoesNotAddATenth(t: int, noise: real)
    requires -0.000005 < noise < 0.000005
    ensures Roundup(Tenths(t) + noise) == Tenths(t)
  {
    RoundOfInt(10000 * t, (Tenths(t) + noise) * 100000.0);
  }

  lemma RoundupIdempotent(x: real)
    ensures Roundup(Roundup(x)) == Roundup(x)
  {
    RoundupIsLeastTenth(x);
    var t :| Roundup(x) == Tenths(t);
    NoiseDoesNotAddATenth(t, 0.0);
  }

  /** How far the result can be from the value itself. */
  lemma RoundupIsClose(x: real)
    ensures x - 0.000005 <= Roundup(x) < x + 0.100005
  {
    RoundupIsLeastTenth(x);
    var t :| Roundup(x) == Tenths(t);
    RoundupIs(x, t);
  }
}
