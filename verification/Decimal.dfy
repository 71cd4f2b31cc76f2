/** Decimal digit strings and the numbers they write. */
module Decimal {

  predicate IsDigit(c: char) {
    '0' <= c <= '9'
  }

  function DigitOf(c: char): (d: nat)
    requires IsDigit(c)
    ensures d <= 9
  {
    c as int - '0' as int
  }

  predicate AllDigits(s: string) {
    forall i :: 0 <= i < |s| ==> IsDigit(s[i])
  }

  function Value(s: string): (v: int)
    requires AllDigits(s)
    ensures v >= 0
  {
    if s == "" then 0 else 10 * Value(s[..|s| - 1]) + DigitOf(s[|s| - 1])
  }

  /** Printing a natural number in decimal. */
  function Print(n: nat): (s: string)
    ensures s != "" && AllDigits(s)
  {
    if n < 10 then [(n + '0' as int) as char] else Print(n / 10) + [(n % 10 + '0' as int) as char]
  }

  lemma {:induction false} PrintReadsBack(n: nat)
    ensures Value(Print(n)) == n
  {
    if n >= 10 {
      PrintReadsBack(n / 10);
      var s := Print(n);
      assert s[..|s| - 1] == Print(n / 10);
    } else {
      assert Print(n)[..0] == "";
    }
  }

  lemma PrintInjective(m: nat, n: nat)
    requires Print(m) == Print(n)
    ensures m == n
  {
    PrintReadsBack(m);
    PrintReadsBack(n);
  }

  /** The digits in order of their values. */
  lemma DigitsInOrder(d: nat)
    requires d <= 9
    ensures IsDigit("0123456789"[d]) && DigitOf("0123456789"[d]) == d
  {
  }

  predicate Canonical(s: string) {
    s != "" && AllDigits(s) && (|s| > 1 ==> s[0] != '0')
  }

  /** Printing gives the one numeral without leading zeros. */
  lemma {:induction false} PrintIsCanonical(n: nat)
    ensures Canonical(Print(n))
  {
    if n >= 10 {
      PrintIsCanonical(n / 10);
      FirstDigitStays(n);
    }
  }

  lemma FirstDigitStays(n: nat)
    requires n >= 10 && Canonical(Print(n / 10))
    ensures Print(n)[0] == Print(n / 10)[0] != '0'
  {
    if n / 10 < 10 {
      assert Print(n / 10) == [(n / 10 + '0' as int) as char];
    }
  }

  lemma {:induction false} CanonicalPrints(s: string)
    requires Canonical(s)
    ensures Print(Value(s)) == s
  {
    var rest, d := s[..|s| - 1], DigitOf(s[|s| - 1]);
    if |s| == 1 {
      assert rest == "";
    } else {
      assert rest[0] == s[0];
      CanonicalPrints(rest);
      LeadingDigit(rest);
      assert Value(s) / 10 == Value(rest) && Value(s) % 10 == d;
    }
  }

  lemma {:induction false} LeadingDigit(s: string)
    requires s != "" && AllDigits(s) && s[0] != '0'
    ensures Value(s) > 0
  {
    if |s| > 1 {
      LeadingDigit(s[..|s| - 1]);
    }
  }
}
