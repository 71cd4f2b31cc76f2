/** The slot argument: strtol in base 10, and the checks parse_int makes around it. */
module Integers {
  import opened Decimal
  import opened Options

  const INT_MIN := -0x8000_0000
  const INT_MAX := 0x7fff_ffff
  const LONG_MIN := -0x8000_0000_0000_0000
  const LONG_MAX := 0x7fff_ffff_ffff_ffff

  /** isspace in the C locale. */
  predicate IsSpace(c: char) {
    c in " \t\n\r" || c == '\U{000b}' || c == '\U{000c}'
  }

  predicate AllSpace(s: string) {
    forall i :: 0 <= i < |s| ==> IsSpace(s[i])
  }

  predicate IsSign(s: string) {
    s == "" || s == "+" || s == "-"
  }

  function Signed(sign: string, n: int): int {
    if sign == "-" then -n else n
  }

  /** The text is optional white space, an optional sign and a non-empty digit string, of value v. */
  ghost predicate Denotes(text: string, v: int) {
    exists ws, sign, digits :: Spells(text, ws, sign, digits) && v == Signed(sign, Value(digits))
  }

  predicate Spells(text: string, ws: string, sign: string, digits: string) {
    AllSpace(ws) && IsSign(sign) && digits != "" && AllDigits(digits) && text == ws + sign + digits
  }

  // ---------------------------------------------------------------- the parts strtol finds

  function SpaceEnd(s: string, i: nat): (e: nat)
    requires i <= |s|
    ensures i <= e <= |s| && (forall k :: i <= k < e ==> IsSpace(s[k])) && (e < |s| ==> !IsSpace(s[e]))
    decreases |s| - i
  {
    if i < |s| && IsSpace(s[i]) then SpaceEnd(s, i + 1) else i
  }

  function SignEnd(s: string, i: nat): nat {
    if i < |s| && (s[i] == '+' || s[i] == '-') then i + 1 else i
  }

  function DigitEnd(s: string, i: nat): (e: nat)
    requires i <= |s|
    ensures i <= e <= |s| && (forall k :: i <= k < e ==> IsDigit(s[k])) && (e < |s| ==> !IsDigit(s[e]))
    decreases |s| - i
  {
    if i < |s| && IsDigit(s[i]) then DigitEnd(s, i + 1) else i
  }

  function Start(text: string): (i: nat)
    ensures i <= |text|
  {
    SignEnd(text, SpaceEnd(text, 0))
  }

  predicate Negative(text: string) {
    Start(text) > 0 && text[Start(text) - 1] == '-'
  }

  /** The number strtol reads, of any size; only meaningful when some digit was found. */
  function Number(text: string): int {
    var i := Start(text);
    var n := Value(text[i..DigitEnd(text, i)]);
    if Negative(text) then -n else n
  }

  /** strtol found digits and stopped at the end of the text. */
  predicate WholeText(text: string) {
    var i := Start(text);
    i < DigitEnd(text, i) == |text|
  }

  lemma SpellingStart(text: string, ws: string, sign: string, digits: string)
    requires Spells(text, ws, sign, digits)
    ensures Start(text) == |ws| + |sign| && (Negative(text) <==> sign == "-")
  {
    var w := |ws|;
    forall i | 0 <= i < w ensures IsSpace(text[i]) {
      assert text[i] == ws[i];
    }
    if sign == "" {
      assert text[w] == digits[0];
    } else {
      assert text[w] == sign[0];
    }
    SpaceEndIs(text, w);
  }

  lemma SpellingIsWhole(text: string, ws: string, sign: string, digits: string)
    requires Spells(text, ws, sign, digits)
    ensures WholeText(text) && Number(text) == Signed(sign, Value(digits))
  {
    SpellingStart(text, ws, sign, digits);
    var k := |ws| + |sign|;
    assert text[k..|text|] == digits;
    forall i | k <= i < |text| ensures IsDigit(text[i]) {
      assert text[i] == digits[i - k];
    }
  }

  lemma SpaceEndIs(s: string, e: nat)
    requires e < |s| && (forall i :: 0 <= i < e ==> IsSpace(s[i])) && !IsSpace(s[e])
    ensures SpaceEnd(s, 0) == e
  {
  }

  lemma WholeIsSpelled(text: string)
    requires WholeText(text)
    ensures Denotes(text, Number(text))
  {
    var w, k := SpaceEnd(text, 0), Start(text);
    var ws, sign, digits := text[..w], text[w..k], text[k..];
    assert text == ws + sign + digits;
    assert Spells(text, ws, sign, digits);
    assert text[k..|text|] == digits;
    if k == w && w > 0 {
      assert IsSpace(text[w - 1]);
    }
    assert Number(text) == Signed(sign, Value(digits));
  }

  /** What strtol accepts as a whole is the documented grammar, with one value. */
  lemma WholeExactlyWhenDenotes(text: string, v: int)
    ensures Denotes(text, v) <==> WholeText(text) && Number(text) == v
  {
    if WholeText(text) {
      WholeIsSpelled(text);
    }
    if Denotes(text, v) {
      var ws, sign, digits :| Spells(text, ws, sign, digits) && v == Signed(sign, Value(digits));
      SpellingIsWhole(text, ws, sign, digits);
    }
  }

  function Clamp(v: int): int {
    if v < LONG_MIN then LONG_MIN else if v > LONG_MAX then LONG_MAX else v
  }

  /** The overflow test of the digit loop, done without overflowing. */
  lemma OverflowTest(m: int, d: int, limit: int)
    ensures m > (limit - d) / 10 <==> 10 * m + d > limit
  {
  }

  /** strtol's digit loop: the value so far, or the limit and a flag once it is passed. */
  method ReadDigits(text: string, start: nat, limit: int) returns (magnitude: int, i: nat, over: bool)
    requires start <= |text| && limit > 0
    ensures i == DigitEnd(text, start)
    ensures !over ==> magnitude == Value(text[start..i]) <= limit
    ensures over ==> magnitude == limit < Value(text[start..i])
  {
    i, magnitude, over := start, 0, false;
    while i < |text| && IsDigit(text[i])
      invariant start <= i <= DigitEnd(text, start) == DigitEnd(text, i)
      invariant AllDigits(text[start..i])
      invariant !over ==> magnitude == Value(text[start..i]) <= limit
      invariant over ==> magnitude == limit < Value(text[start..i])
    {
      var d := DigitOf(text[i]);
      ghost var seen := text[start..i + 1];
      assert seen[..|seen| - 1] == text[start..i] && seen[|seen| - 1] == text[i];
      OverflowTest(magnitude, d, limit);
      if over || magnitude > (limit - d) / 10 {
        magnitude, over := limit, true;
      } else {
        magnitude := 10 * magnitude + d;
      }
      i := i + 1;
    }
  }

  /** strtol(text, &end, 10) of C17 section 7.22.1.4, with end as an index and errno == ERANGE as a flag. */
  method Strtol(text: string) returns (value: int, end: nat, erange: bool)
    ensures end <= |text| && (end > 0 <==> Start(text) < DigitEnd(text, Start(text)))
    ensures end > 0 ==> end == DigitEnd(text, Start(text)) && value == Clamp(Number(text))
                        && (erange <==> value != Number(text))
    ensures end == 0 ==> value == 0 && !erange
  {
    var i := 0;
    while i < |text| && IsSpace(text[i])
      invariant i <= |text| && SpaceEnd(text, i) == SpaceEnd(text, 0)
    {
      i := i + 1;
    }
    var negative := false;
    if i < |text| && (text[i] == '+' || text[i] == '-') {
      negative := text[i] == '-';
      i := i + 1;
    } else if i > 0 {
      assert IsSpace(text[i - 1]);
    }
    assert i == Start(text) && negative == Negative(text);
    var magnitude: int, stop: nat;
    magnitude, stop, erange := ReadDigits(text, i, if negative then -LONG_MIN else LONG_MAX);
    if stop == i {
      return 0, 0, false;
    }
    value, end := if negative then -magnitude else magnitude, stop;
  }

  /** The value parse_int stores, or none when it refuses the text. */
  function ReadInt(text: string): (r: Option<int>)
    ensures r.Some? ==> INT_MIN <= r.value <= INT_MAX
  {
    if WholeText(text) && INT_MIN <= Number(text) <= INT_MAX then Some(Number(text)) else None
  }

  /** parse_int: stores and accepts exactly the numbers that fit an int, and otherwise leaves `out` alone. */
  method ParseInt(text: string, out: int) returns (ok: bool, out': int)
    ensures ok <==> exists v :: Denotes(text, v) && INT_MIN <= v <= INT_MAX
    ensures ok ==> Denotes(text, out') && INT_MIN <= out' <= INT_MAX && ReadInt(text) == Some(out')
    ensures !ok ==> out' == out && ReadInt(text) == None
  {
    var value, end, erange := Strtol(text);
    ghost var n := Number(text);
    WholeExactlyWhenDenotes(text, n);
    forall v ensures Denotes(text, v) <==> WholeText(text) && n == v {
      WholeExactlyWhenDenotes(text, v);
    }
    if end == 0 || end < |text| || erange || value < INT_MIN || value > INT_MAX {
      return false, out;
    }
    return true, value;
  }

  /** Printing an int in decimal, as printf("%d"). */
  function PrintInt(v: int): string {
    if v < 0 then "-" + Print(-v) else Print(v)
  }

  lemma SpelledReads(text: string, sign: string, digits: string)
    requires Spells(text, "", sign, digits)
    ensures var v := Signed(sign, Value(digits));
            ReadInt(text) == if INT_MIN <= v <= INT_MAX then Some(v) else None
  {
    SpellingIsWhole(text, "", sign, digits);
  }

  lemma PrintedIsSpelled(sign: string, digits: string)
    requires IsSign(sign) && digits != "" && AllDigits(digits)
    ensures Spells(sign + digits, "", sign, digits)
  {
  }

  /** Reading a printed int gives it back, and nothing else. */
  lemma ReadsBackEveryInt(v: int)
    ensures ReadInt(PrintInt(v)) == if INT_MIN <= v <= INT_MAX then Some(v) else None
  {
    var sign, n := if v < 0 then "-" else "", if v < 0 then -v else v;
    var digits := Print(n);
    PrintReadsBack(n);
    PrintedIsSpelled(sign, digits);
    SpelledReads(sign + digits, sign, digits);
    assert sign + digits == PrintInt(v);
  }

  /** A printed integer is read exactly when it fits 32 bits in two's complement. */
  lemma ReadsExactlyInts(v: int)
    ensures ReadInt(PrintInt(v)).Some? <==> -2147483648 <= v <= 2147483647
  {
    ReadsBackEveryInt(v);
  }

  /** What is clamped is what does not fit 64 bits in two's complement. */
  lemma ClampedExactlyBeyond(v: int)
    ensures Clamp(v) == v <==> -9223372036854775808 <= v <= 9223372036854775807
  {
  }

  /** White space is the blank and the five characters from horizontal tab to carriage return. */
  lemma SpacesAre(c: char)
    ensures IsSpace(c) <==> c as int == 32 || 9 <= c as int <= 13
  {
    assert IsSpace(c) <==> c in [' ', '\t', '\n', '\r', '\U{000b}', '\U{000c}'];
  }
}
