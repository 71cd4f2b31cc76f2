/** Byte buffers read as C strings, and the words of a command line. */
module CString {
  const NUL := '\0'

  /** Where the string starting at i ends: the first NUL, or the end of the buffer. */
  function StrEnd(b: seq<char>, i: nat): (e: nat)
    requires i <= |b|
    ensures i <= e <= |b| && (forall k :: i <= k < e ==> b[k] != NUL) && (e < |b| ==> b[e] == NUL)
    decreases |b| - i
  {
    if i < |b| && b[i] != NUL then StrEnd(b, i + 1) else i
  }

  /** The string a pointer to b[i] denotes. */
  function CStr(b: seq<char>, i: nat): (s: string)
    requires i <= |b|
    ensures NoNul(s)
  {
    b[i..StrEnd(b, i)]
  }

  predicate NoNul(s: string) {
    forall k :: 0 <= k < |s| ==> s[k] != NUL
  }

  predicate Blank(c: char) {
    c == ' ' || c == '\t'
  }

  /** A word ends at a horizontal tab or a space, by their codes. */
  lemma BlanksAre(c: char)
    ensures Blank(c) <==> c as int in {9, 32}
  {
  }

  /** The maximal runs of non-blank characters, in order. */
  function Words(s: string): (w: seq<string>)
    ensures s != "" && !Blank(s[0]) ==> w != []
  {
    if s == "" then []
    else if Blank(s[0]) then Words(s[1..])
    else if |s| == 1 || Blank(s[1]) then [s[..1]] + Words(s[1..])
    else var w := Words(s[1..]); [s[..1] + w[0]] + w[1..]
  }

  predicate AllBlank(s: string) {
    forall k :: 0 <= k < |s| ==> Blank(s[k])
  }

  predicate BlankFree(s: string) {
    forall k :: 0 <= k < |s| ==> !Blank(s[k])
  }

  /** A run followed by a blank or by the end is the first word. */
  lemma {:induction false} FirstRun(s: string, n: nat)
    requires 1 <= n <= |s| && BlankFree(s[..n]) && (n < |s| ==> Blank(s[n]))
    ensures Words(s) == [s[..n]] + Words(s[n..])
  {
    assert !Blank(s[..n][0]);
    if n == 1 {
      assert |s| == 1 || Blank(s[1]);
    } else {
      assert s[1..][..n - 1] == s[..n][1..];
      assert !Blank(s[..n][1]);
      FirstRun(s[1..], n - 1);
      assert s[1..][n - 1..] == s[n..];
      assert s[..1] + s[1..][..n - 1] == s[..n];
    }
  }

  lemma {:induction false} SkipBlanks(s: string, n: nat)
    requires n <= |s| && AllBlank(s[..n])
    ensures Words(s) == Words(s[n..])
  {
    if n == 0 {
      assert s[0..] == s;
    } else {
      assert Blank(s[..n][0]);
      assert s[1..][..n - 1] == s[..n][1..];
      SkipBlanks(s[1..], n - 1);
      assert s[1..][n - 1..] == s[n..];
    }
  }

  /** A line laid out from words: a blank gap before each word, and a blank tail. */
  function Layout(gaps: seq<string>, words: seq<string>, tail: string): string
    requires |gaps| == |words|
  {
    if words == [] then tail else gaps[0] + words[0] + Layout(gaps[1..], words[1..], tail)
  }

  /** The gaps are blank, and only the first may be empty. */
  predicate Separates(gaps: seq<string>, first: bool) {
    gaps == [] || (AllBlank(gaps[0]) && (first || gaps[0] != "") && Separates(gaps[1..], false))
  }

  predicate AreWords(words: seq<string>) {
    forall i :: 0 <= i < |words| ==> words[i] != "" && BlankFree(words[i])
  }

  /** The words of a laid out line are the words it was laid out from, whatever the gaps. */
  lemma {:induction false} WordsOfLayout(gaps: seq<string>, words: seq<string>, tail: string, first: bool)
    requires |gaps| == |words| && Separates(gaps, first) && AreWords(words) && AllBlank(tail)
    ensures Words(Layout(gaps, words, tail)) == words
    decreases |words|
  {
    var s := Layout(gaps, words, tail);
    if words == [] {
      assert s[..|s|] == s;
      SkipBlanks(s, |s|);
      assert s[|s|..] == "";
    } else {
      var g, w := gaps[0], words[0];
      var rest := Layout(gaps[1..], words[1..], tail);
      assert s[..|g|] == g;
      SkipBlanks(s, |g|);
      assert s[|g|..] == w + rest;
      assert (w + rest)[..|w|] == w;
      RestStartsBlank(gaps[1..], words[1..], tail);
      FirstRun(w + rest, |w|);
      assert (w + rest)[|w|..] == rest;
      WordsOfLayout(gaps[1..], words[1..], tail, false);
    }
  }

  lemma RestStartsBlank(gaps: seq<string>, words: seq<string>, tail: string)
    requires |gaps| == |words| && Separates(gaps, false) && AllBlank(tail)
    ensures var s := Layout(gaps, words, tail); s == "" || Blank(s[0])
  {
  }

  lemma LayoutAfterBlank(s: string, gaps: seq<string>, words: seq<string>, tail: string)
    requires |gaps| == |words| > 0
    ensures Layout([s + gaps[0]] + gaps[1..], words, tail) == s + Layout(gaps, words, tail)
  {
    assert ([s + gaps[0]] + gaps[1..])[1..] == gaps[1..];
  }

  lemma LayoutAfterLetter(s: string, gaps: seq<string>, words: seq<string>, tail: string)
    requires |gaps| == |words| > 0 && gaps[0] == ""
    ensures Layout(gaps, [s + words[0]] + words[1..], tail) == s + Layout(gaps, words, tail)
  {
    assert ([s + words[0]] + words[1..])[1..] == words[1..];
  }

  /** The line is laid out from its words; the first gap is empty just when the line starts with a word. */
  predicate IsLayout(s: string, gaps: seq<string>, tail: string) {
    && |gaps| == |Words(s)| && AreWords(Words(s)) && Separates(gaps, true) && AllBlank(tail)
    && s == Layout(gaps, Words(s), tail)
    && (s != "" && !Blank(s[0]) ==> gaps != [] && gaps[0] == "")
    && (s != "" && Blank(s[0]) ==> Separates(gaps, false))
  }

  lemma BlankBefore(s: string, gaps: seq<string>, tail: string)
    requires s != "" && Blank(s[0]) && IsLayout(s[1..], gaps, tail)
    ensures gaps == [] ==> IsLayout(s, [], s)
    ensures gaps != [] ==> IsLayout(s, [s[..1] + gaps[0]] + gaps[1..], tail)
  {
    assert s == s[..1] + s[1..];
    if gaps != [] {
      LayoutAfterBlank(s[..1], gaps, Words(s[1..]), tail);
      assert ([s[..1] + gaps[0]] + gaps[1..])[1..] == gaps[1..];
    }
  }

  lemma WordBefore(s: string, gaps: seq<string>, tail: string)
    requires s != "" && !Blank(s[0]) && (|s| == 1 || Blank(s[1])) && IsLayout(s[1..], gaps, tail)
    ensures IsLayout(s, [""] + gaps, tail)
  {
    var words := Words(s[1..]);
    assert s == s[..1] + s[1..];
    LayoutOfLetter(s[..1], gaps, words, tail);
    GapsOfLetter(gaps);
    assert Words(s) == [s[..1]] + words;
  }

  lemma LayoutOfLetter(s: string, gaps: seq<string>, words: seq<string>, tail: string)
    requires |gaps| == |words|
    ensures Layout([""] + gaps, [s] + words, tail) == s + Layout(gaps, words, tail)
  {
    assert ([""] + gaps)[1..] == gaps && ([s] + words)[1..] == words;
    assert "" + s == s;
  }

  lemma GapsOfLetter(gaps: seq<string>)
    requires Separates(gaps, false)
    ensures Separates([""] + gaps, true)
  {
    assert ([""] + gaps)[1..] == gaps;
  }

  lemma LetterBefore(s: string, gaps: seq<string>, tail: string)
    requires |s| > 1 && !Blank(s[0]) && !Blank(s[1]) && IsLayout(s[1..], gaps, tail)
    ensures IsLayout(s, gaps, tail)
  {
    assert s == s[..1] + s[1..];
    LayoutAfterLetter(s[..1], gaps, Words(s[1..]), tail);
  }

  /** And every line is laid out from its words in some such way. */
  lemma {:induction false} EveryLineIsALayout(s: string) returns (gaps: seq<string>, tail: string)
    ensures IsLayout(s, gaps, tail)
  {
    if s == "" {
      gaps, tail := [], "";
    } else {
      gaps, tail := EveryLineIsALayout(s[1..]);
      if Blank(s[0]) {
        BlankBefore(s, gaps, tail);
        gaps, tail := if gaps == [] then [] else [s[..1] + gaps[0]] + gaps[1..], if gaps == [] then s else tail;
      } else if |s| == 1 || Blank(s[1]) {
        WordBefore(s, gaps, tail);
        gaps := [""] + gaps;
      } else {
        LetterBefore(s, gaps, tail);
      }
    }
  }
}
