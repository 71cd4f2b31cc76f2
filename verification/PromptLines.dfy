/** The prompt of one finding: preamble and flagged function, scrubbed, with leading blank lines
    dropped and the text cut at a cap; scrubbed again and numbered when the prompt is built; and the
    line number that was recorded for it. */
module PromptLines {
  import opened Options
  import opened Rewriting
  import opened Renaming
  import opened Scrub

  // ---------------------------------------------------------------- lines of a text

  predicate IsBreak(c: char) {
    c == '\n' || Other(c)
  }

  /** str.splitlines(keepends), for a text in which no newline follows a carriage return. */
  function Lines(s: string, keepends: bool): (lines: seq<string>)
    ensures s != "" <==> lines != []
  {
    if s == "" then []
    else
      var rest := Lines(s[1..], keepends);
      if IsBreak(s[0]) then [if keepends then s[..1] else ""] + rest
      else if rest == [] then [s]
      else [s[..1] + rest[0]] + rest[1..]
  }

  /** The line breaks of a text. */
  function Breaks(s: string): nat {
    Newlines(s) + Others(s)
  }

  lemma BreaksAdd(a: string, b: string)
    ensures Breaks(a + b) == Breaks(a) + Breaks(b)
  {
    NewlinesAdd(a, b);
    OthersAdd(a, b);
  }

  lemma BreaksPush(c: char, s: string)
    ensures Breaks([c] + s) == (if IsBreak(c) then 1 else 0) + Breaks(s)
  {
    assert ([c] + s)[1..] == s;
  }

  lemma NoBreaks(s: string)
    requires forall i :: 0 <= i < |s| ==> !IsBreak(s[i])
    ensures Breaks(s) == 0
  {
    NoFeeds(s);
    NoOthers(s);
  }

  /** A break can only be its last character. */
  predicate IsLine(line: string) {
    line != "" && forall i :: 0 <= i < |line| - 1 ==> !IsBreak(line[i])
  }

  predicate Ended(line: string) {
    line != "" && IsBreak(line[|line| - 1])
  }

  /** What splitlines(keepends=True) gives: only the last line may lack its break. */
  predicate FileLines(lines: seq<string>) {
    && (forall i :: 0 <= i < |lines| ==> IsLine(lines[i]))
    && (forall i :: 0 <= i < |lines| - 1 ==> Ended(lines[i]))
  }

  lemma {:induction false} LinesAreFileLines(s: string)
    ensures FileLines(Lines(s, true))
  {
    if s != "" {
      LinesAreFileLines(s[1..]);
      var rest := Lines(s[1..], true);
      if !IsBreak(s[0]) && rest != [] {
        FirstGrows(s[0], rest);
      } else {
        FirstIsNew(s[..1], rest);
      }
    }
  }

  lemma FirstGrows(c: char, rest: seq<string>)
    requires !IsBreak(c) && rest != [] && FileLines(rest)
    ensures FileLines([[c] + rest[0]] + rest[1..])
  {
    var line := [c] + rest[0];
    assert forall i :: 0 < i < |line| ==> line[i] == rest[0][i - 1];
  }

  lemma FirstIsNew(line: string, rest: seq<string>)
    requires |line| == 1 && FileLines(rest) && (rest == [] || IsBreak(line[0]))
    ensures FileLines([line] + rest)
  {
  }

  function Concat(lines: seq<string>): string {
    if lines == [] then "" else lines[0] + Concat(lines[1..])
  }

  lemma EndedLineHasOne(line: string)
    requires IsLine(line) && Ended(line)
    ensures Breaks(line) == 1
  {
    var body, last := line[..|line| - 1], line[|line| - 1];
    NoBreaks(body);
    BreaksAdd(body, [last]);
    BreaksPush(last, "");
    assert line == body + [last] && [last] + "" == [last];
  }

  lemma {:induction false} BreaksCountLines(lines: seq<string>)
    requires forall i :: 0 <= i < |lines| ==> IsLine(lines[i]) && Ended(lines[i])
    ensures Breaks(Concat(lines)) == |lines|
  {
    if lines != [] {
      BreaksCountLines(lines[1..]);
      EndedLineHasOne(lines[0]);
      BreaksAdd(lines[0], Concat(lines[1..]));
    }
  }

  lemma {:induction false} ConcatAt(lines: seq<string>, i: nat, o: nat)
    requires i < |lines| && o < |lines[i]|
    ensures var p := |Concat(lines[..i])| + o;
            p < |Concat(lines)| && Concat(lines)[p] == lines[i][o]
              && Concat(lines)[..p] == Concat(lines[..i]) + lines[i][..o]
    decreases i
  {
    if i == 0 {
      assert lines[..0] == [];
    } else {
      ConcatAt(lines[1..], i - 1, o);
      assert lines[..i][1..] == lines[1..][..i - 1];
      assert lines[..i][0] == lines[0];
    }
  }

  // ---------------------------------------------------------------- prompt_code

  const CAP := 24000

  function Blanks(s: string): (n: nat)
    ensures n <= |s| && forall i :: 0 <= i < n ==> s[i] == ' ' || s[i] == '\t'
  {
    if s != "" && (s[0] == ' ' || s[0] == '\t') then 1 + Blanks(s[1..]) else 0
  }

  /** The leading blank lines, each with its newline. */
  function Lead(s: string): (n: nat)
    ensures n <= |s| && forall i :: 0 <= i < n ==> s[i] == ' ' || s[i] == '\t' || s[i] == '\n'
  {
    var k := Blanks(s);
    if k < |s| && s[k] == '\n' then k + 1 + Lead(s[k + 1..]) else 0
  }

  predicate BlankLine(line: string) {
    line != "" && line[|line| - 1] == '\n' && forall i :: 0 <= i < |line| - 1 ==> line[i] == ' ' || line[i] == '\t'
  }

  ghost predicate StartsWithBlankLine(s: string) {
    exists n :: 0 < n <= |s| && BlankLine(s[..n])
  }

  lemma NoBlankLineHere(s: string)
    requires !(Blanks(s) < |s| && s[Blanks(s)] == '\n')
    ensures !StartsWithBlankLine(s)
  {
    forall n | 0 < n <= |s| ensures !BlankLine(s[..n]) {
      var k := Blanks(s);
      if BlankLine(s[..n]) {
        assert s[n - 1] == s[..n][n - 1] == '\n';
        assert k <= n - 1;
        if k < n - 1 {
          assert s[k] == s[..n][k];
          BlanksStop(s);
        }
      }
    }
  }

  lemma {:induction false} BlanksStop(s: string)
    ensures Blanks(s) < |s| ==> s[Blanks(s)] != ' ' && s[Blanks(s)] != '\t'
  {
    if s != "" && (s[0] == ' ' || s[0] == '\t') {
      BlanksStop(s[1..]);
    }
  }

  /** What is dropped is blank lines, and all of those at the start. */
  lemma {:induction false} LeadIsBlankLines(s: string)
    ensures Lead(s) > 0 ==> s[Lead(s) - 1] == '\n'
    ensures !StartsWithBlankLine(s[Lead(s)..])
    decreases |s|
  {
    var k := Blanks(s);
    if k < |s| && s[k] == '\n' {
      var rest := s[k + 1..];
      LeadIsBlankLines(rest);
      assert s[Lead(s)..] == rest[Lead(rest)..];
      if Lead(rest) > 0 {
        assert s[Lead(s) - 1] == rest[Lead(rest) - 1];
      }
    } else {
      NoBlankLineHere(s);
      assert s[0..] == s;
    }
  }

  function Glued(preamble: seq<string>, body: seq<string>): string {
    Concat(preamble) + "\n" + Concat(body)
  }

  function Capped(s: string): string {
    if |s| > CAP then s[..CAP] + "\n/* [truncated] */\n" else s
  }

  /** The code sent, from the scrubbed text. */
  function Shown(full: string): string {
    Capped(full[Lead(full)..])
  }

  /** The line number recorded for line i of the function: offset + start_line - func.start + 1. */
  function StartLine(preamble: seq<string>, full: string, i: nat): int {
    |preamble| + 1 - Newlines(full[..Lead(full)]) + i + 1
  }

  /** Where character o of line i of the function stands in the glued text. */
  function PlaceInGlued(preamble: seq<string>, body: seq<string>, i: nat, o: nat): nat
    requires i < |body|
  {
    |Concat(preamble)| + 1 + |Concat(body[..i])| + o
  }

  /** Whole lines above, and lines of the function of which the last may end the file. */
  predicate Parts(preamble: seq<string>, body: seq<string>) {
    FileLines(preamble) && (preamble != [] ==> Ended(preamble[|preamble| - 1])) && FileLines(body)
  }

  /** Above line i of the function stand the preamble, the separator line and i lines. */
  lemma GluedAt(preamble: seq<string>, body: seq<string>, i: nat, o: nat)
    requires Parts(preamble, body) && i < |body| && o < |body[i]|
    ensures var g, at := Glued(preamble, body), PlaceInGlued(preamble, body, i, o);
            at < |g| && g[at] == body[i][o] && Breaks(g[..at]) == |preamble| + 1 + i
  {
    ConcatAt(body, i, o);
    var g, at := Glued(preamble, body), PlaceInGlued(preamble, body, i, o);
    var head, above := Concat(preamble) + "\n", Concat(body[..i]);
    assert g[..at] == head + (above + body[i][..o]);
    BreaksAdd(head, above + body[i][..o]);
    BreaksAdd(above, body[i][..o]);
    BreaksAdd(Concat(preamble), "\n");
    BreaksPush('\n', "");
    assert ['\n'] + "" == "\n";
    BreaksCountLines(preamble);
    BreaksCountLines(body[..i]);
    NoBreaks(body[i][..o]);
  }

  // ---------------------------------------------------------------- from the scrubbed text to the code

  lemma KeptByCap(full: string, n: nat, r: nat)
    requires n + r < |full| && r < CAP
    ensures r < |Capped(full[n..])| && Capped(full[n..])[r] == full[n + r]
  {
  }

  lemma UnderCap(code: string, r: nat)
    requires r < |code| && r < CAP
    ensures r < |Capped(code)| && Capped(code)[r] == code[r] && Capped(code)[..r] == code[..r]
  {
  }

  /** A code of up to 24000 characters is sent as it is; of a longer one the first 24000 and a note. */
  lemma CutOnlyBeyondCap(code: string)
    ensures |code| <= 24000 ==> Capped(code) == code
    ensures |code| > 24000 ==> code[..24000] <= Capped(code) && Capped(code)[24000..] == "\n/* [truncated] */\n"
  {
  }

  /** Where a character of the scrubbed text stands in the code sent, unless it is dropped or cut. */
  function InShown(full: string, q: nat): Option<nat> {
    if Lead(full) <= q < Lead(full) + CAP then Some(q - Lead(full)) else None
  }

  lemma LeadHasNewlinesOnly(full: string)
    ensures Breaks(full[..Lead(full)]) == Newlines(full[..Lead(full)])
  {
    NoOthers(full[..Lead(full)]);
  }

  /** Dropping the lead moves a character up by the lines dropped, and the cap cuts below it. */
  lemma LineInShown(full: string, q: nat)
    requires q < |full| && InShown(full, q).Some?
    ensures var code, r := Shown(full), InShown(full, q).value;
            r < |code| && code[r] == full[q] && Breaks(full[..q]) == Newlines(full[..Lead(full)]) + Breaks(code[..r])
  {
    var n := Lead(full);
    var r := q - n;
    UnderCap(full[n..], r);
    assert full[..q] == full[..n] + full[n..][..r];
    BreaksAdd(full[..n], full[n..][..r]);
    LeadHasNewlinesOnly(full);
  }

  /** A visible character is never dropped with the lead. */
  lemma VisibleIsPastLead(full: string, q: nat)
    requires q < |full| && full[q] != ' ' && full[q] != '\t' && full[q] != '\n'
    ensures Lead(full) <= q
  {
  }

  /** Where a character of the glued text stands in the code sent, if it gets there. */
  function IntoShown(g: string, p: Patterns, namer: Namer, at: nat): Option<nat> {
    match Follow(Passes(g, p, namer), at)
    case None => None
    case Some(q) => InShown(Scrubbed(g, p, namer), q)
  }

  /** In the code, character `at` of the glued text stands at r, lines having been lost above it
      exactly when a separator other than the newline was. */
  ghost predicate StandsAt(g: string, full: string, at: nat, r: nat, intact: bool)
    requires at < |g|
  {
    var code, dropped := Shown(full), Newlines(full[..Lead(full)]);
    && r < |code| && code[r] == g[at]
    && dropped + Breaks(code[..r]) <= Breaks(g[..at])
    && (dropped + Breaks(code[..r]) == Breaks(g[..at]) <==> intact)
  }

  /** A character survives a scrub with its newlines above, and with its breaks above when all separators are kept. */
  lemma ScrubKeepsBreaks(s: string, p: Patterns, namer: Namer, at: nat)
    requires GivesWords(namer) && at < |s|
    ensures var full, q := Scrubbed(s, p, namer), Follow(Passes(s, p, namer), at);
            q.Some? ==>
              && q.value < |full| && full[q.value] == s[at] && Breaks(full[..q.value]) <= Breaks(s[..at])
              && (Breaks(full[..q.value]) == Breaks(s[..at]) <==> OthersFollow(Passes(s, p, namer), s, at))
  {
    if Follow(Passes(s, p, namer), at).Some? {
      PassesAreLinked(s, p, namer);
      SurvivorKeepsLine(Passes(s, p, namer), s, at);
      FollowLosesOthers(Passes(s, p, namer), s, at);
    }
  }

  lemma CodeKeepsBreaks(g: string, p: Patterns, namer: Namer, at: nat)
    requires GivesWords(namer) && at < |g| && IntoShown(g, p, namer, at).Some?
    ensures StandsAt(g, Scrubbed(g, p, namer), at, IntoShown(g, p, namer, at).value,
                     OthersFollow(Passes(g, p, namer), g, at))
  {
    ScrubKeepsBreaks(g, p, namer, at);
    LineInShown(Scrubbed(g, p, namer), Follow(Passes(g, p, namer), at).value);
  }

  /** The line recorded is never above the line on which the character stands in the code, and it is
      that line exactly when every separator above survives. */
  ghost predicate CodeNumbered(preamble: seq<string>, body: seq<string>, p: Patterns, namer: Namer) {
    forall i: nat, o: nat :: i < |body| && o < |body[i]| ==> CodeNumberedAt(preamble, body, p, namer, i, o)
  }

  ghost predicate CodeNumberedAt(preamble: seq<string>, body: seq<string>, p: Patterns, namer: Namer, i: nat, o: nat)
    requires i < |body| && o < |body[i]|
  {
    var g, at := Glued(preamble, body), PlaceInGlued(preamble, body, i, o);
    var full, r := Scrubbed(g, p, namer), IntoShown(g, p, namer, at);
    at < |g| && (r.Some? ==>
      && r.value < |Shown(full)| && Shown(full)[r.value] == body[i][o]
      && 1 + Breaks(Shown(full)[..r.value]) <= StartLine(preamble, full, i)
      && (1 + Breaks(Shown(full)[..r.value]) == StartLine(preamble, full, i)
        <==> OthersFollow(Passes(g, p, namer), g, at)))
  }

  lemma CodeIsNumbered(preamble: seq<string>, body: seq<string>, p: Patterns, namer: Namer)
    requires Parts(preamble, body) && GivesWords(namer)
    ensures CodeNumbered(preamble, body, p, namer)
  {
    forall i: nat, o: nat | i < |body| && o < |body[i]| ensures CodeNumberedAt(preamble, body, p, namer, i, o) {
      var g, at := Glued(preamble, body), PlaceInGlued(preamble, body, i, o);
      GluedAt(preamble, body, i, o);
      if IntoShown(g, p, namer, at).Some? {
        CodeKeepsBreaks(g, p, namer, at);
      }
    }
  }

  /** prompt_code: the text shown to the model, and how many leading lines were dropped. */
  method PromptCode(preamble: seq<string>, body: seq<string>, p: Patterns, draw: nat -> string)
    returns (code: string, trimmed: nat)
    requires forall k: nat :: IsWord(draw(k))
    ensures var full := Scrubbed(Glued(preamble, body), p, Drawing(draw));
            code == Shown(full) && trimmed == Newlines(full[..Lead(full)])
    ensures Parts(preamble, body) ==> CodeNumbered(preamble, body, p, Drawing(draw))
  {
    ghost var chain := Passes(Glued(preamble, body), p, Drawing(draw));
    code := Glued(preamble, body);
    code := Target(StrayClose(code));
    code := Target(Comments(code));
    code := Target(Preproc(code, p.preproc));
    code := Target(Strings(code, p.leaks));
    assert GivesWords(Drawing(draw));
    RenamesIsPass(code, p.labelled, Drawing(draw));
    var names;
    code, names := Substitute(code, p.labelled, Drawing(draw));
    OutcomeOfFive(chain, Glued(preamble, body));
    var lead := Lead(code);
    trimmed := Newlines(code[..lead]);
    code := code[lead..];
    if |code| > CAP {
      code := code[..CAP] + "\n/* [truncated] */\n";
    }
    if Parts(preamble, body) {
      CodeIsNumbered(preamble, body, p, Drawing(draw));
    }
  }

  // ---------------------------------------------------------------- the numbered lines of the prompt

  /** numbered(code, 1): each line with its number. */
  function Numbered(code: string): seq<(int, string)> {
    var lines := Lines(code, false);
    seq(|lines|, i requires 0 <= i < |lines| => (1 + i, lines[i]))
  }

  /** The column of a character: how far it is from the last break. */
  function Column(s: string, q: nat): nat
    requires q <= |s|
  {
    if q == 0 || IsBreak(s[q - 1]) then 0 else 1 + Column(s, q - 1)
  }

  /** Column `column` of the line numbered `number` shows c. */
  predicate Shows(code: string, number: int, column: nat, c: char) {
    && 1 <= number <= |Numbered(code)| && Numbered(code)[number - 1].0 == number
    && column < |Numbered(code)[number - 1].1| && Numbered(code)[number - 1].1[column] == c
  }

  lemma {:induction false} ColumnInTail(s: string, q: nat)
    requires 0 < q <= |s|
    ensures Column(s, q) == Column(s[1..], q - 1) + if Breaks(s[..q]) == 0 then 1 else 0
  {
    if q > 1 {
      ColumnInTail(s, q - 1);
      assert s[..q] == s[..q - 1] + [s[q - 1]];
      BreaksAdd(s[..q - 1], [s[q - 1]]);
    }
    BreaksPush(s[q - 1], "");
    assert [s[q - 1]] + "" == [s[q - 1]];
    if q == 1 {
      assert s[..1] == [s[0]];
    }
  }

  /** A character shows in the line with as many lines above it as there are breaks before it, in its column. */
  lemma {:induction false} ShownOnItsLine(s: string, q: nat)
    requires q < |s| && !IsBreak(s[q])
    ensures Breaks(s[..q]) < |Lines(s, false)| && Column(s, q) < |Lines(s, false)[Breaks(s[..q])]|
    ensures Lines(s, false)[Breaks(s[..q])][Column(s, q)] == s[q]
  {
    if q > 0 {
      ShownOnItsLine(s[1..], q - 1);
      ColumnInTail(s, q);
      BreaksPush(s[0], s[1..][..q - 1]);
      assert s[..q] == [s[0]] + s[1..][..q - 1];
    }
  }

  // ---------------------------------------------------------------- from the file to the prompt

  predicate WithoutBreak(line: string, bare: string) {
    line != "" && bare == if IsBreak(line[|line| - 1]) then line[..|line| - 1] else line
  }

  lemma BreakStays(c: char, line: string, bare: string)
    requires WithoutBreak(line, bare)
    ensures WithoutBreak([c] + line, [c] + bare)
  {
    var grown := [c] + line;
    assert grown[|grown| - 1] == line[|line| - 1] && grown[..|grown| - 1] == [c] + line[..|line| - 1];
  }

  /** Dropping the breaks changes nothing else: line by line, each without the break that ends it. */
  lemma {:induction false} LinesWithoutBreaks(s: string)
    ensures |Lines(s, false)| == |Lines(s, true)|
    ensures forall i :: 0 <= i < |Lines(s, true)| ==> WithoutBreak(Lines(s, true)[i], Lines(s, false)[i])
  {
    if s != "" {
      LinesWithoutBreaks(s[1..]);
      var kept, bare := Lines(s[1..], true), Lines(s[1..], false);
      if !IsBreak(s[0]) && kept != [] {
        BreakStays(s[0], kept[0], bare[0]);
      }
    }
  }

  /** A finding: the text of the file, where the first labelled function starts, where the flagged
      function starts and ends, and the flagged line, all counted from 0 over splitlines. */
  datatype Finding = Finding(text: string, first: nat, start: nat, end: nat, line: nat)

  predicate Located(f: Finding) {
    f.first <= f.start <= f.line < f.end <= |Lines(f.text, true)|
  }

  function Preamble(f: Finding): seq<string>
    requires Located(f)
  {
    Lines(f.text, true)[..f.first]
  }

  function Body(f: Finding): seq<string>
    requires Located(f)
  {
    Lines(f.text, true)[f.start..f.end]
  }

  function FlaggedLine(f: Finding): string
    requires Located(f)
  {
    Lines(f.text, true)[f.line]
  }

  function GluedOf(f: Finding): string
    requires Located(f)
  {
    Glued(Preamble(f), Body(f))
  }

  function PlaceOf(f: Finding, o: nat): nat
    requires Located(f)
  {
    PlaceInGlued(Preamble(f), Body(f), f.line - f.start, o)
  }

  /** The number recorded for the finding. */
  function Recorded(f: Finding, p: Patterns, draw: nat -> string): int
    requires Located(f)
  {
    StartLine(Preamble(f), Scrubbed(GluedOf(f), p, Drawing(draw)), f.line - f.start)
  }

  /** The code of the item, and the text in the prompt, which is scrubbed once more. */
  function CodeOf(f: Finding, p: Patterns, draw: nat -> string): string
    requires Located(f)
  {
    Shown(Scrubbed(GluedOf(f), p, Drawing(draw)))
  }

  function PromptOf(f: Finding, p: Patterns, draw: nat -> string): string
    requires Located(f)
  {
    Scrubbed(CodeOf(f, p, draw), p, Counting())
  }

  /** Where a character of the glued text ends up in the prompt. */
  function IntoPrompt(g: string, p: Patterns, draw: nat -> string, at: nat): Option<nat> {
    match IntoShown(g, p, Drawing(draw), at)
    case None => None
    case Some(r) => Follow(Passes(Shown(Scrubbed(g, p, Drawing(draw))), p, Counting()), r)
  }

  /** Every separator other than the newline above the character reaches the prompt. */
  ghost predicate SeparatorsReach(g: string, p: Patterns, draw: nat -> string, at: nat)
    requires at <= |g|
  {
    forall k :: 0 <= k < at && Other(g[k]) ==> IntoPrompt(g, p, draw, k).Some?
  }

  lemma PartsOf(f: Finding)
    requires Located(f)
    ensures Parts(Preamble(f), Body(f)) && Body(f)[f.line - f.start] == FlaggedLine(f)
  {
    LinesAreFileLines(f.text);
  }

  /** The separators reach the prompt exactly when both scrubs keep them. */
  lemma ReachesThroughBoth(g: string, p: Patterns, draw: nat -> string, at: nat)
    requires GivesWords(Drawing(draw)) && at < |g| && IntoPrompt(g, p, draw, at).Some?
    requires IntoShown(g, p, Drawing(draw), at).value < |Shown(Scrubbed(g, p, Drawing(draw)))|
    ensures var code := Shown(Scrubbed(g, p, Drawing(draw)));
            SeparatorsReach(g, p, draw, at) <==>
              OthersFollow(Passes(g, p, Drawing(draw)), g, at)
              && OthersFollow(Passes(code, p, Counting()), code, IntoShown(g, p, Drawing(draw), at).value)
  {
    var code, r := Shown(Scrubbed(g, p, Drawing(draw))), IntoShown(g, p, Drawing(draw), at).value;
    if SeparatorsReach(g, p, draw, at) {
      forall k | 0 <= k < r && Other(code[k]) ensures Follow(Passes(code, p, Counting()), k).Some? {
        var j := CameFrom(g, p, Drawing(draw), at, k);
      }
    }
    if OthersFollow(Passes(g, p, Drawing(draw)), g, at) && OthersFollow(Passes(code, p, Counting()), code, r) {
      forall k | 0 <= k < at && Other(g[k]) ensures IntoPrompt(g, p, draw, k).Some? {
        SeparatorIsShown(g, p, Drawing(draw), at, k);
      }
    }
  }

  /** The character stands in something to hide, in the glued text or, from there, in the code. */
  ghost predicate HiddenOnTheWay(g: string, p: Patterns, draw: nat -> string, k: nat) {
    var code, r := Shown(Scrubbed(g, p, Drawing(draw))), IntoShown(g, p, Drawing(draw), k);
    Hidden(g, p, Drawing(draw), k) || (r.Some? && Hidden(code, p, Counting(), r.value))
  }

  lemma ReachesUnlessHidden(g: string, p: Patterns, draw: nat -> string, at: nat, k: nat)
    requires GivesWords(Drawing(draw)) && k < at < |g| && Other(g[k]) && IntoShown(g, p, Drawing(draw), at).Some?
    ensures IntoPrompt(g, p, draw, k).Some? <==> !HiddenOnTheWay(g, p, draw, k)
  {
    var code := Shown(Scrubbed(g, p, Drawing(draw)));
    LostExactlyWhenHidden(g, p, Drawing(draw), k);
    if Follow(Passes(g, p, Drawing(draw)), k).Some? {
      SeparatorIsShown(g, p, Drawing(draw), at, k);
      CountingNeverRepeats();
      LostExactlyWhenHidden(code, p, Counting(), IntoShown(g, p, Drawing(draw), k).value);
    }
  }

  /** The separators above reach the prompt exactly when none of them stands in something to hide. */
  lemma SeparatorsReachUnlessHidden(g: string, p: Patterns, draw: nat -> string, at: nat)
    requires GivesWords(Drawing(draw)) && at < |g| && IntoShown(g, p, Drawing(draw), at).Some?
    ensures SeparatorsReach(g, p, draw, at) <==>
            forall k :: 0 <= k < at && Other(g[k]) ==> !HiddenOnTheWay(g, p, draw, k)
  {
    forall k | 0 <= k < at && Other(g[k]) ensures IntoPrompt(g, p, draw, k).Some? <==> !HiddenOnTheWay(g, p, draw, k) {
      ReachesUnlessHidden(g, p, draw, at, k);
    }
  }

  /** A separator of the code above the character was one of the glued text above it. */
  lemma CameFrom(g: string, p: Patterns, namer: Namer, at: nat, k: nat) returns (j: nat)
    requires GivesWords(namer) && at < |g| && IntoShown(g, p, namer, at).Some?
    requires k < IntoShown(g, p, namer, at).value < |Shown(Scrubbed(g, p, namer))|
             && Other(Shown(Scrubbed(g, p, namer))[k])
    ensures j < at && Other(g[j]) && IntoShown(g, p, namer, j) == Some(k)
  {
    var chain, full := Passes(g, p, namer), Scrubbed(g, p, namer);
    PassesAreLinked(g, p, namer);
    SurvivorKeepsLine(chain, g, at);
    BackFromShown(full, Follow(chain, at).value, k);
    j := CameFromAbove(chain, g, at, Lead(full) + k);
  }

  lemma CameFromAbove(chain: seq<seq<Seg>>, g: string, at: nat, k: nat) returns (j: nat)
    requires Linked(chain, g) && at < |g| && Follow(chain, at).Some? && k < Follow(chain, at).value
    requires k < |Outcome(chain, g)| && Other(Outcome(chain, g)[k])
    ensures j < at && Other(g[j]) && Follow(chain, j) == Some(k)
  {
    j := OtherWasThereFirst(chain, g, k);
    SurvivorKeepsLine(chain, g, j);
    FollowKeepsOrder(chain, at, j);
  }

  lemma BackFromShown(full: string, q: nat, k: nat)
    requires q < |full| && InShown(full, q).Some? && k < InShown(full, q).value
    ensures k < |Shown(full)| && Lead(full) + k < q && Shown(full)[k] == full[Lead(full) + k]
    ensures InShown(full, Lead(full) + k) == Some(k)
  {
    BackFromCut(full, Lead(full), q, k, Shown(full));
  }

  lemma BackFromCut(full: string, n: nat, q: nat, k: nat, code: string)
    requires n <= q < n + CAP && k < q - n && q < |full| && code == Capped(full[n..])
    ensures k < |code| && n + k < q && code[k] == full[n + k]
  {
    KeptByCap(full, n, k);
  }

  /** A separator that the first scrub keeps above the character is in the code, above it. */
  lemma SeparatorIsShown(g: string, p: Patterns, namer: Namer, at: nat, k: nat)
    requires GivesWords(namer) && k < at < |g| && IntoShown(g, p, namer, at).Some?
    requires Other(g[k]) && Follow(Passes(g, p, namer), k).Some?
    ensures var code, r := Shown(Scrubbed(g, p, namer)), IntoShown(g, p, namer, k);
            r.Some? && r.value < IntoShown(g, p, namer, at).value && r.value < |code| && Other(code[r.value])
  {
    var chain, full := Passes(g, p, namer), Scrubbed(g, p, namer);
    PassesAreLinked(g, p, namer);
    SurvivorKeepsLine(chain, g, k);
    FollowKeepsOrder(chain, at, k);
    AboveIsShown(full, Follow(chain, at).value, Follow(chain, k).value);
  }

  lemma AboveIsShown(full: string, q: nat, k: nat)
    requires k < q && k < |full| && Other(full[k]) && InShown(full, q).Some?
    ensures var code, r := Shown(full), InShown(full, k);
            r.Some? && r.value < InShown(full, q).value && r.value < |code| && Other(code[r.value])
  {
    VisibleIsPastLead(full, k);
    KeptByCap(full, Lead(full), k - Lead(full));
  }

  lemma PromptKeepsBreaks(g: string, p: Patterns, draw: nat -> string, at: nat)
    requires GivesWords(Drawing(draw)) && at < |g|
    ensures var full := Scrubbed(g, p, Drawing(draw));
            var out, q := Scrubbed(Shown(full), p, Counting()), IntoPrompt(g, p, draw, at);
            var dropped := Newlines(full[..Lead(full)]);
            q.Some? ==>
              && q.value < |out| && out[q.value] == g[at] && dropped + Breaks(out[..q.value]) <= Breaks(g[..at])
              && (dropped + Breaks(out[..q.value]) == Breaks(g[..at]) <==> SeparatorsReach(g, p, draw, at))
  {
    if IntoPrompt(g, p, draw, at).Some? {
      var code, r := Shown(Scrubbed(g, p, Drawing(draw))), IntoShown(g, p, Drawing(draw), at).value;
      CodeKeepsBreaks(g, p, Drawing(draw), at);
      CountingNeverRepeats();
      ScrubKeepsBreaks(code, p, Counting(), r);
      ReachesThroughBoth(g, p, draw, at);
    }
  }

  /** Character q of the prompt shows as c in its column of a numbered line; the number is at most the
      recorded one, and it is the recorded one exactly when `intact`. */
  ghost predicate ShownAsRecorded(out: string, q: nat, c: char, recorded: int, intact: bool) {
    && q < |out| && Shows(out, 1 + Breaks(out[..q]), Column(out, q), c)
    && 1 + Breaks(out[..q]) <= recorded
    && (1 + Breaks(out[..q]) == recorded <==> intact)
  }

  lemma NumberFromBreaks(out: string, q: nat, c: char, dropped: nat, above: nat, recorded: int, intact: bool)
    requires q < |out| && out[q] == c && !IsBreak(c) && recorded == 1 + above - dropped
    requires dropped + Breaks(out[..q]) <= above && (dropped + Breaks(out[..q]) == above <==> intact)
    ensures ShownAsRecorded(out, q, c, recorded, intact)
  {
    ShownOnItsLine(out, q);
  }

  /** A character of the flagged line that reaches the prompt shows there, in its column of a numbered
      line, and the number is the recorded one exactly when every separator other than the newline above
      it reaches the prompt too. Otherwise the recorded number is too high. */
  lemma RecordedLineExactlyWhen(f: Finding, p: Patterns, draw: nat -> string, o: nat)
    requires Located(f) && (forall k: nat :: IsWord(draw(k)))
    requires o < |FlaggedLine(f)| && !IsBreak(FlaggedLine(f)[o])
    ensures PlaceOf(f, o) < |GluedOf(f)|
    ensures IntoPrompt(GluedOf(f), p, draw, PlaceOf(f, o)).Some? ==>
              ShownAsRecorded(PromptOf(f, p, draw), IntoPrompt(GluedOf(f), p, draw, PlaceOf(f, o)).value,
                              FlaggedLine(f)[o], Recorded(f, p, draw),
                              SeparatorsReach(GluedOf(f), p, draw, PlaceOf(f, o)))
  {
    RecordedIs(f, p, draw, o);
    assert GivesWords(Drawing(draw));
    PromptNumbered(GluedOf(f), p, draw, PlaceOf(f, o));
  }

  lemma RecordedIs(f: Finding, p: Patterns, draw: nat -> string, o: nat)
    requires Located(f) && o < |FlaggedLine(f)|
    ensures var g, at := GluedOf(f), PlaceOf(f, o);
            var full := Scrubbed(g, p, Drawing(draw));
            && at < |g| && g[at] == FlaggedLine(f)[o]
            && Recorded(f, p, draw) == 1 + Breaks(g[..at]) - Newlines(full[..Lead(full)])
  {
    PartsOf(f);
    GluedAt(Preamble(f), Body(f), f.line - f.start, o);
  }

  lemma PromptNumbered(g: string, p: Patterns, draw: nat -> string, at: nat)
    requires GivesWords(Drawing(draw)) && at < |g| && !IsBreak(g[at])
    ensures var full := Scrubbed(g, p, Drawing(draw));
            IntoPrompt(g, p, draw, at).Some? ==>
              ShownAsRecorded(Scrubbed(Shown(full), p, Counting()), IntoPrompt(g, p, draw, at).value, g[at],
                              1 + Breaks(g[..at]) - Newlines(full[..Lead(full)]), SeparatorsReach(g, p, draw, at))
  {
    var full := Scrubbed(g, p, Drawing(draw));
    PromptKeepsBreaks(g, p, draw, at);
    if IntoPrompt(g, p, draw, at).Some? {
      NumberFromBreaks(Scrubbed(Shown(full), p, Counting()), IntoPrompt(g, p, draw, at).value, g[at],
                       Newlines(full[..Lead(full)]), Breaks(g[..at]),
                       1 + Breaks(g[..at]) - Newlines(full[..Lead(full)]), SeparatorsReach(g, p, draw, at));
    }
  }

  /** Both scrubs leave no labelled word: the drawn names are in the glued text's place, the numbered
      ones in the prompt's, wherever the cap cut the code between them. */
  lemma NoLabelReachesThePrompt(f: Finding, p: Patterns, draw: nat -> string)
    requires Located(f) && (forall k: nat :: IsWord(draw(k)))
    ensures (forall k: nat :: !p.labelled(draw(k))) ==>
              LabelFree(Scrubbed(GluedOf(f), p, Drawing(draw)), p.labelled)
    ensures (forall k: nat :: !p.labelled(Id(k))) ==> LabelFree(PromptOf(f, p, draw), p.labelled)
  {
    CountingNeverRepeats();
    assert GivesWords(Drawing(draw));
    if forall k: nat :: !p.labelled(draw(k)) {
      assert NeverLabelled(Drawing(draw), p.labelled);
      ScrubbedIsLabelFree(GluedOf(f), p, Drawing(draw));
    }
    if forall k: nat :: !p.labelled(Id(k)) {
      assert NeverLabelled(Counting(), p.labelled);
      ScrubbedIsLabelFree(CodeOf(f, p, draw), p, Counting());
    }
  }

  // ---------------------------------------------------------------- files with newlines only

  lemma {:induction false} LinesHaveNoOthers(s: string)
    requires forall i :: 0 <= i < |s| ==> !Other(s[i])
    ensures forall i, j :: 0 <= i < |Lines(s, true)| && 0 <= j < |Lines(s, true)[i]| ==> !Other(Lines(s, true)[i][j])
  {
    if s != "" {
      LinesHaveNoOthers(s[1..]);
    }
  }

  lemma {:induction false} ConcatHasNoOthers(lines: seq<string>)
    requires forall i, j :: 0 <= i < |lines| && 0 <= j < |lines[i]| ==> !Other(lines[i][j])
    ensures forall j :: 0 <= j < |Concat(lines)| ==> !Other(Concat(lines)[j])
  {
    if lines != [] {
      ConcatHasNoOthers(lines[1..]);
    }
  }

  lemma GluedHasNoOthers(f: Finding)
    requires Located(f) && (forall i :: 0 <= i < |f.text| ==> !Other(f.text[i]))
    ensures forall j :: 0 <= j < |GluedOf(f)| ==> !Other(GluedOf(f)[j])
  {
    LinesHaveNoOthers(f.text);
    ConcatHasNoOthers(Preamble(f));
    ConcatHasNoOthers(Body(f));
  }

  lemma FlaggedHasNoOthers(f: Finding, o: nat)
    requires Located(f) && (forall i :: 0 <= i < |f.text| ==> !Other(f.text[i])) && o < |FlaggedLine(f)|
    ensures !Other(FlaggedLine(f)[o])
  {
    LinesHaveNoOthers(f.text);
  }

  lemma NothingToLose(g: string, p: Patterns, draw: nat -> string, at: nat)
    requires at <= |g| && forall k :: 0 <= k < |g| ==> !Other(g[k])
    ensures SeparatorsReach(g, p, draw, at)
  {
  }

  /** In a file whose only separator is the newline, the flagged character shows in the line that
      carries the recorded number. */
  lemma NewlineFilesShowTheRecordedLine(f: Finding, p: Patterns, draw: nat -> string, o: nat)
    requires Located(f) && (forall k: nat :: IsWord(draw(k))) && (forall i :: 0 <= i < |f.text| ==> !Other(f.text[i]))
    requires o < |FlaggedLine(f)| && FlaggedLine(f)[o] != '\n'
    ensures var out, at := PromptOf(f, p, draw), IntoPrompt(GluedOf(f), p, draw, PlaceOf(f, o));
            at.Some? ==> at.value < |out| && Shows(out, Recorded(f, p, draw), Column(out, at.value), FlaggedLine(f)[o])
  {
    FlaggedHasNoOthers(f, o);
    GluedHasNoOthers(f);
    RecordedLineExactlyWhen(f, p, draw, o);
    NothingToLose(GluedOf(f), p, draw, PlaceOf(f, o));
    var at := IntoPrompt(GluedOf(f), p, draw, PlaceOf(f, o));
    if at.Some? {
      ShownWhenIntact(PromptOf(f, p, draw), at.value, FlaggedLine(f)[o], Recorded(f, p, draw));
    }
  }

  lemma ShownWhenIntact(out: string, q: nat, c: char, recorded: int)
    requires ShownAsRecorded(out, q, c, recorded, true)
    ensures q < |out| && Shows(out, recorded, Column(out, q), c)
  {
  }

  // ---------------------------------------------------------------- a file on which the number is wrong

  lemma LinesPush(c: char, s: string)
    ensures var rest := Lines(s, true);
            Lines([c] + s, true) == if IsBreak(c) || rest == [] then [[c]] + rest else [[c] + rest[0]] + rest[1..]
  {
    var t := [c] + s;
    assert t[1..] == s && t[..1] == [c] && t[0] == c;
    if Lines(s, true) == [] {
      assert t == [c];
    }
  }

  lemma {:induction false} ConcatOfLines(s: string)
    ensures Concat(Lines(s, true)) == s
  {
    if s != "" {
      ConcatOfLines(s[1..]);
      LinesPush(s[0], s[1..]);
      assert s == [s[0]] + s[1..];
    }
  }

  /** A file that starts with a comment holding a form feed, before a function at its third line. */
  function Commented(tail: string): (f: Finding)
    ensures Located(f) <==> tail != ""
  {
    CommentedLines(tail);
    Finding("//\U{000c}\n" + tail, 2, 2, 2 + |Lines(tail, true)|, 2)
  }

  lemma FirstLineGrows(c: char, first: string, more: seq<string>, s: string)
    requires !IsBreak(c) && Lines(s, true) == [first] + more
    ensures Lines([c] + s, true) == [[c] + first] + more
  {
    LinesPush(c, s);
    assert ([first] + more)[1..] == more;
  }

  lemma SplitFirst(line: string, s: string)
    requires line != ""
    ensures line == [line[0]] + line[1..] && line + s == [line[0]] + (line[1..] + s)
  {
  }

  lemma TailIsLine(line: string)
    requires IsLine(line) && |line| > 1
    ensures !IsBreak(line[0]) && IsLine(line[1..]) && (Ended(line) ==> Ended(line[1..]))
  {
    assert forall i :: 0 <= i < |line[1..]| ==> line[1..][i] == line[i + 1];
  }

  /** A whole line in front of a text is one more line. */
  lemma {:induction false} LineInFront(line: string, s: string)
    requires IsLine(line) && Ended(line)
    ensures Lines(line + s, true) == [line] + Lines(s, true)
  {
    SplitFirst(line, s);
    if |line| == 1 {
      LinesPush(line[0], s);
      assert line == [line[0]];
    } else {
      TailIsLine(line);
      LineInFront(line[1..], s);
      FirstLineGrows(line[0], line[1..], Lines(s, true), line[1..] + s);
    }
  }

  lemma CommentedLines(tail: string)
    ensures Lines("//\U{000c}\n" + tail, true) == ["//\U{000c}", "\n"] + Lines(tail, true)
  {
    LineInFront("\n", tail);
    LineInFront("//\U{000c}", "\n" + tail);
    assert "//\U{000c}" + ("\n" + tail) == "//\U{000c}\n" + tail;
  }

  lemma CommentedParts(tail: string)
    requires tail != ""
    ensures Preamble(Commented(tail)) == ["//\U{000c}", "\n"] && Body(Commented(tail)) == Lines(tail, true)
    ensures FlaggedLine(Commented(tail)) == Lines(tail, true)[0] && FlaggedLine(Commented(tail)) != ""
  {
    var f, rest := Commented(tail), Lines(tail, true);
    CommentedLines(tail);
    LinesAreFileLines(tail);
    assert (["//\U{000c}", "\n"] + rest)[..2] == ["//\U{000c}", "\n"];
    assert (["//\U{000c}", "\n"] + rest)[2..2 + |rest|] == rest;
  }

  lemma CommentedGlues(tail: string)
    requires tail != ""
    ensures GluedOf(Commented(tail)) == CommentedText(tail) && PlaceOf(Commented(tail), 0) == 5
  {
    var f, a := Commented(tail), ["//\U{000c}", "\n"];
    CommentedParts(tail);
    ConcatOfLines(tail);
    assert a[1..] == ["\n"] && ["\n"][1..] == [];
    assert Concat(["\n"]) == "\n";
    assert Concat(a) == "//\U{000c}\n";
    assert Body(f)[..0] == [];
  }

  /** What its preamble and function are glued to. */
  function CommentedText(tail: string): (g: string)
    ensures |g| == 5 + |tail| && Other(g[2])
  {
    "//\U{000c}\n\n" + tail
  }

  lemma LostAbove(g: string, p: Patterns, draw: nat -> string, at: nat, k: nat)
    requires k < at <= |g| && Other(g[k]) && IntoPrompt(g, p, draw, k) == None
    ensures !SeparatorsReach(g, p, draw, at)
  {
  }

  lemma FirstOfFirst(s: string)
    requires s != ""
    ensures Lines(s, true)[0] != "" && Lines(s, true)[0][0] == s[0]
  {
    LinesPush(s[0], s[1..]);
    assert [s[0]] + s[1..] == s;
  }

  lemma FormFeedGoes(tail: string, p: Patterns, draw: nat -> string)
    requires tail != ""
    ensures IntoPrompt(CommentedText(tail), p, draw, 2) == None
  {
    OpeningCommentGoes(CommentedText(tail), 3, p, Drawing(draw), 2);
  }

  /** The scrub drops a form feed with its comment and restores newlines only: whatever the function, the
      patterns and the names drawn, if the first character of the function gets to the prompt then its
      line is numbered below the recorded one. */
  lemma CommentedFormFeedMisnumbers(tail: string, p: Patterns, draw: nat -> string)
    requires tail != "" && !IsBreak(tail[0]) && forall k: nat :: IsWord(draw(k))
    ensures var out, at := PromptOf(Commented(tail), p, draw), IntoPrompt(CommentedText(tail), p, draw, 5);
            at.Some? ==>
              && at.value < |out| && Shows(out, 1 + Breaks(out[..at.value]), Column(out, at.value), tail[0])
              && 1 + Breaks(out[..at.value]) < Recorded(Commented(tail), p, draw)
  {
    CommentedParts(tail);
    CommentedGlues(tail);
    FirstOfFirst(tail);
    FormFeedGoes(tail, p, draw);
    LostAbove(CommentedText(tail), p, draw, 5, 2);
    RecordedLineExactlyWhen(Commented(tail), p, draw, 0);
  }

  // ---------------------------------------------------------------- and a function with a label in its name

  /** A word without a label, a blank, and the rest, in a text that only renaming changes. */
  predicate Begins(s: string, w: string, labelled: string -> bool) {
    IsWord(w) && !labelled(w) && w + " " <= s && Bare(s)
  }

  lemma RenamesFromWord(s: string, w: string, labelled: string -> bool, names: Names)
    requires Begins(s, w, labelled)
    ensures var segs := NameSegs(Tokenize(s), labelled, names);
            w + " " <= Target(segs) && forall k :: 0 <= k < |w| ==> Move(segs, k) == Some(k)
  {
    var rest := s[|w| + 1..];
    var later := NameSegs(Tokenize(rest), labelled, names);
    assert s == w + ([' '] + rest);
    WordInFront(w, [' '] + rest, labelled, names);
    GapInFront(' ', rest, labelled, names);
    forall k | 0 <= k < |w| ensures Move([Kept(w)] + ([Kept([' '])] + later), k) == Some(k) {
      KeptInFront(w, [Kept([' '])] + later, k);
    }
    KeptInFront(w, [Kept([' '])] + later, 0);
    KeptInFront([' '], later, 0);
  }

  /** The same behind two empty lines. */
  lemma RenamesBehindFeeds(s: string, w: string, labelled: string -> bool, names: Names)
    requires Begins(s, w, labelled)
    ensures var segs, inner := NameSegs(Tokenize("\n\n" + s), labelled, names), NameSegs(Tokenize(s), labelled, names);
            Target(segs) == "\n\n" + Target(inner) && Move(segs, 2) == Some(2)
  {
    var inner := NameSegs(Tokenize(s), labelled, names);
    RenamesFromWord(s, w, labelled, names);
    assert "\n\n" + s == ['\n'] + (['\n'] + s);
    GapInFront('\n', ['\n'] + s, labelled, names);
    GapInFront('\n', s, labelled, names);
    FeedsInFront(inner);
  }

  lemma FeedsInFront(segs: seq<Seg>)
    requires Move(segs, 0) == Some(0)
    ensures var all := [Kept(['\n'])] + ([Kept(['\n'])] + segs);
            Target(all) == "\n\n" + Target(segs) && Move(all, 2) == Some(2)
  {
    KeptInFront(['\n'], segs, 0);
    KeptInFront(['\n'], [Kept(['\n'])] + segs, 1);
    assert "\n\n" + Target(segs) == ['\n'] + (['\n'] + Target(segs));
  }

  lemma TwoBlankLines(tail: string)
    requires tail != "" && tail[0] != ' ' && tail[0] != '\t' && tail[0] != '\n' && |tail| <= CAP
    ensures Lead("\n\n" + tail) == 2 && Newlines(("\n\n" + tail)[..2]) == 2
    ensures Shown("\n\n" + tail) == tail && InShown("\n\n" + tail, 2) == Some(0)
  {
    var full := "\n\n" + tail;
    assert full[1..][1..] == tail;
    assert Lead(tail) == 0;
    assert Lead(full[1..]) == 1 + Lead(tail);
    assert Lead(full) == 1 + Lead(full[1..]);
    assert full[..2] == "\n\n" && "\n\n"[1..] == "\n" && "\n"[1..] == "";
  }

  lemma CommentedOpens(tail: string)
    requires Bare(tail)
    ensures OpensWithComment(CommentedText(tail), 3) && CommentedText(tail)[3..] == "\n\n" + tail
  {
  }

  /** The function with its names replaced, those of the two lines before it included. */
  function RenamedTail(tail: string, p: Patterns, namer: Namer): string {
    Target(NameSegs(Tokenize(tail), p.labelled, ScanNames("\n\n" + tail, p.labelled, namer)))
  }

  lemma RenamedTailBegins(tail: string, w: string, p: Patterns, namer: Namer)
    requires Begins(tail, w, p.labelled) && GivesWords(namer)
    ensures Begins(RenamedTail(tail, p, namer), w, p.labelled)
  {
    var s := "\n\n" + tail;
    var names := ScanNames(s, p.labelled, namer);
    RenamesFromWord(tail, w, p.labelled, names);
    TokenizeRenders(s);
    TokenizeRenders(tail);
    NamesAreWords(Tokenize(s), p.labelled, namer, map[], 0);
    RenamedIsBare(Tokenize(tail), p.labelled, names);
  }

  lemma ScrubOfCommented(tail: string, w: string, p: Patterns, namer: Namer)
    requires Begins(tail, w, p.labelled) && Directives(p)
    ensures Scrubbed(CommentedText(tail), p, namer) == "\n\n" + RenamedTail(tail, p, namer)
    ensures Follow(Passes(CommentedText(tail), p, namer), 5) == Some(2)
  {
    CommentedOpens(tail);
    OpeningComment(CommentedText(tail), 3, p, namer, 5);
    RenamesBehindFeeds(tail, w, p.labelled, ScanNames("\n\n" + tail, p.labelled, namer));
  }

  /** In a bare text the first scrub leaves its first word in place, past the comment and the two lines. */
  lemma FirstScrub(tail: string, w: string, p: Patterns, namer: Namer)
    requires Begins(tail, w, p.labelled) && Directives(p) && GivesWords(namer)
    ensures var full := Scrubbed(CommentedText(tail), p, namer);
            |full| <= CAP ==>
              && Begins(Shown(full), w, p.labelled) && Newlines(full[..Lead(full)]) == 2
              && IntoShown(CommentedText(tail), p, namer, 5) == Some(0)
  {
    var code := RenamedTail(tail, p, namer);
    ScrubOfCommented(tail, w, p, namer);
    RenamedTailBegins(tail, w, p, namer);
    assert IsWordChar(w[0]) && code[0] == w[0];
    if |code| <= CAP {
      TwoBlankLines(code);
    }
  }

  lemma SecondScrub(code: string, w: string, p: Patterns)
    requires Begins(code, w, p.labelled) && Directives(p)
    ensures Follow(Passes(code, p, Counting()), 0) == Some(0) && w <= Scrubbed(code, p, Counting())
  {
    BareScrub(code, p, Counting(), 0);
    RenamesFromWord(code, w, p.labelled, ScanNames(code, p.labelled, Counting()));
  }

  lemma CommentedRecorded(tail: string, p: Patterns, draw: nat -> string)
    requires tail != ""
    ensures var full := Scrubbed(CommentedText(tail), p, Drawing(draw));
            Recorded(Commented(tail), p, draw) == 4 - Newlines(full[..Lead(full)])
  {
    CommentedParts(tail);
    CommentedGlues(tail);
  }

  lemma ShowsWord(out: string, w: string)
    requires IsWord(w) && w <= out
    ensures Shows(out, 1, 0, w[0])
  {
    assert IsWordChar(w[0]) && out[0] == w[0];
    ShownFirst(out);
  }

  lemma PromptOfCommented(tail: string, p: Patterns, draw: nat -> string)
    requires tail != ""
    ensures PromptOf(Commented(tail), p, draw)
         == Scrubbed(Shown(Scrubbed(CommentedText(tail), p, Drawing(draw))), p, Counting())
  {
    CommentedGlues(tail);
  }

  lemma FirstLineIsMisnumbered(tail: string, w: string, p: Patterns, draw: nat -> string)
    requires Begins(tail, w, p.labelled) && Directives(p) && GivesWords(Drawing(draw))
    ensures |Scrubbed(CommentedText(tail), p, Drawing(draw))| <= CAP ==>
              && w <= PromptOf(Commented(tail), p, draw) && Shows(PromptOf(Commented(tail), p, draw), 1, 0, w[0])
              && Recorded(Commented(tail), p, draw) == 2
  {
    var full := Scrubbed(CommentedText(tail), p, Drawing(draw));
    FirstScrub(tail, w, p, Drawing(draw));
    if |full| <= CAP {
      CommentedRecorded(tail, p, draw);
      SecondScrub(Shown(full), w, p);
      ShowsWord(Scrubbed(Shown(full), p, Counting()), w);
      PromptOfCommented(tail, p, draw);
    }
  }

  lemma SignatureBegins(w: string, name: string, rest: string, labelled: string -> bool)
    requires IsWord(w) && !labelled(w) && IsWord(name) && Bare(rest)
    ensures Begins(w + " " + name + rest, w, labelled)
  {
    assert forall c :: c in w || c in name ==> IsWordChar(c);
  }

  /** One such finding for every function with a label in its name: behind that comment, the first line of
      `w name...` is numbered 1 in the prompt while 2 was recorded. */
  lemma LabelledFunctionIsMisnumbered(w: string, name: string, rest: string, p: Patterns, draw: nat -> string)
    requires IsWord(w) && !p.labelled(w) && IsWord(name) && p.labelled(name) && (rest == "" || !IsWordChar(rest[0]))
    requires Bare(rest) && Directives(p) && forall k: nat :: IsWord(draw(k))
    ensures var tail := w + " " + name + rest;
            |Scrubbed(CommentedText(tail), p, Drawing(draw))| <= CAP ==>
              && w <= PromptOf(Commented(tail), p, draw) && Shows(PromptOf(Commented(tail), p, draw), 1, 0, w[0])
              && Recorded(Commented(tail), p, draw) == 2
  {
    SignatureBegins(w, name, rest, p.labelled);
    assert GivesWords(Drawing(draw));
    FirstLineIsMisnumbered(w + " " + name + rest, w, p, draw);
  }

  lemma ShownFirst(s: string)
    requires s != "" && !IsBreak(s[0])
    ensures Shows(s, 1, 0, s[0])
  {
    ShownOnItsLine(s, 0);
    assert Breaks(s[..0]) == 0;
  }
}
