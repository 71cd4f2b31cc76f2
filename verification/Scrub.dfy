/** The text passes that hide the labels, each as the stretches it keeps and replaces. */
module Scrub {
  import opened Options
  import opened Rewriting
  import opened Renaming

  /** What the label patterns match: a leak inside a text, a preprocessor line, a label-bearing word. */
  datatype Patterns = Patterns(leaks: string -> bool, preproc: string -> bool, labelled: string -> bool)

  function Feeds(n: nat): string {
    seq(n, i => '\n')
  }

  lemma {:induction false} FeedsCount(n: nat)
    ensures Newlines(Feeds(n)) == n && Others(Feeds(n)) == 0
  {
    if n > 0 {
      assert Feeds(n)[1..] == Feeds(n - 1);
      FeedsCount(n - 1);
    }
  }

  lemma {:induction false} NoFeeds(s: string)
    requires forall i :: 0 <= i < |s| ==> s[i] != '\n'
    ensures Newlines(s) == 0
  {
    if s != "" {
      NoFeeds(s[1..]);
    }
  }

  /** A pass over s that keeps every line number. */
  ghost predicate IsPass(segs: seq<Seg>, s: string) {
    Source(segs) == s && Balanced(segs)
  }

  lemma PassPush(g: Seg, segs: seq<Seg>, s: string)
    requires IsPass(segs, s) && LineSafe(g)
    ensures IsPass([g] + segs, Before(g) + s)
  {
    assert ([g] + segs)[1..] == segs;
  }

  /** str.find of a two-character text. */
  function FindPair(s: string, a: char, b: char, from: nat): (at: Option<nat>)
    ensures at.Some? ==> from <= at.value && at.value + 2 <= |s| && s[at.value] == a && s[at.value + 1] == b
    ensures forall k :: from <= k < (if at.Some? then at.value else |s| - 1) ==> !(s[k] == a && s[k + 1] == b)
    decreases |s| - from
  {
    if from + 2 > |s| then None
    else if s[from] == a && s[from + 1] == b then Some(from)
    else FindPair(s, a, b, from + 1)
  }

  /** A stretch replaced by its newlines. */
  function Emptied(text: string): (g: Seg)
    ensures Before(g) == text && LineSafe(g)
  {
    FeedsCount(Newlines(text));
    Swapped(text, Feeds(Newlines(text)))
  }

  // ---------------------------------------------------------------- a comment the text opens inside

  function StrayClose(s: string): seq<Seg> {
    var close, open := FindPair(s, '*', '/', 0), FindPair(s, '/', '*', 0);
    if close.Some? && (open.None? || close.value < open.value)
    then [Emptied(s[..close.value + 2]), Kept(s[close.value + 2..])]
    else [Kept(s)]
  }

  lemma KeptIsPass(s: string)
    ensures IsPass([Kept(s)], s)
  {
    PassPush(Kept(s), [], "");
    assert [Kept(s)] + [] == [Kept(s)] && s + "" == s;
  }

  lemma EmptiedHeadIsPass(s: string, n: nat)
    requires n <= |s|
    ensures IsPass([Emptied(s[..n]), Kept(s[n..])], s)
  {
    KeptIsPass(s[n..]);
    PassPush(Emptied(s[..n]), [Kept(s[n..])], s[n..]);
    assert s == s[..n] + s[n..];
    assert [Emptied(s[..n])] + [Kept(s[n..])] == [Emptied(s[..n]), Kept(s[n..])];
  }

  lemma StrayCloseIsPass(s: string)
    ensures IsPass(StrayClose(s), s)
  {
    var close := FindPair(s, '*', '/', 0);
    KeptIsPass(s);
    if close.Some? {
      EmptiedHeadIsPass(s, close.value + 2);
    }
  }

  // ---------------------------------------------------------------- comments

  /** How far the line goes on. */
  function LineEnd(s: string): (n: nat)
    ensures n <= |s| && (forall i :: 0 <= i < n ==> s[i] != '\n') && (n < |s| ==> s[n] == '\n')
  {
    if s == "" || s[0] == '\n' then 0 else 1 + LineEnd(s[1..])
  }

  /** How much of s a comment at its start takes: to the end of the line, or to its closing mark if it has one. */
  function CommentLen(s: string): (n: nat)
    ensures n <= |s|
  {
    if |s| < 2 || s[0] != '/' then 0
    else if s[1] == '/' then LineEnd(s)
    else if s[1] == '*' && FindPair(s, '*', '/', 2).Some? then FindPair(s, '*', '/', 2).value + 2
    else 0
  }

  /** What the pass does at the start of s: a comment goes, or one character is kept. */
  function FirstComment(s: string): (g: Seg)
    requires s != ""
    ensures Before(g) != "" && Before(g) <= s && LineSafe(g)
  {
    var n := CommentLen(s);
    if n == 0 then Kept(s[..1]) else Emptied(s[..n])
  }

  /** Each comment by its newlines. */
  function Comments(s: string): seq<Seg> {
    if s == "" then []
    else
      var g := FirstComment(s);
      [g] + Comments(s[|Before(g)|..])
  }

  /** A pass that treats one stretch and goes on with the rest. */
  lemma PassStep(g: Seg, segs: seq<Seg>, s: string)
    requires Before(g) <= s && LineSafe(g) && IsPass(segs, s[|Before(g)|..])
    ensures IsPass([g] + segs, s)
  {
    PassPush(g, segs, s[|Before(g)|..]);
    assert s == Before(g) + s[|Before(g)|..];
  }

  lemma {:induction false} CommentsIsPass(s: string)
    ensures IsPass(Comments(s), s)
  {
    if s != "" {
      var g := FirstComment(s);
      CommentsIsPass(s[|Before(g)|..]);
      PassStep(g, Comments(s[|Before(g)|..]), s);
    }
  }

  // ---------------------------------------------------------------- preprocessor lines

  function FirstLine(s: string, matches: string -> bool): (g: Seg)
    ensures Before(g) == s[..LineEnd(s)] && LineSafe(g)
  {
    NoFeeds(s[..LineEnd(s)]);
    if matches(s[..LineEnd(s)]) then Swapped(s[..LineEnd(s)], "") else Kept(s[..LineEnd(s)])
  }

  /** Whole lines that match are blanked; the line breaks stay. */
  function Preproc(s: string, matches: string -> bool): seq<Seg> {
    var n := LineEnd(s);
    [FirstLine(s, matches)] + if n == |s| then [] else [Kept("\n")] + Preproc(s[n + 1..], matches)
  }

  lemma {:induction false} PreprocIsPass(s: string, matches: string -> bool)
    ensures IsPass(Preproc(s, matches), s)
    decreases |s|
  {
    var n, g := LineEnd(s), FirstLine(s, matches);
    if n == |s| {
      assert s[n..] == "";
      PassStep(g, [], s);
    } else {
      PreprocIsPass(s[n + 1..], matches);
      FeedStep(Preproc(s[n + 1..], matches), s[n..]);
      PassStep(g, [Kept("\n")] + Preproc(s[n + 1..], matches), s);
    }
  }

  lemma FeedStep(segs: seq<Seg>, s: string)
    requires s != "" && s[0] == '\n' && IsPass(segs, s[1..])
    ensures IsPass([Kept("\n")] + segs, s)
  {
    PassStep(Kept("\n"), segs, s);
  }

  // ---------------------------------------------------------------- string literals

  /** The place of the quote that ends a literal whose body starts at i: no line break inside, and a
      backslash takes the next character with it. */
  function BodyEnd(s: string, i: nat): (e: Option<nat>)
    ensures e.Some? ==> i <= e.value < |s| && s[e.value] == '"' && forall k :: i <= k < e.value ==> s[k] != '\n'
    decreases |s| - i
  {
    if i >= |s| || s[i] == '\n' then None
    else if s[i] == '"' then Some(i)
    else if s[i] != '\\' then BodyEnd(s, i + 1)
    else if i + 1 < |s| && s[i + 1] != '\n' then BodyEnd(s, i + 2)
    else None
  }

  /** Where the body of a literal at the start of s begins, with an optional L before the quote. */
  function BodyStart(s: string): nat {
    if |s| >= 1 && s[0] == '"' then 1 else if |s| >= 2 && s[0] == 'L' && s[1] == '"' then 2 else 0
  }

  function Masked(n: nat): string {
    seq(n, i => 'x')
  }

  /** A literal that leaks keeps its quotes and its length. */
  function Literal(s: string, i: nat, e: nat, leaks: string -> bool): (g: Seg)
    requires i <= e < |s|
    ensures Before(g) == s[..e + 1] && |Behind(g)| == e + 1
  {
    assert s[..i] + s[i..e] + s[e..e + 1] == s[..e + 1];
    if leaks(s[i..e]) then Swapped(s[..e + 1], s[..i] + Masked(e - i) + s[e..e + 1]) else Kept(s[..e + 1])
  }

  lemma LiteralIsBalanced(s: string, leaks: string -> bool)
    requires BodyStart(s) > 0 && BodyEnd(s, BodyStart(s)).Some?
    ensures LineSafe(Literal(s, BodyStart(s), BodyEnd(s, BodyStart(s)).value, leaks))
  {
    var i := BodyStart(s);
    var g := Literal(s, i, BodyEnd(s, i).value, leaks);
    NoFeeds(Before(g));
    NoFeeds(Behind(g));
    NoOthers(Behind(g));
  }

  /** What the pass does at the start of s: a literal is treated, or one character is kept. */
  function FirstLiteral(s: string, leaks: string -> bool): (g: Seg)
    requires s != ""
    ensures Before(g) != "" && Before(g) <= s && LineSafe(g)
  {
    var i := BodyStart(s);
    if i > 0 && BodyEnd(s, i).Some? then
      LiteralIsBalanced(s, leaks);
      Literal(s, i, BodyEnd(s, i).value, leaks)
    else Kept(s[..1])
  }

  function Strings(s: string, leaks: string -> bool): seq<Seg> {
    if s == "" then []
    else
      var g := FirstLiteral(s, leaks);
      [g] + Strings(s[|Before(g)|..], leaks)
  }

  lemma {:induction false} StringsIsPass(s: string, leaks: string -> bool)
    ensures IsPass(Strings(s, leaks), s)
  {
    if s != "" {
      var g := FirstLiteral(s, leaks);
      StringsIsPass(s[|Before(g)|..], leaks);
      PassStep(g, Strings(s[|Before(g)|..], leaks), s);
    }
  }

  // ---------------------------------------------------------------- names

  function NameSegs(toks: seq<Tok>, labelled: string -> bool, names: Names): seq<Seg> {
    if toks == [] then []
    else
      var t := toks[0];
      [if Hit(t, labelled) && t.w in names then Swapped(t.w, names[t.w]) else Kept(Text(t))]
      + NameSegs(toks[1..], labelled, names)
  }

  lemma {:induction false} NameSegsRender(toks: seq<Tok>, labelled: string -> bool, names: Names)
    requires Canonical(toks) && AllWords(names)
    ensures IsPass(NameSegs(toks, labelled, names), Render(toks))
    ensures Target(NameSegs(toks, labelled, names)) == Render(Applied(toks, labelled, names))
  {
    if toks != [] {
      var t := toks[0];
      NameSegsRender(toks[1..], labelled, names);
      var g := if Hit(t, labelled) && t.w in names then Swapped(t.w, names[t.w]) else Kept(Text(t));
      if g.Swapped? {
        NoFeeds(g.was);
        NoFeeds(g.becomes);
        NoOthers(g.becomes);
      }
      PassPush(g, NameSegs(toks[1..], labelled, names), Render(toks[1..]));
      assert Applied(toks, labelled, names)[1..] == Applied(toks[1..], labelled, names);
      assert ([g] + NameSegs(toks[1..], labelled, names))[1..] == NameSegs(toks[1..], labelled, names);
    }
  }

  function ScanNames(s: string, labelled: string -> bool, namer: Namer): Names {
    Filled(Tokenize(s), labelled, namer, map[], 0)
  }

  function Renames(s: string, labelled: string -> bool, namer: Namer): seq<Seg> {
    NameSegs(Tokenize(s), labelled, ScanNames(s, labelled, namer))
  }

  lemma RenamesIsPass(s: string, labelled: string -> bool, namer: Namer)
    requires GivesWords(namer)
    ensures IsPass(Renames(s, labelled, namer), s)
    ensures Target(Renames(s, labelled, namer)) == Render(Applied(Tokenize(s), labelled, ScanNames(s, labelled, namer)))
  {
    TokenizeRenders(s);
    NamesAreWords(Tokenize(s), labelled, namer, map[], 0);
    NameSegsRender(Tokenize(s), labelled, ScanNames(s, labelled, namer));
  }

  // ---------------------------------------------------------------- the pipeline

  /** The three passes after the comments. */
  function Later(c: string, p: Patterns, namer: Namer): seq<seq<Seg>> {
    var d := Preproc(c, p.preproc);
    var e := Strings(Target(d), p.leaks);
    [d, e, Renames(Target(e), p.labelled, namer)]
  }

  /** The five passes, each over the result of the one before. */
  function Passes(s: string, p: Patterns, namer: Namer): seq<seq<Seg>> {
    var a := StrayClose(s);
    var b := Comments(Target(a));
    [a, b] + Later(Target(b), p, namer)
  }

  /** The text after the passes. */
  function Scrubbed(s: string, p: Patterns, namer: Namer): string {
    Outcome(Passes(s, p, namer), s)
  }

  lemma LinkedPush(segs: seq<Seg>, chain: seq<seq<Seg>>, s: string)
    requires IsPass(segs, s) && Linked(chain, Target(segs))
    ensures Linked([segs] + chain, s)
  {
    assert ([segs] + chain)[1..] == chain;
  }

  lemma LaterIsLinked(c: string, p: Patterns, namer: Namer)
    requires GivesWords(namer)
    ensures Linked(Later(c, p, namer), c)
  {
    var d := Preproc(c, p.preproc);
    var e := Strings(Target(d), p.leaks);
    var n := Renames(Target(e), p.labelled, namer);
    PreprocIsPass(c, p.preproc);
    StringsIsPass(Target(d), p.leaks);
    RenamesIsPass(Target(e), p.labelled, namer);
    LinkedPush(n, [], Target(e));
    LinkedPush(e, [n], Target(d));
    LinkedPush(d, [e] + [n], c);
    assert [n] + [] == [n] && [d] + ([e] + [n]) == [d, e, n];
  }

  lemma PassesAreLinked(s: string, p: Patterns, namer: Namer)
    requires GivesWords(namer)
    ensures Linked(Passes(s, p, namer), s)
  {
    var a := StrayClose(s);
    var b := Comments(Target(a));
    var later := Later(Target(b), p, namer);
    StrayCloseIsPass(s);
    CommentsIsPass(Target(a));
    LaterIsLinked(Target(b), p, namer);
    LinkedPush(b, later, Target(a));
    LinkedPush(a, [b] + later, s);
    assert [a] + ([b] + later) == [a, b] + later;
  }

  /** What both programs scrub for: no word of the result bears a label, when no name handed out does. */
  lemma ScrubbedIsLabelFree(s: string, p: Patterns, namer: Namer)
    requires GivesWords(namer) && NeverLabelled(namer, p.labelled)
    ensures LabelFree(Scrubbed(s, p, namer), p.labelled)
  {
    var chain := Passes(s, p, namer);
    var e := Target(chain[3]);
    OutcomeOfFive(chain, s);
    RenamesIsPass(e, p.labelled, namer);
    LabelFreeExactlyWhen(e, p.labelled, namer);
    NamesAreLabelFree(Tokenize(e), p.labelled, namer, map[], 0);
  }

  // ---------------------------------------------------------------- what is replaced

  predicate HasPair(s: string, a: char, b: char, from: nat, to: int) {
    exists k :: from <= k < to && k + 1 < |s| && s[k] == a && s[k + 1] == b
  }

  /** The end of a comment: its only closing mark is its last two characters, and nothing opens before it. */
  predicate CommentTail(t: string) {
    && |t| >= 2 && t[|t| - 2] == '*' && t[|t| - 1] == '/'
    && !HasPair(t, '*', '/', 0, |t| - 2) && !HasPair(t, '/', '*', 0, |t| - 2)
  }

  predicate IsComment(t: string) {
    && |t| >= 2 && t[0] == '/'
    && (|| (t[1] == '/' && '\n' !in t)
        || (t[1] == '*' && |t| >= 4 && t[|t| - 2] == '*' && t[|t| - 1] == '/' && !HasPair(t, '*', '/', 2, |t| - 2)))
  }

  predicate LeakyLiteral(t: string, leaks: string -> bool) {
    var i := BodyStart(t);
    0 < i < |t| && t[|t| - 1] == '"' && leaks(t[i..|t| - 1])
  }

  /** Why pass j replaces a stretch. */
  predicate Reason(j: nat, t: string, p: Patterns) {
    match j
    case 0 => CommentTail(t)
    case 1 => IsComment(t)
    case 2 => p.preproc(t)
    case 3 => LeakyLiteral(t, p.leaks)
    case _ => IsWord(t) && p.labelled(t)
  }

  ghost predicate AllForReason(segs: seq<Seg>, j: nat, p: Patterns) {
    forall i :: 0 <= i < |segs| && segs[i].Swapped? ==> Reason(j, segs[i].was, p)
  }

  lemma ReasonPush(g: Seg, segs: seq<Seg>, j: nat, p: Patterns)
    requires AllForReason(segs, j, p) && (g.Swapped? ==> Reason(j, g.was, p))
    ensures AllForReason([g] + segs, j, p)
  {
  }

  lemma StrayCloseReplaces(s: string, p: Patterns)
    ensures AllForReason(StrayClose(s), 0, p)
  {
    var close := FindPair(s, '*', '/', 0);
    if close.Some? {
      var t := s[..close.value + 2];
      assert forall k :: 0 <= k < |t| ==> t[k] == s[k];
    }
  }

  lemma CommentLenIs(s: string)
    requires CommentLen(s) > 0
    ensures IsComment(s[..CommentLen(s)])
  {
    var t := s[..CommentLen(s)];
    assert forall k :: 0 <= k < |t| ==> t[k] == s[k];
    if s[1] == '/' {
      assert s[0] != '\n' && s[1] != '\n';
    }
  }

  lemma {:induction false} CommentsReplace(s: string, p: Patterns)
    ensures AllForReason(Comments(s), 1, p)
  {
    if s != "" {
      var g := FirstComment(s);
      if g.Swapped? {
        CommentLenIs(s);
      }
      CommentsReplace(s[|Before(g)|..], p);
      ReasonPush(g, Comments(s[|Before(g)|..]), 1, p);
    }
  }

  lemma {:induction false} PreprocReplaces(s: string, p: Patterns)
    ensures AllForReason(Preproc(s, p.preproc), 2, p)
    decreases |s|
  {
    var n, g := LineEnd(s), FirstLine(s, p.preproc);
    if n == |s| {
      ReasonPush(g, [], 2, p);
    } else {
      PreprocReplaces(s[n + 1..], p);
      ReasonPush(Kept("\n"), Preproc(s[n + 1..], p.preproc), 2, p);
      ReasonPush(g, [Kept("\n")] + Preproc(s[n + 1..], p.preproc), 2, p);
    }
  }

  lemma LiteralLeaks(s: string, e: nat, p: Patterns)
    requires 0 < BodyStart(s) <= e < |s| && s[e] == '"' && p.leaks(s[BodyStart(s)..e])
    ensures LeakyLiteral(s[..e + 1], p.leaks)
  {
    var i, t := BodyStart(s), s[..e + 1];
    assert BodyStart(t) == i;
    SliceOfTake(s, i, e);
  }

  lemma SliceOfTake(s: string, i: nat, e: nat)
    requires i <= e < |s|
    ensures s[..e + 1][i..e] == s[i..e]
  {
  }

  lemma {:induction false} StringsReplace(s: string, p: Patterns)
    ensures AllForReason(Strings(s, p.leaks), 3, p)
  {
    if s != "" {
      var g, i := FirstLiteral(s, p.leaks), BodyStart(s);
      if g.Swapped? {
        LiteralLeaks(s, BodyEnd(s, i).value, p);
      }
      StringsReplace(s[|Before(g)|..], p);
      ReasonPush(g, Strings(s[|Before(g)|..], p.leaks), 3, p);
    }
  }

  lemma {:induction false} NamesReplace(toks: seq<Tok>, p: Patterns, names: Names)
    requires Canonical(toks)
    ensures AllForReason(NameSegs(toks, p.labelled, names), 4, p)
  {
    if toks != [] {
      NamesReplace(toks[1..], p, names);
    }
  }

  /** A character is lost exactly when, on its way, some pass replaces the stretch it stands in, and
      what is replaced is the tail or the whole of a comment, a label directive, a literal that
      leaks, or a word that bears a label. */
  lemma LostForAReason(s: string, p: Patterns, namer: Namer, at: nat)
    requires GivesWords(namer) && at < |s|
    ensures var chain := Passes(s, p, namer);
            && (Follow(chain, at).None? <==> Lost(chain, at))
            && (forall j :: 0 <= j < 5 ==> AllForReason(chain[j], j, p))
  {
    var chain := Passes(s, p, namer);
    PassesAreLinked(s, p, namer);
    SurvivesUnlessLost(chain, s, at);
    StrayCloseReplaces(s, p);
    CommentsReplace(Target(chain[0]), p);
    PreprocReplaces(Target(chain[1]), p);
    StringsReplace(Target(chain[2]), p);
    TokenizeRenders(Target(chain[3]));
    NamesReplace(Tokenize(Target(chain[3])), p, ScanNames(Target(chain[3]), p.labelled, namer));
  }

  /** Pass j replaces, at `at`, the i-th stretch of what it reads, for its reason. */
  ghost predicate HiddenIn(s: string, p: Patterns, namer: Namer, at: nat, j: nat, i: nat) {
    var chain := Passes(s, p, namer);
    && j < |chain| && i < |chain[j]| && Follow(chain[..j], at).Some?
    && InStretch(chain[j], i, Follow(chain[..j], at).value)
    && chain[j][i].Swapped? && Reason(j, chain[j][i].was, p)
  }

  /** The character stands in something to hide: a comment, a directive line, a literal that leaks, or a
      labelled word. */
  ghost predicate Hidden(s: string, p: Patterns, namer: Namer, at: nat) {
    exists j: nat, i: nat :: HiddenIn(s, p, namer, at, j, i)
  }

  /** A character is lost exactly when it stands in something to hide. */
  lemma LostExactlyWhenHidden(s: string, p: Patterns, namer: Namer, at: nat)
    requires GivesWords(namer) && at < |s|
    ensures Follow(Passes(s, p, namer), at).None? <==> Hidden(s, p, namer, at)
  {
    var chain := Passes(s, p, namer);
    LostForAReason(s, p, namer, at);
    if Lost(chain, at) {
      var j: nat :| LostAt(chain, at, j);
      var i :| 0 <= i < |chain[j]| && InStretch(chain[j], i, Follow(chain[..j], at).value) && chain[j][i].Swapped?;
      assert HiddenIn(s, p, namer, at, j, i);
    }
    if Hidden(s, p, namer, at) {
      var j: nat, i: nat :| HiddenIn(s, p, namer, at, j, i);
      assert LostAt(chain, at, j);
    }
  }

  // ---------------------------------------------------------------- what each pass reads and writes

  /** One newline for each newline of `was`, and nothing else. */
  predicate FeedsFor(t: string, was: string) {
    |t| == Newlines(was) && forall i :: 0 <= i < |t| ==> t[i] == '\n'
  }

  predicate StartsComment(s: string) {
    |s| >= 2 && s[0] == '/' && (s[1] == '/' || (s[1] == '*' && HasPair(s, '*', '/', 2, |s|)))
  }

  /** The comment at the start of s: a line comment goes on to the end of the line. */
  predicate CommentOf(t: string, s: string) {
    IsComment(t) && t <= s && (t[1] == '/' && |t| < |s| ==> s[|t|] == '\n')
  }

  /** The body of a literal: no quote and no line break, except that a backslash takes what follows it,
      a line break excepted. */
  predicate IsBody(t: string) {
    || t == ""
    || (t[0] != '"' && t[0] != '\\' && t[0] != '\n' && IsBody(t[1..]))
    || (t[0] == '\\' && |t| >= 2 && t[1] != '\n' && IsBody(t[2..]))
  }

  /** A literal starts s: its body is s[i..e], after a quote that may have an L before it. */
  predicate LiteralSpan(s: string, i: nat, e: nat) {
    && ((i == 1 && "\"" <= s) || (i == 2 && "L\"" <= s))
    && i <= e < |s| && s[e] == '"' && IsBody(s[i..e])
  }

  /** The literal with each character of its body an x. */
  predicate MaskedBody(t: string, was: string, i: nat) {
    && 0 < i < |was| == |t| && t[..i] == was[..i] && t[|t| - 1] == was[|t| - 1]
    && forall k :: i <= k < |t| - 1 ==> t[k] == 'x'
  }

  /** What pass j does at the start of the text s that it has still to read. */
  ghost predicate Judged(j: nat, g: Seg, s: string, p: Patterns) {
    match j
    case 1 =>
      if StartsComment(s) then g.Swapped? && CommentOf(g.was, s) && FeedsFor(g.becomes, g.was)
      else s != "" && g == Kept(s[..1])
    case 2 =>
      || g == Kept("\n")
      || (Before(g) == s[..LineEnd(s)] && g == if p.preproc(Before(g)) then Swapped(Before(g), "") else Kept(Before(g)))
    case 3 =>
      && (forall i: nat, e: nat :: LiteralSpan(s, i, e) ==>
            && Before(g) == s[..e + 1]
            && if p.leaks(s[i..e]) then g.Swapped? && MaskedBody(g.becomes, g.was, i) else g.Kept?)
      && ((forall i: nat, e: nat :: !LiteralSpan(s, i, e)) ==> s != "" && g == Kept(s[..1]))
    case _ =>
      && s != "" && Before(g) == s[..if IsWordChar(s[0]) then WordLen(s) else 1]
      && (g.Swapped? <==> IsWordChar(s[0]) && p.labelled(Before(g)))
  }

  /** The stretches of a pass over s, judged one after the other. */
  ghost predicate AllJudged(j: nat, segs: seq<Seg>, s: string, p: Patterns) {
    if segs == [] then s == ""
    else Before(segs[0]) <= s && Judged(j, segs[0], s, p) && AllJudged(j, segs[1..], s[|Before(segs[0])|..], p)
  }

  lemma JudgedPush(j: nat, g: Seg, segs: seq<Seg>, s: string, p: Patterns)
    requires Before(g) <= s && Judged(j, g, s, p) && AllJudged(j, segs, s[|Before(g)|..], p)
    ensures AllJudged(j, [g] + segs, s, p)
  {
    assert ([g] + segs)[1..] == segs;
  }

  lemma EmptiedIsFeeds(text: string)
    ensures Emptied(text).Swapped? && Emptied(text).was == text && FeedsFor(Emptied(text).becomes, text)
  {
  }

  lemma CommentLenExactly(s: string)
    ensures CommentLen(s) > 0 <==> StartsComment(s)
    ensures CommentLen(s) > 0 ==> CommentOf(s[..CommentLen(s)], s)
  {
    if |s| >= 2 && s[0] == '/' && s[1] == '/' {
      assert LineEnd(s) > 0;
    }
    if CommentLen(s) > 0 {
      CommentLenIs(s);
    }
  }

  lemma FirstCommentJudged(s: string, p: Patterns)
    requires s != ""
    ensures Judged(1, FirstComment(s), s, p)
  {
    CommentLenExactly(s);
    if CommentLen(s) > 0 {
      EmptiedIsFeeds(s[..CommentLen(s)]);
    }
  }

  lemma {:induction false} CommentsJudged(s: string, p: Patterns)
    ensures AllJudged(1, Comments(s), s, p)
  {
    if s != "" {
      var g := FirstComment(s);
      FirstCommentJudged(s, p);
      CommentsJudged(s[|Before(g)|..], p);
      JudgedPush(1, g, Comments(s[|Before(g)|..]), s, p);
    }
  }

  lemma {:induction false} PreprocJudged(s: string, p: Patterns)
    ensures AllJudged(2, Preproc(s, p.preproc), s, p)
    decreases |s|
  {
    var n, g := LineEnd(s), FirstLine(s, p.preproc);
    if n == |s| {
      JudgedPush(2, g, [], s, p);
      assert [g] + [] == Preproc(s, p.preproc);
    } else {
      var rest := Preproc(s[n + 1..], p.preproc);
      PreprocJudged(s[n + 1..], p);
      assert s[n..][1..] == s[n + 1..];
      JudgedPush(2, Kept("\n"), rest, s[n..], p);
      JudgedPush(2, g, [Kept("\n")] + rest, s, p);
    }
  }

  /** The scan for the closing quote finds exactly the end of a body. */
  lemma {:induction false} BodyEndExactly(s: string, i: nat, e: nat)
    requires i <= |s|
    ensures BodyEnd(s, i) == Some(e) <==> i <= e < |s| && s[e] == '"' && IsBody(s[i..e])
    decreases |s| - i
  {
    if i == |s| {
    } else if s[i] == '\n' || s[i] == '"' {
      if i < e < |s| {
        assert s[i..e][0] == s[i];
      } else if e == i {
        assert s[i..e] == "";
      }
    } else if s[i] != '\\' {
      BodyEndExactly(s, i + 1, e);
      if i < e < |s| {
        assert s[i..e][0] == s[i] && s[i..e][1..] == s[i + 1..e];
      }
    } else if i + 1 < |s| && s[i + 1] != '\n' {
      BodyEndExactly(s, i + 2, e);
      if i < e < |s| {
        BackslashFirst(s, i, e);
      }
    } else if i < e < |s| {
      BackslashFirst(s, i, e);
    }
  }

  lemma BackslashFirst(s: string, i: nat, e: nat)
    requires i < |s| && s[i] == '\\' && i < e < |s|
    ensures IsBody(s[i..e]) <==> i + 2 <= e && s[i + 1] != '\n' && IsBody(s[i + 2..e])
  {
    var t := s[i..e];
    assert t[0] == s[i];
    if i + 2 <= e {
      assert t[1] == s[i + 1] && t[2..] == s[i + 2..e];
    }
  }

  lemma LiteralSpanIs(s: string, i: nat, e: nat)
    ensures LiteralSpan(s, i, e) <==> i == BodyStart(s) && i > 0 && BodyEnd(s, i) == Some(e)
  {
    if i <= |s| {
      BodyEndExactly(s, i, e);
    }
    assert "\"" <= s <==> |s| >= 1 && s[0] == '"';
    assert "L\"" <= s <==> |s| >= 2 && s[0] == 'L' && s[1] == '"';
  }

  lemma LiteralIsMasked(s: string, i: nat, e: nat, leaks: string -> bool)
    requires 0 < i <= e < |s| && leaks(s[i..e])
    ensures var g := Literal(s, i, e, leaks);
            g.Swapped? && g.was == s[..e + 1] && MaskedBody(g.becomes, g.was, i)
  {
    var t := s[..i] + Masked(e - i) + s[e..e + 1];
    assert t[..i] == s[..i] == s[..e + 1][..i];
  }

  lemma AtLiteral(s: string, e: nat, p: Patterns)
    requires BodyStart(s) > 0 && BodyEnd(s, BodyStart(s)) == Some(e)
    ensures var g, i := FirstLiteral(s, p.leaks), BodyStart(s);
            && Before(g) == s[..e + 1]
            && if p.leaks(s[i..e]) then g.Swapped? && MaskedBody(g.becomes, g.was, i) else g.Kept?
  {
    if p.leaks(s[BodyStart(s)..e]) {
      LiteralIsMasked(s, BodyStart(s), e, p.leaks);
    }
  }

  lemma FirstLiteralJudged(s: string, p: Patterns)
    requires s != ""
    ensures Judged(3, FirstLiteral(s, p.leaks), s, p)
  {
    var start := BodyStart(s);
    forall i: nat, e: nat ensures LiteralSpan(s, i, e) <==> i == start && i > 0 && BodyEnd(s, i) == Some(e) {
      LiteralSpanIs(s, i, e);
    }
    if start > 0 && BodyEnd(s, start).Some? {
      AtLiteral(s, BodyEnd(s, start).value, p);
      assert LiteralSpan(s, start, BodyEnd(s, start).value);
    }
  }

  lemma {:induction false} StringsJudged(s: string, p: Patterns)
    ensures AllJudged(3, Strings(s, p.leaks), s, p)
  {
    if s != "" {
      var g := FirstLiteral(s, p.leaks);
      FirstLiteralJudged(s, p);
      StringsJudged(s[|Before(g)|..], p);
      JudgedPush(3, g, Strings(s[|Before(g)|..], p.leaks), s, p);
    }
  }

  lemma {:induction false} NamesJudged(s: string, p: Patterns, names: Names)
    requires forall t :: t in Tokenize(s) && Hit(t, p.labelled) ==> t.w in names
    ensures AllJudged(4, NameSegs(Tokenize(s), p.labelled, names), s, p)
  {
    if s != "" {
      var toks := Tokenize(s);
      var n := if IsWordChar(s[0]) then WordLen(s) else 1;
      if IsWordChar(s[0]) {
        var w, after := StartsWithWord(s);
      } else {
        StartsWithGap(s);
      }
      assert toks[0] in toks && toks[1..] == Tokenize(s[n..]);
      NamesJudged(s[n..], p, names);
      var g := NameSegs(toks, p.labelled, names)[0];
      JudgedPush(4, g, NameSegs(toks[1..], p.labelled, names), s, p);
    }
  }

  /** A closing mark comes before every opening mark. */
  predicate ClosesFirst(s: string) {
    exists c :: 0 <= c < |s| - 1 && s[c] == '*' && s[c + 1] == '/' && !HasPair(s, '/', '*', 0, c)
  }

  /** What the first pass does: the text up to such a mark becomes its newlines. */
  ghost predicate StrayJudged(segs: seq<Seg>, s: string) {
    if ClosesFirst(s) then
      && |segs| == 2 && segs[0].Swapped? && segs[1].Kept? && s == segs[0].was + segs[1].text
      && CommentTail(segs[0].was) && FeedsFor(segs[0].becomes, segs[0].was)
    else segs == [Kept(s)]
  }

  lemma StrayCloseJudged(s: string)
    ensures StrayJudged(StrayClose(s), s)
  {
    var close, open := FindPair(s, '*', '/', 0), FindPair(s, '/', '*', 0);
    if ClosesFirst(s) {
      var c :| 0 <= c < |s| - 1 && s[c] == '*' && s[c + 1] == '/' && !HasPair(s, '/', '*', 0, c);
      assert close.Some? && close.value <= c;
      StrayCloseSplits(s, close.value);
    } else if close.Some? {
      assert HasPair(s, '/', '*', 0, close.value);
    }
  }

  lemma StrayCloseSplits(s: string, c: nat)
    requires FindPair(s, '*', '/', 0) == Some(c) && !HasPair(s, '/', '*', 0, c)
    ensures var segs, n := StrayClose(s), c + 2;
            && segs == [Emptied(s[..n]), Kept(s[n..])] && s == s[..n] + s[n..]
            && CommentTail(s[..n]) && FeedsFor(Emptied(s[..n]).becomes, s[..n])
  {
    var t := s[..c + 2];
    assert forall k :: 0 <= k < |t| ==> t[k] == s[k];
    EmptiedIsFeeds(t);
  }

  /** What the passes do, stretch by stretch, to the whole text: a comment, or the tail of one that the
      text starts inside, becomes its newlines; a directive line becomes empty; a literal that leaks
      keeps its quotes and has its body masked; a labelled word is replaced; and nothing else changes. */
  lemma ReplacedExactlyWhen(s: string, p: Patterns, namer: Namer)
    ensures var chain := Passes(s, p, namer);
            && StrayJudged(chain[0], s)
            && AllJudged(1, chain[1], Target(chain[0]), p) && AllJudged(2, chain[2], Target(chain[1]), p)
            && AllJudged(3, chain[3], Target(chain[2]), p) && AllJudged(4, chain[4], Target(chain[3]), p)
  {
    var chain := Passes(s, p, namer);
    var e := Target(chain[3]);
    StrayCloseJudged(s);
    CommentsJudged(Target(chain[0]), p);
    PreprocJudged(Target(chain[1]), p);
    StringsJudged(Target(chain[2]), p);
    forall t | t in Tokenize(e) && Hit(t, p.labelled) ensures t.w in ScanNames(e, p.labelled, namer) {
      NamesOfHits(Tokenize(e), p.labelled, namer, map[], 0, t.w);
    }
    NamesJudged(e, p, ScanNames(e, p.labelled, namer));
  }

  // ---------------------------------------------------------------- a comment that opens the text

  predicate AllKept(segs: seq<Seg>) {
    forall i :: 0 <= i < |segs| ==> segs[i].Kept?
  }

  lemma {:induction false} AllKeptMoves(segs: seq<Seg>, p: nat)
    requires AllKept(segs) && p < |Source(segs)|
    ensures Target(segs) == Source(segs) && Move(segs, p) == Some(p)
  {
    if p < |Before(segs[0])| {
      AllKeptTarget(segs);
    } else {
      AllKeptMoves(segs[1..], p - |Before(segs[0])|);
    }
  }

  lemma {:induction false} AllKeptTarget(segs: seq<Seg>)
    requires AllKept(segs)
    ensures Target(segs) == Source(segs)
  {
    if segs != [] {
      AllKeptTarget(segs[1..]);
    }
  }

  lemma FollowKept(segs: seq<Seg>, later: seq<seq<Seg>>, s: string, k: nat)
    requires IsPass(segs, s) && AllKept(segs) && k < |s|
    ensures Follow([segs] + later, k) == Follow(later, k)
  {
    AllKeptMoves(segs, k);
    assert ([segs] + later)[1..] == later;
  }

  lemma CommentEndsAt(s: string, n: nat)
    requires 2 <= n < |s| && s[0] == '/' && s[1] == '/' && s[n] == '\n' && forall i :: 2 <= i < n ==> s[i] != '\n'
    ensures Comments(s) == [Swapped(s[..n], "")] + Comments(s[n..])
  {
    assert s[0] != '\n' && s[1] != '\n';
    assert LineEnd(s) == n;
    NoFeeds(s[..n]);
    assert Feeds(0) == "";
  }

  lemma PassesAre(s: string, p: Patterns, namer: Namer)
    ensures var a := StrayClose(s);
            var b := Comments(Target(a));
            Passes(s, p, namer) == [a] + ([b] + Later(Target(b), p, namer))
  {
  }

  lemma StrayCloseTakes(s: string, n: nat, later: seq<seq<Seg>>, k: nat)
    requires k < n <= |s| && (forall i :: 0 <= i < n ==> s[i] != '*') && StrayClose(s) != [Kept(s)]
    ensures Follow([StrayClose(s)] + later, k).None?
  {
    var close := FindPair(s, '*', '/', 0).value;
    assert s[close] == '*';
    assert StrayClose(s) == [Emptied(s[..close + 2]), Kept(s[close + 2..])];
  }

  lemma CommentTakes(s: string, n: nat, later: seq<seq<Seg>>, k: nat)
    requires k < n && 2 <= n < |s| && s[0] == '/' && s[1] == '/' && s[n] == '\n'
    requires forall i :: 2 <= i < n ==> s[i] != '\n'
    ensures Follow([[Kept(s)]] + ([Comments(s)] + later), k).None?
  {
    KeptIsPass(s);
    FollowKept([Kept(s)], [Comments(s)] + later, s, k);
    CommentEndsAt(s, n);
    assert Move([Swapped(s[..n], "")] + Comments(s[n..]), k) == None;
  }

  predicate LineCommentOpens(s: string, n: nat) {
    && 2 <= n < |s| && s[0] == '/' && s[1] == '/' && s[n] == '\n'
    && forall i :: 2 <= i < n ==> s[i] != '\n' && s[i] != '*'
  }

  lemma OpeningGoesInTwo(s: string, n: nat, a: seq<Seg>, b: seq<Seg>, later: seq<seq<Seg>>, k: nat)
    requires LineCommentOpens(s, n) && k < n && a == StrayClose(s) && (a == [Kept(s)] ==> b == Comments(s))
    ensures Follow([a] + ([b] + later), k).None?
  {
    if a == [Kept(s)] {
      CommentTakes(s, n, later, k);
    } else {
      StrayCloseTakes(s, n, [b] + later, k);
    }
  }

  /** A line comment that opens a text is lost, whatever the patterns: as a comment, or with all that stands
      before a stray closing mark. */
  lemma OpeningCommentGoes(s: string, n: nat, p: Patterns, namer: Namer, k: nat)
    requires LineCommentOpens(s, n) && k < n
    ensures Follow(Passes(s, p, namer), k).None?
  {
    var a := StrayClose(s);
    var b := Comments(Target(a));
    KeptIsPass(s);
    AllKeptTarget([Kept(s)]);
    PassesAre(s, p, namer);
    OpeningGoesInTwo(s, n, a, b, Later(Target(b), p, namer), k);
  }

  // ---------------------------------------------------------------- texts whose names alone can change

  lemma {:induction false} PlainComments(s: string)
    requires '/' !in s
    ensures AllKept(Comments(s))
  {
    if s != "" {
      assert s[0] != '/';
      PlainComments(s[1..]);
    }
  }

  /** A directive has its hash mark. */
  ghost predicate Directives(p: Patterns) {
    forall t :: p.preproc(t) ==> '#' in t
  }

  lemma {:induction false} PlainPreproc(s: string, p: Patterns)
    requires Directives(p) && '#' !in s
    ensures AllKept(Preproc(s, p.preproc))
    decreases |s|
  {
    assert '#' !in s[..LineEnd(s)];
    if LineEnd(s) < |s| {
      PlainPreproc(s[LineEnd(s) + 1..], p);
    }
  }

  lemma {:induction false} PlainStrings(s: string, leaks: string -> bool)
    requires '"' !in s
    ensures AllKept(Strings(s, leaks))
  {
    if s != "" {
      assert s[0] != '"' && (|s| > 1 ==> s[1] != '"');
      PlainStrings(s[1..], leaks);
    }
  }

  lemma PlainStrayClose(s: string)
    requires forall k :: 1 <= k < |s| && s[k] == '/' ==> s[k - 1] != '*'
    ensures StrayClose(s) == [Kept(s)]
  {
  }

  /** A text without comments, directives and literals: only its names can change. */
  predicate Bare(s: string) {
    '/' !in s && '#' !in s && '"' !in s
  }

  lemma OutcomeKept(segs: seq<Seg>, later: seq<seq<Seg>>, s: string)
    requires IsPass(segs, s) && AllKept(segs)
    ensures Target(segs) == s && Outcome([segs] + later, s) == Outcome(later, s)
  {
    AllKeptTarget(segs);
    assert ([segs] + later)[1..] == later;
  }

  lemma BarePasses(c: string, p: Patterns)
    requires Directives(p) && Bare(c)
    ensures IsPass(Preproc(c, p.preproc), c) && AllKept(Preproc(c, p.preproc))
    ensures IsPass(Strings(c, p.leaks), c) && AllKept(Strings(c, p.leaks))
  {
    PlainPreproc(c, p);
    PreprocIsPass(c, p.preproc);
    PlainStrings(c, p.leaks);
    StringsIsPass(c, p.leaks);
  }

  lemma BareLaterIs(c: string, p: Patterns, namer: Namer)
    requires Directives(p) && Bare(c)
    ensures Later(c, p, namer) == [Preproc(c, p.preproc)] + ([Strings(c, p.leaks)] + [Renames(c, p.labelled, namer)])
  {
    BarePasses(c, p);
    AllKeptTarget(Preproc(c, p.preproc));
    AllKeptTarget(Strings(c, p.leaks));
  }

  lemma TwoKept(d: seq<Seg>, e: seq<Seg>, n: seq<Seg>, c: string, k: nat)
    requires IsPass(d, c) && AllKept(d) && IsPass(e, c) && AllKept(e) && k < |c|
    ensures Outcome([d] + ([e] + [n]), c) == Target(n) && Follow([d] + ([e] + [n]), k) == Move(n, k)
  {
    OutcomeKept(d, [e] + [n], c);
    OutcomeKept(e, [n], c);
    FollowKept(d, [e] + [n], c, k);
    FollowKept(e, [n], c, k);
  }

  /** After the comments a bare text only has its names replaced. */
  lemma BareLater(c: string, p: Patterns, namer: Namer, k: nat)
    requires Directives(p) && Bare(c) && k < |c|
    ensures Outcome(Later(c, p, namer), c) == Target(Renames(c, p.labelled, namer))
    ensures Follow(Later(c, p, namer), k) == Move(Renames(c, p.labelled, namer), k)
  {
    BarePasses(c, p);
    BareLaterIs(c, p, namer);
    TwoKept(Preproc(c, p.preproc), Strings(c, p.leaks), Renames(c, p.labelled, namer), c, k);
  }

  /** The scrub of a bare text renames. */
  lemma BareScrub(s: string, p: Patterns, namer: Namer, k: nat)
    requires Directives(p) && Bare(s) && k < |s|
    ensures Scrubbed(s, p, namer) == Target(Renames(s, p.labelled, namer))
    ensures Follow(Passes(s, p, namer), k) == Move(Renames(s, p.labelled, namer), k)
  {
    var a, b, later := [Kept(s)], Comments(s), Later(s, p, namer);
    PlainStrayClose(s);
    KeptIsPass(s);
    PlainComments(s);
    CommentsIsPass(s);
    BareLater(s, p, namer, k);
    OutcomeKept(a, [b] + later, s);
    OutcomeKept(b, later, s);
    FollowKept(a, [b] + later, s, k);
    FollowKept(b, later, s, k);
    PassesAre(s, p, namer);
  }

  /** A line comment of n characters in front of a bare text. */
  predicate OpensWithComment(s: string, n: nat) {
    && 2 <= n < |s| && s[0] == '/' && s[1] == '/' && s[n] == '\n'
    && (forall i :: 2 <= i < n ==> s[i] != '\n' && s[i] != '/') && Bare(s[n..])
  }

  lemma OpeningIsNotStray(s: string, n: nat)
    requires OpensWithComment(s, n)
    ensures StrayClose(s) == [Kept(s)]
  {
    assert forall k :: n <= k < |s| ==> s[k] == s[n..][k - n];
    PlainStrayClose(s);
  }

  /** The comment goes, and all the rest moves up. */
  lemma CommentsOfOpening(s: string, n: nat, k: nat)
    requires OpensWithComment(s, n) && n <= k < |s|
    ensures Target(Comments(s)) == s[n..] && Move(Comments(s), k) == Some(k - n)
  {
    var rest := s[n..];
    CommentEndsAt(s, n);
    assert ([Swapped(s[..n], "")] + Comments(rest))[1..] == Comments(rest);
    PlainComments(rest);
    CommentsIsPass(rest);
    AllKeptMoves(Comments(rest), k - n);
  }

  lemma MovedOnce(a: seq<Seg>, b: seq<Seg>, later: seq<seq<Seg>>, s: string, c: string, k: nat, r: nat)
    requires IsPass(a, s) && AllKept(a) && k < |s| && Target(b) == c && Move(b, k) == Some(r)
    ensures Outcome([a] + ([b] + later), s) == Outcome(later, c) && Follow([a] + ([b] + later), k) == Follow(later, r)
  {
    OutcomeKept(a, [b] + later, s);
    FollowKept(a, [b] + later, s, k);
    assert ([b] + later)[1..] == later;
  }

  /** So the scrub of such a text renames what follows the comment. */
  lemma OpeningComment(s: string, n: nat, p: Patterns, namer: Namer, k: nat)
    requires Directives(p) && OpensWithComment(s, n) && n <= k < |s|
    ensures Scrubbed(s, p, namer) == Target(Renames(s[n..], p.labelled, namer))
    ensures Follow(Passes(s, p, namer), k) == Move(Renames(s[n..], p.labelled, namer), k - n)
  {
    var rest := s[n..];
    OpeningIsNotStray(s, n);
    KeptIsPass(s);
    AllKeptTarget([Kept(s)]);
    CommentsOfOpening(s, n, k);
    BareLater(rest, p, namer, k - n);
    PassesAre(s, p, namer);
    MovedOnce([Kept(s)], Comments(s), Later(rest, p, namer), s, rest, k, k - n);
  }

  /** Renaming keeps a text bare. */
  lemma {:induction false} RenamedIsBare(toks: seq<Tok>, labelled: string -> bool, names: Names)
    requires Canonical(toks) && AllWords(names) && Bare(Render(toks))
    ensures Bare(Target(NameSegs(toks, labelled, names)))
  {
    if toks != [] {
      var t, rest := toks[0], toks[1..];
      assert Render(toks) == Text(t) + Render(rest);
      assert forall c :: c in Text(t) ==> c in Render(toks);
      assert forall c :: c in Render(rest) ==> c in Render(toks);
      RenamedIsBare(rest, labelled, names);
    }
  }

  /** A character between words stays in front. */
  lemma GapInFront(c: char, s: string, labelled: string -> bool, names: Names)
    requires !IsWordChar(c)
    ensures NameSegs(Tokenize([c] + s), labelled, names) == [Kept([c])] + NameSegs(Tokenize(s), labelled, names)
  {
    StartsWithGap([c] + s);
    assert ([c] + s)[1..] == s;
    assert ([Gap(c)] + Tokenize(s))[1..] == Tokenize(s);
  }

  /** So does a word that bears no label. */
  lemma WordInFront(w: string, s: string, labelled: string -> bool, names: Names)
    requires IsWord(w) && !labelled(w) && (s != "" ==> !IsWordChar(s[0]))
    ensures NameSegs(Tokenize(w + s), labelled, names) == [Kept(w)] + NameSegs(Tokenize(s), labelled, names)
  {
    WordLenIs(w, s);
    var w', after := StartsWithWord(w + s);
    assert (w + s)[|w|..] == s && w' == w;
    assert ([Word(w)] + Tokenize(s))[1..] == Tokenize(s);
  }

  lemma KeptInFront(t: string, segs: seq<Seg>, k: nat)
    ensures Target([Kept(t)] + segs) == t + Target(segs)
    ensures k < |t| ==> Move([Kept(t)] + segs, k) == Some(k)
    ensures Move(segs, k).Some? ==> Move([Kept(t)] + segs, |t| + k) == Some(|t| + Move(segs, k).value)
  {
    assert ([Kept(t)] + segs)[1..] == segs;
  }

  /** scrub: the text after the passes, with names counted, or none when a label word is left. */
  method Scrub(s: string, p: Patterns) returns (r: Option<string>)
    ensures r == var out := Outcome(Passes(s, p, Counting()), s); if p.leaks(out) then None else Some(out)
    ensures r.Some? ==> Newlines(r.value) == Newlines(s) && !p.leaks(r.value)
  {
    CountingNeverRepeats();
    PassesAreLinked(s, p, Counting());
    SameLinesThroughout(Passes(s, p, Counting()), s);
    ghost var chain := Passes(s, p, Counting());
    var code := Target(StrayClose(s));
    code := Target(Comments(code));
    code := Target(Preproc(code, p.preproc));
    code := Target(Strings(code, p.leaks));
    RenamesIsPass(code, p.labelled, Counting());
    var names;
    code, names := Substitute(code, p.labelled, Counting());
    OutcomeOfFive(chain, s);
    return if p.leaks(code) then None else Some(code);
  }

  lemma OutcomeOfFive(chain: seq<seq<Seg>>, s: string)
    requires |chain| == 5
    ensures Outcome(chain, s) == Target(chain[4])
  {
    assert chain[4..][1..] == [];
    assert chain[3..][1..] == chain[4..];
    assert Outcome(chain[3..], Target(chain[2])) == Outcome(chain[4..], Target(chain[3])) == Target(chain[4]);
    assert chain[2..][1..] == chain[3..];
    assert chain[1..][1..] == chain[2..];
    assert Outcome(chain[2..], Target(chain[1])) == Outcome(chain[3..], Target(chain[2]));
    assert Outcome(chain[1..], Target(chain[0])) == Outcome(chain[2..], Target(chain[1]));
  }
}
