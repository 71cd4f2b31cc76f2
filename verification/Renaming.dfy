/** Renaming label-bearing words: one scan over the maximal words of the text, a dictionary of names
    filled as it goes, and the way back. */
module Renaming {
  import opened Decimal

  /** \w on ASCII text. */
  predicate IsWordChar(c: char) {
    'a' <= c <= 'z' || 'A' <= c <= 'Z' || '0' <= c <= '9' || c == '_'
  }

  /** Digits, capitals, the underscore and small letters, by their codes. */
  lemma WordCharsAre(c: char)
    ensures IsWordChar(c) <==> var n := c as int; 48 <= n <= 57 || 65 <= n <= 90 || n == 95 || 97 <= n <= 122
  {
  }

  predicate IsWord(s: string) {
    s != "" && forall i :: 0 <= i < |s| ==> IsWordChar(s[i])
  }

  /** A maximal word, or one character between words. */
  datatype Tok = Word(w: string) | Gap(c: char)

  function Text(t: Tok): string {
    if t.Word? then t.w else [t.c]
  }

  function Render(toks: seq<Tok>): string {
    if toks == [] then "" else Text(toks[0]) + Render(toks[1..])
  }

  /** How many word characters the text starts with. */
  function WordLen(s: string): (n: nat)
    ensures n <= |s| && (forall i :: 0 <= i < n ==> IsWordChar(s[i])) && (n < |s| ==> !IsWordChar(s[n]))
  {
    if s != "" && IsWordChar(s[0]) then 1 + WordLen(s[1..]) else 0
  }

  function Tokenize(s: string): seq<Tok> {
    if s == "" then []
    else
      var n := WordLen(s);
      if n == 0 then [Gap(s[0])] + Tokenize(s[1..]) else [Word(s[..n])] + Tokenize(s[n..])
  }

  /** Words are made of word characters, gaps are not, and no two words touch. */
  predicate Canonical(toks: seq<Tok>) {
    && (forall i :: 0 <= i < |toks| ==> if toks[i].Word? then IsWord(toks[i].w) else !IsWordChar(toks[i].c))
    && (forall i :: 0 <= i < |toks| - 1 ==> !(toks[i].Word? && toks[i + 1].Word?))
  }

  lemma CanonicalPush(t: Tok, rest: seq<Tok>)
    requires Canonical(rest) && (if t.Word? then IsWord(t.w) else !IsWordChar(t.c))
    requires t.Gap? || rest == [] || rest[0].Gap?
    ensures Canonical([t] + rest) && Render([t] + rest) == Text(t) + Render(rest)
  {
    var toks := [t] + rest;
    forall i | 0 <= i < |toks| - 1 ensures !(toks[i].Word? && toks[i + 1].Word?) {
      if i > 0 {
        assert toks[i] == rest[i - 1] && toks[i + 1] == rest[i];
      }
    }
    assert toks[1..] == rest;
  }

  lemma StartsWithGap(s: string)
    requires s != "" && !IsWordChar(s[0])
    ensures Tokenize(s) == [Gap(s[0])] + Tokenize(s[1..]) && s == [s[0]] + s[1..]
  {
  }

  lemma CutAt(s: string, n: nat)
    requires n <= |s|
    ensures s == s[..n] + s[n..]
  {
  }

  lemma StartsWithWord(s: string) returns (w: string, after: string)
    requires s != "" && IsWordChar(s[0])
    ensures IsWord(w) && s == w + after && |after| < |s| && after == s[WordLen(s)..]
    ensures Tokenize(s) == [Word(w)] + Tokenize(after)
    ensures Tokenize(after) == [] || Tokenize(after)[0].Gap?
  {
    w, after := s[..WordLen(s)], s[WordLen(s)..];
    CutAt(s, WordLen(s));
    if after != "" {
      StartsWithGap(after);
    }
  }

  lemma TokenStep(t: Tok, rest: seq<Tok>, toks: seq<Tok>, s: string, after: string)
    requires toks == [t] + rest && s == Text(t) + after
    requires Render(rest) == after && Canonical(rest) && (if t.Word? then IsWord(t.w) else !IsWordChar(t.c))
    requires t.Gap? || rest == [] || rest[0].Gap?
    ensures Render(toks) == s && Canonical(toks)
  {
    CanonicalPush(t, rest);
  }

  /** Every text is the rendering of its tokens. */
  lemma {:induction false} TokenizeRenders(s: string)
    ensures Render(Tokenize(s)) == s && Canonical(Tokenize(s))
  {
    if s == "" {
    } else if IsWordChar(s[0]) {
      var w, after := StartsWithWord(s);
      TokenizeRenders(after);
      TokenStep(Word(w), Tokenize(after), Tokenize(s), s, after);
    } else {
      StartsWithGap(s);
      TokenizeRenders(s[1..]);
      TokenStep(Gap(s[0]), Tokenize(s[1..]), Tokenize(s), s, s[1..]);
    }
  }

  lemma {:induction false} WordLenIs(w: string, rest: string)
    requires (forall i :: 0 <= i < |w| ==> IsWordChar(w[i])) && (rest != "" ==> !IsWordChar(rest[0]))
    ensures WordLen(w + rest) == |w|
  {
    if w == "" {
      assert w + rest == rest;
    } else {
      WordLenIs(w[1..], rest);
      assert (w + rest)[1..] == w[1..] + rest;
    }
  }

  lemma RenderStartsGap(toks: seq<Tok>)
    requires Canonical(toks) && (toks != [] ==> toks[0].Gap?)
    ensures Render(toks) != "" ==> !IsWordChar(Render(toks)[0])
  {
  }

  /** Canonical tokens are what their text is made of: rendering loses nothing. */
  lemma {:induction false} RenderTokenizes(toks: seq<Tok>)
    requires Canonical(toks)
    ensures Tokenize(Render(toks)) == toks
  {
    if toks != [] {
      var rest := toks[1..];
      RenderTokenizes(rest);
      var s := Render(toks);
      if toks[0].Word? {
        RenderStartsGap(rest);
        WordLenIs(toks[0].w, Render(rest));
        assert s[..|toks[0].w|] == toks[0].w && s[|toks[0].w|..] == Render(rest);
      } else {
        assert s[0] == toks[0].c && s[1..] == Render(rest);
        assert WordLen(s) == 0;
      }
    }
  }

  // ---------------------------------------------------------------- the renaming

  type Names = map<string, string>

  /** The name for a new word, from how many names there are and how many words were matched so far. */
  type Namer = (nat, nat) -> string

  predicate Hit(t: Tok, labelled: string -> bool) {
    t.Word? && labelled(t.w)
  }

  /** The dictionary with a name for the word, the one it had if it had one. */
  function Remember(names: Names, w: string, name: string): Names {
    if w in names then names else names[w := name]
  }

  /** The dictionary after the scan: k counts the words matched so far. */
  function Filled(toks: seq<Tok>, labelled: string -> bool, namer: Namer, names: Names, k: nat): Names {
    if toks == [] then names
    else if Hit(toks[0], labelled) then
      Filled(toks[1..], labelled, namer, Remember(names, toks[0].w, namer(|names|, k)), k + 1)
    else Filled(toks[1..], labelled, namer, names, k)
  }

  function NewTok(t: Tok, labelled: string -> bool, names: Names): Tok {
    if Hit(t, labelled) && t.w in names then Word(names[t.w]) else t
  }

  /** Every labelled word by its name in one final dictionary. */
  function Applied(toks: seq<Tok>, labelled: string -> bool, names: Names): (r: seq<Tok>)
    ensures |r| == |toks| && forall i :: 0 <= i < |toks| ==> r[i] == NewTok(toks[i], labelled, names)
  {
    seq(|toks|, i requires 0 <= i < |toks| => NewTok(toks[i], labelled, names))
  }

  /** The substitution of the source: each match is replaced as it is met, from the dictionary so far. */
  method Substitute(s: string, labelled: string -> bool, namer: Namer) returns (out: string, names: Names)
    ensures names == Filled(Tokenize(s), labelled, namer, map[], 0)
    ensures out == Render(Applied(Tokenize(s), labelled, names))
  {
    var toks := Tokenize(s);
    names, out := map[], "";
    var k := 0;
    ghost var final := Filled(toks, labelled, namer, map[], 0);
    for i := 0 to |toks|
      invariant Filled(toks[i..], labelled, namer, names, k) == final
      invariant out == Render(Applied(toks, labelled, final)[..i])
    {
      assert toks[i..][0] == toks[i] && toks[i..][1..] == toks[i + 1..];
      var text := Text(toks[i]);
      if Hit(toks[i], labelled) {
        names := Remember(names, toks[i].w, namer(|names|, k));
        k := k + 1;
        FilledKeeps(toks[i + 1..], labelled, namer, names, k, toks[i].w);
        text := names[toks[i].w];
      }
      assert Text(Applied(toks, labelled, final)[i]) == text;
      RenderPush(Applied(toks, labelled, final), i);
      out := out + text;
    }
    assert Applied(toks, labelled, final)[..|toks|] == Applied(toks, labelled, final);
  }

  lemma {:induction false} RenderAppend(a: seq<Tok>, b: seq<Tok>)
    ensures Render(a + b) == Render(a) + Render(b)
  {
    if a == [] {
      assert a + b == b;
    } else {
      RenderAppend(a[1..], b);
      assert (a + b)[1..] == a[1..] + b && (a + b)[0] == a[0];
      Regroup(Text(a[0]), Render(a[1..]), Render(b));
    }
  }

  lemma Regroup(a: string, b: string, c: string)
    ensures a + (b + c) == (a + b) + c
  {
  }

  lemma RenderPush(toks: seq<Tok>, i: nat)
    requires i < |toks|
    ensures Render(toks[..i + 1]) == Render(toks[..i]) + Text(toks[i])
  {
    assert toks[..i + 1] == toks[..i] + [toks[i]];
    RenderAppend(toks[..i], [toks[i]]);
    assert Render([toks[i]]) == Text(toks[i]) + Render([]);
  }

  /** A name once given is never changed. */
  lemma {:induction false} FilledKeeps(toks: seq<Tok>, labelled: string -> bool, namer: Namer, names: Names, k: nat,
                                       w: string)
    requires w in names
    ensures var final := Filled(toks, labelled, namer, names, k); w in final && final[w] == names[w]
  {
    if toks != [] {
      if Hit(toks[0], labelled) {
        FilledKeeps(toks[1..], labelled, namer, Remember(names, toks[0].w, namer(|names|, k)), k + 1, w);
      } else {
        FilledKeeps(toks[1..], labelled, namer, names, k, w);
      }
    }
  }

  // ---------------------------------------------------------------- consistent and injective

  /** Later names differ from earlier ones: true of a counter over names, and of draws without repeats. */
  ghost predicate NeverRepeats(namer: Namer) {
    forall n: nat, k: nat, n': nat, k': nat :: n < n' && k < k' ==> namer(n, k) != namer(n', k')
  }

  /** Each name was handed out when there were fewer names, and after fewer matches. */
  ghost predicate HandedOut(names: Names, namer: Namer, k: nat) {
    forall w :: w in names ==> exists n: nat, j: nat :: n < |names| && j < k && names[w] == namer(n, j)
  }

  ghost predicate Injective(names: Names) {
    forall v, w :: v in names && w in names && v != w ==> names[v] != names[w]
  }

  lemma NewNameIsNew(names: Names, namer: Namer, k: nat, v: string)
    requires NeverRepeats(namer) && HandedOut(names, namer, k) && v in names
    ensures names[v] != namer(|names|, k)
  {
    var n: nat, j: nat :| n < |names| && j < k && names[v] == namer(n, j);
  }

  lemma RememberInjective(names: Names, namer: Namer, k: nat, w: string)
    requires NeverRepeats(namer) && HandedOut(names, namer, k) && Injective(names)
    ensures Injective(Remember(names, w, namer(|names|, k)))
  {
    forall v | v in names ensures names[v] != namer(|names|, k) {
      NewNameIsNew(names, namer, k, v);
    }
  }

  lemma RememberHandsOut(names: Names, namer: Namer, k: nat, w: string)
    requires HandedOut(names, namer, k)
    ensures HandedOut(Remember(names, w, namer(|names|, k)), namer, k + 1)
  {
    var names' := Remember(names, w, namer(|names|, k));
    assert w !in names ==> |names'| == |names| + 1;
    forall v | v in names' ensures exists n: nat, j: nat :: n < |names'| && j < k + 1 && names'[v] == namer(n, j) {
      if v in names {
        var n: nat, j: nat :| n < |names| && j < k && names[v] == namer(n, j);
        assert n < |names'| && j < k + 1;
      }
    }
  }

  lemma RememberKeeps(names: Names, namer: Namer, k: nat, w: string)
    requires NeverRepeats(namer) && HandedOut(names, namer, k) && Injective(names)
    ensures HandedOut(Remember(names, w, namer(|names|, k)), namer, k + 1)
    ensures Injective(Remember(names, w, namer(|names|, k)))
  {
    RememberInjective(names, namer, k, w);
    RememberHandsOut(names, namer, k, w);
  }

  /** No two words share a name. */
  lemma {:induction false} NamesAreInjective(toks: seq<Tok>, labelled: string -> bool, namer: Namer, names: Names,
                                             k: nat)
    requires NeverRepeats(namer) && HandedOut(names, namer, k) && Injective(names)
    ensures Injective(Filled(toks, labelled, namer, names, k))
  {
    if toks != [] {
      if Hit(toks[0], labelled) {
        RememberKeeps(names, namer, k, toks[0].w);
        NamesAreInjective(toks[1..], labelled, namer, Remember(names, toks[0].w, namer(|names|, k)), k + 1);
      } else {
        NamesAreInjective(toks[1..], labelled, namer, names, k);
      }
    }
  }

  /** The names are for the labelled words of the text and no others. */
  lemma {:induction false} NamesOfHits(toks: seq<Tok>, labelled: string -> bool, namer: Namer, names: Names, k: nat,
                                       w: string)
    ensures w in Filled(toks, labelled, namer, names, k) <==> w in names || (labelled(w) && Word(w) in toks)
  {
    if toks != [] {
      assert toks == [toks[0]] + toks[1..];
      if Hit(toks[0], labelled) {
        NamesOfHits(toks[1..], labelled, namer, Remember(names, toks[0].w, namer(|names|, k)), k + 1, w);
      } else {
        NamesOfHits(toks[1..], labelled, namer, names, k, w);
      }
    }
  }

  // ---------------------------------------------------------------- the way back

  ghost function Inverse(names: Names): Names {
    map v | v in names.Values :: var w :| w in names && names[w] == v; w
  }

  ghost function Undone(t: Tok, back: Names): Tok {
    if t.Word? && t.w in back then Word(back[t.w]) else t
  }

  /** Every word that is a given name, by the word it stood for. */
  ghost function Restored(toks: seq<Tok>, back: Names): (r: seq<Tok>)
    ensures |r| == |toks| && forall i :: 0 <= i < |toks| ==> r[i] == Undone(toks[i], back)
  {
    seq(|toks|, i requires 0 <= i < |toks| => Undone(toks[i], back))
  }

  lemma InverseUndoes(names: Names, w: string)
    requires Injective(names) && w in names
    ensures names[w] in Inverse(names) && Inverse(names)[names[w]] == w
  {
    assert names[w] in names.Values;
  }

  /** The dictionary of one scan: its keys are exactly the labelled words of the text. */
  ghost predicate FromScan(toks: seq<Tok>, labelled: string -> bool, names: Names) {
    Injective(names) && forall w :: w in names <==> labelled(w) && Word(w) in toks
  }

  /** A word the scan passed over, that is also one of the names it gave. */
  ghost predicate Clashes(toks: seq<Tok>, labelled: string -> bool, names: Names) {
    exists i :: 0 <= i < |toks| && toks[i].Word? && !labelled(toks[i].w) && toks[i].w in names.Values
  }

  lemma UndoneAt(toks: seq<Tok>, labelled: string -> bool, names: Names, i: nat)
    requires FromScan(toks, labelled, names) && i < |toks|
    ensures Undone(NewTok(toks[i], labelled, names), Inverse(names)) == toks[i]
       <==> !(toks[i].Word? && !labelled(toks[i].w) && toks[i].w in names.Values)
  {
    var t := toks[i];
    assert t in toks;
    if Hit(t, labelled) {
      InverseUndoes(names, t.w);
    } else if t.Word? && t.w in names.Values {
      var w :| w in names && names[w] == t.w;
      InverseUndoes(names, w);
    }
  }

  lemma RestoredExactlyWhen(toks: seq<Tok>, labelled: string -> bool, names: Names)
    requires FromScan(toks, labelled, names)
    ensures Restored(Applied(toks, labelled, names), Inverse(names)) == toks <==> !Clashes(toks, labelled, names)
  {
    var back := Restored(Applied(toks, labelled, names), Inverse(names));
    forall i | 0 <= i < |toks|
      ensures back[i] == toks[i] <==> !(toks[i].Word? && !labelled(toks[i].w) && toks[i].w in names.Values)
    {
      UndoneAt(toks, labelled, names, i);
    }
    if back == toks {
      assert forall i :: 0 <= i < |toks| ==> back[i] == toks[i];
    }
  }

  lemma AppliedIsCanonical(toks: seq<Tok>, labelled: string -> bool, names: Names)
    requires Canonical(toks) && AllWords(names)
    ensures Canonical(Applied(toks, labelled, names))
  {
  }

  lemma RestoredIsCanonical(toks: seq<Tok>, back: Names)
    requires Canonical(toks) && AllWords(back)
    ensures Canonical(Restored(toks, back))
  {
  }

  lemma ScanGives(s: string, labelled: string -> bool, namer: Namer)
    requires NeverRepeats(namer)
    ensures FromScan(Tokenize(s), labelled, Filled(Tokenize(s), labelled, namer, map[], 0))
  {
    var toks := Tokenize(s);
    var names := Filled(toks, labelled, namer, map[], 0);
    NamesAreInjective(toks, labelled, namer, map[], 0);
    forall w ensures w in names <==> labelled(w) && Word(w) in toks {
      NamesOfHits(toks, labelled, namer, map[], 0, w);
    }
  }

  ghost predicate AllWords(names: Names) {
    forall w :: w in names ==> IsWord(names[w])
  }

  ghost predicate GivesWords(namer: Namer) {
    forall n: nat, j: nat :: IsWord(namer(n, j))
  }

  lemma {:induction false} NamesAreWords(toks: seq<Tok>, labelled: string -> bool, namer: Namer, names: Names, k: nat)
    requires GivesWords(namer) && AllWords(names)
    ensures AllWords(Filled(toks, labelled, namer, names, k))
  {
    if toks != [] {
      if Hit(toks[0], labelled) {
        assert IsWord(namer(|names|, k));
        NamesAreWords(toks[1..], labelled, namer, Remember(names, toks[0].w, namer(|names|, k)), k + 1);
      } else {
        NamesAreWords(toks[1..], labelled, namer, names, k);
      }
    }
  }

  // ---------------------------------------------------------------- no label left

  /** No maximal word of the text bears a label. */
  ghost predicate LabelFree(s: string, labelled: string -> bool) {
    forall t :: t in Tokenize(s) ==> !Hit(t, labelled)
  }

  ghost predicate NamesLabelFree(names: Names, labelled: string -> bool) {
    forall w :: w in names ==> !labelled(names[w])
  }

  lemma AppliedHits(toks: seq<Tok>, labelled: string -> bool, names: Names)
    requires forall w :: w in names <==> labelled(w) && Word(w) in toks
    ensures (forall t :: t in Applied(toks, labelled, names) ==> !Hit(t, labelled)) <==> NamesLabelFree(names, labelled)
  {
    var out := Applied(toks, labelled, names);
    if NamesLabelFree(names, labelled) {
      forall t | t in out ensures !Hit(t, labelled) {
        var i :| 0 <= i < |out| && out[i] == t;
        assert toks[i] in toks && t == NewTok(toks[i], labelled, names);
      }
    }
    if forall t :: t in out ==> !Hit(t, labelled) {
      forall w | w in names ensures !labelled(names[w]) {
        var i :| 0 <= i < |toks| && toks[i] == Word(w);
        assert out[i] in out && out[i] == Word(names[w]);
      }
    }
  }

  /** Renaming leaves no labelled word exactly when no name it gave bears a label. */
  lemma LabelFreeExactlyWhen(s: string, labelled: string -> bool, namer: Namer)
    requires GivesWords(namer)
    ensures var toks := Tokenize(s);
            var names := Filled(toks, labelled, namer, map[], 0);
            LabelFree(Render(Applied(toks, labelled, names)), labelled) <==> NamesLabelFree(names, labelled)
  {
    var toks := Tokenize(s);
    var names := Filled(toks, labelled, namer, map[], 0);
    TokenizeRenders(s);
    NamesAreWords(toks, labelled, namer, map[], 0);
    AppliedIsCanonical(toks, labelled, names);
    RenderTokenizes(Applied(toks, labelled, names));
    forall w ensures w in names <==> labelled(w) && Word(w) in toks {
      NamesOfHits(toks, labelled, namer, map[], 0, w);
    }
    AppliedHits(toks, labelled, names);
  }

  ghost predicate NeverLabelled(namer: Namer, labelled: string -> bool) {
    forall n: nat, k: nat :: !labelled(namer(n, k))
  }

  lemma {:induction false} NamesAreLabelFree(toks: seq<Tok>, labelled: string -> bool, namer: Namer, names: Names,
                                             k: nat)
    requires NeverLabelled(namer, labelled) && NamesLabelFree(names, labelled)
    ensures NamesLabelFree(Filled(toks, labelled, namer, names, k), labelled)
  {
    if toks != [] {
      if Hit(toks[0], labelled) {
        assert !labelled(namer(|names|, k));
        NamesAreLabelFree(toks[1..], labelled, namer, Remember(names, toks[0].w, namer(|names|, k)), k + 1);
      } else {
        NamesAreLabelFree(toks[1..], labelled, namer, names, k);
      }
    }
  }

  ghost function RestoreText(out: string, names: Names): string {
    Render(Restored(Tokenize(out), Inverse(names)))
  }

  /** Restoring the text is restoring its tokens. */
  lemma RestoreByTokens(toks: seq<Tok>, labelled: string -> bool, names: Names)
    requires Canonical(toks) && FromScan(toks, labelled, names) && AllWords(names)
    ensures var back := Restored(Applied(toks, labelled, names), Inverse(names));
            RestoreText(Render(Applied(toks, labelled, names)), names) == Render(back) && Canonical(back)
  {
    var becomes := Applied(toks, labelled, names);
    AppliedIsCanonical(toks, labelled, names);
    RenderTokenizes(becomes);
    InverseIsOfWords(toks, labelled, names);
    RestoredIsCanonical(becomes, Inverse(names));
  }

  lemma SameTextSameTokens(a: seq<Tok>, b: seq<Tok>)
    requires Canonical(a) && Canonical(b)
    ensures Render(a) == Render(b) <==> a == b
  {
    RenderTokenizes(a);
    RenderTokenizes(b);
  }

  /** Applying the inverse dictionary to the renamed text gives the text back exactly when no word of
      the text that was not renamed was already one of the names given. */
  lemma RenamingIsReversibleExactlyWhen(s: string, labelled: string -> bool, namer: Namer)
    requires NeverRepeats(namer) && GivesWords(namer)
    ensures var toks := Tokenize(s);
            var names := Filled(toks, labelled, namer, map[], 0);
            RestoreText(Render(Applied(toks, labelled, names)), names) == s <==> !Clashes(toks, labelled, names)
  {
    var toks := Tokenize(s);
    var names := Filled(toks, labelled, namer, map[], 0);
    TokenizeRenders(s);
    ScanGives(s, labelled, namer);
    NamesAreWords(toks, labelled, namer, map[], 0);
    RestoreByTokens(toks, labelled, names);
    SameTextSameTokens(Restored(Applied(toks, labelled, names), Inverse(names)), toks);
    RestoredExactlyWhen(toks, labelled, names);
  }

  lemma InverseIsOfWords(toks: seq<Tok>, labelled: string -> bool, names: Names)
    requires Canonical(toks) && FromScan(toks, labelled, names)
    ensures AllWords(Inverse(names))
  {
    forall v | v in Inverse(names) ensures IsWord(Inverse(names)[v]) {
      var w := Inverse(names)[v];
      assert Word(w) in toks;
    }
  }

  // ---------------------------------------------------------------- which name a word gets

  /** How many words of the text the patterns match. */
  function Matches(toks: seq<Tok>, labelled: string -> bool): nat {
    if toks == [] then 0 else Matches(toks[..|toks| - 1], labelled) + if Hit(toks[|toks| - 1], labelled) then 1 else 0
  }

  lemma {:induction false} MatchesPush(t: Tok, toks: seq<Tok>, labelled: string -> bool)
    ensures Matches([t] + toks, labelled) == (if Hit(t, labelled) then 1 else 0) + Matches(toks, labelled)
  {
    if toks == [] {
      assert [t] + toks == [t] && [t][..0] == [];
    } else {
      MatchesPush(t, toks[..|toks| - 1], labelled);
      assert ([t] + toks)[..|toks|] == [t] + toks[..|toks| - 1];
    }
  }

  lemma FilledFirst(t: Tok, rest: seq<Tok>, labelled: string -> bool, namer: Namer, names: Names, k: nat)
    ensures Filled([t] + rest, labelled, namer, names, k) ==
      if Hit(t, labelled) then Filled(rest, labelled, namer, Remember(names, t.w, namer(|names|, k)), k + 1)
      else Filled(rest, labelled, namer, names, k)
  {
    assert ([t] + rest)[1..] == rest;
  }

  lemma FilledBehind(before: seq<Tok>, tail: seq<Tok>, labelled: string -> bool, namer: Namer, names: Names, k: nat)
    requires before != []
    ensures Filled(before + tail, labelled, namer, names, k) ==
      if Hit(before[0], labelled)
      then Filled(before[1..] + tail, labelled, namer, Remember(names, before[0].w, namer(|names|, k)), k + 1)
      else Filled(before[1..] + tail, labelled, namer, names, k)
  {
    assert before + tail == [before[0]] + (before[1..] + tail);
    FilledFirst(before[0], before[1..] + tail, labelled, namer, names, k);
  }

  lemma MatchesFirst(before: seq<Tok>, labelled: string -> bool)
    requires before != []
    ensures Matches(before, labelled) == (if Hit(before[0], labelled) then 1 else 0) + Matches(before[1..], labelled)
  {
    assert before == [before[0]] + before[1..];
    MatchesPush(before[0], before[1..], labelled);
  }

  lemma NamedAtOnce(w: string, rest: seq<Tok>, labelled: string -> bool, namer: Namer, names: Names, k: nat)
    requires labelled(w) && w !in names
    ensures var all := Filled([Word(w)] + rest, labelled, namer, names, k); w in all && all[w] == namer(|names|, k)
  {
    FilledFirst(Word(w), rest, labelled, namer, names, k);
    FilledKeeps(rest, labelled, namer, Remember(names, w, namer(|names|, k)), k + 1, w);
  }

  /** The dictionary and the count once the first token is read. */
  lemma PastFirst(before: seq<Tok>, tail: seq<Tok>, labelled: string -> bool, namer: Namer, names: Names, k: nat)
    returns (names': Names, k': nat)
    requires before != []
    ensures Filled(before + tail, labelled, namer, names, k) == Filled(before[1..] + tail, labelled, namer, names', k')
    ensures Filled(before, labelled, namer, names, k) == Filled(before[1..], labelled, namer, names', k')
    ensures k + Matches(before, labelled) == k' + Matches(before[1..], labelled)
    ensures forall w :: w in names' ==> w in names || Word(w) == before[0]
  {
    FilledBehind(before, tail, labelled, namer, names, k);
    MatchesFirst(before, labelled);
    if Hit(before[0], labelled) {
      names', k' := Remember(names, before[0].w, namer(|names|, k)), k + 1;
    } else {
      names', k' := names, k;
    }
  }

  /** The word w gets its name behind `before`, in which it does not occur. */
  lemma {:induction false} NamedAfter(before: seq<Tok>, w: string, rest: seq<Tok>, labelled: string -> bool,
                                      namer: Namer, names: Names, k: nat)
    requires labelled(w) && w !in names && Word(w) !in before
    ensures var all := Filled(before + ([Word(w)] + rest), labelled, namer, names, k);
            var given := |Filled(before, labelled, namer, names, k)|;
            w in all && all[w] == namer(given, k + Matches(before, labelled))
  {
    var tail := [Word(w)] + rest;
    if before == [] {
      assert before + tail == tail;
      NamedAtOnce(w, rest, labelled, namer, names, k);
    } else {
      assert before[0] in before && Word(w) !in before[1..];
      var names', k' := PastFirst(before, tail, labelled, namer, names, k);
      NamedAfter(before[1..], w, rest, labelled, namer, names', k');
    }
  }

  /** A word is named where it first appears, by how many names there were and how many matches came before. */
  lemma NamedAtFirst(toks: seq<Tok>, labelled: string -> bool, namer: Namer, i: nat)
    requires i < |toks| && Hit(toks[i], labelled) && forall j :: 0 <= j < i ==> toks[j] != toks[i]
    ensures var all := Filled(toks, labelled, namer, map[], 0);
            var given := |Filled(toks[..i], labelled, namer, map[], 0)|;
            toks[i].w in all && all[toks[i].w] == namer(given, Matches(toks[..i], labelled))
  {
    var w := toks[i].w;
    CutAtWord(toks, i, w);
    assert Word(w) !in toks[..i];
    NamedAfter(toks[..i], w, toks[i + 1..], labelled, namer, map[], 0);
  }

  lemma CutAtWord(toks: seq<Tok>, i: nat, w: string)
    requires i < |toks| && toks[i] == Word(w)
    ensures toks == toks[..i] + ([Word(w)] + toks[i + 1..])
  {
  }

  // ---------------------------------------------------------------- the two namers of the source

  /** The k-th name that scrub gives. */
  function Id(k: nat): string {
    "id_" + Print(k)
  }

  /** scrub numbers names in order of appearance. */
  function Counting(): Namer {
    (n: nat, k: nat) => Id(n + 1)
  }

  /** prompt_code draws a name at every match, and draws never repeat. */
  function Drawing(draw: nat -> string): Namer {
    (n: nat, k: nat) => draw(k)
  }

  /** id_ and the numeral of k. */
  lemma IdIs(k: nat)
    ensures "id_" <= Id(k) && Decimal.Canonical(Id(k)[3..]) && Value(Id(k)[3..]) == k
  {
    PrintReadsBack(k);
    PrintIsCanonical(k);
    assert Id(k)[3..] == Print(k);
  }

  /** For prompt_code: the name drawn at the first match of the word. */
  lemma DrawnAtFirst(toks: seq<Tok>, labelled: string -> bool, draw: nat -> string, i: nat)
    requires i < |toks| && Hit(toks[i], labelled) && forall j :: 0 <= j < i ==> toks[j] != toks[i]
    ensures var names := Filled(toks, labelled, Drawing(draw), map[], 0);
            toks[i].w in names && names[toks[i].w] == draw(Matches(toks[..i], labelled))
  {
    NamedAtFirst(toks, labelled, Drawing(draw), i);
  }

  lemma IdIsWord(k: nat)
    ensures IsWord(Id(k))
  {
    assert forall c: char :: IsDigit(c) ==> IsWordChar(c);
    assert IsWordChar('i') && IsWordChar('d') && IsWordChar('_');
    var s := Id(k);
    forall i | 0 <= i < |s| ensures IsWordChar(s[i]) {
      if i >= 3 {
        assert s[i] == Print(k)[i - 3];
      }
    }
  }

  lemma CountingNeverRepeats()
    ensures NeverRepeats(Counting()) && GivesWords(Counting())
  {
    forall n: nat, k: nat, n': nat, k': nat | n < n' && k < k' ensures Counting()(n, k) != Counting()(n', k') {
      if Id(n + 1) == Id(n' + 1) {
        assert Id(n + 1)[3..] == Print(n + 1) && Id(n' + 1)[3..] == Print(n' + 1);
        PrintInjective(n + 1, n' + 1);
      }
    }
    forall n: nat, j: nat ensures IsWord(Counting()(n, j)) {
      IdIsWord(n + 1);
    }
  }

  lemma DrawingNeverRepeats(draw: nat -> string)
    requires forall i: nat, j: nat :: i < j ==> draw(i) != draw(j)
    ensures NeverRepeats(Drawing(draw))
  {
  }

  /** For prompt_code: with drawn names it can be undone exactly when no other word of the text was one
      of the names it drew. */
  lemma DrawnNamesReversibleExactlyWhen(s: string, labelled: string -> bool, draw: nat -> string)
    requires (forall i: nat, j: nat :: i < j ==> draw(i) != draw(j)) && (forall k: nat :: IsWord(draw(k)))
    ensures var toks := Tokenize(s);
            var names := Filled(toks, labelled, Drawing(draw), map[], 0);
            && Drawn(names, draw)
            && (RestoreText(Render(Applied(toks, labelled, names)), names) == s <==>
                forall i :: 0 <= i < |toks| && toks[i].Word? && !labelled(toks[i].w) ==> toks[i].w !in names.Values)
  {
    DrawingNeverRepeats(draw);
    assert GivesWords(Drawing(draw));
    RenamingIsReversibleExactlyWhen(s, labelled, Drawing(draw));
    NamesAreDrawn(Tokenize(s), labelled, draw, map[], 0);
  }

  ghost predicate Drawn(names: Names, draw: nat -> string) {
    forall w :: w in names ==> exists k: nat :: names[w] == draw(k)
  }

  lemma RememberDrawn(names: Names, w: string, draw: nat -> string, k: nat)
    requires Drawn(names, draw)
    ensures Drawn(Remember(names, w, draw(k)), draw)
  {
  }

  lemma {:induction false} NamesAreDrawn(toks: seq<Tok>, labelled: string -> bool, draw: nat -> string, names: Names,
                                         k: nat)
    requires Drawn(names, draw)
    ensures Drawn(Filled(toks, labelled, Drawing(draw), names, k), draw)
  {
    if toks != [] {
      if Hit(toks[0], labelled) {
        RememberDrawn(names, toks[0].w, draw, k);
        NamesAreDrawn(toks[1..], labelled, draw, Remember(names, toks[0].w, draw(k)), k + 1);
      } else {
        NamesAreDrawn(toks[1..], labelled, draw, names, k);
      }
    }
  }

  /** The distinct labelled words, in order of first appearance. */
  function Firsts(toks: seq<Tok>, labelled: string -> bool, seen: seq<string>): seq<string> {
    if toks == [] then seen
    else if Hit(toks[0], labelled) && toks[0].w !in seen then Firsts(toks[1..], labelled, seen + [toks[0].w])
    else Firsts(toks[1..], labelled, seen)
  }

  /** The dictionary numbers the words seen. */
  ghost predicate Numbers(names: Names, seen: seq<string>) {
    && |names| == |seen|
    && (forall w :: w in names <==> w in seen)
    && (forall i :: 0 <= i < |seen| ==> seen[i] in names && names[seen[i]] == Id(i + 1))
  }

  lemma NumbersPush(names: Names, seen: seq<string>, w: string)
    requires Numbers(names, seen) && w !in seen
    ensures Numbers(names[w := Id(|seen| + 1)], seen + [w])
  {
    var names' := names[w := Id(|seen| + 1)];
    assert |names'| == |names| + 1;
  }

  /** The k-th distinct labelled word becomes id_k. */
  lemma {:induction false} KthWordIsIdK(toks: seq<Tok>, labelled: string -> bool, names: Names, seen: seq<string>,
                                        k: nat)
    requires Numbers(names, seen)
    ensures Numbers(Filled(toks, labelled, Counting(), names, k), Firsts(toks, labelled, seen))
  {
    if toks != [] {
      if Hit(toks[0], labelled) {
        var w := toks[0].w;
        var names' := Remember(names, w, Counting()(|names|, k));
        if w !in seen {
          NumbersPush(names, seen, w);
          KthWordIsIdK(toks[1..], labelled, names', seen + [w], k + 1);
        } else {
          KthWordIsIdK(toks[1..], labelled, names, seen, k + 1);
        }
      } else {
        KthWordIsIdK(toks[1..], labelled, names, seen, k);
      }
    }
  }

  /** For scrub: it can be undone exactly when no unlabelled word of the text is one of id_1 .. id_n,
      n being the number of distinct labelled words. */
  lemma ScrubNamesReversibleExactlyWhen(s: string, labelled: string -> bool)
    ensures var toks := Tokenize(s);
            var names, words := Filled(toks, labelled, Counting(), map[], 0), Firsts(toks, labelled, []);
            && Numbers(names, words)
            && (RestoreText(Render(Applied(toks, labelled, names)), names) == s <==>
                forall i, k :: 0 <= i < |toks| && 0 < k <= |words| ==>
                  !(toks[i].Word? && !labelled(toks[i].w) && toks[i].w == Id(k)))
  {
    var toks := Tokenize(s);
    var names, words := Filled(toks, labelled, Counting(), map[], 0), Firsts(toks, labelled, []);
    CountingNeverRepeats();
    RenamingIsReversibleExactlyWhen(s, labelled, Counting());
    KthWordIsIdK(toks, labelled, map[], [], 0);
    NumberedValues(names, words);
  }

  lemma NumberedValues(names: Names, words: seq<string>)
    requires Numbers(names, words)
    ensures forall v :: v in names.Values <==> exists k :: 0 < k <= |words| && v == Id(k)
  {
    forall v ensures v in names.Values <==> exists k :: 0 < k <= |words| && v == Id(k) {
      if v in names.Values {
        var w :| w in names && names[w] == v;
        var i :| 0 <= i < |words| && words[i] == w;
        assert v == Id(i + 1);
      }
      if k :| 0 < k <= |words| && v == Id(k) {
        assert names[words[k - 1]] == v;
      }
    }
  }
}
