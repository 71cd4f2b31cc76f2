/** In-place tokenization: strtok_r over a byte buffer, and the shell's parse_input on top of it. */
module Tokenizer {
  import opened CString
  import opened Options

  /** Reading from i, the string is s[i..e]: no NUL before e, and one at e. */
  lemma StrEndIs(b: seq<char>, i: nat, e: nat)
    requires i <= e < |b| && NoNul(b[i..e]) && b[e] == NUL
    ensures StrEnd(b, i) == e && CStr(b, i) == b[i..e]
  {
    forall k | i <= k < e ensures b[k] != NUL {
      assert b[i..e][k - i] == b[k];
    }
  }

  lemma SuffixEnd(b: seq<char>, i: nat, j: nat)
    requires i <= |b| && i <= j <= StrEnd(b, i)
    ensures StrEnd(b, j) == StrEnd(b, i)
    decreases j - i
  {
    if i < j {
      SuffixEnd(b, i + 1, j);
    }
  }

  /** Two buffers that agree from i to the end hold the same string there. */
  lemma SameTail(a: seq<char>, b: seq<char>, i: nat)
    requires i <= |a| == |b| && a[i..] == b[i..]
    ensures StrEnd(a, i) == StrEnd(b, i) && CStr(a, i) == CStr(b, i)
    decreases |a| - i
  {
    if i < |a| {
      assert a[i] == a[i..][0] == b[i..][0] == b[i];
      assert a[i + 1..] == a[i..][1..] && b[i + 1..] == b[i..][1..];
      SameTail(a, b, i + 1);
    }
    assert a[i..StrEnd(a, i)] == a[i..][..StrEnd(a, i) - i];
    assert b[i..StrEnd(b, i)] == b[i..][..StrEnd(b, i) - i];
  }

  /** The first place from i on that holds no blank. */
  function BlankEnd(b: seq<char>, i: nat): (e: nat)
    requires i <= |b|
    ensures i <= e <= |b| && (forall k :: i <= k < e ==> Blank(b[k])) && (e < |b| ==> !Blank(b[e]))
    decreases |b| - i
  {
    if i < |b| && Blank(b[i]) then BlankEnd(b, i + 1) else i
  }

  /** The first place from i on that holds a blank or a NUL. */
  function WordEnd(b: seq<char>, i: nat): (e: nat)
    requires i <= |b|
    ensures i <= e <= |b| && (forall k :: i <= k < e ==> !Blank(b[k]) && b[k] != NUL)
    ensures e < |b| ==> Blank(b[e]) || b[e] == NUL
    decreases |b| - i
  {
    if i < |b| && b[i] != NUL && !Blank(b[i]) then WordEnd(b, i + 1) else i
  }

  lemma EndsWithinString(b: seq<char>, i: nat)
    requires i <= |b|
    ensures BlankEnd(b, i) <= StrEnd(b, i) && WordEnd(b, i) <= StrEnd(b, i)
    decreases |b| - i
  {
    if i < |b| && b[i] != NUL {
      EndsWithinString(b, i + 1);
    }
  }

  lemma SplitSlice(b: seq<char>, i: nat, m: nat, e: nat)
    requires i <= m <= e <= |b|
    ensures b[i..e][..m - i] == b[i..m] && b[i..e][m - i..] == b[m..e]
  {
  }

  lemma BlanksSkipped(b: seq<char>, i: nat)
    requires i <= |b|
    ensures var t := BlankEnd(b, i);
            t <= StrEnd(b, i) == StrEnd(b, t) && Words(CStr(b, i)) == Words(CStr(b, t))
  {
    EndsWithinString(b, i);
    SuffixEnd(b, i, BlankEnd(b, i));
    BlanksInString(b, i, BlankEnd(b, i), StrEnd(b, i));
  }

  lemma BlanksInString(b: seq<char>, i: nat, t: nat, e: nat)
    requires i <= t <= e <= |b| && forall k :: i <= k < t ==> Blank(b[k])
    ensures Words(b[i..e]) == Words(b[t..e])
  {
    SplitSlice(b, i, t, e);
    SkipBlanks(b[i..e], t - i);
  }

  lemma WordSpanned(b: seq<char>, t: nat)
    requires t < |b| && !Blank(b[t]) && b[t] != NUL
    ensures var z := WordEnd(b, t);
            t < z <= StrEnd(b, t) == StrEnd(b, z) && Words(CStr(b, t)) == [b[t..z]] + Words(CStr(b, z))
  {
    var e, z := StrEnd(b, t), WordEnd(b, t);
    EndsWithinString(b, t);
    SuffixEnd(b, t, z);
    RunInString(b, t, z, e);
  }

  lemma RunInString(b: seq<char>, t: nat, z: nat, e: nat)
    requires t < z <= e <= |b| && (forall k :: t <= k < z ==> !Blank(b[k])) && (z < e ==> Blank(b[z]))
    ensures Words(b[t..e]) == [b[t..z]] + Words(b[z..e])
  {
    var s, n := b[t..e], z - t;
    SplitSlice(b, t, z, e);
    assert n < |s| ==> s[n] == b[z];
    FirstRun(s, n);
  }

  lemma DelimiterPassed(b: seq<char>, z: nat)
    requires z < |b| && Blank(b[z])
    ensures StrEnd(b, z) == StrEnd(b, z + 1) && Words(CStr(b, z)) == Words(CStr(b, z + 1))
  {
    var e := StrEnd(b, z);
    assert b[z..e][1..] == b[z + 1..e];
  }

  /** What a call leaves: a token read off the front of the string, or none when no word is left. */
  ghost predicate Took(b: seq<char>, b': seq<char>, state: nat, token: Option<nat>, next: nat)
    requires state <= |b|
  {
    var words := Words(CStr(b, state));
    && |b'| == |b| && state <= next <= StrEnd(b, state)
    && b'[next..] == b[next..] && b'[..state] == b[..state]
    && (token.None? <==> words == [])
    && (token.Some? ==> TokenAt(b', token, words[0], next) && state <= token.value
                        && Words(CStr(b', next)) == words[1..])
  }

  /** The buffer once the word that starts at t has been cut off, and where the next call starts. */
  function Cut(b: seq<char>, t: nat): (seq<char>, nat)
    requires t <= |b|
  {
    var z := WordEnd(b, t);
    if z < |b| && b[z] != NUL then (b[z := NUL], z + 1) else (b, z)
  }

  lemma CutReads(b: seq<char>, t: nat)
    requires t <= |b| && StrEnd(b, t) < |b| && b[t] != NUL && !Blank(b[t])
    ensures var (b', next) := Cut(b, t); TokenAt(b', Some(t), b[t..WordEnd(b, t)], next)
  {
    EndsWithinString(b, t);
    CutAt(b, t, WordEnd(b, t));
  }

  lemma CutKeeps(b: seq<char>, t: nat)
    requires t <= |b| && StrEnd(b, t) < |b| && b[t] != NUL && !Blank(b[t])
    ensures var (b', next) := Cut(b, t);
            |b'| == |b| && t < next <= StrEnd(b, t) && b'[..t] == b[..t] && b'[next..] == b[next..]
  {
    var z := WordEnd(b, t);
    EndsWithinString(b, t);
    if b[z] == NUL {
      assert Cut(b, t) == (b, z);
    } else {
      assert Cut(b, t) == (b[z := NUL], z + 1);
      CutAt(b, t, z);
      assert z < StrEnd(b, t);
    }
  }

  lemma CutAt(b: seq<char>, t: nat, z: nat)
    requires t <= z < |b|
    ensures var b' := if b[z] != NUL then b[z := NUL] else b;
            var next := if b[z] != NUL then z + 1 else z;
            b'[next..] == b[next..] && b'[..t] == b[..t] && TokenAt(b', Some(t), b[t..z], next)
  {
    var b' := if b[z] != NUL then b[z := NUL] else b;
    assert b'[t..t + |b[t..z]|] == b[t..z];
  }

  lemma CutTail(b: seq<char>, t: nat)
    requires t <= |b| && StrEnd(b, t) < |b| && b[t] != NUL && !Blank(b[t])
    ensures var (b', next) := Cut(b, t); next <= |b'| && next <= |b| && CStr(b', next) == CStr(b, next)
  {
    CutKeeps(b, t);
    var (b', next) := Cut(b, t);
    SameTail(b', b, next);
  }

  lemma WordsAfterCut(b: seq<char>, t: nat)
    requires t <= |b| && StrEnd(b, t) < |b| && b[t] != NUL && !Blank(b[t])
    ensures Cut(b, t).1 <= |b| && Words(CStr(b, WordEnd(b, t))) == Words(CStr(b, Cut(b, t).1))
  {
    EndsWithinString(b, t);
    var z := WordEnd(b, t);
    if b[z] != NUL {
      DelimiterPassed(b, z);
    }
  }

  lemma CutLeavesWords(b: seq<char>, t: nat)
    requires t <= |b| && StrEnd(b, t) < |b| && b[t] != NUL && !Blank(b[t])
    ensures var (b', next) := Cut(b, t);
            next <= |b'| && Words(CStr(b, t)) == [b[t..WordEnd(b, t)]] + Words(CStr(b', next))
  {
    WordSpanned(b, t);
    WordsAfterCut(b, t);
    CutTail(b, t);
  }

  lemma CutTakesToken(b: seq<char>, state: nat)
    requires state <= |b| && StrEnd(b, state) < |b|
    ensures var t := BlankEnd(b, state);
            if b[t] == NUL then Took(b, b, state, None, t)
            else Took(b, Cut(b, t).0, state, Some(t), Cut(b, t).1)
  {
    BlanksSkipped(b, state);
    var t := BlankEnd(b, state);
    if b[t] == NUL {
      assert CStr(b, t) == "";
    } else {
      CutReads(b, t);
      CutKeeps(b, t);
      CutLeavesWords(b, t);
      var (b', next) := Cut(b, t);
      assert b'[..t][..state] == b'[..state] && b[..t][..state] == b[..state];
    }
  }

  method SkipDelimiters(buf: array<char>, state: nat) returns (i: nat)
    requires state <= buf.Length && StrEnd(buf[..], state) < buf.Length
    ensures i == BlankEnd(buf[..], state) && i <= StrEnd(buf[..], state)
  {
    i := state;
    EndsWithinString(buf[..], state);
    while Blank(buf[i])
      invariant state <= i <= BlankEnd(buf[..], state) && BlankEnd(buf[..], i) == BlankEnd(buf[..], state)
      decreases buf.Length - i
    {
      i := i + 1;
    }
  }

  method SpanWord(buf: array<char>, t: nat) returns (j: nat)
    requires t <= buf.Length && StrEnd(buf[..], t) < buf.Length
    ensures j == WordEnd(buf[..], t) && j <= StrEnd(buf[..], t)
  {
    j := t;
    EndsWithinString(buf[..], t);
    while buf[j] != NUL && !Blank(buf[j])
      invariant t <= j <= WordEnd(buf[..], t) && WordEnd(buf[..], j) == WordEnd(buf[..], t)
      decreases buf.Length - j
    {
      j := j + 1;
    }
  }

  /** strtok_r(NULL or the line, " \t", &state) of POSIX.1-2008, with state an index into the buffer. */
  method StrtokR(buf: array<char>, state: nat) returns (token: Option<nat>, next: nat)
    requires state <= buf.Length && StrEnd(buf[..], state) < buf.Length
    modifies buf
    ensures Took(old(buf[..]), buf[..], state, token, next)
  {
    ghost var b := buf[..];
    CutTakesToken(b, state);
    BlanksSkipped(b, state);
    var t := SkipDelimiters(buf, state);
    if buf[t] == NUL {
      return None, t;
    }
    next := CutWord(buf, t);
    token := Some(t);
  }

  /** Ends the word at t with a NUL, unless the string ends there anyway. */
  method CutWord(buf: array<char>, t: nat) returns (next: nat)
    requires t <= buf.Length && StrEnd(buf[..], t) < buf.Length
    modifies buf
    ensures (buf[..], next) == Cut(old(buf[..]), t)
  {
    ghost var b := buf[..];
    var j := SpanWord(buf, t);
    next := j;
    if buf[j] != NUL {
      buf[j] := NUL;
      next := j + 1;
      assert buf[..] == b[j := NUL];
    }
  }

  /** A token of the buffer lying wholly before `state`. */
  ghost predicate TokenAt(b: seq<char>, p: Option<nat>, w: string, state: nat) {
    p.Some? && p.value + |w| <= state && p.value + |w| < |b|
    && b[p.value..p.value + |w|] == w && b[p.value + |w|] == NUL
  }

  lemma TokenStays(b: seq<char>, b': seq<char>, p: Option<nat>, w: string, state: nat, next: nat)
    requires TokenAt(b, p, w, state) && state <= next && |b'| == |b| && state <= |b|
    requires b'[..state] == b[..state]
    requires state < |b| ==> b'[state] == b[state] || b[state] != NUL
    ensures TokenAt(b', p, w, next)
  {
    var t := p.value;
    assert b'[..state][t..t + |w|] == b'[t..t + |w|] && b[..state][t..t + |w|] == b[t..t + |w|];
    if t + |w| < state {
      assert b'[..state][t + |w|] == b[..state][t + |w|];
    }
  }

  /** Everything parse_input has found so far, with the words still ahead. */
  ghost predicate Tokens(b: seq<char>, args: seq<Option<nat>>, count: nat, words: seq<string>, state: nat) {
    && count <= |words| && count <= |args| && state <= |b|
    && (forall i :: 0 <= i < count ==> TokenAt(b, args[i], words[i], state))
  }

  lemma TokensStay(b: seq<char>, b': seq<char>, args: seq<Option<nat>>, count: nat, words: seq<string>, state: nat,
                   next: nat)
    requires Tokens(b, args, count, words, state) && state <= next <= |b'| == |b|
    requires b'[..state] == b[..state]
    requires state < |b| ==> b'[state] == b[state] || b[state] != NUL
    ensures Tokens(b', args, count, words, next)
  {
    forall i | 0 <= i < count ensures TokenAt(b', args[i], words[i], next) {
      TokenStays(b, b', args[i], words[i], state, next);
    }
  }

  lemma TokenReadsBack(b: seq<char>, p: Option<nat>, w: string, state: nat)
    requires TokenAt(b, p, w, state) && NoNul(w)
    ensures CStr(b, p.value) == w
  {
    StrEndIs(b, p.value, p.value + |w|);
  }

  lemma {:induction false} WordsHaveNoNul(s: string)
    requires NoNul(s)
    ensures forall i :: 0 <= i < |Words(s)| ==> NoNul(Words(s)[i])
  {
    if s != "" {
      assert NoNul(s[1..]);
      WordsHaveNoNul(s[1..]);
    }
  }

  /** The arguments read back from the buffer are the words of the line, closed by a null pointer. */
  ghost predicate ArgsAre(b: seq<char>, args: seq<Option<nat>>, words: seq<string>) {
    && |words| < |args| && args[|words|] == None
    && (forall i :: 0 <= i < |words| ==>
          args[i].Some? && args[i].value <= |b| && CStr(b, args[i].value) == words[i])
  }

  /** Between two calls of strtok_r: the tokens so far, and the one just read with the words behind it. */
  ghost predicate Parsing(b: seq<char>, args: seq<Option<nat>>, count: nat, words: seq<string>, token: Option<nat>,
                          state: nat) {
    && Tokens(b, args, count, words, state)
    && StrEnd(b, state) < |b|
    && (token.None? ==> count == |words|)
    && (token.Some? ==> count < |words| && TokenAt(b, token, words[count], state)
                        && Words(CStr(b, state)) == words[count + 1..])
  }

  lemma ParsingStarts(b: seq<char>, b': seq<char>, args: seq<Option<nat>>, token: Option<nat>, next: nat)
    requires StrEnd(b, 0) < |b| && Took(b, b', 0, token, next)
    ensures Parsing(b', args, 0, Words(CStr(b, 0)), token, next)
  {
    SuffixEnd(b, 0, next);
    SameTail(b, b', next);
  }

  lemma ParsingSteps(b: seq<char>, b': seq<char>, args: seq<Option<nat>>, count: nat, words: seq<string>,
                     token: Option<nat>, state: nat, token': Option<nat>, next: nat)
    requires Parsing(b, args, count, words, token, state) && token.Some? && count < |args|
    requires Took(b, b', state, token', next)
    ensures Parsing(b', args[count := token], count + 1, words, token', next)
  {
    var args' := args[count := token];
    assert Tokens(b, args', count + 1, words, state);
    if b[state] == NUL {
      assert b'[state] == b'[next..][0] == b[next..][0];
    }
    TokensStay(b, b', args', count + 1, words, state, next);
    SuffixEnd(b, state, next);
    SameTail(b, b', next);
  }

  lemma ParsingEnds(b: seq<char>, args: seq<Option<nat>>, count: nat, line: string, state: nat)
    requires Parsing(b, args, count, Words(line), None, state) && count < |args| && NoNul(line)
    ensures ArgsAre(b, args[count := None], Words(line))
  {
    var words := Words(line);
    WordsHaveNoNul(line);
    forall i | 0 <= i < |words| ensures args[i].Some? && args[i].value <= |b| && CStr(b, args[i].value) == words[i] {
      TokenReadsBack(b, args[i], words[i], state);
    }
  }

  /** The body of parse_input's loop: store the token and ask for the next. */
  method NextToken(buf: array<char>, args: array<Option<nat>>, count: nat, ghost words: seq<string>,
                   token: Option<nat>, state: nat)
    returns (token': Option<nat>, next: nat)
    requires count < args.Length && token.Some? && Parsing(buf[..], args[..], count, words, token, state)
    modifies buf, args
    ensures Parsing(buf[..], args[..], count + 1, words, token', next)
  {
    ghost var a, b := args[..], buf[..];
    args[count] := token;
    token', next := StrtokR(buf, state);
    assert args[..] == a[count := token];
    ParsingSteps(b, buf[..], a, count, words, token, state, token', next);
  }

  /** parse_input: true, with the words of the line, unless there are more than args can hold beside
      the closing null pointer. */
  method ParseInput(buf: array<char>, args: array<Option<nat>>) returns (ok: bool)
    requires args.Length >= 1 && StrEnd(buf[..], 0) < buf.Length
    modifies buf, args
    ensures ok <==> |Words(CStr(old(buf[..]), 0))| <= args.Length - 1
    ensures ok ==> ArgsAre(buf[..], args[..], Words(CStr(old(buf[..]), 0)))
  {
    ghost var b, words := buf[..], Words(CStr(buf[..], 0));
    var count := 0;
    var token: Option<nat>, state: nat := StrtokR(buf, 0);
    ParsingStarts(b, buf[..], args[..], token, state);
    while token.Some?
      invariant count <= args.Length - 1
      invariant Parsing(buf[..], args[..], count, words, token, state)
      decreases |words| - count
    {
      if count == args.Length - 1 {
        return false;
      }
      token, state := NextToken(buf, args, count, words, token, state);
      count := count + 1;
    }
    ParsingEnds(buf[..], args[..], count, CStr(old(buf[..]), 0), state);
    ghost var a := args[..];
    args[count] := None;
    assert args[..] == a[count := None];
    return true;
  }
}
