/** A text pass as a list of kept and replaced stretches, and what it does to line numbers. */
module Rewriting {
  import opened Options

  /** A stretch the pass keeps, or one it replaces. */
  datatype Seg = Kept(text: string) | Swapped(was: string, becomes: string)

  function Before(g: Seg): string {
    if g.Kept? then g.text else g.was
  }

  function Behind(g: Seg): string {
    if g.Kept? then g.text else g.becomes
  }

  /** The text the pass read. */
  function Source(segs: seq<Seg>): string {
    if segs == [] then "" else Before(segs[0]) + Source(segs[1..])
  }

  /** The text the pass wrote. */
  function Target(segs: seq<Seg>): string {
    if segs == [] then "" else Behind(segs[0]) + Target(segs[1..])
  }

  function Newlines(s: string): nat {
    if s == "" then 0 else (if s[0] == '\n' then 1 else 0) + Newlines(s[1..])
  }

  /** The line separators of str.splitlines besides the newline. A carriage return and newline together
      would be one separator, but a file is read in text mode, which leaves no carriage return. */
  predicate Other(c: char) {
    c == '\r' || c == '\U{000b}' || c == '\U{000c}' || '\U{001c}' <= c <= '\U{001e}'
    || c == '\U{0085}' || c == '\U{2028}' || c == '\U{2029}'
  }

  lemma OthersAre(c: char)
    ensures Other(c) <==> c as int in {0x0b, 0x0c, 0x0d, 0x1c, 0x1d, 0x1e, 0x85, 0x2028, 0x2029}
  {
  }

  function Others(s: string): nat {
    if s == "" then 0 else (if Other(s[0]) then 1 else 0) + Others(s[1..])
  }

  /** A replacement has as many newlines as what it replaces, and no other separator. */
  predicate LineSafe(g: Seg) {
    Newlines(Before(g)) == Newlines(Behind(g)) && (g.Swapped? ==> Others(g.becomes) == 0)
  }

  predicate Balanced(segs: seq<Seg>) {
    forall i :: 0 <= i < |segs| ==> LineSafe(segs[i])
  }

  /** Where a character of the source ends up in the target: nowhere if it is replaced. */
  function Move(segs: seq<Seg>, p: nat): Option<nat> {
    if segs == [] then None
    else
      var a, b := |Before(segs[0])|, |Behind(segs[0])|;
      if p < a then (if segs[0].Kept? then Some(p) else None)
      else match Move(segs[1..], p - a)
        case None => None
        case Some(q) => Some(b + q)
  }

  lemma {:induction false} NewlinesAdd(a: string, b: string)
    ensures Newlines(a + b) == Newlines(a) + Newlines(b)
  {
    if a == "" {
      assert a + b == b;
    } else {
      NewlinesAdd(a[1..], b);
      assert (a + b)[1..] == a[1..] + b;
    }
  }

  /** Character p of s is character q of t, on the same line. */
  predicate SamePlace(s: string, p: nat, t: string, q: nat) {
    p < |s| && q < |t| && s[p] == t[q] && Newlines(s[..p]) == Newlines(t[..q])
  }

  lemma InsideKept(text: string, s: string, t: string, p: nat)
    requires p < |text|
    ensures SamePlace(text + s, p, text + t, p)
  {
    assert (text + s)[..p] == text[..p] == (text + t)[..p];
  }

  lemma TakePast(a: string, s: string, p: nat)
    requires p < |s|
    ensures (a + s)[|a| + p] == s[p] && (a + s)[..|a| + p] == a + s[..p]
  {
  }

  lemma PastFirst(a: string, b: string, s: string, t: string, p: nat, q: nat)
    requires Newlines(a) == Newlines(b) && SamePlace(s, p, t, q)
    ensures SamePlace(a + s, |a| + p, b + t, |b| + q)
  {
    TakePast(a, s, p);
    TakePast(b, t, q);
    NewlinesAdd(a, s[..p]);
    NewlinesAdd(b, t[..q]);
  }

  /** A kept character is unchanged and stays on its line. */
  lemma {:induction false} MoveKeepsLine(segs: seq<Seg>, p: nat)
    requires Balanced(segs) && Move(segs, p).Some?
    ensures SamePlace(Source(segs), p, Target(segs), Move(segs, p).value)
  {
    var a, b, rest := Before(segs[0]), Behind(segs[0]), segs[1..];
    if p < |a| {
      InsideKept(a, Source(rest), Target(rest), p);
    } else {
      MoveKeepsLine(rest, p - |a|);
      PastFirst(a, b, Source(rest), Target(rest), p - |a|, Move(rest, p - |a|).value);
    }
  }

  /** And the number of lines is kept too. */
  lemma {:induction false} SameLineCount(segs: seq<Seg>)
    requires Balanced(segs)
    ensures Newlines(Source(segs)) == Newlines(Target(segs))
  {
    if segs != [] {
      SameLineCount(segs[1..]);
      NewlinesAdd(Before(segs[0]), Source(segs[1..]));
      NewlinesAdd(Behind(segs[0]), Target(segs[1..]));
    }
  }

  // ---------------------------------------------------------------- several passes

  /** Each pass reads what the one before it wrote, the first reading s. */
  predicate Linked(chain: seq<seq<Seg>>, s: string) {
    chain == [] || (Source(chain[0]) == s && Balanced(chain[0]) && Linked(chain[1..], Target(chain[0])))
  }

  function Outcome(chain: seq<seq<Seg>>, s: string): string {
    if chain == [] then s else Outcome(chain[1..], Target(chain[0]))
  }

  /** Where a character ends up after all the passes, if none of them replaces it. */
  function Follow(chain: seq<seq<Seg>>, p: nat): Option<nat> {
    if chain == [] then Some(p)
    else match Move(chain[0], p)
      case None => None
      case Some(q) => Follow(chain[1..], q)
  }

  /** A surviving character is unchanged and has as many newlines above it as before. */
  lemma {:induction false} SurvivorKeepsLine(chain: seq<seq<Seg>>, s: string, p: nat)
    requires Linked(chain, s) && Follow(chain, p).Some? && p < |s|
    ensures SamePlace(s, p, Outcome(chain, s), Follow(chain, p).value)
    decreases |chain|
  {
    if chain != [] {
      MoveKeepsLine(chain[0], p);
      SurvivorKeepsLine(chain[1..], Target(chain[0]), Move(chain[0], p).value);
    }
  }

  lemma {:induction false} SameLinesThroughout(chain: seq<seq<Seg>>, s: string)
    requires Linked(chain, s)
    ensures Newlines(Outcome(chain, s)) == Newlines(s)
    decreases |chain|
  {
    if chain != [] {
      SameLineCount(chain[0]);
      SameLinesThroughout(chain[1..], Target(chain[0]));
    }
  }

  // ---------------------------------------------------------------- which characters survive

  /** The character lies in a stretch the pass replaces. */
  ghost predicate Replaced(segs: seq<Seg>, p: nat) {
    exists i :: 0 <= i < |segs| && InStretch(segs, i, p) && segs[i].Swapped?
  }

  ghost predicate InStretch(segs: seq<Seg>, i: nat, p: nat)
    requires i < |segs|
  {
    |Source(segs[..i])| <= p < |Source(segs[..i])| + |Before(segs[i])|
  }

  lemma StretchFromTail(segs: seq<Seg>, i: nat, p: nat)
    requires 0 < i < |segs|
    ensures InStretch(segs, i, p) <==> p >= |Before(segs[0])| && InStretch(segs[1..], i - 1, p - |Before(segs[0])|)
  {
    assert segs[..i][0] == segs[0] && segs[..i][1..] == segs[1..][..i - 1];
  }

  /** A pass keeps exactly the characters outside the stretches it replaces. */
  lemma {:induction false} MovesUnlessReplaced(segs: seq<Seg>, p: nat)
    requires p < |Source(segs)|
    ensures Move(segs, p).None? <==> Replaced(segs, p)
  {
    var a, rest := |Before(segs[0])|, segs[1..];
    assert Source(segs[..0]) == "";
    assert InStretch(segs, 0, p) <==> p < a;
    if p >= a {
      MovesUnlessReplaced(rest, p - a);
      if Replaced(rest, p - a) {
        var i :| 0 <= i < |rest| && InStretch(rest, i, p - a) && rest[i].Swapped?;
        StretchFromTail(segs, i + 1, p);
      }
    }
    if Replaced(segs, p) {
      var i :| 0 <= i < |segs| && InStretch(segs, i, p) && segs[i].Swapped?;
      if i > 0 {
        StretchFromTail(segs, i, p);
      }
    }
  }

  /** The character reaches pass j and is replaced there. */
  ghost predicate LostAt(chain: seq<seq<Seg>>, p: nat, j: nat) {
    j < |chain| && Follow(chain[..j], p).Some? && Replaced(chain[j], Follow(chain[..j], p).value)
  }

  ghost predicate Lost(chain: seq<seq<Seg>>, p: nat) {
    exists j: nat :: LostAt(chain, p, j)
  }

  lemma LostAtFirst(chain: seq<seq<Seg>>, p: nat)
    requires chain != []
    ensures LostAt(chain, p, 0) <==> Replaced(chain[0], p)
  {
    assert chain[..0] == [];
  }

  lemma LostAtLater(chain: seq<seq<Seg>>, p: nat, j: nat)
    requires chain != [] && Move(chain[0], p).Some?
    ensures LostAt(chain, p, j + 1) <==> LostAt(chain[1..], Move(chain[0], p).value, j)
  {
    if j + 1 < |chain| {
      assert chain[..j + 1][0] == chain[0] && chain[..j + 1][1..] == chain[1..][..j];
    }
  }

  lemma LostStep(chain: seq<seq<Seg>>, p: nat)
    requires chain != [] && Move(chain[0], p).Some? && !Replaced(chain[0], p)
    ensures Lost(chain, p) <==> Lost(chain[1..], Move(chain[0], p).value)
  {
    LostAtFirst(chain, p);
    if Lost(chain, p) {
      var j: nat :| LostAt(chain, p, j);
      LostAtLater(chain, p, j - 1);
    }
    if Lost(chain[1..], Move(chain[0], p).value) {
      var j: nat :| LostAt(chain[1..], Move(chain[0], p).value, j);
      LostAtLater(chain, p, j);
    }
  }

  /** A character of the text survives exactly when no pass replaces it on its way. */
  lemma {:induction false} SurvivesUnlessLost(chain: seq<seq<Seg>>, s: string, p: nat)
    requires Linked(chain, s) && p < |s|
    ensures Follow(chain, p).None? <==> Lost(chain, p)
    decreases |chain|
  {
    if chain != [] {
      MovesUnlessReplaced(chain[0], p);
      if Move(chain[0], p).None? {
        LostAtFirst(chain, p);
      } else {
        MoveKeepsLine(chain[0], p);
        SurvivesUnlessLost(chain[1..], Target(chain[0]), Move(chain[0], p).value);
        LostStep(chain, p);
      }
    }
  }

  // ---------------------------------------------------------------- separators other than the newline

  lemma {:induction false} OthersAdd(a: string, b: string)
    ensures Others(a + b) == Others(a) + Others(b)
  {
    if a == "" {
      assert a + b == b;
    } else {
      OthersAdd(a[1..], b);
      assert (a + b)[1..] == a[1..] + b;
    }
  }

  lemma {:induction false} NoOthers(s: string)
    ensures Others(s) == 0 <==> forall i :: 0 <= i < |s| ==> !Other(s[i])
  {
    if s != "" {
      NoOthers(s[1..]);
      assert forall i :: 0 < i < |s| ==> s[i] == s[1..][i - 1];
      assert forall i :: 0 <= i < |s[1..]| ==> s[1..][i] == s[i + 1];
    }
  }

  lemma OthersAbove(a: string, s: string, p: nat)
    requires p < |s|
    ensures Others((a + s)[..|a| + p]) == Others(a) + Others(s[..p])
  {
    TakePast(a, s, p);
    OthersAdd(a, s[..p]);
  }

  /** Characters keep their order. */
  lemma {:induction false} MoveKeepsOrder(segs: seq<Seg>, p: nat, k: nat)
    requires Move(segs, p).Some? && Move(segs, k).Some?
    ensures k < p <==> Move(segs, k).value < Move(segs, p).value
  {
    var a := |Before(segs[0])|;
    if p >= a && k >= a {
      MoveKeepsOrder(segs[1..], p - a, k - a);
    }
  }

  /** A separator other than the newline is never put in by a pass. */
  lemma {:induction false} OtherWasThere(segs: seq<Seg>, q: nat) returns (p: nat)
    requires Balanced(segs) && q < |Target(segs)| && Other(Target(segs)[q])
    ensures p < |Source(segs)| && Move(segs, p) == Some(q)
  {
    var a, b := Before(segs[0]), Behind(segs[0]);
    if q < |b| {
      NoOthers(b);
      p := q;
    } else {
      var r := OtherWasThere(segs[1..], q - |b|);
      p := |a| + r;
    }
  }

  /** Every separator other than the newline above the character is kept. */
  ghost predicate OthersMove(segs: seq<Seg>, p: nat)
    requires p <= |Source(segs)|
  {
    forall k :: 0 <= k < p && Other(Source(segs)[k]) ==> Move(segs, k).Some?
  }

  lemma SourceHead(segs: seq<Seg>, k: nat)
    requires segs != [] && k < |Before(segs[0])|
    ensures k < |Source(segs)| && Source(segs)[k] == Before(segs[0])[k]
    ensures Move(segs, k).Some? <==> segs[0].Kept?
  {
  }

  lemma SourceTail(segs: seq<Seg>, k: nat)
    requires segs != [] && |Before(segs[0])| <= k < |Source(segs)|
    ensures var a := |Before(segs[0])|;
            && Source(segs)[k] == Source(segs[1..])[k - a]
            && (Move(segs, k).Some? <==> Move(segs[1..], k - a).Some?)
  {
  }

  lemma OthersMoveTail(segs: seq<Seg>, p: nat)
    requires segs != [] && |Before(segs[0])| <= p <= |Source(segs)|
    ensures OthersMove(segs, p) ==> (segs[0].Kept? || Others(Before(segs[0])) == 0)
                                    && OthersMove(segs[1..], p - |Before(segs[0])|)
  {
    var a, rest := Before(segs[0]), segs[1..];
    NoOthers(a);
    if OthersMove(segs, p) {
      forall k | 0 <= k < |a| ensures segs[0].Kept? || !Other(a[k]) {
        SourceHead(segs, k);
      }
      forall k | 0 <= k < p - |a| && Other(Source(rest)[k]) ensures Move(rest, k).Some? {
        SourceTail(segs, |a| + k);
      }
    }
  }

  lemma OthersMovePush(segs: seq<Seg>, p: nat)
    requires segs != [] && |Before(segs[0])| <= p <= |Source(segs)|
    requires (segs[0].Kept? || Others(Before(segs[0])) == 0) && OthersMove(segs[1..], p - |Before(segs[0])|)
    ensures OthersMove(segs, p)
  {
    var a, rest := Before(segs[0]), segs[1..];
    NoOthers(a);
    forall k | 0 <= k < p && Other(Source(segs)[k]) ensures Move(segs, k).Some? {
      if k < |a| {
        SourceHead(segs, k);
      } else {
        SourceTail(segs, k);
      }
    }
  }

  /** How many of them stand above p in the source, and above where p goes in the target. */
  ghost function OthersBefore(segs: seq<Seg>, p: nat): nat
    requires p <= |Source(segs)|
  {
    Others(Source(segs)[..p])
  }

  ghost function OthersBehind(segs: seq<Seg>, q: nat): nat
    requires q <= |Target(segs)|
  {
    Others(Target(segs)[..q])
  }

  lemma OthersPastFirst(segs: seq<Seg>, p: nat, q: nat)
    requires segs != [] && p < |Source(segs[1..])| && q < |Target(segs[1..])|
    ensures OthersBefore(segs, |Before(segs[0])| + p) == Others(Before(segs[0])) + OthersBefore(segs[1..], p)
    ensures OthersBehind(segs, |Behind(segs[0])| + q) == Others(Behind(segs[0])) + OthersBehind(segs[1..], q)
  {
    OthersAbove(Before(segs[0]), Source(segs[1..]), p);
    OthersAbove(Behind(segs[0]), Target(segs[1..]), q);
  }

  lemma OthersInFirst(segs: seq<Seg>, p: nat)
    requires segs != [] && segs[0].Kept? && p < |Before(segs[0])|
    ensures OthersBefore(segs, p) == OthersBehind(segs, p) && OthersMove(segs, p)
  {
    assert Source(segs)[..p] == Before(segs[0])[..p] == Target(segs)[..p];
  }

  /** Above a kept character separators can only get fewer, and do so exactly when one is replaced. */
  lemma {:induction false} MoveLosesOthers(segs: seq<Seg>, p: nat)
    requires Balanced(segs) && Move(segs, p).Some? && p < |Source(segs)| && Move(segs, p).value < |Target(segs)|
    ensures OthersBehind(segs, Move(segs, p).value) <= OthersBefore(segs, p)
    ensures OthersBehind(segs, Move(segs, p).value) == OthersBefore(segs, p) <==> OthersMove(segs, p)
  {
    var a, rest := |Before(segs[0])|, segs[1..];
    if p < a {
      OthersInFirst(segs, p);
    } else {
      MoveLosesOthers(rest, p - a);
      OthersPastFirst(segs, p - a, Move(rest, p - a).value);
      OthersMoveTail(segs, p);
      if (segs[0].Kept? || Others(Before(segs[0])) == 0) && OthersMove(rest, p - a) {
        OthersMovePush(segs, p);
      }
    }
  }

  /** Every separator other than the newline above the character survives too. */
  ghost predicate OthersFollow(chain: seq<seq<Seg>>, s: string, p: nat)
    requires p <= |s|
  {
    forall k :: 0 <= k < p && Other(s[k]) ==> Follow(chain, k).Some?
  }

  lemma OthersFollowStep(chain: seq<seq<Seg>>, s: string, p: nat, r: nat)
    requires Linked(chain, s) && chain != [] && p < |s| && Move(chain[0], p) == Some(r) && r < |Target(chain[0])|
    ensures OthersFollow(chain, s, p) <==> OthersMove(chain[0], p) && OthersFollow(chain[1..], Target(chain[0]), r)
  {
    var first, rest, t := chain[0], chain[1..], Target(chain[0]);
    if OthersFollow(chain, s, p) {
      forall k | 0 <= k < r && Other(t[k]) ensures Follow(rest, k).Some? {
        var j := OtherWasThere(first, k);
        MoveKeepsOrder(first, p, j);
        MoveKeepsLine(first, j);
      }
    }
    if OthersMove(first, p) && OthersFollow(rest, t, r) {
      forall k | 0 <= k < p && Other(s[k]) ensures Follow(chain, k).Some? {
        MoveKeepsOrder(first, p, k);
        MoveKeepsLine(first, k);
      }
    }
  }

  lemma {:induction false} FollowLosesOthers(chain: seq<seq<Seg>>, s: string, p: nat)
    requires Linked(chain, s) && Follow(chain, p).Some? && p < |s| && Follow(chain, p).value < |Outcome(chain, s)|
    ensures Others(Outcome(chain, s)[..Follow(chain, p).value]) <= Others(s[..p])
    ensures Others(Outcome(chain, s)[..Follow(chain, p).value]) == Others(s[..p]) <==> OthersFollow(chain, s, p)
    decreases |chain|
  {
    if chain != [] {
      var r := Move(chain[0], p).value;
      MoveKeepsLine(chain[0], p);
      MoveLosesOthers(chain[0], p);
      FollowLosesOthers(chain[1..], Target(chain[0]), r);
      OthersFollowStep(chain, s, p, r);
    }
  }

  lemma {:induction false} FollowKeepsOrder(chain: seq<seq<Seg>>, p: nat, k: nat)
    requires Follow(chain, p).Some? && Follow(chain, k).Some?
    ensures k < p <==> Follow(chain, k).value < Follow(chain, p).value
    decreases |chain|
  {
    if chain != [] {
      MoveKeepsOrder(chain[0], p, k);
      FollowKeepsOrder(chain[1..], Move(chain[0], p).value, Move(chain[0], k).value);
    }
  }

  lemma {:induction false} OtherWasThereFirst(chain: seq<seq<Seg>>, s: string, q: nat) returns (p: nat)
    requires Linked(chain, s) && q < |Outcome(chain, s)| && Other(Outcome(chain, s)[q])
    ensures p < |s| && Follow(chain, p) == Some(q)
    decreases |chain|
  {
    if chain == [] {
      p := q;
    } else {
      var r := OtherWasThereFirst(chain[1..], Target(chain[0]), q);
      SurvivorKeepsLine(chain[1..], Target(chain[0]), r);
      p := OtherWasThere(chain[0], r);
    }
  }
}
