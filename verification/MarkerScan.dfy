/** The backward scan that finds the comment marker governing a line, against two forward meanings:
    running sums, and a stack of open blocks. */
module MarkerScan {
  import opened Options

  /** A source line as the scan sees it: its text outside comments, stripped of surrounding blanks,
      and the marker word its comments carry, if any. */
  datatype Line = Line(code: string, marker: Option<string>)

  function Count(s: string, c: char): nat {
    if s == "" then 0 else Count(s[..|s| - 1], c) + if s[|s| - 1] == c then 1 else 0
  }

  /** Closing braces minus opening braces. */
  function Net(line: Line): int {
    Count(line.code, '}') - Count(line.code, '{')
  }

  /** A marker on a line of its own. */
  predicate Standalone(line: Line) {
    line.marker.Some? && line.code == ""
  }

  function Max(a: int, b: int): int {
    if a > b then a else b
  }

  // ---------------------------------------------------------------- the scan

  /** The line of the marker found by scanning up from line k (exclusive) to lo, entering at `depth`. */
  function Scan(lines: seq<Line>, lo: nat, k: nat, depth: nat): Option<nat>
    requires lo <= k <= |lines|
    decreases k
  {
    if k == lo then None
    else if Standalone(lines[k - 1]) && depth == 0 then Some(k - 1)
    else Scan(lines, lo, k - 1, Max(0, depth + Net(lines[k - 1])))
  }

  /** The nearest marker governing line idx: the loop of the source. */
  method MarkerAbove(lines: seq<Line>, idx: nat, lo: nat) returns (marker: Option<string>, at: Option<nat>)
    requires lo <= idx <= |lines|
    ensures at == Scan(lines, lo, idx, 0)
    ensures at == TopMarker(Blocks(lines, lo, idx))
    ensures at.None? ==> marker.None? && forall k :: lo <= k < idx ==> !Governs(lines, k, idx)
    ensures at.Some? ==> lo <= at.value < idx && marker == lines[at.value].marker && Governs(lines, at.value, idx)
                         && forall k :: at.value < k < idx ==> !Governs(lines, k, idx)
  {
    ScanMeans(lines, lo, idx);
    var depth: nat := 0;
    var k := idx;
    while k > lo
      invariant lo <= k <= idx
      invariant Scan(lines, lo, k, depth) == Scan(lines, lo, idx, 0)
    {
      k := k - 1;
      if Standalone(lines[k]) && depth == 0 {
        return lines[k].marker, Some(k);
      }
      depth := Max(0, depth + Net(lines[k]));
    }
    return None, None;
  }

  // ---------------------------------------------------------------- meaning by running sums

  /** Closes minus opens over lines from..to-1. */
  function Sum(lines: seq<Line>, from: nat, to: nat): int
    requires from <= to <= |lines|
  {
    if from == to then 0 else Sum(lines, from, to - 1) + Net(lines[to - 1])
  }

  /** No stretch of lines starting at `from` and ending before idx closes more blocks than it opens. */
  ghost predicate Visible(lines: seq<Line>, from: nat, idx: nat)
    requires from <= idx <= |lines|
  {
    forall m :: from <= m <= idx ==> Sum(lines, from, m) <= 0
  }

  /** Line k holds a standalone marker whose block is still open at line idx. */
  ghost predicate Governs(lines: seq<Line>, k: nat, idx: nat)
    requires k < idx <= |lines|
  {
    Standalone(lines[k]) && Visible(lines, k + 1, idx)
  }

  /** The depth the scan has when it reaches line k, having started at line idx. */
  function Depth(lines: seq<Line>, k: nat, idx: nat): nat
    requires k <= idx <= |lines|
    decreases idx - k
  {
    if k == idx then 0 else Max(0, Depth(lines, k + 1, idx) + Net(lines[k]))
  }

  lemma {:induction false} SumFront(lines: seq<Line>, from: nat, to: nat)
    requires from < to <= |lines|
    ensures Sum(lines, from, to) == Net(lines[from]) + Sum(lines, from + 1, to)
  {
    if from + 1 < to {
      SumFront(lines, from, to - 1);
    }
  }

  /** The clamped backward depth is the largest forward partial sum. */
  lemma {:induction false} DepthIsLargestSum(lines: seq<Line>, k: nat, idx: nat)
    requires k <= idx <= |lines|
    ensures forall m :: k <= m <= idx ==> Sum(lines, k, m) <= Depth(lines, k, idx)
    ensures exists m :: k <= m <= idx && Sum(lines, k, m) == Depth(lines, k, idx)
    decreases idx - k
  {
    if k == idx {
      assert Sum(lines, k, k) == 0;
    } else {
      DepthIsLargestSum(lines, k + 1, idx);
      var m0 :| k + 1 <= m0 <= idx && Sum(lines, k + 1, m0) == Depth(lines, k + 1, idx);
      forall m | k < m <= idx ensures Sum(lines, k, m) == Net(lines[k]) + Sum(lines, k + 1, m) {
        SumFront(lines, k, m);
      }
      assert Sum(lines, k, k) == 0;
      if Depth(lines, k, idx) == 0 {
        assert Sum(lines, k, k) == Depth(lines, k, idx);
      } else {
        assert Sum(lines, k, m0) == Depth(lines, k, idx);
      }
    }
  }

  /** From line k on, the scan returns the last governing line below k. */
  lemma {:induction false} ScanFindsLastGoverning(lines: seq<Line>, lo: nat, k: nat, idx: nat, depth: nat)
    requires lo <= k <= idx <= |lines| && depth == Depth(lines, k, idx)
    ensures var at := Scan(lines, lo, k, depth);
            && (at.None? ==> forall j :: lo <= j < k ==> !Governs(lines, j, idx))
            && (at.Some? ==> lo <= at.value < k && Governs(lines, at.value, idx)
                             && forall j :: at.value < j < k ==> !Governs(lines, j, idx))
    decreases k
  {
    if k > lo {
      DepthIsLargestSum(lines, k, idx);
      assert Visible(lines, k, idx) <==> depth == 0;
      if !(Standalone(lines[k - 1]) && depth == 0) {
        ScanFindsLastGoverning(lines, lo, k - 1, idx, Max(0, depth + Net(lines[k - 1])));
      }
    }
  }

  // ---------------------------------------------------------------- meaning by a stack of blocks

  /** One entry per open block, the innermost last: the latest marker of that block. Never empty:
      the first entry is the text around the outermost block. */
  type Stack = seq<Option<nat>>

  /** Leaves n blocks. Leaving more than are open forgets everything. */
  function Close(s: Stack, n: nat): (t: Stack)
    ensures t != []
  {
    if n < |s| then s[..|s| - n] else [None]
  }

  function Opened(s: Stack, n: nat): Stack {
    s + seq(n, i => None)
  }

  /** The block changes of a line counted net, as the scan counts them. */
  function NetStep(s: Stack, line: Line): Stack {
    if Net(line) >= 0 then Close(s, Net(line)) else Opened(s, -Net(line))
  }

  /** The forward pass over lines lo..k-1: a standalone marker replaces the entry of its own block. */
  function Blocks(lines: seq<Line>, lo: nat, k: nat): (s: Stack)
    requires lo <= k <= |lines|
    ensures s != []
    decreases k
  {
    if k == lo then [None]
    else
      var s := Blocks(lines, lo, k - 1);
      if Standalone(lines[k - 1]) then s[|s| - 1 := Some(k - 1)] else NetStep(s, lines[k - 1])
  }

  /** The marker of the innermost block that has one. */
  function TopMarker(s: Stack): Option<nat> {
    if s == [] then None
    else if s[|s| - 1].Some? then s[|s| - 1]
    else TopMarker(s[..|s| - 1])
  }

  lemma DropNone(s: Stack)
    requires s != []
    ensures Close(s, 0) == s
  {
    assert s[..|s|] == s;
  }

  lemma {:induction false} TopThroughOpened(s: Stack, n: nat)
    ensures TopMarker(Opened(s, n)) == TopMarker(s)
  {
    if n == 0 {
      assert Opened(s, 0) == s;
    } else {
      var t := Opened(s, n);
      assert t[..|t| - 1] == Opened(s, n - 1);
      TopThroughOpened(s, n - 1);
    }
  }

  lemma CloseClose(s: Stack, m: nat, n: nat)
    requires s != []
    ensures Close(Close(s, m), n) == Close(s, m + n)
  {
    if m + n < |s| {
      assert s[..|s| - m][..|s| - m - n] == s[..|s| - m - n];
    }
  }

  lemma CloseOpened(s: Stack, m: nat, n: nat)
    requires s != []
    ensures n >= m ==> Close(Opened(s, m), n) == Close(s, n - m)
    ensures n < m ==> Close(Opened(s, m), n) == Opened(s, m - n)
  {
    var t := Opened(s, m);
    if n >= m && n < |t| {
      assert t[..|t| - n] == s[..|s| - (n - m)];
    } else if n < m {
      assert t[..|t| - n] == Opened(s, m - n);
    }
  }

  lemma StandaloneIsLevel(line: Line)
    requires Standalone(line)
    ensures Net(line) == 0
  {
  }

  /** What one line does to the forward stack, told from what one step up does to the depth. */
  lemma StepIsDepth(s: Stack, line: Line, d: nat)
    requires s != []
    ensures TopMarker(Close(NetStep(s, line), d)) == TopMarker(Close(s, Max(0, d + Net(line))))
  {
    var net := Net(line);
    if net >= 0 {
      CloseClose(s, net, d);
    } else {
      CloseOpened(s, -net, d);
      if d < -net {
        TopThroughOpened(s, -net - d);
        DropNone(s);
      }
    }
  }

  lemma MarkerIsTop(s: Stack, j: nat, d: nat)
    requires s != []
    ensures var t := s[|s| - 1 := Some(j)];
            TopMarker(Close(t, d)) == if d == 0 then Some(j) else TopMarker(Close(s, d))
  {
    var t := s[|s| - 1 := Some(j)];
    if d == 0 {
      DropNone(t);
    } else if d < |s| {
      assert t[..|s| - d] == s[..|s| - d];
    }
  }

  lemma NothingAtTheStart(d: nat)
    ensures TopMarker(Close([None], d)) == None
  {
    DropNone([None]);
  }

  ghost predicate Agrees(lines: seq<Line>, lo: nat, k: nat, d: nat)
    requires lo <= k <= |lines|
  {
    Scan(lines, lo, k, d) == TopMarker(Close(Blocks(lines, lo, k), d))
  }

  /** Scanning up from k at depth d answers what the forward stack answers after leaving d blocks. */
  lemma {:induction false} ScanIsTopOfStack(lines: seq<Line>, lo: nat, k: nat, d: nat)
    requires lo <= k <= |lines|
    ensures Agrees(lines, lo, k, d)
    decreases k
  {
    if k == lo {
      NothingAtTheStart(d);
    } else if Standalone(lines[k - 1]) {
      ScanIsTopOfStack(lines, lo, k - 1, d);
      MarkerStep(lines, lo, k, d);
    } else {
      ScanIsTopOfStack(lines, lo, k - 1, Max(0, d + Net(lines[k - 1])));
      LineStep(lines, lo, k, d);
    }
  }

  lemma LineStep(lines: seq<Line>, lo: nat, k: nat, d: nat)
    requires lo < k <= |lines| && !Standalone(lines[k - 1])
    requires Agrees(lines, lo, k - 1, Max(0, d + Net(lines[k - 1])))
    ensures Agrees(lines, lo, k, d)
  {
    StepIsDepth(Blocks(lines, lo, k - 1), lines[k - 1], d);
  }

  lemma MarkerStep(lines: seq<Line>, lo: nat, k: nat, d: nat)
    requires lo < k <= |lines| && Standalone(lines[k - 1]) && Agrees(lines, lo, k - 1, d)
    ensures Agrees(lines, lo, k, d)
  {
    StandaloneIsLevel(lines[k - 1]);
    MarkerIsTop(Blocks(lines, lo, k - 1), k - 1, d);
  }

  /** The scan of the whole range, in both meanings. */
  lemma ScanMeans(lines: seq<Line>, lo: nat, idx: nat)
    requires lo <= idx <= |lines|
    ensures var at := Scan(lines, lo, idx, 0);
            && at == TopMarker(Blocks(lines, lo, idx))
            && (at.None? ==> forall j :: lo <= j < idx ==> !Governs(lines, j, idx))
            && (at.Some? ==> lo <= at.value < idx && Governs(lines, at.value, idx)
                             && forall j :: at.value < j < idx ==> !Governs(lines, j, idx))
  {
    ScanFindsLastGoverning(lines, lo, idx, idx, 0);
    ScanIsTopOfStack(lines, lo, idx, 0);
    DropNone(Blocks(lines, lo, idx));
  }

  // ---------------------------------------------------------------- meaning brace by brace

  /** The block changes of a line, one brace at a time: what the block structure really is. */
  function Walk(s: Stack, code: string): (t: Stack)
    requires s != []
    ensures t != []
  {
    if code == "" then s
    else
      var t := Walk(s, code[..|code| - 1]);
      match code[|code| - 1]
      case '{' => Opened(t, 1)
      case '}' => Close(t, 1)
      case _ => t
  }

  /** The forward pass that follows every brace. */
  function TrueBlocks(lines: seq<Line>, lo: nat, k: nat): (s: Stack)
    requires lo <= k <= |lines|
    ensures s != []
    decreases k
  {
    if k == lo then [None]
    else
      var s := TrueBlocks(lines, lo, k - 1);
      if Standalone(lines[k - 1]) then s[|s| - 1 := Some(k - 1)] else Walk(s, lines[k - 1].code)
  }

  /** How many blocks open before the text it closes, and how many of its own it leaves open. */
  function Shape(code: string): (nat, nat) {
    if code == "" then (0, 0)
    else
      var (closed, entered) := Shape(code[..|code| - 1]);
      match code[|code| - 1]
      case '{' => (closed, entered + 1)
      case '}' => if entered > 0 then (closed, entered - 1) else (closed + 1, 0)
      case _ => (closed, entered)
  }

  /** The line leaves one block and enters another, like "} else {". */
  predicate Crossing(line: Line) {
    Shape(line.code).0 > 0 && Shape(line.code).1 > 0
  }

  lemma {:induction false} ShapeIsNet(code: string)
    ensures Shape(code).0 - Shape(code).1 == Count(code, '}') - Count(code, '{')
  {
    if code != "" {
      ShapeIsNet(code[..|code| - 1]);
    }
  }

  lemma OpenedOpened(s: Stack, m: nat)
    ensures Opened(Opened(s, m), 1) == Opened(s, m + 1)
  {
  }

  /** Following a line's braces closes what its shape closes, then opens what its shape opens. */
  lemma {:induction false} WalkIsShape(s: Stack, code: string)
    requires s != []
    ensures Walk(s, code) == Opened(Close(s, Shape(code).0), Shape(code).1)
  {
    if code == "" {
      DropNone(s);
      assert Opened(s, 0) == s;
    } else {
      var rest := code[..|code| - 1];
      WalkIsShape(s, rest);
      var (closed, entered) := Shape(rest);
      OpenedOpened(Close(s, closed), entered);
      CloseOpened(Close(s, closed), entered, 1);
      CloseClose(s, closed, 1);
      assert Opened(Close(s, closed + 1), 0) == Close(s, closed + 1);
    }
  }

  lemma LevelLineAgrees(s: Stack, line: Line)
    requires s != [] && !Crossing(line)
    ensures NetStep(s, line) == Walk(s, line.code)
  {
    var (closed, entered) := Shape(line.code);
    ShapeIsNet(line.code);
    WalkIsShape(s, line.code);
    if entered == 0 {
      assert Opened(Close(s, closed), 0) == Close(s, closed);
    } else {
      DropNone(s);
    }
  }

  /** Without crossing lines the scan answers by the true block structure. */
  lemma {:induction false} NetBlocksAreTrue(lines: seq<Line>, lo: nat, k: nat)
    requires lo <= k <= |lines|
    requires forall i :: lo <= i < k ==> !Crossing(lines[i])
    ensures Blocks(lines, lo, k) == TrueBlocks(lines, lo, k)
    decreases k
  {
    if k > lo {
      NetBlocksAreTrue(lines, lo, k - 1);
      LevelLineAgrees(Blocks(lines, lo, k - 1), lines[k - 1]);
    }
  }

  lemma ScanIsTrueWithoutCrossing(lines: seq<Line>, lo: nat, idx: nat)
    requires lo <= idx <= |lines|
    requires forall i :: lo <= i < idx ==> !Crossing(lines[i])
    ensures Scan(lines, lo, idx, 0) == TopMarker(TrueBlocks(lines, lo, idx))
  {
    ScanIsTopOfStack(lines, lo, idx, 0);
    DropNone(Blocks(lines, lo, idx));
    NetBlocksAreTrue(lines, lo, idx);
  }

  function Opens(n: nat): string {
    seq(n, i => '{')
  }

  lemma {:induction false} OpensShape(n: nat)
    ensures Shape(Opens(n)) == (0, n)
  {
    if n > 0 {
      assert Opens(n)[..n - 1] == Opens(n - 1);
      OpensShape(n - 1);
    }
  }

  /** A function that opens the blocks the line closes, then a marker, then what lets the net count
      come back to the marker's block at the line. */
  function MarkerThenLine(line: Line): seq<Line> {
    [Line(Opens(Shape(line.code).0), None), Line("", Some("FLAW")), Line(Opens(Max(0, Net(line))), None), line]
  }

  /** The marker in the innermost of the c blocks opened. */
  function Marked(c: nat): (s: Stack)
    ensures |s| == c + 1
  {
    Opened([None], c)[c := Some(1)]
  }

  lemma OpeningLine(s: Stack, n: nat)
    requires s != []
    ensures NetStep(s, Line(Opens(n), None)) == Opened(s, n) == Walk(s, Opens(n))
  {
    OpensShape(n);
    ShapeIsNet(Opens(n));
    WalkIsShape(s, Opens(n));
    DropNone(s);
    assert Opened(s, 0) == s;
  }

  lemma ThreeLinesIn(lines: seq<Line>, c: nat, n: nat)
    requires |lines| >= 3 && lines[0] == Line(Opens(c), None)
    requires lines[1] == Line("", Some("FLAW")) && lines[2] == Line(Opens(n), None)
    ensures Blocks(lines, 0, 3) == Opened(Marked(c), n) == TrueBlocks(lines, 0, 3)
  {
    OpeningLine([None], c);
    assert Blocks(lines, 0, 0) == [None] == TrueBlocks(lines, 0, 0);
    assert Blocks(lines, 0, 1) == Opened([None], c) == TrueBlocks(lines, 0, 1);
    assert Blocks(lines, 0, 2) == Marked(c) == TrueBlocks(lines, 0, 2);
    OpeningLine(Marked(c), n);
  }

  lemma MarkedTop(c: nat)
    ensures TopMarker(Marked(c)) == Some(1)
  {
  }

  lemma {:induction false} NoMarkerTop(s: Stack)
    requires forall i :: 0 <= i < |s| ==> s[i] == None
    ensures TopMarker(s) == None
  {
    if s != [] {
      NoMarkerTop(s[..|s| - 1]);
    }
  }

  /** Leaving c blocks from n < c blocks below the marker's leaves the marker's block. */
  lemma MarkerIsLeft(c: nat, n: nat, entered: nat)
    requires n < c
    ensures TopMarker(Opened(Close(Opened(Marked(c), n), c), entered)) == None
  {
    var t := Close(Opened(Marked(c), n), c);
    assert |t| == n + 1;
    assert t == Marked(c)[..n + 1];
    NoMarkerTop(t);
    TopThroughOpened(t, entered);
  }

  lemma NetComesBack(c: nat, line: Line)
    ensures TopMarker(NetStep(Opened(Marked(c), Max(0, Net(line))), line)) == Some(1)
  {
    var n, s := Max(0, Net(line)), Marked(c);
    MarkedTop(c);
    DropNone(s);
    if Net(line) >= 0 {
      CloseOpened(s, n, n);
    } else {
      assert Opened(s, 0) == s;
      TopThroughOpened(s, -Net(line));
    }
  }

  /** No line before it crosses or closes anything. */
  lemma OnlyOpenings(line: Line)
    ensures forall i :: 0 <= i < 3 ==> !Crossing(MarkerThenLine(line)[i]) && Shape(MarkerThenLine(line)[i].code).0 == 0
  {
    OpensShape(Max(0, Net(line)));
    OpensShape(Shape(line.code).0);
  }

  lemma LastLine(lines: seq<Line>, line: Line)
    requires |lines| == 4 && lines[3] == line && !Standalone(line)
    ensures Blocks(lines, 0, 4) == NetStep(Blocks(lines, 0, 3), line)
    ensures TrueBlocks(lines, 0, 4) == Walk(TrueBlocks(lines, 0, 3), line.code)
  {
  }

  lemma CrossingHasCode(line: Line)
    requires Crossing(line)
    ensures !Standalone(line) && Max(0, Net(line)) < Shape(line.code).0
  {
    ShapeIsNet(line.code);
  }

  /** Every crossing line misleads the scan somewhere, in a range that closes no block it has not
      opened: past the line, the scan still answers with a marker of a block that has been left. */
  lemma CrossingLineMisleads(line: Line)
    requires Crossing(line)
    ensures var lines := MarkerThenLine(line);
            && Scan(lines, 0, 4, 0) == Some(1)
            && TopMarker(TrueBlocks(lines, 0, 4)) == None
            && Shape(line.code).0 < |TrueBlocks(lines, 0, 3)|
            && forall i :: 0 <= i < 3 ==> !Crossing(lines[i]) && Shape(lines[i].code).0 == 0
  {
    var lines, n := MarkerThenLine(line), Max(0, Net(line));
    var (closed, entered) := Shape(line.code);
    var s := Opened(Marked(closed), n);
    CrossingHasCode(line);
    ThreeLinesIn(lines, closed, n);
    LastLine(lines, line);
    WalkIsShape(s, line.code);
    MarkerIsLeft(closed, n, entered);
    NetComesBack(closed, line);
    OnlyOpenings(line);
    ScanMeans(lines, 0, 4);
  }

  /** Counting braces net is exact for a line, whatever blocks are open, just when it is not crossing. */
  lemma NetIsExactWhenNotCrossing(line: Line)
    ensures (forall s: Stack :: s != [] ==> NetStep(s, line) == Walk(s, line.code)) <==> !Crossing(line)
  {
    if Crossing(line) {
      var (closed, entered) := Shape(line.code);
      var s := Opened(Marked(closed), Max(0, Net(line)));
      ShapeIsNet(line.code);
      WalkIsShape(s, line.code);
      MarkerIsLeft(closed, Max(0, Net(line)), entered);
      NetComesBack(closed, line);
      assert NetStep(s, line) != Walk(s, line.code);
    } else {
      forall s: Stack | s != [] ensures NetStep(s, line) == Walk(s, line.code) {
        LevelLineAgrees(s, line);
      }
    }
  }
}
