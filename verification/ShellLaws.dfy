/** What the reference shell does, told from the lines typed and not from its definition. */
module ShellLaws {
  import opened Options
  import opened CString
  import opened Integers
  import opened ShellSession

  // ---------------------------------------------------------------- the line that was read

  lemma StrEndOfLine(text: string, rest: seq<char>)
    requires NoNul(text)
    ensures CStr(text + [NUL] + rest, 0) == text
  {
    var b := text + [NUL] + rest;
    assert b[|text|] == NUL && forall k :: 0 <= k < |text| ==> b[k] == text[k];
    assert StrEnd(b, 0) == |text|;
    assert b[0..|text|] == text;
  }

  /** A line is read without its newline, or as it is when the input ends without one. */
  lemma LineWithoutNewline(text: string)
    requires NoNul(text)
    ensures LineOf(text + "\n") == text
    ensures (text == "" || text[|text| - 1] != '\n') ==> LineOf(text) == text
  {
    assert (text + "\n")[..|text|] == text && text[..|text|] == text;
    assert text + [NUL] + [] == text + [NUL];
    StrEndOfLine(text, []);
  }

  /** What follows a NUL is not seen. */
  lemma LineEndsAtNul(text: string, rest: seq<char>)
    requires NoNul(text)
    ensures LineOf(text + [NUL] + rest) == text
  {
    var bytes := text + [NUL] + rest;
    var n := if bytes[|bytes| - 1] == '\n' then |bytes| - 1 else |bytes|;
    assert bytes[..n] + [NUL] == text + [NUL] + (bytes[..n] + [NUL])[|text| + 1..];
    StrEndOfLine(text, (bytes[..n] + [NUL])[|text| + 1..]);
  }

  // ---------------------------------------------------------------- what history and recall say

  /** The cut keeps as much of the line as fits. */
  lemma PrefixIsLongest(s: string, k: nat)
    ensures Prefix(s, k) <= s && |Prefix(s, k)| <= k
    ensures forall t :: t <= s && |t| <= k ==> |t| <= |Prefix(s, k)|
  {
  }

  /** `history` prints the longest prefix of the line before it that has at most size - 1 characters, and an
      empty line when it is the first. */
  lemma HistoryShows(c: Config, cmds: seq<string>, words: seq<string>)
    requires ValidConfig(c) && words != [] && words[0] == "history" && |words| <= c.maxArgs - 1
    ensures |cmds| < 2 ==> Perform(c, cmds, words) == ([Stdout("\n")], true)
    ensures |cmds| >= 2 ==>
              exists shown :: Perform(c, cmds, words) == ([Stdout(shown + "\n")], true)
                && shown <= cmds[|cmds| - 2] && |shown| <= c.size - 1
                && forall t :: t <= cmds[|cmds| - 2] && |t| <= c.size - 1 ==> |t| <= |shown|
  {
    if |cmds| >= 2 {
      PrefixIsLongest(cmds[|cmds| - 2], c.size - 1);
      assert LastCommand(cmds, c.size) == Prefix(cmds[|cmds| - 2], c.size - 1);
    } else {
      assert "" + "\n" == "\n";
    }
  }

  /** The line of a slot is the newest line whose number falls on it. */
  ghost predicate HoldsLine(n: nat, slots: nat, slot: int, j: nat)
    requires slots >= 1
  {
    j < n && j % slots == slot && forall i: nat :: j < i < n ==> i % slots != slot
  }

  lemma RecalledSays(cmds: seq<string>, slots: nat, slot: int)
    requires slots >= 1
    ensures !(0 <= slot < slots) ==> Recalled(cmds, slots, slot) == "recall: slot out of range\n"
    ensures (0 <= slot < slots && forall i: nat :: i < |cmds| ==> i % slots != slot) ==>
              Recalled(cmds, slots, slot) == "recall: empty slot\n"
    ensures forall j: nat :: HoldsLine(|cmds|, slots, slot, j) ==> Recalled(cmds, slots, slot) == cmds[j] + "\n"
  {
    if 0 <= slot < slots {
      LatestIsNewest(|cmds|, slots, slot);
    }
  }

  /** `recall` alone reads slot 0: it is `recall 0`. */
  lemma RecallAloneIsRecallZero(c: Config, cmds: seq<string>)
    requires ValidConfig(c) && c.maxArgs >= 3
    ensures Perform(c, cmds, ["recall"]) == Perform(c, cmds, ["recall", "0"])
  {
    ReadsBackEveryInt(0);
    assert PrintInt(0) == "0";
  }

  /** With an argument that is a number fitting an int, `recall` reads that slot, and with any other it
      says so; further arguments are not looked at. */
  lemma RecallReads(c: Config, cmds: seq<string>, words: seq<string>)
    requires ValidConfig(c) && 2 <= |words| <= c.maxArgs - 1 && words[0] == "recall"
    ensures forall v :: Denotes(words[1], v) && -2147483648 <= v <= 2147483647
              ==> Perform(c, cmds, words) == ([Stdout(Recalled(cmds, c.slots, v))], true)
    ensures (forall v :: Denotes(words[1], v) ==> !(-2147483648 <= v <= 2147483647))
              ==> Perform(c, cmds, words) == ([Stdout("recall: slot must be a number\n")], true)
  {
    forall v ensures Denotes(words[1], v) <==> WholeText(words[1]) && Number(words[1]) == v {
      WholeExactlyWhenDenotes(words[1], v);
    }
    if ReadInt(words[1]).Some? {
      assert Denotes(words[1], ReadInt(words[1]).value);
    }
  }

  /** The first line of a session recalls itself, without an argument or with slot 0. */
  lemma FirstRecallSaysItself(c: Config, line: string)
    requires ValidConfig(c) && c.maxArgs >= 3 && (Words(line) == ["recall"] || Words(line) == ["recall", "0"])
    ensures Perform(c, [line], Words(line)) == ([Stdout(line + "\n")], true)
  {
    RecallAloneIsRecallZero(c, [line]);
    assert HoldsLine(1, c.slots, 0, 0);
    RecalledSays([line], c.slots, 0);
  }

  // ---------------------------------------------------------------- the other commands

  /** More words than fit beside the null pointer are refused, whatever they are. */
  lemma TooManyAreRefused(c: Config, cmds: seq<string>, words: seq<string>)
    requires ValidConfig(c) && |words| >= c.maxArgs
    ensures Perform(c, cmds, words) == ([Stdout("too many arguments\n")], true)
  {
  }

  /** A blank line does nothing; only `exit` ends the session, and says nothing; every other word within the
      limit that is no builtin is executed with its arguments. */
  lemma OtherCommands(c: Config, cmds: seq<string>, words: seq<string>)
    requires ValidConfig(c) && |words| < c.maxArgs
    ensures words == [] ==> Perform(c, cmds, words) == ([], true)
    ensures !Perform(c, cmds, words).1 <==> words != [] && words[0] == "exit"
    ensures !Perform(c, cmds, words).1 ==> Perform(c, cmds, words).0 == []
    ensures (words != [] && words[0] !in {"exit", "history", "recall"}) ==>
              Perform(c, cmds, words) == ([Exec(words)], true)
  {
  }

  // ---------------------------------------------------------------- whole sessions

  predicate IsExit(c: Config, event: Event) {
    event.Typed? &&
    var words := Words(LineOf(event.bytes));
    words != [] && |words| < c.maxArgs && words[0] == "exit"
  }

  /** The event at which the session ends: an `exit`, the end of the input, or a read error. */
  function StopAt(c: Config, events: seq<Event>): (k: nat)
    ensures k <= |events|
    ensures forall i :: 0 <= i < k ==> events[i].Typed? && !IsExit(c, events[i])
    ensures k < |events| ==> !events[k].Typed? || IsExit(c, events[k])
  {
    if events == [] || !events[0].Typed? || IsExit(c, events[0]) then 0 else 1 + StopAt(c, events[1..])
  }

  /** The lines typed, without the empty ones. */
  function TypedLines(events: seq<Event>): seq<string> {
    if events == [] then []
    else
      (if events[0].Typed? && LineOf(events[0].bytes) != "" then [LineOf(events[0].bytes)] else [])
      + TypedLines(events[1..])
  }

  lemma StepPastLine(c: Config, cmds: seq<string>, events: seq<Event>)
    requires ValidConfig(c) && events != [] && events[0].Typed? && !IsExit(c, events[0])
    ensures var line := LineOf(events[0].bytes);
            Session(c, cmds, events) ==
              if line == "" then After([PROMPT], Session(c, cmds, events[1..]))
              else After([PROMPT] + Perform(c, cmds + [line], Words(line)).0, Session(c, cmds + [line], events[1..]))
  {
    var line := LineOf(events[0].bytes);
    if line != "" && |Words(line)| < c.maxArgs {
      OtherCommands(c, cmds + [line], Words(line));
    }
  }

  /** All that is printed when the input ends, or cannot be read, where a line is asked for. */
  lemma NothingMoreToRead(c: Config, cmds: seq<string>, events: seq<Event>)
    requires ValidConfig(c) && (events == [] || !events[0].Typed?)
    ensures Session(c, cmds, events) ==
              if events != [] && events[0].ReadError?
              then Ending([Stdout("c-sec> "), Stderr("getline failed"), Stdout("\nExiting...\n")], 1, cmds)
              else Ending([Stdout("c-sec> "), Stdout("\nExiting...\n")], 0, cmds)
  {
  }

  ghost predicate EndsWith(e: Ending, lines: seq<string>, status: int, exits: bool) {
    && e.cmds == lines && e.status == status
    && e.out != [] && e.out[|e.out| - 1] == if exits then Stdout("c-sec> ") else Stdout("\nExiting...\n")
  }

  /** Whether it is an `exit` that ends the session, and how many events it takes with it. */
  predicate Exits(c: Config, events: seq<Event>) {
    StopAt(c, events) < |events| && IsExit(c, events[StopAt(c, events)])
  }

  function Taken(c: Config, events: seq<Event>): (n: nat)
    ensures n <= |events|
  {
    if Exits(c, events) then StopAt(c, events) + 1 else StopAt(c, events)
  }

  function Status(c: Config, events: seq<Event>): int {
    if StopAt(c, events) < |events| && events[StopAt(c, events)].ReadError? then 1 else 0
  }

  /** How the session ends, and the lines recorded by then. */
  ghost predicate Stops(c: Config, cmds: seq<string>, events: seq<Event>)
    requires ValidConfig(c)
  {
    EndsWith(Session(c, cmds, events), cmds + TypedLines(events[..Taken(c, events)]), Status(c, events),
             Exits(c, events))
  }

  /** A session ends at its first `exit` with status 0 and no farewell; before any `exit`, at the end of the
      input with status 0, or at a read error with status 1, and with the farewell. What it recorded is the
      lines typed up to there. */
  lemma {:induction false} SessionStops(c: Config, cmds: seq<string>, events: seq<Event>)
    requires ValidConfig(c)
    ensures Stops(c, cmds, events)
    decreases |events|
  {
    if StopAt(c, events) == 0 {
      StopsAtOnce(c, cmds, events);
    } else {
      var line := LineOf(events[0].bytes);
      var cmds' := if line == "" then cmds else cmds + [line];
      SessionStops(c, cmds', events[1..]);
      StopsLater(c, cmds, cmds', events);
    }
  }

  lemma EndsAfter(out: seq<Output>, e: Ending, lines: seq<string>, status: int, exits: bool)
    requires EndsWith(e, lines, status, exits)
    ensures EndsWith(After(out, e), lines, status, exits)
  {
  }

  /** The same events, seen from the second on. */
  lemma SeenFromSecond(c: Config, events: seq<Event>)
    requires StopAt(c, events) > 0
    ensures var rest := events[1..];
            && Exits(c, events) == Exits(c, rest) && Status(c, events) == Status(c, rest)
            && Taken(c, events) == Taken(c, rest) + 1
            && events[..Taken(c, events)] == [events[0]] + rest[..Taken(c, rest)]
  {
    var k, rest := StopAt(c, events), events[1..];
    assert StopAt(c, rest) == k - 1 && (k < |events| ==> events[k] == rest[k - 1]);
  }

  lemma StopsLater(c: Config, cmds: seq<string>, cmds': seq<string>, events: seq<Event>)
    requires ValidConfig(c) && StopAt(c, events) > 0 && Stops(c, cmds', events[1..])
    requires cmds' == if LineOf(events[0].bytes) == "" then cmds else cmds + [LineOf(events[0].bytes)]
    ensures Stops(c, cmds, events)
  {
    var rest, line := events[1..], LineOf(events[0].bytes);
    var lines := cmds' + TypedLines(rest[..Taken(c, rest)]);
    var out := [PROMPT] + if line == "" then [] else Perform(c, cmds + [line], Words(line)).0;
    StepPastLine(c, cmds, events);
    assert [PROMPT] + [] == [PROMPT];
    EndsAfter(out, Session(c, cmds', rest), lines, Status(c, rest), Exits(c, rest));
    SeenFromSecond(c, events);
    TypedFirst(events[0], rest[..Taken(c, rest)], cmds);
  }

  lemma TypedFirst(event: Event, rest: seq<Event>, cmds: seq<string>)
    requires event.Typed?
    ensures var line := LineOf(event.bytes);
            cmds + TypedLines([event] + rest) == (if line == "" then cmds else cmds + [line]) + TypedLines(rest)
  {
    assert ([event] + rest)[1..] == rest;
  }

  lemma StopsAtOnce(c: Config, cmds: seq<string>, events: seq<Event>)
    requires ValidConfig(c) && StopAt(c, events) == 0
    ensures Stops(c, cmds, events)
  {
    assert events[..0] == [] && cmds + [] == cmds;
    if events != [] && IsExit(c, events[0]) {
      var line := LineOf(events[0].bytes);
      assert line != "";
      OtherCommands(c, cmds + [line], Words(line));
      assert events[..1] == [events[0]] && [events[0]][1..] == [];
      assert TypedLines([events[0]]) == [line];
    }
  }
}
