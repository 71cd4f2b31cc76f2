/** The reference shell: it keeps the full list of lines and no buffers, and every answer of the
    real one is stated against it. */
module ShellSession {
  import opened Options
  import opened CString
  import opened Integers

  /** HISTORY_SLOTS, sizeof(last_command) and MAX_ARGS. */
  datatype Config = Config(slots: nat, size: nat, maxArgs: nat)

  predicate ValidConfig(c: Config) {
    c.slots >= 1 && c.size >= 1 && c.maxArgs >= 1
  }

  /** What getline delivers. */
  datatype Event = Typed(bytes: seq<char>) | Eof | ReadError

  /** What the user sees, with a command handed to fork and exec as one opaque step. */
  datatype Output = Stdout(text: string) | Stderr(text: string) | Exec(argv: seq<string>)

  const PROMPT := Stdout("c-sec> ")

  /** The line a read leaves in the buffer: without its newline, and up to the first NUL. */
  function LineOf(bytes: seq<char>): (line: string)
    ensures NoNul(line)
  {
    var n := if bytes != [] && bytes[|bytes| - 1] == '\n' then |bytes| - 1 else |bytes|;
    CStr(bytes[..n] + [NUL], 0)
  }

  /** The latest of the first n lines whose number falls on slot s. */
  function Latest(n: nat, slots: nat, s: nat): (j: Option<nat>)
    requires slots >= 1
    ensures j.Some? ==> j.value < n && j.value % slots == s
  {
    if n == 0 then None
    else if (n - 1) % slots == s then Some(n - 1)
    else Latest(n - 1, slots, s)
  }

  function Prefix(s: string, k: nat): string {
    if |s| <= k then s else s[..k]
  }

  /** What `history` shows: the line before the current one, cut to the size of its buffer. */
  function LastCommand(cmds: seq<string>, size: nat): string
    requires size >= 1
  {
    if |cmds| < 2 then "" else Prefix(cmds[|cmds| - 2], size - 1)
  }

  function Recalled(cmds: seq<string>, slots: nat, slot: int): string
    requires slots >= 1
  {
    if slot < 0 || slot >= slots then "recall: slot out of range\n"
    else
      match Latest(|cmds|, slots, slot)
      case None => "recall: empty slot\n"
      case Some(j) => cmds[j] + "\n"
  }

  /** What a line does once recorded, and whether the shell goes on. */
  function Perform(c: Config, cmds: seq<string>, words: seq<string>): (seq<Output>, bool)
    requires ValidConfig(c)
  {
    if |words| > c.maxArgs - 1 then ([Stdout("too many arguments\n")], true)
    else if words == [] then ([], true)
    else if words[0] == "exit" then ([], false)
    else if words[0] == "history" then ([Stdout(LastCommand(cmds, c.size) + "\n")], true)
    else if words[0] == "recall" then
      if |words| == 1 then ([Stdout(Recalled(cmds, c.slots, 0))], true)
      else
        match ReadInt(words[1])
        case None => ([Stdout("recall: slot must be a number\n")], true)
        case Some(v) => ([Stdout(Recalled(cmds, c.slots, v))], true)
    else ([Exec(words)], true)
  }

  datatype Ending = Ending(out: seq<Output>, status: int, cmds: seq<string>)

  /** A whole session after `cmds` lines. Input that runs out counts as end of file. */
  function Session(c: Config, cmds: seq<string>, events: seq<Event>): Ending
    requires ValidConfig(c)
    decreases |events|
  {
    if events == [] || events[0].Eof? then
      Ending([PROMPT, Stdout("\nExiting...\n")], 0, cmds)
    else if events[0].ReadError? then
      Ending([PROMPT, Stderr("getline failed"), Stdout("\nExiting...\n")], 1, cmds)
    else
      var line := LineOf(events[0].bytes);
      if line == "" then After([PROMPT], Session(c, cmds, events[1..]))
      else
        var (out, running) := Perform(c, cmds + [line], Words(line));
        if running then After([PROMPT] + out, Session(c, cmds + [line], events[1..]))
        else Ending([PROMPT] + out, 0, cmds + [line])
  }

  function After(out: seq<Output>, e: Ending): Ending {
    e.(out := out + e.out)
  }

  lemma AfterAfter(a: seq<Output>, b: seq<Output>, e: Ending)
    ensures After(a, After(b, e)) == After(a + b, e)
  {
    assert a + (b + e.out) == a + b + e.out;
  }

  /** The end of the session, told from what has been printed before it. */
  lemma SessionEnds(c: Config, out: seq<Output>, cmds: seq<string>, events: seq<Event>, k: nat)
    requires ValidConfig(c) && k <= |events|
    requires k == |events| || !events[k].Typed?
    ensures var failed := k < |events| && events[k].ReadError?;
      After(out, Session(c, cmds, events[k..]))
      == Ending(out + [PROMPT] + (if failed then [Stderr("getline failed")] else []) + [Stdout("\nExiting...\n")],
                if failed then 1 else 0, cmds)
  {
  }

  /** One typed line, told from what has been printed before it. */
  lemma SessionReads(c: Config, out: seq<Output>, cmds: seq<string>, events: seq<Event>, k: nat)
    requires ValidConfig(c) && k < |events| && events[k].Typed?
    ensures var line, now := LineOf(events[k].bytes), After(out, Session(c, cmds, events[k..]));
      if line == "" then now == After(out + [PROMPT], Session(c, cmds, events[k + 1..]))
      else
        var (said, running) := Perform(c, cmds + [line], Words(line));
        now == if running then After(out + [PROMPT] + said, Session(c, cmds + [line], events[k + 1..]))
               else Ending(out + [PROMPT] + said, 0, cmds + [line])
  {
    var line := LineOf(events[k].bytes);
    assert events[k..][0] == events[k] && events[k..][1..] == events[k + 1..];
    var (said, running) := Perform(c, cmds + [line], Words(line));
    AfterAfter(out, [PROMPT], Session(c, cmds, events[k + 1..]));
    AfterAfter(out, [PROMPT] + said, Session(c, cmds + [line], events[k + 1..]));
    assert out + ([PROMPT] + said) == out + [PROMPT] + said;
  }

  /** Slot s holds the newest line of its number: no later line falls on it. */
  lemma {:induction false} LatestIsNewest(n: nat, slots: nat, s: nat)
    requires slots >= 1
    ensures match Latest(n, slots, s)
            case None => forall i: nat :: i < n ==> i % slots != s
            case Some(j) => forall i: nat :: j < i < n ==> i % slots != s
  {
    if n > 0 {
      LatestIsNewest(n - 1, slots, s);
    }
  }
}
