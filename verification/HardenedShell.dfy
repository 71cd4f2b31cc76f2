/** The hardened shell: fixed buffers, a ring of owned heap strings, and a read loop. */
module HardenedShell {
  import opened Options
  import opened CString
  import opened Tokenizer
  import opened Integers
  import opened ShellSession

  /** A char* that strdup returned, or null. A block is known by its allocation number. */
  datatype Ptr = Null | Block(id: nat)

  /** A heap block while it is owned, and the bytes it held when it was freed. */
  datatype HeapBlock = Live(bytes: seq<char>) | Freed(bytes: seq<char>)

  function Zeros(n: nat): seq<char> {
    seq(n, i => NUL)
  }

  /** What block j must be after the lines of `cmds`: live while its line is the latest of its slot,
      and wiped to the last byte once freed. */
  function BlockState(cmds: seq<string>, slots: nat, j: nat): HeapBlock
    requires slots >= 1 && j < |cmds|
  {
    if Latest(|cmds|, slots, j % slots) == Some(j) then Live(cmds[j] + [NUL])
    else Freed(Zeros(|cmds[j]| + 1))
  }

  ghost predicate HeapIs(heap: seq<HeapBlock>, cmds: seq<string>, slots: nat)
    requires slots >= 1
  {
    |heap| == |cmds| && forall j :: 0 <= j < |heap| ==> heap[j] == BlockState(cmds, slots, j)
  }

  function SlotPtr(n: nat, slots: nat, s: nat): Ptr
    requires slots >= 1
  {
    match Latest(n, slots, s)
    case None => Null
    case Some(j) => Block(j)
  }

  ghost predicate RingIs(history: seq<Ptr>, used: seq<int>, n: nat) {
    && |history| == |used| >= 1
    && forall s :: 0 <= s < |history| ==>
         history[s] == SlotPtr(n, |history|, s) && used[s] == if history[s].Null? then 0 else 1
  }

  /** The slot after that of line n is the slot of line n + 1. */
  lemma NextSlot(n: nat, slots: nat)
    requires slots >= 1
    ensures (n % slots + 1) % slots == (n + 1) % slots
  {
    var q, r := n / slots, n % slots;
    assert n == q * slots + r;
    if r + 1 < slots {
      Remainder(n + 1, slots, q, r + 1);
      Remainder(r + 1, slots, 0, r + 1);
    } else {
      assert n + 1 == (q + 1) * slots + 0;
      Remainder(n + 1, slots, q + 1, 0);
      Remainder(slots, slots, 1, 0);
    }
  }

  /** And the slot before it is the slot of line n - 1. */
  lemma PreviousSlot(n: nat, slots: nat)
    requires slots >= 1 && n >= 1
    ensures (n % slots + slots - 1) % slots == (n - 1) % slots
  {
    var m := n - 1;
    var q, r := m / slots, m % slots;
    assert m == q * slots + r;
    NextSlot(m, slots);
    if r + 1 < slots {
      Remainder(r + 1, slots, 0, r + 1);
      Remainder(r + 1 + slots - 1, slots, 1, r);
    } else {
      Remainder(slots, slots, 1, 0);
      Remainder(slots - 1, slots, 0, slots - 1);
    }
  }

  lemma Remainder(n: nat, slots: nat, q: int, r: nat)
    requires r < slots && n == q * slots + r
    ensures n % slots == r
  {
    var e := n / slots - q;
    assert e * slots == r - n % slots;
    assert e >= 1 ==> e * slots >= slots;
    assert -e >= 1 ==> -e * slots >= slots;
  }

  /** Freeing the block of the slot that comes next, and recording the new line there. */
  lemma RecordKeepsHeap(heap: seq<HeapBlock>, heap': seq<HeapBlock>, cmds: seq<string>, line: string, slots: nat)
    requires slots >= 1 && HeapIs(heap, cmds, slots) && |heap'| == |heap| + 1
    requires heap'[|heap|] == Live(line + [NUL])
    requires forall j :: 0 <= j < |heap| ==>
      heap'[j] == if Latest(|cmds|, slots, |cmds| % slots) == Some(j) then Freed(Zeros(|cmds[j]| + 1)) else heap[j]
    ensures HeapIs(heap', cmds + [line], slots)
  {
    var n, cmds' := |cmds|, cmds + [line];
    forall j | 0 <= j < |heap'| ensures heap'[j] == BlockState(cmds', slots, j) {
      if j < n {
        assert heap[j] == BlockState(cmds, slots, j);
        assert cmds'[j] == cmds[j];
        assert Latest(n + 1, slots, j % slots)
            == if n % slots == j % slots then Some(n) else Latest(n, slots, j % slots);
      }
    }
  }

  /** A live block reads back as its line. */
  lemma LiveReads(bytes: seq<char>, line: string)
    requires bytes == line + [NUL] && NoNul(line)
    ensures StrEnd(bytes, 0) == |line| && CStr(bytes, 0) == line
  {
    assert bytes[0..|line|] == line;
    StrEndIs(bytes, 0, |line|);
  }

  lemma RecordKeepsRing(history: seq<Ptr>, used: seq<int>, n: nat)
    requires RingIs(history, used, n)
    ensures var s := n % |history|; RingIs(history[s := Block(n)], used[s := 1], n + 1)
  {
    var slots := |history|;
    forall s | 0 <= s < slots
      ensures SlotPtr(n + 1, slots, s) == if n % slots == s then Block(n) else SlotPtr(n, slots, s)
    {
    }
  }

  /** What the slots point to, as lines. */
  lemma SlotReads(history: seq<Ptr>, used: seq<int>, heap: seq<HeapBlock>, cmds: seq<string>, s: nat)
    requires RingIs(history, used, |cmds|) && HeapIs(heap, cmds, |history|) && s < |history|
    requires forall j :: 0 <= j < |cmds| ==> NoNul(cmds[j])
    ensures match Latest(|cmds|, |history|, s)
            case None => history[s] == Null && used[s] == 0
            case Some(j) => history[s] == Block(j) && used[s] == 1 && heap[j] == Live(cmds[j] + [NUL])
                            && StrEnd(cmds[j] + [NUL], 0) == |cmds[j]| && CStr(cmds[j] + [NUL], 0) == cmds[j]
  {
    match Latest(|cmds|, |history|, s)
    case None =>
    case Some(j) =>
      assert heap[j] == BlockState(cmds, |history|, j);
      LiveReads(cmds[j] + [NUL], cmds[j]);
  }

  /** Every block that was ever allocated has been freed, all of its bytes zero. */
  ghost predicate AllFreed(heap: seq<HeapBlock>, cmds: seq<string>) {
    |heap| == |cmds| && forall j :: 0 <= j < |heap| ==> heap[j] == Freed(Zeros(|cmds[j]| + 1))
  }

  /** The cleanup loop has passed the first s slots. */
  ghost predicate Cleared(heap: seq<HeapBlock>, cmds: seq<string>, slots: nat, s: nat)
    requires slots >= 1
  {
    |heap| == |cmds| && forall j :: 0 <= j < |heap| ==>
      heap[j] == if j % slots < s then Freed(Zeros(|cmds[j]| + 1)) else BlockState(cmds, slots, j)
  }

  lemma StartsCleared(heap: seq<HeapBlock>, cmds: seq<string>, slots: nat)
    requires slots >= 1 && HeapIs(heap, cmds, slots)
    ensures Cleared(heap, cmds, slots, 0)
  {
  }

  lemma AllCleared(heap: seq<HeapBlock>, cmds: seq<string>, slots: nat)
    requires slots >= 1 && Cleared(heap, cmds, slots, slots)
    ensures AllFreed(heap, cmds)
  {
    forall j | 0 <= j < |heap| ensures heap[j] == Freed(Zeros(|cmds[j]| + 1)) {
      assert j % slots < slots;
    }
  }

  /** The block of the next slot is still live, and freeing it clears the slot. */
  lemma ClearsNext(heap: seq<HeapBlock>, history: seq<Ptr>, used: seq<int>, cmds: seq<string>, s: nat)
    requires RingIs(history, used, |cmds|) && s < |history| && Cleared(heap, cmds, |history|, s)
    requires forall j :: 0 <= j < |cmds| ==> NoNul(cmds[j])
    ensures history[s] == Null ==> Cleared(heap, cmds, |history|, s + 1)
    ensures history[s].Block? ==>
      var j := history[s].id;
      && j < |heap| && heap[j] == Live(cmds[j] + [NUL]) && StrEnd(cmds[j] + [NUL], 0) == |cmds[j]|
      && Cleared(heap[j := Freed(Zeros(|cmds[j]| + 1))], cmds, |history|, s + 1)
  {
    var slots := |history|;
    match Latest(|cmds|, slots, s)
    case None =>
      assert forall j :: 0 <= j < |cmds| && j % slots == s ==> BlockState(cmds, slots, j).Freed?;
    case Some(j) =>
      assert heap[j] == BlockState(cmds, slots, j);
      LiveReads(cmds[j] + [NUL], cmds[j]);
      var heap' := heap[j := Freed(Zeros(|cmds[j]| + 1))];
      forall i | 0 <= i < |heap'|
        ensures heap'[i] == if i % slots < s + 1 then Freed(Zeros(|cmds[i]| + 1)) else BlockState(cmds, slots, i)
      {
      }
  }

  class Shell {
    const config: Config
    const lastCommand: array<char>
    const history: array<Ptr>
    const slotUsed: array<int>
    var historyNext: nat
    var heap: seq<HeapBlock>
    var input: array<char>
    var out: seq<Output>
    ghost var cmds: seq<string>

    /** The ring and the heap are the image of the list of lines. */
    ghost predicate RingValid()
      reads this, history, slotUsed
    {
      && ValidConfig(config)
      && history.Length == config.slots && slotUsed.Length == config.slots
      && historyNext == |cmds| % config.slots
      && RingIs(history[..], slotUsed[..], |cmds|)
      && HeapIs(heap, cmds, config.slots)
      && (forall j :: 0 <= j < |cmds| ==> NoNul(cmds[j]))
    }

    /** So is the whole state. */
    ghost predicate Valid()
      reads this, lastCommand, history, slotUsed
    {
      && RingValid()
      && lastCommand.Length == config.size && input != lastCommand
      && CStr(lastCommand[..], 0) == LastCommand(cmds, config.size)
    }

    constructor (c: Config)
      requires ValidConfig(c)
      ensures Valid() && cmds == [] && out == [] && config == c && input.Length == 0
      ensures fresh(lastCommand) && fresh(history) && fresh(slotUsed) && fresh(input)
    {
      config := c;
      lastCommand := new char[c.size](i => NUL);
      history := new Ptr[c.slots](i => Null);
      slotUsed := new int[c.slots](i => 0);
      historyNext, heap, input, out, cmds := 0, [], new char[0], [], [];
    }

    /** Zeroes a string and frees its block; null is left alone. Only a live block may be passed. */
    method WipeAndFree(p: Ptr)
      requires p.Block? ==> p.id < |heap| && heap[p.id].Live? && |heap[p.id].bytes| >= 1
                            && StrEnd(heap[p.id].bytes, 0) == |heap[p.id].bytes| - 1
      modifies this`heap
      ensures p.Null? ==> heap == old(heap)
      ensures p.Block? ==> heap == old(heap)[p.id := Freed(Zeros(|old(heap[p.id].bytes)|))]
    {
      if p == Null {
        return;
      }
      var text := heap[p.id].bytes;
      var n := StrEnd(text, 0);
      for i := 0 to n
        invariant |text| == n + 1 && text[n] == NUL && forall k :: 0 <= k < i ==> text[k] == NUL
      {
        text := text[i := NUL];
      }
      assert text == Zeros(n + 1);
      heap := heap[p.id := Freed(text)];
    }

    /** Copies as much of the text as fits beside the terminator. */
    method CopyTruncated(text: string)
      requires NoNul(text) && lastCommand.Length >= 1
      modifies lastCommand
      ensures CStr(lastCommand[..], 0) == Prefix(text, lastCommand.Length - 1)
    {
      var n := if |text| <= lastCommand.Length - 1 then |text| else lastCommand.Length - 1;
      for i := 0 to n
        invariant lastCommand[..i] == text[..i]
      {
        lastCommand[i] := text[i];
      }
      lastCommand[n] := NUL;
      assert lastCommand[..][0..n] == text[..n];
      StrEndIs(lastCommand[..], 0, n);
    }

    /** The first half of record_history: the line before the new one goes to last_command. */
    method KeepPrevious(ghost line: string)
      requires Valid()
      modifies lastCommand
      ensures CStr(lastCommand[..], 0) == LastCommand(cmds + [line], config.size)
    {
      ghost var n := |cmds|;
      var slot := (historyNext + history.Length - 1) % history.Length;
      SlotReads(history[..], slotUsed[..], heap, cmds, slot);
      if n >= 1 {
        PreviousSlot(n, config.slots);
        assert Latest(n, config.slots, slot) == Some(n - 1);
      }
      var previous := history[slot];
      if previous != Null {
        CopyTruncated(CStr(heap[previous.id].bytes, 0));
      }
    }

    /** The second half: the old string of the next slot is wiped and freed, and the line stored. */
    method StoreLine(line: string)
      requires RingValid() && NoNul(line)
      modifies this`historyNext, this`heap, this`cmds, history, slotUsed
      ensures RingValid() && cmds == old(cmds) + [line]
    {
      ghost var n, ring, used, heap0 := |cmds|, history[..], slotUsed[..], heap;
      var slot := historyNext;
      SlotReads(ring, used, heap, cmds, slot);
      WipeAndFree(history[slot]);
      history[slot] := Block(|heap|);
      heap := heap + [Live(line + [NUL])];
      slotUsed[slot] := 1;
      historyNext := (slot + 1) % history.Length;
      RecordKeepsHeap(heap0, heap, cmds, line, config.slots);
      RecordKeepsRing(ring, used, n);
      NextSlot(n, config.slots);
      assert history[..] == ring[slot := Block(n)] && slotUsed[..] == used[slot := 1];
      cmds := cmds + [line];
    }

    /** record_history. Must run before the line is tokenized: it takes the whole of it. */
    method RecordHistory(line: string)
      requires Valid() && NoNul(line)
      modifies this`historyNext, this`heap, this`cmds, lastCommand, history, slotUsed
      ensures Valid() && cmds == old(cmds) + [line]
    {
      KeepPrevious(line);
      StoreLine(line);
    }

    /** recall_slot */
    method RecallSlot(slot: int)
      requires Valid()
      modifies this`out
      ensures out == old(out) + [Stdout(Recalled(cmds, config.slots, slot))]
    {
      if slot < 0 || slot >= history.Length {
        out := out + [Stdout("recall: slot out of range\n")];
        return;
      }
      SlotReads(history[..], slotUsed[..], heap, cmds, slot);
      if slotUsed[slot] == 0 || history[slot] == Null {
        out := out + [Stdout("recall: empty slot\n")];
      } else {
        out := out + [Stdout(CStr(heap[history[slot].id].bytes, 0) + "\n")];
      }
    }

    /** dispatch_builtin: none for a command of its own, otherwise whether the shell goes on. */
    method DispatchBuiltin(args: array<Option<nat>>, ghost words: seq<string>) returns (r: Option<bool>)
      requires Valid() && ArgsAre(input[..], args[..], words) && |words| <= config.maxArgs - 1
      modifies this`out
      ensures r == None ==> out == old(out) && (words == [] || Perform(config, cmds, words) == ([Exec(words)], true))
      ensures r.Some? ==> var (said, running) := Perform(config, cmds, words);
                          words != [] && out == old(out) + said && r.value == running
    {
      if args[0] == None {
        return None;
      }
      var command := CStr(input[..], args[0].value);
      if command == "exit" {
        return Some(false);
      }
      if command == "history" {
        out := out + [Stdout(CStr(lastCommand[..], 0) + "\n")];
        return Some(true);
      }
      if command == "recall" {
        var slot, ok := 0, true;
        if args[1] != None {
          ok, slot := ParseInt(CStr(input[..], args[1].value), slot);
        }
        if !ok {
          out := out + [Stdout("recall: slot must be a number\n")];
        } else {
          RecallSlot(slot);
        }
        return Some(true);
      }
      return None;
    }

    /** execute_command: the vector handed to execvp, read up to its null pointer. */
    method ExecuteCommand(args: array<Option<nat>>, ghost words: seq<string>)
      requires ArgsAre(input[..], args[..], words)
      modifies this`out
      ensures out == old(out) + if words == [] then [] else [Exec(words)]
    {
      if args[0] == None {
        return;
      }
      var argv, i := [], 0;
      while args[i] != None
        invariant 0 <= i <= |words| && argv == words[..i]
        decreases |words| - i
      {
        argv := argv + [CStr(input[..], args[i].value)];
        i := i + 1;
      }
      assert words[..i] == words;
      out := out + [Exec(argv)];
    }

    /** The body of the read loop for a line that is not empty: record, tokenize in place, perform. */
    method HandleLine() returns (running: bool)
      requires Valid() && input.Length >= 1 && StrEnd(input[..], 0) < input.Length
      modifies this`historyNext, this`heap, this`cmds, this`out, input, lastCommand, history, slotUsed
      ensures Valid() && cmds == old(cmds) + [old(CStr(input[..], 0))]
      ensures out == old(out) + Perform(config, cmds, Words(old(CStr(input[..], 0)))).0
      ensures running == Perform(config, cmds, Words(old(CStr(input[..], 0)))).1
    {
      ghost var words := Words(CStr(input[..], 0));
      RecordHistory(CStr(input[..], 0));
      var args := new Option<nat>[config.maxArgs](i => None);
      var parsed := ParseInput(input, args);
      if !parsed {
        out := out + [Stdout("too many arguments\n")];
        return true;
      }
      var r := DispatchBuiltin(args, words);
      if r.Some? {
        return r.value;
      }
      ExecuteCommand(args, words);
      return true;
    }

    /** getline: the bytes and a NUL, in the same buffer if they fit and in a larger one if not. */
    method GetLine(bytes: seq<char>)
      modifies this`input, input
      ensures input == old(input) || fresh(input)
      ensures input.Length > |bytes| && input[..|bytes|] == bytes && input[|bytes|] == NUL
    {
      if input.Length <= |bytes| {
        input := new char[|bytes| + 1](i => NUL);
      }
      for i := 0 to |bytes|
        invariant input.Length > |bytes| && (input == old(input) || fresh(input))
        invariant input[..i] == bytes[..i]
      {
        input[i] := bytes[i];
      }
      input[|bytes|] := NUL;
    }

    /** Reads a line and ends it at its newline. */
    method ReadLine(bytes: seq<char>)
      modifies this`input, input
      ensures input == old(input) || fresh(input)
      ensures input.Length >= 1 && StrEnd(input[..], 0) < input.Length && CStr(input[..], 0) == LineOf(bytes)
    {
      GetLine(bytes);
      var n := |bytes|;
      if n > 0 && input[n - 1] == '\n' {
        n := n - 1;
        input[n] := NUL;
      }
      assert input[..n] == bytes[..n];
      SamePrefix(input[..], bytes[..n] + [NUL], n);
    }

    /** The cleanup after the loop, for the heap: every string still owned is wiped and freed. */
    method FreeHistory()
      requires RingValid()
      modifies this`heap
      ensures AllFreed(heap, cmds)
    {
      StartsCleared(heap, cmds, config.slots);
      for s := 0 to history.Length
        invariant unchanged(history, slotUsed) && Cleared(heap, cmds, config.slots, s)
      {
        ClearsNext(heap, history[..], slotUsed[..], cmds, s);
        WipeAndFree(history[s]);
      }
      AllCleared(heap, cmds, config.slots);
    }

    /** main, from the read loop to the return: what the user sees, and what is left in memory. */
    method Run(events: seq<Event>) returns (status: int)
      requires Valid() && cmds == [] && out == []
      modifies this`historyNext, this`heap, this`cmds, this`out, this`input, input, lastCommand, history, slotUsed
      ensures Ending(out, status, cmds) == Session(config, [], events)
      ensures AllFreed(heap, cmds)
      ensures (forall i :: 0 <= i < input.Length ==> input[i] == NUL)
      ensures (forall i :: 0 <= i < lastCommand.Length ==> lastCommand[i] == NUL)
    {
      status := 0;
      var keepRunning, k := true, 0;
      while keepRunning
        invariant Valid() && k <= |events| && (input == old(input) || fresh(input))
        invariant keepRunning ==> status == 0
        invariant keepRunning ==> Session(config, [], events) == After(out, Session(config, cmds, events[k..]))
        invariant !keepRunning ==> Session(config, [], events) == Ending(out, status, cmds)
        decreases keepRunning, |events| - k
      {
        keepRunning, status := TakeEvent(if k < |events| then events[k] else Eof, events, k);
        k := if k < |events| then k + 1 else k;
      }
      Wipe(input);
      FreeHistory();
      Wipe(lastCommand);
    }

    /** explicit_bzero over a whole buffer. */
    method Wipe(buffer: array<char>)
      modifies buffer
      ensures forall i :: 0 <= i < buffer.Length ==> buffer[i] == NUL
    {
      for i := 0 to buffer.Length
        invariant forall j :: 0 <= j < i ==> buffer[j] == NUL
      {
        buffer[i] := NUL;
      }
    }

    /** One turn of the read loop. */
    method TakeEvent(event: Event, ghost events: seq<Event>, ghost k: nat) returns (keepRunning: bool, status: int)
      requires Valid() && k <= |events| && event == if k < |events| then events[k] else Eof
      modifies this`historyNext, this`heap, this`cmds, this`out, this`input, input, lastCommand, history, slotUsed
      ensures Valid() && (input == old(input) || fresh(input))
      ensures keepRunning ==> k < |events| && status == 0
      ensures old(After(out, Session(config, cmds, events[k..])))
           == if keepRunning then After(out, Session(config, cmds, events[k + 1..])) else Ending(out, status, cmds)
    {
      ghost var before := out;
      status := 0;
      out := out + [PROMPT];
      if !event.Typed? {
        SessionEnds(config, before, cmds, events, k);
        if event.ReadError? {
          out := out + [Stderr("getline failed")];
          status := 1;
        }
        out := out + [Stdout("\nExiting...\n")];
        return false, status;
      }
      SessionReads(config, before, cmds, events, k);
      ReadLine(event.bytes);
      if CStr(input[..], 0) == "" {
        return true, 0;
      }
      keepRunning := HandleLine();
    }
  }

  /** Two buffers with the same first n bytes and then a NUL hold the same string. */
  lemma SamePrefix(a: seq<char>, b: seq<char>, n: nat)
    requires n < |a| && n < |b| && a[..n] == b[..n] && a[n] == b[n] == NUL
    ensures StrEnd(a, 0) <= n && CStr(a, 0) == CStr(b, 0)
  {
    var e := StrEnd(a, 0);
    assert e <= n;
    forall k | 0 <= k < e ensures b[k] == a[k] {
      assert a[k] == a[..n][k] == b[..n][k] == b[k];
    }
    assert b[0..e] == a[0..e];
    if e < n {
      assert a[e] == a[..n][e] == b[..n][e] == b[e];
    }
    StrEndIs(b, 0, e);
  }

}