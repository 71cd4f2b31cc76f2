/** The resumable evaluation log: each invocation reads what earlier ones left, works on the rest,
    and may stop at any point between records. */
module EvalLog {
  import opened Options

  datatype Item = Item(id: string, source: string)

  /** A line of the output file: a record, JSON without an id, or text that is not JSON. */
  datatype LogLine = Record(id: string, cost: Option<real>) | NoId(cost: Option<real>) | Unreadable

  /** What triage gives back for one item: an answer to record, or a request that failed. */
  datatype Reply = Answer(cost: Option<real>) | RequestFailed

  /** One start of the program. When the replies run out the process is stopped before its next record. */
  datatype Invocation = Invocation(source: string, cap: Option<real>, replies: seq<Reply>)

  datatype Exit = Completed | Stopped | CapReached

  function Cost(line: LogLine): real {
    if line.Unreadable? || line.cost == None then 0.0 else line.cost.value
  }

  function Spent(log: seq<LogLine>): real {
    if log == [] then 0.0 else Spent(log[..|log| - 1]) + Cost(log[|log| - 1])
  }

  function LoggedIds(log: seq<LogLine>): seq<string> {
    if log == [] then []
    else LoggedIds(log[..|log| - 1]) + if log[|log| - 1].Record? then [log[|log| - 1].id] else []
  }

  predicate Wanted(it: Item, source: string) {
    source == "all" || source == it.source
  }

  function Ids(items: seq<Item>): (ids: seq<string>)
    ensures |ids| == |items| && forall i :: 0 <= i < |items| ==> ids[i] == items[i].id
  {
    if items == [] then [] else [items[0].id] + Ids(items[1..])
  }

  /** The items of one source, in file order. */
  function Filtered(items: seq<Item>, source: string): seq<Item> {
    if items == [] then []
    else if Wanted(items[0], source) then [items[0]] + Filtered(items[1..], source)
    else Filtered(items[1..], source)
  }

  /** The items of the source that the log has no record of, in file order. */
  function Todo(items: seq<Item>, done: set<string>, source: string): seq<Item> {
    if items == [] then []
    else if items[0].id !in done && Wanted(items[0], source) then [items[0]] + Todo(items[1..], done, source)
    else Todo(items[1..], done, source)
  }

  function RecordOf(it: Item, r: Reply): LogLine
    requires r.Answer?
  {
    Record(it.id, r.cost)
  }

  /** The records one invocation appends, and how it ends. */
  function Work(todo: seq<Item>, replies: seq<Reply>, spent: real, cap: Option<real>): (seq<LogLine>, Exit) {
    if todo == [] then ([], Completed)
    else if replies == [] || replies[0].RequestFailed? then ([], Stopped)
    else
      var rec := RecordOf(todo[0], replies[0]);
      if cap.Some? && spent + Cost(rec) >= cap.value then ([rec], CapReached)
      else
        var (recs, exit) := Work(todo[1..], replies[1..], spent + Cost(rec), cap);
        ([rec] + recs, exit)
  }

  function Invoke(items: seq<Item>, log: seq<LogLine>, inv: Invocation): (seq<LogLine>, Exit) {
    var (recs, exit) := Work(Todo(items, Done(log), inv.source), inv.replies, Spent(log), inv.cap);
    (log + recs, exit)
  }

  function Done(log: seq<LogLine>): set<string> {
    set id | id in LoggedIds(log)
  }

  /** A history of invocations on one file. */
  function Runs(items: seq<Item>, log: seq<LogLine>, invs: seq<Invocation>): seq<LogLine>
    decreases |invs|
  {
    if invs == [] then log else Runs(items, Invoke(items, log, invs[0]).0, invs[1..])
  }

  /** cmd_run: reads the ids and the cost of the readable log, then works through what is left. */
  method CmdRun(items: seq<Item>, log: seq<LogLine>, inv: Invocation)
    returns (log': seq<LogLine>, exit: Exit, spent: real)
    ensures (log', exit) == Invoke(items, log, inv)
    ensures spent == Spent(log')
    ensures log <= log' && WorksOut(Todo(items, Done(log), inv.source), inv.replies, Spent(log), inv.cap,
                                    log'[|log|..], exit)
  {
    InvokeWorksOut(items, log, inv);
    var done;
    done, spent := ReadLog(log);
    log', exit, spent := WorkThrough(Todo(items, done, inv.source), inv.replies, log, spent, inv.cap);
  }

  /** The loop over what is left to do: one record for each answer, until the replies stop or the cap is reached. */
  method WorkThrough(todo: seq<Item>, replies: seq<Reply>, log: seq<LogLine>, spent0: real, cap: Option<real>)
    returns (log': seq<LogLine>, exit: Exit, spent: real)
    requires spent0 == Spent(log)
    ensures (log', exit) == Finish(log, Work(todo, replies, Spent(log), cap))
    ensures spent == Spent(log')
  {
    log', exit, spent := log, Completed, spent0;
    ghost var end := Finish(log, Work(todo, replies, spent0, cap));
    for n := 0 to |todo|
      invariant n <= |replies| && spent == Spent(log') && exit == Completed
      invariant end == Finish(log', Work(todo[n..], replies[n..], spent, cap))
    {
      WorkUnrolls(log', todo, replies, n, spent, cap);
      if n == |replies| || replies[n].RequestFailed? {
        return log', Stopped, spent;
      }
      var rec := RecordOf(todo[n], replies[n]);
      SpentPush(log', rec);
      log' := log' + [rec];
      spent := spent + Cost(rec);
      if cap.Some? && spent >= cap.value {
        return log', CapReached, spent;
      }
    }
    assert log' + [] == log';
  }

  /** The two loops that read the file: ids of readable records, and the sum of their costs. */
  method ReadLog(log: seq<LogLine>) returns (done: set<string>, spent: real)
    ensures done == Done(log) && spent == Spent(log)
  {
    done := {};
    for i := 0 to |log|
      invariant done == Done(log[..i])
    {
      assert log[..i + 1][..i] == log[..i];
      if log[i].Record? {
        done := done + {log[i].id};
      }
    }
    spent := 0.0;
    for i := 0 to |log|
      invariant spent == Spent(log[..i])
    {
      assert log[..i + 1][..i] == log[..i];
      spent := spent + Cost(log[i]);
    }
    assert log[..|log|] == log;
  }

  function Finish(log: seq<LogLine>, w: (seq<LogLine>, Exit)): (seq<LogLine>, Exit) {
    (log + w.0, w.1)
  }

  lemma SpentPush(log: seq<LogLine>, rec: LogLine)
    ensures Spent(log + [rec]) == Spent(log) + Cost(rec)
  {
    assert (log + [rec])[..|log|] == log;
  }

  lemma WorkUnrolls(log: seq<LogLine>, todo: seq<Item>, replies: seq<Reply>, n: nat, spent: real, cap: Option<real>)
    requires n < |todo| && n <= |replies|
    ensures var now := Finish(log, Work(todo[n..], replies[n..], spent, cap));
      if n == |replies| || replies[n].RequestFailed? then now == (log, Stopped)
      else
        var rec := RecordOf(todo[n], replies[n]);
        now == if cap.Some? && spent + Cost(rec) >= cap.value then (log + [rec], CapReached)
               else Finish(log + [rec], Work(todo[n + 1..], replies[n + 1..], spent + Cost(rec), cap))
  {
    assert todo[n..][1..] == todo[n + 1..];
    assert log + [] == log;
    if n < |replies| {
      assert replies[n..][1..] == replies[n + 1..];
      if replies[n].Answer? {
        var rec := RecordOf(todo[n], replies[n]);
        var (recs, exit) := Work(todo[n + 1..], replies[n + 1..], spent + Cost(rec), cap);
        assert log + ([rec] + recs) == log + [rec] + recs;
      }
    }
  }

  // ---------------------------------------------------------------- one invocation, told from its replies

  /** What the first n replies cost. */
  function Paid(replies: seq<Reply>, n: nat): real
    requires n <= |replies|
  {
    if n == 0 then 0.0
    else Paid(replies, n - 1) + match replies[n - 1] { case Answer(Some(cost)) => cost case _ => 0.0 }
  }

  predicate ReachesCap(spent: real, replies: seq<Reply>, n: nat, cap: Option<real>)
    requires n <= |replies|
  {
    cap.Some? && spent + Paid(replies, n) >= cap.value
  }

  /** The records written and the ending, without the loop: each record has the id of its item and the cost
      of its answer; the cap is reached by the last record or by none; with the cap not reached the run
      is complete when every item has its record, and else the reply for the next one is missing or failed. */
  ghost predicate WorksOut(todo: seq<Item>, replies: seq<Reply>, spent: real, cap: Option<real>,
                           recs: seq<LogLine>, exit: Exit)
  {
    var n := |recs|;
    && n <= |todo| && n <= |replies|
    && (forall i :: 0 <= i < n ==> replies[i].Answer? && recs[i] == Record(todo[i].id, replies[i].cost))
    && (forall i :: 0 < i < n ==> !ReachesCap(spent, replies, i, cap))
    && (exit == CapReached <==> n > 0 && ReachesCap(spent, replies, n, cap))
    && (exit == Completed <==> exit != CapReached && n == |todo|)
    && (exit == Stopped ==> n == |replies| || replies[n].RequestFailed?)
  }

  lemma {:induction false} PaidFirst(replies: seq<Reply>, n: nat)
    requires 0 < n <= |replies| && replies[0].Answer?
    ensures Paid(replies, n) == Cost(Record("", replies[0].cost)) + Paid(replies[1..], n - 1)
  {
    if n > 1 {
      PaidFirst(replies, n - 1);
      assert replies[1..][n - 2] == replies[n - 1];
    } else {
      assert Paid(replies, 0) == 0.0;
    }
  }

  lemma ReachesCapLater(spent: real, replies: seq<Reply>, n: nat, cap: Option<real>)
    requires 0 < n <= |replies| && replies[0].Answer?
    ensures ReachesCap(spent, replies, n, cap)
       <==> ReachesCap(spent + Cost(Record("", replies[0].cost)), replies[1..], n - 1, cap)
  {
    PaidFirst(replies, n);
  }

  lemma WorksOutPush(todo: seq<Item>, replies: seq<Reply>, spent: real, cap: Option<real>, rest: seq<LogLine>,
                    exit: Exit)
    requires todo != [] && replies != [] && replies[0].Answer?
    requires !ReachesCap(spent, replies, 1, cap)
    requires WorksOut(todo[1..], replies[1..], spent + Cost(Record("", replies[0].cost)), cap, rest, exit)
    ensures WorksOut(todo, replies, spent, cap, [Record(todo[0].id, replies[0].cost)] + rest, exit)
  {
    var recs := [Record(todo[0].id, replies[0].cost)] + rest;
    forall i | 0 <= i < |recs| ensures replies[i].Answer? && recs[i] == Record(todo[i].id, replies[i].cost) {
      if i > 0 {
        assert recs[i] == rest[i - 1] && replies[i] == replies[1..][i - 1] && todo[i] == todo[1..][i - 1];
      }
    }
    forall i | 0 < i <= |recs|
      ensures ReachesCap(spent, replies, i, cap)
         <==> ReachesCap(spent + Cost(Record("", replies[0].cost)), replies[1..], i - 1, cap)
    {
      ReachesCapLater(spent, replies, i, cap);
    }
  }

  lemma WorksOutOnce(todo: seq<Item>, replies: seq<Reply>, spent: real, cap: Option<real>)
    requires todo != [] && replies != [] && replies[0].Answer? && ReachesCap(spent, replies, 1, cap)
    ensures WorksOut(todo, replies, spent, cap, [Record(todo[0].id, replies[0].cost)], CapReached)
  {
  }

  lemma WorksOutAtOnce(todo: seq<Item>, replies: seq<Reply>, spent: real, cap: Option<real>)
    requires todo == [] || replies == [] || replies[0].RequestFailed?
    ensures var (recs, exit) := Work(todo, replies, spent, cap); WorksOut(todo, replies, spent, cap, recs, exit)
  {
  }

  lemma WorkSteps(todo: seq<Item>, replies: seq<Reply>, spent: real, cap: Option<real>)
    requires todo != [] && replies != [] && replies[0].Answer?
    ensures var rec := Record(todo[0].id, replies[0].cost);
            Work(todo, replies, spent, cap) ==
              if ReachesCap(spent, replies, 1, cap) then ([rec], CapReached)
              else
                var (rest, exit) := Work(todo[1..], replies[1..], spent + Cost(rec), cap);
                ([rec] + rest, exit)
  {
    PaidFirst(replies, 1);
    assert Paid(replies[1..], 0) == 0.0;
  }

  lemma {:induction false} WorkWorksOut(todo: seq<Item>, replies: seq<Reply>, spent: real, cap: Option<real>)
    ensures var (recs, exit) := Work(todo, replies, spent, cap); WorksOut(todo, replies, spent, cap, recs, exit)
  {
    if todo == [] || replies == [] || replies[0].RequestFailed? {
      WorksOutAtOnce(todo, replies, spent, cap);
    } else {
      var rec := Record(todo[0].id, replies[0].cost);
      WorkSteps(todo, replies, spent, cap);
      if ReachesCap(spent, replies, 1, cap) {
        WorksOutOnce(todo, replies, spent, cap);
      } else {
        var (rest, exit) := Work(todo[1..], replies[1..], spent + Cost(rec), cap);
        WorkWorksOut(todo[1..], replies[1..], spent + Cost(rec), cap);
        assert Cost(rec) == Cost(Record("", replies[0].cost));
        WorksOutPush(todo, replies, spent, cap, rest, exit);
      }
    }
  }

  lemma InvokeWorksOut(items: seq<Item>, log: seq<LogLine>, inv: Invocation)
    ensures var (log', exit) := Invoke(items, log, inv);
            log <= log' && WorksOut(Todo(items, Done(log), inv.source), inv.replies, Spent(log), inv.cap,
                                    log'[|log|..], exit)
  {
    var todo := Todo(items, Done(log), inv.source);
    WorkWorksOut(todo, inv.replies, Spent(log), inv.cap);
    var recs := Work(todo, inv.replies, Spent(log), inv.cap).0;
    assert (log + recs)[|log|..] == recs;
  }

  /** The records and the ending are determined: nothing else works out. */
  lemma WorksOutOneWay(todo: seq<Item>, replies: seq<Reply>, spent: real, cap: Option<real>,
                       recs: seq<LogLine>, exit: Exit, recs': seq<LogLine>, exit': Exit)
    requires WorksOut(todo, replies, spent, cap, recs, exit) && WorksOut(todo, replies, spent, cap, recs', exit')
    ensures recs == recs' && exit == exit'
  {
  }

  /** The places from k on of the items of the source asked for, or of any, that have no record. */
  function Places(items: seq<Item>, done: set<string>, source: string, k: nat): (at: seq<nat>)
    requires k <= |items|
    ensures forall j :: 0 <= j < |at| ==> k <= at[j] < |items|
    ensures forall i, j :: 0 <= i < j < |at| ==> at[i] < at[j]
    decreases |items| - k
  {
    if k == |items| then []
    else if items[k].id !in done && (source == "all" || items[k].source == source) then
      [k] + Places(items, done, source, k + 1)
    else Places(items, done, source, k + 1)
  }

  lemma {:induction false} PlacesHold(items: seq<Item>, done: set<string>, source: string, k: nat, i: nat)
    requires k <= i < |items|
    ensures i in Places(items, done, source, k)
       <==> items[i].id !in done && (source == "all" || items[i].source == source)
    decreases |items| - k
  {
    var later := Places(items, done, source, k + 1);
    if k < i {
      PlacesHold(items, done, source, k + 1, i);
    } else {
      assert forall j :: 0 <= j < |later| ==> later[j] > k;
    }
  }

  /** What is left to do is what stands in those places, in file order. */
  lemma {:induction false} TodoIs(items: seq<Item>, done: set<string>, source: string, k: nat)
    requires k <= |items|
    ensures var todo, at := Todo(items[k..], done, source), Places(items, done, source, k);
            |todo| == |at| && forall j :: 0 <= j < |at| ==> todo[j] == items[at[j]]
    decreases |items| - k
  {
    if k < |items| {
      TodoIs(items, done, source, k + 1);
      assert items[k..][0] == items[k] && items[k..][1..] == items[k + 1..];
    }
  }

  /** An id counts as done exactly when the file has a record of it. */
  lemma {:induction false} DoneIs(log: seq<LogLine>, id: string)
    ensures id in Done(log) <==> exists i :: 0 <= i < |log| && log[i].Record? && log[i].id == id
  {
    if log != [] {
      DoneIs(log[..|log| - 1], id);
      assert forall i :: 0 <= i < |log| - 1 ==> log[i] == log[..|log| - 1][i];
      assert id in Done(log) <==> id in Done(log[..|log| - 1]) || (log[|log| - 1].Record? && log[|log| - 1].id == id);
    }
  }

  /** What the file says was spent: every line adds its cost, with an id or without, if it has one. */
  lemma {:induction false} SpentIs(log: seq<LogLine>, i: nat)
    requires i < |log|
    ensures Spent(log) == Spent(log[..i]) + Spent(log[i + 1..])
                        + match log[i] { case Record(_, Some(c)) => c case NoId(Some(c)) => c case _ => 0.0 }
  {
    var last := |log| - 1;
    if i == last {
      assert log[i + 1..] == [];
    } else {
      SpentIs(log[..last], i);
      assert log[..last][..i] == log[..i] && log[..last][i + 1..] == log[i + 1..][..last - i - 1];
      assert log[i + 1..][last - i - 1] == log[last];
    }
  }

  // ---------------------------------------------------------------- what one invocation writes

  /** The ids written are a prefix of those to do, all of them when the invocation completes. */
  lemma {:induction false} WorkWritesPrefix(todo: seq<Item>, replies: seq<Reply>, spent: real, cap: Option<real>)
    ensures var (recs, exit) := Work(todo, replies, spent, cap);
            && LoggedIds(recs) <= Ids(todo)
            && (exit == Completed ==> LoggedIds(recs) == Ids(todo))
  {
    if todo != [] && replies != [] && replies[0].Answer? {
      var rec := Record(todo[0].id, replies[0].cost);
      WorkSteps(todo, replies, spent, cap);
      if ReachesCap(spent, replies, 1, cap) {
        OneLogged(rec);
      } else {
        var rest := Work(todo[1..], replies[1..], spent + Cost(rec), cap).0;
        WorkWritesPrefix(todo[1..], replies[1..], spent + Cost(rec), cap);
        LoggedIdsPush(rec, rest);
        PushPrefix(rec.id, LoggedIds(rest), Ids(todo[1..]));
      }
    }
  }

  lemma OneLogged(rec: LogLine)
    requires rec.Record?
    ensures LoggedIds([rec]) == [rec.id]
  {
    LoggedIdsPush(rec, []);
    assert [rec] + [] == [rec];
  }

  lemma PushPrefix(id: string, a: seq<string>, b: seq<string>)
    requires a <= b
    ensures [id] + a <= [id] + b
  {
  }

  lemma LoggedIdsPush(rec: LogLine, rest: seq<LogLine>)
    requires rec.Record?
    ensures LoggedIds([rec] + rest) == [rec.id] + LoggedIds(rest)
  {
    LoggedIdsAppend([rec], rest);
    assert [rec][..0] == [];
    assert LoggedIds([rec]) == [rec.id];
  }

  lemma {:induction false} LoggedIdsAppend(a: seq<LogLine>, b: seq<LogLine>)
    ensures LoggedIds(a + b) == LoggedIds(a) + LoggedIds(b)
  {
    if b == [] {
      assert a + b == a;
    } else {
      LoggedIdsAppend(a, b[..|b| - 1]);
      assert (a + b)[..|a + b| - 1] == a + b[..|b| - 1];
    }
  }

  // ---------------------------------------------------------------- resumption

  predicate Distinct(ids: seq<string>) {
    forall i, j :: 0 <= i < j < |ids| ==> ids[i] != ids[j]
  }

  function NotDone(items: seq<Item>, done: set<string>): seq<Item> {
    if items == [] then []
    else (if items[0].id in done then [] else [items[0]]) + NotDone(items[1..], done)
  }

  lemma {:induction false} TodoFilters(items: seq<Item>, source: string, done: set<string>)
    ensures Todo(items, done, source) == NotDone(Filtered(items, source), done)
  {
    if items != [] {
      TodoFilters(items[1..], source, done);
      var f := Filtered(items[1..], source);
      assert ([items[0]] + f)[1..] == f;
    }
  }

  lemma {:induction false} RestNotDone(f: seq<Item>, n: nat, done: set<string>)
    requires n <= |f| && (forall i :: 0 <= i < |f| ==> (f[i].id in done <==> i < n))
    ensures NotDone(f, done) == f[n..]
  {
    if f != [] {
      RestNotDone(f[1..], if n == 0 then 0 else n - 1, done);
    }
  }

  /** The ids a completed run on this source logs. */
  function Wanting(items: seq<Item>, source: string): seq<string> {
    Ids(Filtered(items, source))
  }

  /** Once the log is a prefix of a list of distinct ids, what is left to do is the rest of the list. */
  lemma TodoIsRest(items: seq<Item>, source: string, log: seq<LogLine>)
    requires Distinct(Wanting(items, source)) && LoggedIds(log) <= Wanting(items, source)
    ensures Todo(items, Done(log), source) == Filtered(items, source)[|LoggedIds(log)|..]
  {
    var f, n := Filtered(items, source), |LoggedIds(log)|;
    TodoFilters(items, source, Done(log));
    forall i | 0 <= i < |f| ensures f[i].id in Done(log) <==> i < n {
      assert Ids(f)[i] == f[i].id;
      if i < n {
        assert LoggedIds(log)[i] == f[i].id;
      }
    }
    RestNotDone(f, n, Done(log));
  }

  /** One invocation moves the log forward along the list, to its end if it completes. */
  lemma InvokeExtends(items: seq<Item>, log: seq<LogLine>, inv: Invocation)
    requires Distinct(Wanting(items, inv.source)) && LoggedIds(log) <= Wanting(items, inv.source)
    ensures var (log', exit) := Invoke(items, log, inv);
            && LoggedIds(log) <= LoggedIds(log') <= Wanting(items, inv.source)
            && (exit == Completed ==> LoggedIds(log') == Wanting(items, inv.source))
  {
    var f, n := Filtered(items, inv.source), |LoggedIds(log)|;
    var (recs, exit) := Work(f[n..], inv.replies, Spent(log), inv.cap);
    TodoIsRest(items, inv.source, log);
    WorkWritesPrefix(f[n..], inv.replies, Spent(log), inv.cap);
    IdsOfRest(f, n);
    LoggedIdsAppend(log, recs);
    PrefixJoin(LoggedIds(log), LoggedIds(recs), Ids(f));
  }

  lemma IdsOfRest(f: seq<Item>, n: nat)
    requires n <= |f|
    ensures Ids(f[n..]) == Ids(f)[n..]
  {
  }

  lemma PrefixJoin(a: seq<string>, b: seq<string>, full: seq<string>)
    requires a <= full && b <= full[|a|..]
    ensures a <= a + b <= full && (b == full[|a|..] ==> a + b == full)
  {
  }

  ghost predicate SameSource(invs: seq<Invocation>, source: string) {
    forall i :: 0 <= i < |invs| ==> invs[i].source == source
  }

  lemma {:induction false} RunsExtend(items: seq<Item>, source: string, log: seq<LogLine>, invs: seq<Invocation>)
    requires Distinct(Wanting(items, source)) && LoggedIds(log) <= Wanting(items, source) && SameSource(invs, source)
    ensures LoggedIds(log) <= LoggedIds(Runs(items, log, invs)) <= Wanting(items, source)
    decreases |invs|
  {
    if invs != [] {
      InvokeExtends(items, log, invs[0]);
      RunsExtend(items, source, Invoke(items, log, invs[0]).0, invs[1..]);
    }
  }

  lemma {:induction false} RunsSplit(items: seq<Item>, log: seq<LogLine>, invs: seq<Invocation>, i: nat)
    requires i <= |invs|
    ensures Runs(items, log, invs) == Runs(items, Runs(items, log, invs[..i]), invs[i..])
    decreases |invs|
  {
    if i == 0 {
      assert invs[0..] == invs;
    } else {
      RunsSplit(items, Invoke(items, log, invs[0]).0, invs[1..], i - 1);
      assert invs[..i][1..] == invs[1..][..i - 1] && invs[1..][i - 1..] == invs[i..];
    }
  }

  /** How the i-th invocation of a history ends. */
  function ExitAt(items: seq<Item>, invs: seq<Invocation>, i: nat): Exit
    requires i < |invs|
  {
    Invoke(items, Runs(items, [], invs[..i]), invs[i]).1
  }

  /** Resumption: however often the program is stopped and restarted on one source, the log is a
      prefix of the filtered list without repeats, and once some run completes it is the whole list. */
  lemma {:induction false} Resumption(items: seq<Item>, source: string, invs: seq<Invocation>)
    requires Distinct(Wanting(items, source)) && SameSource(invs, source)
    ensures LoggedIds(Runs(items, [], invs)) <= Wanting(items, source)
    ensures Distinct(LoggedIds(Runs(items, [], invs)))
    ensures forall i :: 0 <= i < |invs| && ExitAt(items, invs, i) == Completed
              ==> LoggedIds(Runs(items, [], invs)) == Wanting(items, source)
  {
    RunsExtend(items, source, [], invs);
    forall i | 0 <= i < |invs| && ExitAt(items, invs, i) == Completed
      ensures LoggedIds(Runs(items, [], invs)) == Wanting(items, source)
    {
      var log := Runs(items, [], invs[..i]);
      RunsExtend(items, source, [], invs[..i]);
      InvokeExtends(items, log, invs[i]);
      RunsSplit(items, [], invs, i);
      RunsExtend(items, source, Invoke(items, log, invs[i]).0, invs[i + 1..]);
      assert invs[i..][0] == invs[i] && invs[i..][1..] == invs[i + 1..];
    }
  }

  // ---------------------------------------------------------------- why ids must be distinct

  function Answers(n: nat): seq<Reply> {
    seq(n, i => Answer(None))
  }

  lemma {:induction false} AllAnswered(todo: seq<Item>, replies: seq<Reply>, spent: real)
    requires |replies| >= |todo| && forall i :: 0 <= i < |replies| ==> replies[i].Answer?
    ensures Work(todo, replies, spent, None).1 == Completed
  {
    if todo != [] {
      AllAnswered(todo[1..], replies[1..], spent + Cost(RecordOf(todo[0], replies[0])));
    }
  }

  lemma {:induction false} NothingDone(items: seq<Item>, source: string)
    ensures Todo(items, {}, source) == Filtered(items, source)
  {
    if items != [] {
      NothingDone(items[1..], source);
    }
  }

  /** One uninterrupted run, no stop and no cap, logs the filtered list as it is, repeats included. */
  lemma OneRunLogsAll(items: seq<Item>, source: string)
    ensures var inv := Invocation(source, None, Answers(|Filtered(items, source)|));
            LoggedIds(Runs(items, [], [inv])) == Wanting(items, source)
  {
    var f := Filtered(items, source);
    var inv := Invocation(source, None, Answers(|f|));
    NothingDone(items, source);
    assert Done([]) == {};
    AllAnswered(f, Answers(|f|), 0.0);
    WorkWritesPrefix(f, Answers(|f|), 0.0, None);
    var recs := Work(f, Answers(|f|), 0.0, None).0;
    assert f[..|f|] == f && [] + recs == recs;
    assert [inv][1..] == [];
  }

  /** The log is free of repeats over every history exactly when the filtered ids are distinct. */
  lemma DistinctExactlyWhen(items: seq<Item>, source: string)
    ensures Distinct(Wanting(items, source)) <==>
            forall invs :: SameSource(invs, source) ==> Distinct(LoggedIds(Runs(items, [], invs)))
  {
    if Distinct(Wanting(items, source)) {
      forall invs | SameSource(invs, source) ensures Distinct(LoggedIds(Runs(items, [], invs))) {
        Resumption(items, source, invs);
      }
    } else {
      var inv := Invocation(source, None, Answers(|Filtered(items, source)|));
      OneRunLogsAll(items, source);
      assert SameSource([inv], source);
    }
  }

  // ---------------------------------------------------------------- the cost cap

  ghost predicate NonNegative(replies: seq<Reply>) {
    forall i :: 0 <= i < |replies| && replies[i].Answer? && replies[i].cost.Some? ==> replies[i].cost.value >= 0.0
  }

  /** Every record but the last leaves the total under the cap. */
  ghost predicate UnderCap(log: seq<LogLine>, recs: seq<LogLine>, cap: real) {
    forall n :: 0 < n < |recs| ==> Spent(log + recs[..n]) < cap
  }

  lemma UnderCapPush(log: seq<LogLine>, rec: LogLine, rest: seq<LogLine>, cap: real)
    requires Spent(log + [rec]) < cap && UnderCap(log + [rec], rest, cap)
    ensures UnderCap(log, [rec] + rest, cap)
  {
    var recs := [rec] + rest;
    forall n | 0 < n < |recs| ensures Spent(log + recs[..n]) < cap {
      if n == 1 {
        assert log + recs[..1] == log + [rec];
      } else {
        assert log + recs[..n] == log + [rec] + rest[..n - 1];
      }
    }
  }

  /** The invocation stops for the cap at the first record whose total reaches it, and not before. */
  lemma {:induction false} StopsAtFirstOverCap(todo: seq<Item>, replies: seq<Reply>, log: seq<LogLine>, cap: real)
    ensures var (recs, exit) := Work(todo, replies, Spent(log), Some(cap));
            UnderCap(log, recs, cap) && (exit == CapReached <==> recs != [] && Spent(log + recs) >= cap)
  {
    if todo == [] || replies == [] || replies[0].RequestFailed? {
      return;
    }
    var rec := RecordOf(todo[0], replies[0]);
    CapStep(todo, replies, log, cap, rec);
    if Spent(log + [rec]) < cap {
      var (rest, exit) := Work(todo[1..], replies[1..], Spent(log + [rec]), Some(cap));
      StopsAtFirstOverCap(todo[1..], replies[1..], log + [rec], cap);
      UnderCapPush(log, rec, rest, cap);
      assert log + ([rec] + rest) == log + [rec] + rest;
      assert log + [rec] + [] == log + [rec];
    }
  }

  /** What one answer does under a cap. */
  lemma {:induction false} CapStep(todo: seq<Item>, replies: seq<Reply>, log: seq<LogLine>, cap: real, rec: LogLine)
    requires todo != [] && replies != [] && replies[0].Answer? && rec == RecordOf(todo[0], replies[0])
    ensures Work(todo, replies, Spent(log), Some(cap)) ==
              if Spent(log + [rec]) >= cap then ([rec], CapReached)
              else
                var (rest, exit) := Work(todo[1..], replies[1..], Spent(log + [rec]), Some(cap));
                ([rec] + rest, exit)
  {
    SpentPush(log, rec);
  }

  /** An invocation that starts at or over the cap is not refused: it still asks for the next item,
      and writes that record exactly when there is an item and it is answered. It writes no second. */
  lemma OverCapWritesOne(todo: seq<Item>, replies: seq<Reply>, spent: real, cap: real)
    requires spent >= cap && NonNegative(replies)
    ensures var recs := Work(todo, replies, spent, Some(cap)).0;
            && |recs| <= 1
            && (recs != [] <==> todo != [] && replies != [] && replies[0].Answer?)
  {
  }

  lemma SpentGrows(log: seq<LogLine>, inv: Invocation, items: seq<Item>)
    requires inv.cap.Some? && Spent(log) >= inv.cap.value && NonNegative(inv.replies)
    ensures var log' := Invoke(items, log, inv).0; |log'| <= |log| + 1 && Spent(log') >= inv.cap.value
  {
    var todo := Todo(items, Done(log), inv.source);
    OverCapWritesOne(todo, inv.replies, Spent(log), inv.cap.value);
    var recs := Work(todo, inv.replies, Spent(log), inv.cap).0;
    if recs == [] {
      assert log + recs == log;
    } else {
      SpentPush(log, recs[0]);
      OneRecord(todo, inv.replies, Spent(log), inv.cap);
    }
  }

  lemma OneRecord(todo: seq<Item>, replies: seq<Reply>, spent: real, cap: Option<real>)
    requires |Work(todo, replies, spent, cap).0| == 1 && NonNegative(replies)
    ensures var recs := Work(todo, replies, spent, cap).0; recs == [recs[0]] && Cost(recs[0]) >= 0.0
  {
  }

  /** So a log over the cap grows by at most one record per restart. */
  lemma {:induction false} OverCapGrowsByRestarts(items: seq<Item>, log: seq<LogLine>, invs: seq<Invocation>, cap: real)
    requires Spent(log) >= cap
    requires forall i :: 0 <= i < |invs| ==> invs[i].cap == Some(cap) && NonNegative(invs[i].replies)
    ensures |Runs(items, log, invs)| <= |log| + |invs|
    decreases |invs|
  {
    if invs != [] {
      SpentGrows(log, invs[0], items);
      OverCapGrowsByRestarts(items, Invoke(items, log, invs[0]).0, invs[1..], cap);
    }
  }

  // ---------------------------------------------------------------- restarts on different sources

  /** Whatever source each restart asks for, and whatever the file held before, no id is logged twice. */
  lemma {:induction false} NeverLoggedTwice(items: seq<Item>, log: seq<LogLine>, invs: seq<Invocation>)
    requires Distinct(Ids(items)) && Distinct(LoggedIds(log))
    ensures Distinct(LoggedIds(Runs(items, log, invs)))
    decreases |invs|
  {
    if invs != [] {
      var inv := invs[0];
      var todo := Todo(items, Done(log), inv.source);
      var recs := Work(todo, inv.replies, Spent(log), inv.cap).0;
      TodoIsDistinct(items, Done(log), inv.source);
      TodoIsNotDone(items, Done(log), inv.source);
      WorkWritesPrefix(todo, inv.replies, Spent(log), inv.cap);
      LoggedIdsAppend(log, recs);
      forall id | id in LoggedIds(recs) ensures id !in LoggedIds(log) {
        assert id in Ids(todo);
        assert id !in Done(log);
      }
      JoinDistinct(LoggedIds(log), LoggedIds(recs));
      NeverLoggedTwice(items, log + recs, invs[1..]);
    }
  }

  lemma JoinDistinct(a: seq<string>, b: seq<string>)
    requires Distinct(a) && Distinct(b) && forall id :: id in b ==> id !in a
    ensures Distinct(a + b)
  {
    forall i, j | 0 <= i < j < |a + b| ensures (a + b)[i] != (a + b)[j] {
      if i < |a| <= j {
        assert b[j - |a|] in b;
      }
    }
  }

  lemma IdsPush(it: Item, rest: seq<Item>)
    ensures Ids([it] + rest) == [it.id] + Ids(rest)
  {
  }

  lemma {:induction false} TodoIsNotDone(items: seq<Item>, done: set<string>, source: string)
    ensures forall id :: id in Ids(Todo(items, done, source)) ==> id !in done && id in Ids(items)
  {
    if items != [] {
      TodoIsNotDone(items[1..], done, source);
      IdsPush(items[0], items[1..]);
      IdsPush(items[0], Todo(items[1..], done, source));
      assert items == [items[0]] + items[1..];
    } else {
      assert Ids([]) == [];
    }
  }

  lemma DistinctPush(id: string, ids: seq<string>)
    requires Distinct(ids) && id !in ids
    ensures Distinct([id] + ids)
  {
  }

  lemma DistinctTail(ids: seq<string>)
    requires ids != [] && Distinct(ids)
    ensures Distinct(ids[1..]) && ids[0] !in ids[1..]
  {
  }

  lemma {:induction false} TodoIsDistinct(items: seq<Item>, done: set<string>, source: string)
    requires Distinct(Ids(items))
    ensures Distinct(Ids(Todo(items, done, source)))
  {
    if items != [] {
      var rest := Todo(items[1..], done, source);
      DistinctTail(Ids(items));
      assert Ids(items)[1..] == Ids(items[1..]);
      TodoIsDistinct(items[1..], done, source);
      TodoIsNotDone(items[1..], done, source);
      IdsPush(items[0], rest);
      DistinctPush(items[0].id, Ids(rest));
    }
  }
}
