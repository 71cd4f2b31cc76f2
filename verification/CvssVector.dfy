/** CVSS v3.1 vector strings: the parser, the strings it accepts, and the score as its consumer. */
module CvssVector {
  // ---------------------------------------------------------------- str.split and str.partition

  function Split(s: string, sep: char): (parts: seq<string>)
    ensures parts != []
  {
    if s == "" then [""]
    else
      var rest := Split(s[1..], sep);
      if s[0] == sep then [""] + rest else [s[..1] + rest[0]] + rest[1..]
  }

  function Join(parts: seq<string>, sep: char): string
    requires parts != []
  {
    if |parts| == 1 then parts[0] else parts[0] + [sep] + Join(parts[1..], sep)
  }

  predicate Free(s: string, c: char) {
    forall i :: 0 <= i < |s| ==> s[i] != c
  }

  lemma {:induction false} JoinOfSplit(s: string, sep: char)
    ensures Join(Split(s, sep), sep) == s
  {
    if s != "" {
      JoinOfSplit(s[1..], sep);
      var rest := Split(s[1..], sep);
      if s[0] == sep {
        assert ([""] + rest)[1..] == rest;
        assert s == "" + [sep] + s[1..];
      } else {
        var parts := [s[..1] + rest[0]] + rest[1..];
        assert parts[1..] == rest[1..];
        assert s == s[..1] + s[1..];
        if |rest| > 1 {
          assert s[..1] + (rest[0] + [sep] + Join(rest[1..], sep)) == s[..1] + rest[0] + [sep] + Join(rest[1..], sep);
        }
      }
    }
  }

  lemma {:induction false} SplitAtSeparator(part: string, rest: string, sep: char)
    requires Free(part, sep)
    ensures Split(part, sep) == [part]
    ensures Split(part + [sep] + rest, sep) == [part] + Split(rest, sep)
    decreases |part|
  {
    var s := part + [sep] + rest;
    if part == "" {
      assert s[1..] == rest;
    } else {
      assert part[0] != sep;
      SplitAtSeparator(part[1..], rest, sep);
      assert s[1..] == part[1..] + [sep] + rest;
      assert part[..1] + part[1..] == part;
      assert s[..1] == part[..1];
      assert ([part[1..]] + Split(rest, sep))[1..] == Split(rest, sep);
    }
  }

  lemma {:induction false} SplitOfJoin(parts: seq<string>, sep: char)
    requires parts != [] && forall i :: 0 <= i < |parts| ==> Free(parts[i], sep)
    ensures Split(Join(parts, sep), sep) == parts
  {
    if |parts| == 1 {
      SplitAtSeparator(parts[0], "", sep);
    } else {
      SplitOfJoin(parts[1..], sep);
      SplitAtSeparator(parts[0], Join(parts[1..], sep), sep);
      assert parts == [parts[0]] + parts[1..];
    }
  }

  /** Where the first separator is, or the length. */
  function Find(s: string, c: char): (i: nat)
    ensures i <= |s| && Free(s[..i], c) && (i < |s| ==> s[i] == c)
  {
    if s == "" || s[0] == c then 0
    else
      var i := Find(s[1..], c);
      assert s[..i + 1] == [s[0]] + s[1..][..i];
      i + 1
  }

  lemma {:induction false} FindIs(a: string, c: char, b: string)
    requires Free(a, c)
    ensures Find(a + [c] + b, c) == |a|
    decreases |a|
  {
    var s := a + [c] + b;
    if a != "" {
      assert a[0] != c;
      FindIs(a[1..], c, b);
      assert s[1..] == a[1..] + [c] + b;
    }
  }

  // ---------------------------------------------------------------- the metrics

  const PREFIX := "CVSS:3.1/"
  const NAMES := ["AV", "AC", "PR", "UI", "S", "C", "I", "A"]

  type Metrics = map<string, string>

  /** The values tabled for a metric; none for an unknown name. */
  function Values(name: string): set<string> {
    match name
    case "AV" => {"N", "A", "L", "P"}
    case "AC" => {"L", "H"}
    case "PR" => {"N", "L", "H"}
    case "UI" => {"N", "R"}
    case "S" => {"U", "C"}
    case "C" => {"H", "L", "N"}
    case "I" => {"H", "L", "N"}
    case "A" => {"H", "L", "N"}
    case _ => {}
  }

  datatype Error = NoPrefix | UnknownMetric(part: string) | GivenTwice(name: string)
                 | BadValue(value: string, name: string) | Missing(names: seq<string>)

  datatype Result = Ok(metrics: Metrics) | Err(error: Error)

  function Part(name: string, value: string): string {
    name + ":" + value
  }

  /** The loop over the parts. */
  function Collect(parts: seq<string>, metrics: Metrics): Result {
    if parts == [] then
      var missing := Absent(NAMES, metrics);
      if missing == [] then Ok(metrics) else Err(Missing(missing))
    else
      var part := parts[0];
      var i := Find(part, ':');
      if i == |part| || part[..i] !in NAMES then Err(UnknownMetric(part))
      else if part[..i] in metrics then Err(GivenTwice(part[..i]))
      else if part[i + 1..] !in Values(part[..i]) then Err(BadValue(part[i + 1..], part[..i]))
      else Collect(parts[1..], metrics[part[..i] := part[i + 1..]])
  }

  /** The names that have no metric, in table order. */
  function Absent(names: seq<string>, metrics: Metrics): (missing: seq<string>)
    ensures missing == [] <==> forall i :: 0 <= i < |names| ==> names[i] in metrics
  {
    if names == [] then []
    else (if names[0] in metrics then [] else [names[0]]) + Absent(names[1..], metrics)
  }

  function Parsed(vector: string): Result {
    if PREFIX <= vector then Collect(Split(vector[|PREFIX|..], '/'), map[]) else Err(NoPrefix)
  }

  /** parse */
  method Parse(vector: string) returns (r: Result)
    ensures r == Parsed(vector)
    ensures forall m :: r == Ok(m) <==> IsFull(m) && exists order :: IsOrder(order) && vector == Print(order, m)
  {
    forall m
      ensures Parsed(vector) == Ok(m) <==> IsFull(m) && exists order :: IsOrder(order) && vector == Print(order, m)
    {
      AcceptsExactlyPrinted(vector, m);
    }
    if !(PREFIX <= vector) {
      return Err(NoPrefix);
    }
    var parts, metrics: Metrics := Split(vector[|PREFIX|..], '/'), map[];
    for k := 0 to |parts|
      invariant Parsed(vector) == Collect(parts[k..], metrics)
    {
      var part := parts[k];
      assert parts[k..][0] == part && parts[k..][1..] == parts[k + 1..];
      var i := Find(part, ':');
      var name := part[..i];
      if i == |part| || name !in NAMES {
        return Err(UnknownMetric(part));
      }
      if name in metrics {
        return Err(GivenTwice(name));
      }
      var value := part[i + 1..];
      if value !in Values(name) {
        return Err(BadValue(value, name));
      }
      metrics := metrics[name := value];
    }
    var missing := Absent(NAMES, metrics);
    return if missing == [] then Ok(metrics) else Err(Missing(missing));
  }

  // ---------------------------------------------------------------- printing

  /** Every metric is present, no other, each with a tabled value. */
  ghost predicate IsFull(m: Metrics) {
    (forall n :: n in m <==> n in NAMES) && forall n :: n in m ==> m[n] in Values(n)
  }

  predicate Distinct(names: seq<string>) {
    forall i, j :: 0 <= i < j < |names| ==> names[i] != names[j]
  }

  /** The eight names in some order. */
  ghost predicate IsOrder(order: seq<string>) {
    Distinct(order) && forall n :: n in order <==> n in NAMES
  }

  function PartsOf(order: seq<string>, m: Metrics): (parts: seq<string>)
    requires forall i :: 0 <= i < |order| ==> order[i] in m
    ensures |parts| == |order| && forall i :: 0 <= i < |order| ==> parts[i] == Part(order[i], m[order[i]])
  {
    seq(|order|, i requires 0 <= i < |order| => Part(order[i], m[order[i]]))
  }

  /** A vector with the metrics of m in the order given. */
  function Print(order: seq<string>, m: Metrics): string {
    if order != [] && forall i :: 0 <= i < |order| ==> order[i] in m then PREFIX + Join(PartsOf(order, m), '/') else ""
  }

  lemma NameIsPlain(name: string)
    requires name in NAMES
    ensures Free(name, ':') && Free(name, '/')
  {
  }

  lemma ValueIsPlain(name: string, value: string)
    requires value in Values(name)
    ensures Free(value, '/')
  {
  }

  /** The metrics named so far, with their values in m. */
  ghost predicate Restricts(metrics: Metrics, order: seq<string>, m: Metrics) {
    (forall n :: n in metrics <==> n in order) && forall n :: n in metrics ==> n in m && metrics[n] == m[n]
  }

  /** One printed part is read as its name and value. */
  lemma PartReads(name: string, value: string)
    requires name in NAMES
    ensures var part := Part(name, value); var i := Find(part, ':');
            i < |part| && part[..i] == name && part[i + 1..] == value
  {
    NameIsPlain(name);
    FindIs(name, ':', value);
    assert Part(name, value) == name + [':'] + value;
  }

  lemma CollectReads(parts: seq<string>, name: string, value: string, metrics: Metrics)
    requires parts != [] && parts[0] == Part(name, value)
    requires name in NAMES && name !in metrics && value in Values(name)
    ensures Collect(parts, metrics) == Collect(parts[1..], metrics[name := value])
  {
    PartReads(name, value);
  }

  lemma RestrictsPush(metrics: Metrics, order: seq<string>, m: Metrics, name: string)
    requires Restricts(metrics, order, m) && name in m
    ensures Restricts(metrics[name := m[name]], order + [name], m)
  {
  }

  lemma AllRestricts(metrics: Metrics, order: seq<string>, m: Metrics)
    requires Restricts(metrics, order, m) && forall n :: n in m ==> n in order
    ensures metrics == m
  {
  }

  lemma OrderAt(order: seq<string>, k: nat)
    requires IsOrder(order) && k < |order|
    ensures order[k] in NAMES && order[k] !in order[..k] && order[..k + 1] == order[..k] + [order[k]]
  {
    assert order[k] in order;
  }

  lemma NothingLeft(order: seq<string>, m: Metrics, metrics: Metrics)
    requires IsFull(m) && IsOrder(order) && Restricts(metrics, order, m)
    ensures Collect([], metrics) == Ok(m)
  {
    AllRestricts(metrics, order, m);
  }

  /** Reading the parts of a printed vector collects its metrics. */
  lemma {:induction false} CollectPrinted(order: seq<string>, k: nat, m: Metrics, metrics: Metrics)
    requires IsFull(m) && IsOrder(order) && k <= |order| && Restricts(metrics, order[..k], m)
    requires forall i :: 0 <= i < |order| ==> order[i] in m
    ensures Collect(PartsOf(order, m)[k..], metrics) == Ok(m)
    decreases |order| - k
  {
    var parts := PartsOf(order, m);
    if k == |order| {
      assert order[..k] == order && parts[k..] == [];
      NothingLeft(order, m, metrics);
    } else {
      var name := order[k];
      OrderAt(order, k);
      CollectReads(parts[k..], name, m[name], metrics);
      RestrictsPush(metrics, order[..k], m, name);
      assert parts[k..][1..] == parts[k + 1..];
      CollectPrinted(order, k + 1, m, metrics[name := m[name]]);
    }
  }

  lemma PartIsPlain(name: string, m: Metrics)
    requires IsFull(m) && name in m
    ensures Free(Part(name, m[name]), '/')
  {
    NameIsPlain(name);
    ValueIsPlain(name, m[name]);
  }

  /** Printing the metrics in any order and parsing gives them back. */
  lemma PrintedParses(order: seq<string>, m: Metrics)
    requires IsFull(m) && IsOrder(order)
    ensures Parsed(Print(order, m)) == Ok(m)
  {
    assert NAMES[0] in order;
    forall i | 0 <= i < |order| ensures order[i] in m {
      assert order[i] in order;
      assert order[i] in NAMES;
    }
    var parts := PartsOf(order, m);
    forall i | 0 <= i < |parts| ensures Free(parts[i], '/') {
      PartIsPlain(order[i], m);
    }
    SplitOfJoin(parts, '/');
    var vector := Print(order, m);
    assert vector[|PREFIX|..] == Join(parts, '/');
    assert Restricts(map[], order[..0], m);
    CollectPrinted(order, 0, m, map[]);
    assert parts[0..] == parts;
  }

  /** What the parts name, in order. */
  function NamesOf(parts: seq<string>): (names: seq<string>)
    ensures |names| == |parts|
  {
    if parts == [] then [] else [parts[0][..Find(parts[0], ':')]] + NamesOf(parts[1..])
  }

  /** m adds to `metrics` one known metric for each part, no name twice, and the part spells it. */
  ghost predicate Spelled(parts: seq<string>, names: seq<string>, metrics: Metrics, m: Metrics) {
    && |names| == |parts| && Distinct(names) && SameKeys(names, metrics, m)
    && forall i :: 0 <= i < |names| ==> Spells(parts[i], names[i], m)
  }

  ghost predicate SameKeys(names: seq<string>, metrics: Metrics, m: Metrics) {
    && (forall n :: n in m <==> n in metrics || n in names)
    && (forall n :: n in metrics ==> n in m && m[n] == metrics[n] && n !in names)
  }

  ghost predicate Spells(part: string, name: string, m: Metrics) {
    name in m && name in NAMES && m[name] in Values(name) && part == Part(name, m[name])
  }

  lemma SpelledPush(part: string, name: string, value: string, parts: seq<string>, names: seq<string>,
                    metrics: Metrics, m: Metrics)
    requires name !in metrics && name in NAMES && value in Values(name) && part == Part(name, value)
    requires Spelled(parts, names, metrics[name := value], m)
    ensures Spelled([part] + parts, [name] + names, metrics, m)
  {
    KeysPush(name, value, names, metrics, m);
    SpellsPush(part, name, parts, names, m);
  }

  lemma SpellsPush(part: string, name: string, parts: seq<string>, names: seq<string>, m: Metrics)
    requires |names| == |parts| && Spells(part, name, m) && Distinct(names) && name !in names
    requires forall i :: 0 <= i < |names| ==> Spells(parts[i], names[i], m)
    ensures forall i :: 0 <= i < |names| + 1 ==> Spells(([part] + parts)[i], ([name] + names)[i], m)
    ensures Distinct([name] + names)
  {
  }

  lemma KeysPush(name: string, value: string, names: seq<string>, metrics: Metrics, m: Metrics)
    requires name !in metrics && SameKeys(names, metrics[name := value], m)
    ensures SameKeys([name] + names, metrics, m) && m[name] == value && name !in names
  {
    var metrics' := metrics[name := value];
    assert name in metrics' && m[name] == value && name !in names;
    forall n | n in metrics ensures n in m && m[n] == metrics[n] && n !in [name] + names {
      assert n in metrics' && metrics'[n] == metrics[n];
    }
    forall n ensures n in m <==> n in metrics || n in [name] + names {
      assert n in metrics' <==> n in metrics || n == name;
    }
  }

  lemma CollectUnfolds(parts: seq<string>, metrics: Metrics, m: Metrics) returns (name: string, value: string)
    requires parts != [] && Collect(parts, metrics) == Ok(m)
    ensures name in NAMES && name !in metrics && value in Values(name) && parts[0] == Part(name, value)
    ensures Collect(parts[1..], metrics[name := value]) == Ok(m) && NamesOf(parts) == [name] + NamesOf(parts[1..])
  {
    var part := parts[0];
    var i := Find(part, ':');
    name, value := part[..i], part[i + 1..];
    assert part == part[..i] + [part[i]] + part[i + 1..];
  }

  /** An accepted list of parts spells the metrics it collects, each once. */
  lemma {:induction false} CollectedIsSpelled(parts: seq<string>, metrics: Metrics, m: Metrics)
    requires Collect(parts, metrics) == Ok(m)
    ensures Spelled(parts, NamesOf(parts), metrics, m)
    ensures forall n :: n in NAMES ==> n in m
  {
    if parts != [] {
      var name, value := CollectUnfolds(parts, metrics, m);
      CollectedIsSpelled(parts[1..], metrics[name := value], m);
      SpelledPush(parts[0], name, value, parts[1..], NamesOf(parts[1..]), metrics, m);
      assert parts == [parts[0]] + parts[1..];
    }
  }

  lemma SpelledIsFull(parts: seq<string>, names: seq<string>, m: Metrics)
    requires Spelled(parts, names, map[], m) && forall n :: n in NAMES ==> n in m
    ensures IsFull(m) && IsOrder(names) && (forall i :: 0 <= i < |names| ==> names[i] in m)
            && PartsOf(names, m) == parts
  {
    forall n | n in names ensures n in NAMES && n in m && m[n] in Values(n) {
      var i :| 0 <= i < |names| && names[i] == n;
    }
    forall n | n in m ensures n in names {
    }
  }

  /** Whatever is accepted is a printed vector. */
  lemma AcceptedIsPrinted(vector: string, m: Metrics)
    requires Parsed(vector) == Ok(m)
    ensures IsFull(m) && exists order :: IsOrder(order) && vector == Print(order, m)
  {
    var rest := vector[|PREFIX|..];
    var parts := Split(rest, '/');
    var order := NamesOf(parts);
    CollectedIsSpelled(parts, map[], m);
    SpelledIsFull(parts, order, m);
    JoinOfSplit(rest, '/');
    assert vector == PREFIX + rest;
    assert Print(order, m) == PREFIX + Join(parts, '/');
  }

  /** The accepted strings are exactly the printed ones, with their metrics. */
  lemma AcceptsExactlyPrinted(vector: string, m: Metrics)
    ensures Parsed(vector) == Ok(m) <==> IsFull(m) && exists order :: IsOrder(order) && vector == Print(order, m)
  {
    if Parsed(vector) == Ok(m) {
      AcceptedIsPrinted(vector, m);
    }
    if IsFull(m) && exists order :: IsOrder(order) && vector == Print(order, m) {
      var order :| IsOrder(order) && vector == Print(order, m);
      PrintedParses(order, m);
    }
  }

  // ---------------------------------------------------------------- what is refused, and why

  function NameOf(part: string): string {
    part[..Find(part, ':')]
  }

  /** Part k is a known name, not given before, with a value tabled for it. */
  ghost predicate Good(parts: seq<string>, k: nat)
    requires k < |parts|
  {
    && ':' in parts[k] && NameOf(parts[k]) in NAMES
    && (forall j :: 0 <= j < k ==> NameOf(parts[j]) != NameOf(parts[k]))
    && exists value :: value in Values(NameOf(parts[k])) && parts[k] == Part(NameOf(parts[k]), value)
  }

  ghost predicate FirstBad(parts: seq<string>, b: nat) {
    b < |parts| && !Good(parts, b) && forall j :: 0 <= j < b ==> Good(parts, j)
  }

  /** What is wrong with part b: it is no known metric, its name was given before, or its value is not tabled. */
  ghost predicate BlamesPart(parts: seq<string>, b: nat, e: Error)
    requires b < |parts|
  {
    match e
    case UnknownMetric(part) => parts[b] == part && (':' !in part || NameOf(part) !in NAMES)
    case GivenTwice(name) =>
      && name in NAMES && ':' in parts[b] && NameOf(parts[b]) == name
      && exists j :: 0 <= j < b && NameOf(parts[j]) == name
    case BadValue(value, name) =>
      && name in NAMES && parts[b] == Part(name, value) && value !in Values(name)
      && forall j :: 0 <= j < b ==> NameOf(parts[j]) != name
    case _ => false
  }

  /** All parts are good, and these are the names missing, in table order. */
  ghost predicate OnlyMissing(parts: seq<string>, names: seq<string>) {
    && (forall k :: 0 <= k < |parts| ==> Good(parts, k))
    && names != [] && (forall n :: n in names <==> n in NAMES && forall k :: 0 <= k < |parts| ==> NameOf(parts[k]) != n)
    && forall i, j :: 0 <= i < j < |names| ==> InOrder(NAMES, names[i], names[j])
  }

  /** The error is about the first part that is not good, and when all are good about what is missing. */
  ghost predicate Blames(parts: seq<string>, e: Error) {
    if e.Missing? then OnlyMissing(parts, e.names) else exists b: nat :: FirstBad(parts, b) && BlamesPart(parts, b, e)
  }

  ghost predicate InOrder(names: seq<string>, a: string, b: string) {
    exists i, j :: 0 <= i < j < |names| && names[i] == a && names[j] == b
  }

  lemma {:induction false} AbsentIs(names: seq<string>, metrics: Metrics)
    ensures forall n :: n in Absent(names, metrics) <==> n in names && n !in metrics
    ensures forall i, j :: 0 <= i < j < |Absent(names, metrics)|
              ==> InOrder(names, Absent(names, metrics)[i], Absent(names, metrics)[j])
  {
    if names == [] {
    } else {
      AbsentIs(names[1..], metrics);
      assert forall n :: n in names <==> n == names[0] || n in names[1..];
      AbsentNext(names, Absent(names[1..], metrics), Absent(names, metrics));
    }
  }

  lemma AbsentNext(names: seq<string>, rest: seq<string>, all: seq<string>)
    requires names != [] && (all == rest || all == [names[0]] + rest)
    requires forall n :: n in rest ==> n in names[1..]
    requires forall i, j :: 0 <= i < j < |rest| ==> InOrder(names[1..], rest[i], rest[j])
    ensures forall i, j :: 0 <= i < j < |all| ==> InOrder(names, all[i], all[j])
  {
    forall i, j | 0 <= i < j < |all| ensures InOrder(names, all[i], all[j]) {
      if all == rest {
        InOrderLater(names, all[i], all[j]);
      } else if i > 0 {
        InOrderLater(names, rest[i - 1], rest[j - 1]);
      } else {
        assert rest[j - 1] in names[1..];
        FirstInOrder(names, all[j]);
      }
    }
  }

  lemma InOrderLater(names: seq<string>, a: string, b: string)
    requires names != [] && InOrder(names[1..], a, b)
    ensures InOrder(names, a, b)
  {
    var i, j :| 0 <= i < j < |names[1..]| && names[1..][i] == a && names[1..][j] == b;
    assert names[i + 1] == a && names[j + 1] == b;
  }

  lemma FirstInOrder(names: seq<string>, b: string)
    requires names != [] && b in names[1..]
    ensures InOrder(names, names[0], b)
  {
    var j :| 0 <= j < |names[1..]| && names[1..][j] == b;
    assert names[j + 1] == b;
  }

  /** The metrics hold exactly the names of the first k parts. */
  ghost predicate NamedSoFar(parts: seq<string>, k: nat, metrics: Metrics)
    requires k <= |parts|
  {
    forall n :: n in metrics <==> Naming(parts, k, n)
  }

  ghost predicate Naming(parts: seq<string>, k: nat, name: string)
    requires k <= |parts|
  {
    exists j :: 0 <= j < k && NameOf(parts[j]) == name
  }

  lemma ColonIsFound(part: string)
    ensures ':' in part <==> Find(part, ':') < |part|
  {
    var i := Find(part, ':');
    if i == |part| {
      assert part[..i] == part;
    }
  }

  lemma SplitAtColon(part: string)
    requires ':' in part
    ensures Find(part, ':') < |part| && part == Part(NameOf(part), part[Find(part, ':') + 1..])
  {
    ColonIsFound(part);
    CutAt(part, Find(part, ':'));
  }

  lemma CutAt(s: string, i: nat)
    requires i < |s|
    ensures s == s[..i] + [s[i]] + s[i + 1..]
  {
  }

  lemma ValueIsRest(part: string, value: string)
    requires ':' in part && part == Part(NameOf(part), value)
    ensures Find(part, ':') < |part| && value == part[Find(part, ':') + 1..]
  {
    SplitAtColon(part);
    assert part[|NameOf(part)| + 1..] == value;
  }

  /** A part is good exactly when the loop goes past it. */
  lemma GoodExactlyWhen(parts: seq<string>, k: nat, metrics: Metrics)
    requires k < |parts| && NamedSoFar(parts, k, metrics)
    ensures var part := parts[k];
            var i := Find(part, ':');
            Good(parts, k) <==>
              i < |part| && part[..i] in NAMES && part[..i] !in metrics && part[i + 1..] in Values(part[..i])
  {
    var part := parts[k];
    ColonIsFound(part);
    if ':' in part {
      SplitAtColon(part);
      if Good(parts, k) {
        var value :| value in Values(NameOf(part)) && part == Part(NameOf(part), value);
        ValueIsRest(part, value);
      }
    }
  }

  lemma NamedNext(parts: seq<string>, k: nat, metrics: Metrics, value: string)
    requires k < |parts| && NamedSoFar(parts, k, metrics)
    ensures NamedSoFar(parts, k + 1, metrics[NameOf(parts[k]) := value])
  {
    forall n ensures Naming(parts, k + 1, n) <==> Naming(parts, k, n) || n == NameOf(parts[k]) {
      if Naming(parts, k, n) {
        var j :| 0 <= j < k && NameOf(parts[j]) == n;
      }
    }
  }

  lemma GoodIsCollected(parts: seq<string>, k: nat, metrics: Metrics) returns (metrics': Metrics)
    requires k < |parts| && NamedSoFar(parts, k, metrics) && Good(parts, k)
    ensures NamedSoFar(parts, k + 1, metrics') && Collect(parts[k..], metrics) == Collect(parts[k + 1..], metrics')
  {
    var part := parts[k];
    GoodExactlyWhen(parts, k, metrics);
    var value := part[Find(part, ':') + 1..];
    NamedNext(parts, k, metrics, value);
    metrics' := metrics[NameOf(part) := value];
    assert parts[k..][0] == part && parts[k..][1..] == parts[k + 1..];
  }

  lemma BadPartIsBlamed(parts: seq<string>, k: nat, metrics: Metrics)
    requires k < |parts| && NamedSoFar(parts, k, metrics) && !Good(parts, k)
    ensures Collect(parts[k..], metrics).Err? && !Collect(parts[k..], metrics).error.Missing?
    ensures BlamesPart(parts, k, Collect(parts[k..], metrics).error)
  {
    var part := parts[k];
    assert parts[k..][0] == part;
    GoodExactlyWhen(parts, k, metrics);
    ColonIsFound(part);
    if ':' in part {
      SplitAtColon(part);
    }
  }

  lemma MissingAreListed(parts: seq<string>, metrics: Metrics)
    requires NamedSoFar(parts, |parts|, metrics) && forall j :: 0 <= j < |parts| ==> Good(parts, j)
    ensures Absent(NAMES, metrics) != [] ==> OnlyMissing(parts, Absent(NAMES, metrics))
  {
    AbsentIs(NAMES, metrics);
  }

  lemma {:induction false} CollectBlames(parts: seq<string>, k: nat, metrics: Metrics)
    requires k <= |parts| && NamedSoFar(parts, k, metrics) && forall j :: 0 <= j < k ==> Good(parts, j)
    ensures Collect(parts[k..], metrics).Err? ==> Blames(parts, Collect(parts[k..], metrics).error)
    decreases |parts| - k
  {
    if k == |parts| {
      assert parts[k..] == [];
      MissingAreListed(parts, metrics);
    } else if Good(parts, k) {
      var metrics' := GoodIsCollected(parts, k, metrics);
      CollectBlames(parts, k + 1, metrics');
    } else {
      BadPartIsBlamed(parts, k, metrics);
      assert FirstBad(parts, k);
    }
  }

  /** Without the prefix that is the error; with it, the error is about the first part that is not good. */
  lemma ErrorIsBlamed(vector: string)
    ensures Parsed(vector) == Err(NoPrefix) <==> !(PREFIX <= vector)
    ensures PREFIX <= vector && Parsed(vector).Err? ==> Blames(Split(vector[|PREFIX|..], '/'), Parsed(vector).error)
  {
    if PREFIX <= vector {
      var parts := Split(vector[|PREFIX|..], '/');
      assert parts[0..] == parts;
      CollectBlames(parts, 0, map[]);
    }
  }
}
