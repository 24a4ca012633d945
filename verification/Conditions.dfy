/** setBreakpoints in the server: parsing, realigning results with the request, and the second index,
    conditions by breakpoint id, that must agree with the session's bookkeeping. */
module Conditions {
  import opened Wrappers
  import F = Framing
  import B = Breakpoints

  // ----- Requests -----

  datatype SourceBreakpoint = SourceBreakpoint(
    line: int, column: Option<int>, condition: Option<string>,
    hitCondition: Option<string>, logMessage: Option<string>, mode: Option<string>)

  predicate Blank(s: string) {
    forall i :: 0 <= i < |s| ==> s[i] in " \t\r\n"
  }

  /** Some character is none of blank, tab, carriage return and line feed. */
  ghost predicate HasText(s: string) {
    exists i :: 0 <= i < |s| && s[i] != ' ' && s[i] != '\t' && s[i] != '\r' && s[i] != '\n'
  }

  lemma {:induction false} BlankIs(s: string)
    ensures Blank(s) <==> !HasText(s)
  {
  }

  predicate BlankOption(s: Option<string>) {
    s.None? || Blank(s.value)
  }

  datatype ParseError = UnsupportedOptions | LineOutOfRange

  datatype Parsed = Configurable(spec: B.Spec) | Rejected(error: ParseError)

  predicate Unsupported(r: SourceBreakpoint) {
    r.column.Some? || !BlankOption(r.hitCondition) || !BlankOption(r.logMessage) || !BlankOption(r.mode)
  }

  function Parse(r: SourceBreakpoint): Parsed {
    if Unsupported(r) then Rejected(UnsupportedOptions)
    else if r.line <= 0 || r.line > 0x7fff_ffff then Rejected(LineOutOfRange)
    else Configurable(B.Spec(r.line, r.condition))
  }

  /** The specs of the configurable requests, in order. */
  function Specs(rs: seq<SourceBreakpoint>): (specs: seq<B.Spec>)
    ensures |specs| <= |rs|
    ensures forall i :: 0 <= i < |specs| ==> specs[i].line > 0
  {
    if rs == [] then []
    else
      var p := Parse(rs[|rs| - 1]);
      Specs(rs[..|rs| - 1]) + if p.Configurable? then [p.spec] else []
  }

  /** The position of request i among the configurable ones. */
  function Rank(rs: seq<SourceBreakpoint>, i: nat): nat
    requires i <= |rs|
  {
    |Specs(rs[..i])|
  }

  /** The realignment index stays inside the results, and points at the request's own spec. */
  lemma {:induction false} RankIsOwnSpec(rs: seq<SourceBreakpoint>, i: nat)
    requires i < |rs| && Parse(rs[i]).Configurable?
    ensures Rank(rs, i) < |Specs(rs)|
    ensures Specs(rs)[Rank(rs, i)] == Parse(rs[i]).spec
  {
    hide Parse;
    var n := |rs| - 1;
    if i < n {
      RankIsOwnSpec(rs[..n], i);
      assert rs[..n][..i] == rs[..i];
    }
  }

  lemma {:induction false} SpecsUpTo(rs: seq<SourceBreakpoint>, i: nat)
    requires i < |rs|
    ensures Specs(rs[..i + 1])
         == Specs(rs[..i]) + if Parse(rs[i]).Configurable? then [Parse(rs[i]).spec] else []
  {
    assert rs[..i + 1][..i] == rs[..i];
  }

  /** What the adapter cannot do: a column, a hit condition, a log message or a mode that says something, or a
      line outside 1 to 2147483647. */
  ghost predicate Refused(r: SourceBreakpoint) {
    || r.column.Some?
    || (r.hitCondition.Some? && HasText(r.hitCondition.value))
    || (r.logMessage.Some? && HasText(r.logMessage.value))
    || (r.mode.Some? && HasText(r.mode.value))
    || r.line < 1 || r.line > 2147483647
  }

  lemma {:induction false} RefusedIs(r: SourceBreakpoint)
    ensures Parse(r) == Configurable(B.Spec(r.line, r.condition)) <==> !Refused(r)
    ensures Parse(r).Rejected? <==> Refused(r)
  {
    hide Blank, HasText;
    if r.hitCondition.Some? {
      BlankIs(r.hitCondition.value);
    }
    if r.logMessage.Some? {
      BlankIs(r.logMessage.value);
    }
    if r.mode.Some? {
      BlankIs(r.mode.value);
    }
  }

  /** A refused request adds no spec, and so no engine command; every other one adds its line and condition. */
  lemma {:induction false} SpecsOfUnrefused(rs: seq<SourceBreakpoint>, i: nat)
    requires i < |rs|
    ensures Specs(rs[..i + 1])
         == Specs(rs[..i]) + if Refused(rs[i]) then [] else [B.Spec(rs[i].line, rs[i].condition)]
  {
    SpecsUpTo(rs, i);
    RefusedIs(rs[i]);
    hide Specs, Parse, Refused;
  }

  /** What the client is told of request i: refused, or verified with id x exactly when the command that serves
      its line and condition added just x. */
  lemma {:induction false} ResponseExactly(live: set<int>, rs: seq<SourceBreakpoint>, answer: nat -> set<int>, i: nat, x: int)
    requires i < |rs|
    ensures ResponseTo(live, rs, answer, i).Failed? <==> Refused(rs[i])
    ensures Refused(rs[i]) ==>
              var error := if Refused(rs[i].(line := 1)) then UnsupportedOptions else LineOutOfRange;
              ResponseTo(live, rs, answer, i) == Failed(error, rs[i].line)
    ensures !Refused(rs[i]) ==>
              && Rank(rs, i) < |Specs(rs)| && Specs(rs)[Rank(rs, i)] == B.Spec(rs[i].line, rs[i].condition)
              && (ResponseTo(live, rs, answer, i) == Answered(B.Outcome(Some(x), rs[i].line, B.Fine))
                  <==> B.AddsJust(live, answer, B.CommandOf(Specs(rs), Rank(rs, i)), x))
  {
    hide Specs, Refused, B.Fate, B.AddsJust, B.CommandOf, BlankOption;
    RefusedIs(rs[i]);
    RefusedIs(rs[i].(line := 1));
    if !Refused(rs[i]) {
      RankIsOwnSpec(rs, i);
      B.FateIs(live, answer, B.CommandOf(Specs(rs), Rank(rs, i)), x);
    }
  }

  datatype Response = Failed(error: ParseError, line: int) | Answered(outcome: B.Outcome)

  /** What request i is told: its parse error, or the outcome of the command that serves its own
      (line, condition) key. */
  function ResponseTo(live: set<int>, rs: seq<SourceBreakpoint>, answer: nat -> set<int>, i: nat): Response
    requires i < |rs|
  {
    match Parse(rs[i])
    case Rejected(error) => Failed(error, rs[i].line)
    case Configurable(spec) =>
      RankIsOwnSpec(rs, i);
      Answered(B.OutcomeOf(rs[i].line, B.Fate(live, answer, B.CommandOf(Specs(rs), Rank(rs, i)))))
  }

  /** The loop that walks the parsed requests and the configured results side by side. */
  method Realign(rs: seq<SourceBreakpoint>, configured: seq<B.Outcome>,
                 ghost live: set<int>, ghost answer: nat -> set<int>)
    returns (response: seq<Response>)
    requires configured == B.SourceOutcomes(live, Specs(rs), answer)
    ensures |response| == |rs|
    ensures forall i :: 0 <= i < |rs| ==> response[i] == ResponseTo(live, rs, answer, i)
  {
    hide B.Fate, Specs, B.CommandOf, Parse;
    response := [];
    var configuredIndex := 0;
    assert configuredIndex == Rank(rs, 0) by {
      NoSpecs(rs);
    }
    for i := 0 to |rs|
      invariant |response| == i && configuredIndex == Rank(rs, i)
      invariant forall k :: 0 <= k < i ==> response[k] == ResponseTo(live, rs, answer, k)
    {
      SpecsUpTo(rs, i);
      match Parse(rs[i]) {
        case Rejected(error) =>
          response := response + [Failed(error, rs[i].line)];
        case Configurable(spec) =>
          RankIsOwnSpec(rs, i);
          SpecLine(rs[i]);
          response := response + [Answered(configured[configuredIndex])];
          configuredIndex := configuredIndex + 1;
      }
    }
  }

  lemma {:induction false} NoSpecs(rs: seq<SourceBreakpoint>)
    ensures Rank(rs, 0) == 0
  {
  }

  lemma {:induction false} SpecLine(r: SourceBreakpoint)
    ensures Parse(r).Configurable? ==> Parse(r).spec.line == r.line > 0 && Parse(r).spec.condition == r.condition
  {
  }

  // ----- Conditions by id -----

  datatype Table = Table(conditions: map<int, string>, idsByPath: map<string, seq<int>>)

  function PathIds(t: Table, path: string): seq<int> {
    if path in t.idsByPath then t.idsByPath[path] else []
  }

  function Clear(t: Table, path: string): Table {
    Table(t.conditions - B.Ids(PathIds(t, path)), t.idsByPath - {path})
  }

  /** A result that gets a condition. */
  predicate Conditional(spec: B.Spec, outcome: B.Outcome) {
    spec.condition.Some? && !Blank(spec.condition.value) && outcome.Verified() && outcome.id.Some?
  }

  /** The table after the first n results of a call have been recorded. */
  function Record(t: Table, path: string, specs: seq<B.Spec>, outcomes: seq<B.Outcome>, n: nat): Table
    requires n <= |specs| && n <= |outcomes|
  {
    if n == 0 then t
    else
      var r := Record(t, path, specs, outcomes, n - 1);
      if Conditional(specs[n - 1], outcomes[n - 1]) then
        var id := outcomes[n - 1].id.value;
        Table(r.conditions[id := specs[n - 1].condition.value],
              r.idsByPath[path := PathIds(r, path) + [id]])
      else r
  }

  function Update(t: Table, path: string, specs: seq<B.Spec>, outcomes: seq<B.Outcome>): Table {
    Record(Clear(t, path), path, specs, outcomes, if |specs| < |outcomes| then |specs| else |outcomes|)
  }

  class ConditionTable {
    var conditions: map<int, string>
    var idsByPath: map<string, seq<int>>

    ghost function State(): Table
      reads this
    {
      Table(conditions, idsByPath)
    }

    constructor ()
      ensures State() == Table(map[], map[])
    {
      conditions := map[];
      idsByPath := map[];
    }

    method ClearPath(path: string)
      modifies this
      ensures State() == Clear(old(State()), path)
    {
      if path !in idsByPath {
        assert idsByPath - {path} == idsByPath;
        assert conditions - B.Ids([]) == conditions;
        return;
      }
      var ids := idsByPath[path];
      for i := 0 to |ids|
        invariant conditions == old(conditions) - B.Ids(ids[..i]) && idsByPath == old(idsByPath)
      {
        conditions := conditions - {ids[i]};
        assert ids[..i + 1] == ids[..i] + [ids[i]];
      }
      assert ids[..|ids|] == ids;
      idsByPath := idsByPath - {path};
    }

    method UpdatePath(path: string, configured: seq<B.Outcome>, requested: seq<B.Spec>)
      modifies this
      ensures State() == Update(old(State()), path, requested, configured)
    {
      ClearPath(path);
      ghost var start := State();
      var count := if |configured| < |requested| then |configured| else |requested|;
      for i := 0 to count
        invariant State() == Record(start, path, requested, configured, i)
      {
        if !requested[i].condition.Some? || Blank(requested[i].condition.value)
           || !configured[i].Verified() || !configured[i].id.Some?
        {
          continue;
        }
        var id := configured[i].id.value;
        conditions := conditions[id := requested[i].condition.value];
        idsByPath := idsByPath[path := (if path in idsByPath then idsByPath[path] else []) + [id]];
      }
    }
  }

  // ----- Runs -----

  /** A request that changes breakpoints.  `path` is absent or as the client spells it. */
  datatype Request =
    | SetBreakpoints(sourceReference: Option<int>, path: Option<string>, rs: seq<SourceBreakpoint>)
    | SetCommands(kind: B.Kind, count: nat)

  /** A request together with the engine's behaviour while it is served. */
  datatype Op = Op(request: Request, answer: nat -> set<int>)

  /** Whether setBreakpoints reaches the session's bookkeeping: otherwise it ends in an error response.
      The server refuses paths of blanks, tabs and line ends, the session every path of white space. */
  predicate Accepted(r: Request) {
    r.SetBreakpoints? ==>
      && !(r.sourceReference.Some? && r.sourceReference.value > 0)
      && r.path.Some? && UsablePath(r.path.value)
  }

  predicate UsablePath(path: string) {
    !Blank(path) && exists i :: 0 <= i < |path| && !F.IsSpace(path[i])
  }

  /** Refused outright: a source reference, no path, or a path of white space only. */
  lemma {:induction false} AcceptedIs(r: Request)
    requires r.SetBreakpoints?
    ensures Accepted(r)
       <==> && (r.sourceReference.None? || r.sourceReference.value <= 0)
            && r.path.Some?
            && exists i :: 0 <= i < |r.path.value|
                 && r.path.value[i] !in {' ', '\t', '\n', '\r', '\U{0B}', '\U{0C}'}
  {
    if r.path.Some? {
      var path := r.path.value;
      if i :| 0 <= i < |path| && path[i] !in {' ', '\t', '\n', '\r', '\U{0B}', '\U{0C}'} {
        assert !F.IsSpace(path[i]) && path[i] !in " \t\r\n";
      }
    }
  }

  /** The last setBreakpoints call for a file: its specs and their outcomes. */
  datatype Call = Call(specs: seq<B.Spec>, outcomes: seq<B.Outcome>)

  /** The session's book, the server's table, and, for reference, the last call for each file. */
  datatype World = World(book: B.Book, table: Table, last: map<string, Call>)

  function Init(live: set<int>): World {
    World(B.Book(live, map[], [], [], []), Table(map[], map[]), map[])
  }

  /** The session finds a file by `key` of its path (full path, upper-cased), the server by the path
      as spelled. */
  function Step(key: string -> string, w: World, op: Op): World {
    if !Accepted(op.request) then w
    else match op.request
         case SetCommands(kind, count) => w.(book := B.Replace(w.book, B.Command(kind), count, op.answer))
         case SetBreakpoints(_, path, rs) => SetFile(key(path.value), path.value, w, Specs(rs), op.answer)
  }

  function SetFile(file: string, path: string, w: World, specs: seq<B.Spec>, answer: nat -> set<int>): World {
    var outcomes := B.SourceOutcomes(B.Cleared(w.book, B.Source(file)), specs, answer);
    World(B.SetSource(w.book, file, specs, answer),
          Update(w.table, path, specs, outcomes),
          w.last[file := Call(specs, outcomes)])
  }

  function Run(key: string -> string, live: set<int>, ops: seq<Op>): World {
    if ops == [] then Init(live) else Step(key, Run(key, live, ops[..|ops| - 1]), ops[|ops| - 1])
  }

  // ----- Agreement -----

  /** Call c asked for breakpoint id with the non-blank condition text. */
  ghost predicate Asks(c: Call, id: int, text: string) {
    exists i :: 0 <= i < |c.specs| && 0 <= i < |c.outcomes|
      && c.outcomes[i].id == Some(id) && c.outcomes[i].Verified()
      && c.specs[i].condition == Some(text) && HasText(text)
  }

  ghost predicate AskedFor(last: map<string, Call>, id: int, text: string) {
    exists file :: file in last && Asks(last[file], id, text)
  }

  /** An id has a condition exactly when the last call for some file asked for it with that condition. */
  ghost predicate Agrees(w: World) {
    forall id, text :: (id in w.table.conditions && w.table.conditions[id] == text) <==> AskedFor(w.last, id, text)
  }

  /** Call c reported id to the client. */
  ghost predicate Reports(c: Call, id: int) {
    exists i :: 0 <= i < |c.outcomes| && c.outcomes[i].id == Some(id)
  }

  /** Call c asked for a condition on id. */
  ghost predicate HasCondition(c: Call, id: int) {
    exists text :: Asks(c, id, text)
  }

  /** The calls of record: the session tracks, for each file, exactly the ids its last call reported. */
  ghost predicate Recorded(w: World) {
    && (forall file, id :: id in B.IdsOf(w.book, B.Source(file))
          <==> file in w.last && Reports(w.last[file], id))
    && (forall file :: file in w.last ==> WellFormed(w.last[file]))
  }

  /** Within a call an id has at most one non-blank condition. */
  ghost predicate WellFormed(c: Call) {
    && |c.specs| == |c.outcomes|
    && (forall i :: 0 <= i < |c.outcomes| ==> (c.outcomes[i].Verified() <==> c.outcomes[i].id.Some?))
    && (forall id, s, t :: Asks(c, id, s) && Asks(c, id, t) ==> s == t)
  }

  /** The paths as spelled and the files they name correspond. */
  ghost predicate SameSpelling(key: string -> string, paths: set<string>) {
    forall p, q :: p in paths && q in paths && key(p) == key(q) ==> p == q
  }

  ghost predicate Uses(ops: seq<Op>, paths: set<string>) {
    forall i :: 0 <= i < |ops| && ops[i].request.SetBreakpoints? && Accepted(ops[i].request) ==>
      ops[i].request.path.value in paths
  }

  /** The server's per-path lists hold exactly the ids that have a condition. */
  ghost predicate Listed(key: string -> string, paths: set<string>, w: World) {
    && (forall path :: path in w.table.idsByPath ==> path in paths)
    && (forall file :: file in w.last ==> exists path :: path in paths && key(path) == file)
    && (forall path, id :: path in paths ==>
          (id in PathIds(w.table, path) <==> key(path) in w.last && HasCondition(w.last[key(path)], id)))
  }

  ghost predicate Invariant(key: string -> string, paths: set<string>, w: World) {
    B.Consistent(w.book) && Recorded(w) && Listed(key, paths, w) && Agrees(w)
  }

  lemma {:induction false} CallIsWellFormed(live: set<int>, specs: seq<B.Spec>, answer: nat -> set<int>)
    requires forall i :: 0 <= i < |specs| ==> specs[i].line > 0
    ensures WellFormed(Call(specs, B.SourceOutcomes(live, specs, answer)))
  {
    B.ResultsFollowRequests(live, specs, answer);
    hide B.SourceOutcomes, B.SpecKey;
    var c := Call(specs, B.SourceOutcomes(live, specs, answer));
    forall id, s, t | Asks(c, id, s) && Asks(c, id, t) ensures s == t {
      var i :| 0 <= i < |c.specs| && c.outcomes[i].id == Some(id) && c.outcomes[i].Verified()
               && c.specs[i].condition == Some(s) && HasText(s);
      var j :| 0 <= j < |c.specs| && c.outcomes[j].id == Some(id) && c.outcomes[j].Verified()
               && c.specs[j].condition == Some(t) && HasText(t);
      B.SameKey(specs[i], specs[j]);
      assert {specs[i].condition, specs[j].condition} != {None, Some("\U{1E}")} by {
        assert None !in {specs[i].condition, specs[j].condition};
      }
    }
  }

  /** One of the first n results of call c gives id the condition text. */
  ghost predicate AsksWithin(c: Call, n: nat, id: int, text: string)
    requires n <= |c.specs| && n <= |c.outcomes|
  {
    exists i :: 0 <= i < n && c.outcomes[i].id == Some(id) && Conditional(c.specs[i], c.outcomes[i])
                && c.specs[i].condition == Some(text)
  }

  ghost predicate GetsWithin(c: Call, n: nat, id: int)
    requires n <= |c.specs| && n <= |c.outcomes|
  {
    exists text :: AsksWithin(c, n, id, text)
  }

  lemma {:induction false} AsksWithinNext(c: Call, n: nat, id: int, text: string)
    requires n < |c.specs| && n < |c.outcomes|
    ensures AsksWithin(c, n + 1, id, text)
       <==> AsksWithin(c, n, id, text)
            || (Conditional(c.specs[n], c.outcomes[n]) && c.outcomes[n].id == Some(id)
                && c.specs[n].condition == Some(text))
  {
    hide Conditional;
  }

  lemma {:induction false} GetsWithinNext(c: Call, n: nat, id: int)
    requires n < |c.specs| && n < |c.outcomes|
    ensures GetsWithin(c, n + 1, id)
       <==> GetsWithin(c, n, id) || (Conditional(c.specs[n], c.outcomes[n]) && c.outcomes[n].id == Some(id))
  {
    hide AsksWithin;
    if Conditional(c.specs[n], c.outcomes[n]) && c.outcomes[n].id == Some(id) {
      AsksWithinNext(c, n, id, c.specs[n].condition.value);
    }
    if text :| AsksWithin(c, n, id, text) {
      AsksWithinNext(c, n, id, text);
    }
    var m := n + 1;
    if text :| AsksWithin(c, m, id, text) {
      AsksWithinNext(c, n, id, text);
    }
  }

  /** Recording changes the condition of exactly the ids the call asks for. */
  lemma {:induction false} RecordConditions(t: Table, path: string, c: Call, n: nat, id: int)
    requires n <= |c.specs| && n <= |c.outcomes|
    ensures var r := Record(t, path, c.specs, c.outcomes, n);
            && (GetsWithin(c, n, id) ==>
                  id in r.conditions && AsksWithin(c, n, id, r.conditions[id]))
            && (!GetsWithin(c, n, id) ==>
                  (id in r.conditions <==> id in t.conditions)
                  && (id in t.conditions ==> r.conditions[id] == t.conditions[id]))
  {
    hide AsksWithin;
    if n == 0 {
      forall text ensures !AsksWithin(c, 0, id, text) {
        NothingAskedYet(c, id, text);
      }
    } else {
      var was := Record(t, path, c.specs, c.outcomes, n - 1);
      RecordConditions(t, path, c, n - 1, id);
      GetsWithinNext(c, n - 1, id);
      hide GetsWithin;
      if Conditional(c.specs[n - 1], c.outcomes[n - 1]) && c.outcomes[n - 1].id == Some(id) {
        AsksWithinNext(c, n - 1, id, c.specs[n - 1].condition.value);
      } else if id in was.conditions {
        AsksWithinNext(c, n - 1, id, was.conditions[id]);
      }
    }
  }

  lemma {:induction false} NothingAskedYet(c: Call, id: int, text: string)
    ensures !AsksWithin(c, 0, id, text)
  {
  }

  lemma {:induction false} RecordOtherPaths(t: Table, path: string, c: Call, n: nat, other: string)
    requires n <= |c.specs| && n <= |c.outcomes| && other != path
    ensures var r := Record(t, path, c.specs, c.outcomes, n);
            (other in r.idsByPath <==> other in t.idsByPath) && PathIds(r, other) == PathIds(t, other)
  {
    if n > 0 {
      RecordOtherPaths(t, path, c, n - 1, other);
    }
  }

  lemma {:induction false} RecordPath(t: Table, path: string, c: Call, n: nat, id: int)
    requires n <= |c.specs| && n <= |c.outcomes|
    ensures id in PathIds(Record(t, path, c.specs, c.outcomes, n), path)
       <==> id in PathIds(t, path) || GetsWithin(c, n, id)
  {
    hide AsksWithin;
    if n == 0 {
      forall text ensures !AsksWithin(c, 0, id, text) {
        NothingAskedYet(c, id, text);
      }
    } else {
      RecordPath(t, path, c, n - 1, id);
      GetsWithinNext(c, n - 1, id);
      RecordPathStep(t, path, c, n, id);
    }
  }

  lemma {:induction false} RecordPathStep(t: Table, path: string, c: Call, n: nat, id: int)
    requires 0 < n <= |c.specs| && n <= |c.outcomes|
    ensures id in PathIds(Record(t, path, c.specs, c.outcomes, n), path)
       <==> id in PathIds(Record(t, path, c.specs, c.outcomes, n - 1), path)
            || (Conditional(c.specs[n - 1], c.outcomes[n - 1]) && c.outcomes[n - 1].id == Some(id))
  {
  }

  lemma {:induction false} AsksIsWithin(c: Call, id: int, text: string)
    requires WellFormed(c)
    ensures Asks(c, id, text) <==> AsksWithin(c, |c.specs|, id, text)
  {
    BlankIs(text);
    hide Blank, HasText;
    if i :| 0 <= i < |c.specs| && c.outcomes[i].id == Some(id) && c.outcomes[i].Verified()
            && c.specs[i].condition == Some(text) && HasText(text)
    {
      assert Conditional(c.specs[i], c.outcomes[i]);
    }
  }

  /** The table after a call for `path`: the ids the call asks for have their condition, the ids the
      path had before have none, and the others are as before. */
  lemma {:induction false} UpdateConditions(t: Table, path: string, c: Call, id: int)
    requires WellFormed(c)
    ensures var r := Update(t, path, c.specs, c.outcomes);
            && (HasCondition(c, id) ==> id in r.conditions && Asks(c, id, r.conditions[id]))
            && (!HasCondition(c, id) ==>
                  (id in r.conditions <==> id in t.conditions && id !in PathIds(t, path))
                  && (id in r.conditions ==> r.conditions[id] == t.conditions[id]))
            && (id in PathIds(r, path) <==> HasCondition(c, id))
            && (forall other :: other != path ==> (other in r.idsByPath <==> other in t.idsByPath)
                                                  && PathIds(r, other) == PathIds(t, other))
  {
    forall text ensures Asks(c, id, text) <==> AsksWithin(c, |c.specs|, id, text) {
      AsksIsWithin(c, id, text);
    }
    var cleared := Clear(t, path);
    RecordConditions(cleared, path, c, |c.specs|, id);
    RecordPath(cleared, path, c, |c.specs|, id);
    hide Asks, AsksWithin, Record, WellFormed;
    var r := Update(t, path, c.specs, c.outcomes);
    assert r == Record(cleared, path, c.specs, c.outcomes, |c.specs|);
    forall other | other != path
      ensures (other in r.idsByPath <==> other in t.idsByPath) && PathIds(r, other) == PathIds(t, other)
    {
      RecordOtherPaths(cleared, path, c, |c.specs|, other);
      assert PathIds(cleared, other) == PathIds(t, other);
    }
  }

  /** After a call for a file, the session tracks for it exactly the ids the call reports, and for
      every other owner what it tracked before. */
  lemma {:induction false} BookAfter(b: B.Book, file: string, specs: seq<B.Spec>, answer: nat -> set<int>)
    requires B.Consistent(b)
    ensures var r := B.SetSource(b, file, specs, answer);
            var c := Call(specs, B.SourceOutcomes(B.Cleared(b, B.Source(file)), specs, answer));
            && B.Consistent(r)
            && (forall id :: id in B.IdsOf(r, B.Source(file)) <==> Reports(c, id))
            && (forall o :: o != B.Source(file) ==> B.IdsOf(r, o) == B.IdsOf(b, o))
  {
    var o := B.Source(file);
    var live := B.Cleared(b, o);
    var r := B.SetSource(b, file, specs, answer);
    var c := Call(specs, B.SourceOutcomes(live, specs, answer));
    if specs == [] {
      B.ForgetIsConsistent(b, file);
    } else {
      B.ReplaceIsConsistent(b, o, |B.Distinct(specs)|, answer);
      B.OwnAfterReplace(b, o, |B.Distinct(specs)|, answer);
      forall id ensures id in B.IdsOf(r, o) <==> Reports(c, id) {
        B.ResultsNameTrackedIds(live, specs, answer, id);
      }
    }
  }

  lemma {:induction false} BookKeeps(file: string, path: string, w: World, specs: seq<B.Spec>, answer: nat -> set<int>)
    requires B.Consistent(w.book) && Recorded(w) && forall i :: 0 <= i < |specs| ==> specs[i].line > 0
    ensures B.Consistent(SetFile(file, path, w, specs, answer).book)
    ensures Recorded(SetFile(file, path, w, specs, answer))
  {
    hide B.IdsOf, B.Consistent, B.SetSource, B.SourceOutcomes, WellFormed, Update, Reports;
    var live := B.Cleared(w.book, B.Source(file));
    var r := SetFile(file, path, w, specs, answer);
    BookAfter(w.book, file, specs, answer);
    CallIsWellFormed(live, specs, answer);
    forall f, id
      ensures id in B.IdsOf(r.book, B.Source(f)) <==> f in r.last && Reports(r.last[f], id)
    {
      if f != file {
        assert B.IdsOf(r.book, B.Source(f)) == B.IdsOf(w.book, B.Source(f));
      }
    }
  }

  /** An id asked for by the call of record of a file is tracked, and live, for that file. */
  lemma {:induction false} AskedIsTracked(w: World, file: string, id: int, text: string)
    requires Recorded(w) && file in w.last && Asks(w.last[file], id, text)
    ensures id in B.IdsOf(w.book, B.Source(file))
    ensures B.Consistent(w.book) ==> id in w.book.live
  {
    var c := w.last[file];
    var i :| 0 <= i < |c.specs| && 0 <= i < |c.outcomes|
      && c.outcomes[i].id == Some(id) && c.outcomes[i].Verified()
      && c.specs[i].condition == Some(text) && HasText(text);
    assert id in B.IdsOf(w.book, B.Source(file));
    assert id in B.Ids(B.IdsOf(w.book, B.Source(file)));
  }

  /** No id is asked for by the calls of two files. */
  lemma {:induction false} AskedOnce(w: World, f: string, g: string, id: int, s: string, t: string)
    requires B.Consistent(w.book) && Recorded(w)
    requires f in w.last && g in w.last && Asks(w.last[f], id, s) && Asks(w.last[g], id, t)
    ensures f == g
  {
    AskedIsTracked(w, f, id, s);
    AskedIsTracked(w, g, id, t);
    hide Recorded, Asks, B.IdsOf;
    var o, p := B.Source(f), B.Source(g);
    assert id in B.Ids(B.IdsOf(w.book, o)) && id in B.Ids(B.IdsOf(w.book, p));
    assert o != p ==> B.Ids(B.IdsOf(w.book, o)) !! B.Ids(B.IdsOf(w.book, p));
  }

  lemma {:induction false} AgreesAt(key: string -> string, paths: set<string>, w: World, r: World,
                   path: string, c: Call, id: int, text: string)
    requires Invariant(key, paths, w) && path in paths
    requires B.Consistent(r.book) && Recorded(r) && WellFormed(c)
    requires r.table == Update(w.table, path, c.specs, c.outcomes) && r.last == w.last[key(path) := c]
    ensures (id in r.table.conditions && r.table.conditions[id] == text) <==> AskedFor(r.last, id, text)
  {
    UpdateConditions(w.table, path, c, id);
    assert r.last[key(path)] == c;
    if HasCondition(c, id) {
      AgreesOnNew(w, r, key(path), c, id, text);
    } else {
      AgreesOnOld(key, paths, w, r, path, c, id, text);
    }
  }

  lemma {:induction false} AgreesOnNew(w: World, r: World, file: string, c: Call, id: int, text: string)
    requires B.Consistent(r.book) && Recorded(r) && WellFormed(c)
    requires r.last == w.last[file := c] && HasCondition(c, id)
    requires id in r.table.conditions && Asks(c, id, r.table.conditions[id])
    ensures r.table.conditions[id] == text <==> AskedFor(r.last, id, text)
  {
    hide Asks, B.Consistent, Recorded;
    assert r.last[file] == c;
    var s := r.table.conditions[id];
    forall f | f in r.last && Asks(r.last[f], id, text) ensures f == file {
      AskedOnce(r, f, file, id, text, s);
    }
  }

  lemma {:induction false} AgreesOnOld(key: string -> string, paths: set<string>, w: World, r: World,
                      path: string, c: Call, id: int, text: string)
    requires Invariant(key, paths, w) && path in paths
    requires r.last == w.last[key(path) := c] && !HasCondition(c, id)
    requires id in r.table.conditions <==> id in w.table.conditions && id !in PathIds(w.table, path)
    requires id in r.table.conditions ==> r.table.conditions[id] == w.table.conditions[id]
    ensures (id in r.table.conditions && r.table.conditions[id] == text) <==> AskedFor(r.last, id, text)
  {
    hide Asks, B.Consistent, Recorded, PathIds;
    var file := key(path);
    assert AskedFor(w.last, id, text) <==> id in w.table.conditions && w.table.conditions[id] == text;
    assert id in PathIds(w.table, path) <==> file in w.last && HasCondition(w.last[file], id);
    assert forall f :: f in r.last && Asks(r.last[f], id, text) ==> f != file && f in w.last && r.last[f] == w.last[f];
    if AskedFor(r.last, id, text) {
      var f :| f in r.last && Asks(r.last[f], id, text);
      assert AskedFor(w.last, id, text);
      if file in w.last && HasCondition(w.last[file], id) {
        var s :| Asks(w.last[file], id, s);
        AskedOnce(w, f, file, id, text, s);
        assert false;
      }
    } else if AskedFor(w.last, id, text) {
      var f :| f in w.last && Asks(w.last[f], id, text);
      assert f in r.last && (f != file ==> r.last[f] == w.last[f]);
    }
  }

  lemma {:induction false} ListedAfter(key: string -> string, paths: set<string>, w: World, r: World, path: string, c: Call)
    requires Listed(key, paths, w) && path in paths && SameSpelling(key, paths) && WellFormed(c)
    requires r.table == Update(w.table, path, c.specs, c.outcomes) && r.last == w.last[key(path) := c]
    ensures Listed(key, paths, r)
  {
    forall id
      ensures id in PathIds(r.table, path) <==> HasCondition(c, id)
    {
      UpdateConditions(w.table, path, c, id);
    }
    UpdateConditions(w.table, path, c, 0);
    hide HasCondition, Update, PathIds, WellFormed;
    assert r.last[key(path)] == c;
    forall file | file in r.last ensures exists p :: p in paths && key(p) == file {
      if file == key(path) {
        assert path in paths;
      }
    }
    forall other, id | other in paths
      ensures id in PathIds(r.table, other) <==> key(other) in r.last && HasCondition(r.last[key(other)], id)
    {
      if other != path {
        assert key(other) != key(path);
        assert PathIds(r.table, other) == PathIds(w.table, other);
      }
    }
  }

  lemma {:induction false} StepKeepsInvariant(key: string -> string, paths: set<string>, w: World, op: Op)
    requires Invariant(key, paths, w) && SameSpelling(key, paths) && Uses([op], paths)
    ensures Invariant(key, paths, Step(key, w, op))
  {
    if Accepted(op.request) {
      match op.request {
        case SetCommands(kind, count) =>
          CommandsKeepInvariant(key, paths, w, kind, count, op.answer);
        case SetBreakpoints(_, path, rs) =>
          assert [op][0].request.path.value in paths;
          FileKeepsInvariant(key, paths, w, path.value, Specs(rs), op.answer);
      }
    }
  }

  lemma {:induction false} AgreesIgnoresBook(key: string -> string, paths: set<string>, w: World, book: B.Book)
    requires Agrees(w) && Listed(key, paths, w)
    ensures Agrees(w.(book := book)) && Listed(key, paths, w.(book := book))
  {
  }

  lemma {:induction false} CommandsKeepInvariant(key: string -> string, paths: set<string>, w: World,
                                kind: B.Kind, count: nat, answer: nat -> set<int>)
    requires Invariant(key, paths, w)
    ensures Invariant(key, paths, w.(book := B.Replace(w.book, B.Command(kind), count, answer)))
  {
    B.ReplaceIsConsistent(w.book, B.Command(kind), count, answer);
    hide B.Replace, B.Consistent, WellFormed, B.IdsOf, Reports, Agrees, Listed;
    AgreesIgnoresBook(key, paths, w, B.Replace(w.book, B.Command(kind), count, answer));
    var r := w.(book := B.Replace(w.book, B.Command(kind), count, answer));
    assert forall file :: B.IdsOf(r.book, B.Source(file)) == B.IdsOf(w.book, B.Source(file));
  }

  lemma {:induction false} FileKeepsInvariant(key: string -> string, paths: set<string>, w: World,
                             path: string, specs: seq<B.Spec>, answer: nat -> set<int>)
    requires Invariant(key, paths, w) && SameSpelling(key, paths) && path in paths
    requires forall i :: 0 <= i < |specs| ==> specs[i].line > 0
    ensures Invariant(key, paths, SetFile(key(path), path, w, specs, answer))
  {
    hide Recorded, B.Consistent, Listed, WellFormed, B.SourceOutcomes, B.SetSource, AskedFor;
    var live := B.Cleared(w.book, B.Source(key(path)));
    var c := Call(specs, B.SourceOutcomes(live, specs, answer));
    var r := SetFile(key(path), path, w, specs, answer);
    CallIsWellFormed(live, specs, answer);
    BookKeeps(key(path), path, w, specs, answer);
    ListedAfter(key, paths, w, r, path, c);
    forall id, text
      ensures (id in r.table.conditions && r.table.conditions[id] == text) <==> AskedFor(r.last, id, text)
    {
      AgreesAt(key, paths, w, r, path, c, id, text);
    }
  }

  /** After any sequence of breakpoint requests, when every file is always spelled the same way, the two
      indexes agree, and the session's bookkeeping is consistent. */
  lemma {:induction false} AgreementOverRuns(key: string -> string, paths: set<string>, live: set<int>, ops: seq<Op>)
    requires SameSpelling(key, paths) && Uses(ops, paths)
    ensures Invariant(key, paths, Run(key, live, ops))
  {
    if ops != [] {
      var n := |ops| - 1;
      assert Uses(ops[..n], paths);
      AgreementOverRuns(key, paths, live, ops[..n]);
      assert Uses([ops[n]], paths);
      StepKeepsInvariant(key, paths, Run(key, live, ops[..n]), ops[n]);
    }
  }

  /** In such a run a condition belongs to a live breakpoint that the session tracks for a file whose last
      call asked for that condition; and every breakpoint so asked for has it. */
  lemma {:induction false} ConditionsAreOfLiveBreakpoints(key: string -> string, paths: set<string>, live: set<int>,
                                         ops: seq<Op>, id: int, text: string)
    requires SameSpelling(key, paths) && Uses(ops, paths)
    ensures var w := Run(key, live, ops);
            (id in w.table.conditions && w.table.conditions[id] == text)
            <==> exists file :: file in w.last && Asks(w.last[file], id, text)
                                && id in B.IdsOf(w.book, B.Source(file)) && id in w.book.live
  {
    AgreementOverRuns(key, paths, live, ops);
    hide Run, Asks, B.IdsOf, Recorded, B.Consistent, Listed, SameSpelling, Uses;
    var w := Run(key, live, ops);
    assert AskedFor(w.last, id, text) <==> id in w.table.conditions && w.table.conditions[id] == text;
    forall file | file in w.last && Asks(w.last[file], id, text)
      ensures id in B.IdsOf(w.book, B.Source(file)) && id in w.book.live
    {
      AskedIsTracked(w, file, id, text);
    }
  }

  /** Whatever the spelling, the session's own bookkeeping stays consistent. */
  lemma {:induction false} ConsistentOverRuns(key: string -> string, live: set<int>, ops: seq<Op>)
    ensures B.Consistent(Run(key, live, ops).book)
  {
    hide B.Consistent, B.Replace, B.Forget, B.Distinct;
    if ops == [] {
      EmptyBook(live);
    } else {
      var n := |ops| - 1;
      ConsistentOverRuns(key, live, ops[..n]);
      var w, op := Run(key, live, ops[..n]), ops[n];
      if Accepted(op.request) {
        match op.request {
          case SetCommands(kind, count) => B.ReplaceIsConsistent(w.book, B.Command(kind), count, op.answer);
          case SetBreakpoints(_, path, rs) =>
            B.ForgetIsConsistent(w.book, key(path.value));
            B.ReplaceIsConsistent(w.book, B.Source(key(path.value)), |B.Distinct(Specs(rs))|, op.answer);
        }
      }
    }
  }

  lemma {:induction false} EmptyBook(live: set<int>)
    ensures B.Consistent(B.Book(live, map[], [], [], []))
  {
  }

  // ----- Different spellings -----

  function Plain(condition: Option<string>): SourceBreakpoint {
    SourceBreakpoint(1, None, condition, None, None, None)
  }

  /** Sets one breakpoint on line 1 of `path`; the engine gives it id 7, if that is free. */
  function OneBreakpoint(path: string, condition: Option<string>): Op {
    Op(SetBreakpoints(None, Some(path), [Plain(condition)]), (_: nat) => {7})
  }

  lemma {:induction false} OneBreakpointStep(key: string -> string, w: World, path: string, condition: Option<string>)
    requires UsablePath(path) && 7 !in B.Cleared(w.book, B.Source(key(path)))
    ensures var r := Step(key, w, OneBreakpoint(path, condition));
            var call := Call([B.Spec(1, condition)], [B.Outcome(Some(7), 1, B.Fine)]);
            && r.book == w.book.(live := B.Cleared(w.book, B.Source(key(path))) + {7},
                                 byPath := w.book.byPath[key(path) := [7]])
            && r.table == Update(w.table, path, call.specs, call.outcomes)
            && r.last == w.last[key(path) := call]
  {
    hide Specs, UsablePath, Update, B.Distinct, B.SourceOutcomes, B.Tracked, B.LiveAfter, B.Cleared;
    OneSpec(condition);
    OneCommand(B.Spec(1, condition), B.Cleared(w.book, B.Source(key(path))), OneBreakpoint(path, condition).answer);
  }

  lemma {:induction false} OneSpec(condition: Option<string>)
    ensures Specs([Plain(condition)]) == [B.Spec(1, condition)]
  {
    var rs := [Plain(condition)];
    assert rs[..0] == [] && Specs([]) == [];
    assert Parse(rs[0]) == Configurable(B.Spec(1, condition));
  }

  lemma {:induction false} OneCommand(spec: B.Spec, live: set<int>, answer: nat -> set<int>)
    requires spec.line > 0 && answer(0) == {7} && 7 !in live
    ensures B.Distinct([spec]) == [spec]
    ensures B.SourceOutcomes(live, [spec], answer) == [B.Outcome(Some(7), spec.line, B.Fine)]
    ensures B.Tracked(live, answer, 1) == [7] && B.LiveAfter(live, answer, 1) == live + {7}
  {
    hide B.SpecKey;
    assert [spec][..0] == [] && B.Distinct([]) == [];
    assert B.NewIds(live, answer, 0) == {7};
    var t := B.TheOne({7});
    assert t in {7};
    assert B.Fate(live, answer, 0) == Some(7);
    assert B.CommandOf([spec], 0) == 0;
    assert B.Tracked(live, answer, 0) == [] && B.LiveAfter(live, answer, 0) == live;
  }

  /** Spelling one file in two ways breaks the agreement: an unconditional breakpoint that reuses the
      id of a replaced conditional one is left with the old condition. */
  lemma {:induction false} StaleCondition(key: string -> string, p: string, q: string)
    requires p != q && key(p) == key(q) && UsablePath(p) && UsablePath(q)
    ensures var w := Run(key, {}, [OneBreakpoint(p, Some("x")), OneBreakpoint(q, None)]);
            && 7 in w.book.live && B.IdsOf(w.book, B.Source(key(q))) == [7]
            && 7 in w.table.conditions && w.table.conditions[7] == "x"
            && !Agrees(w)
  {
    hide B.Cleared, Update, Run, Step, OneBreakpoint, UsablePath, AskedFor;
    var first, second := OneBreakpoint(p, Some("x")), OneBreakpoint(q, None);
    RunOfTwo(key, {}, first, second);
    var w0 := Init({});
    var w1 := Step(key, w0, first);
    var w2 := Step(key, w1, second);
    ClearedLive(w0.book, key(p));
    OneBreakpointStep(key, w0, p, Some("x"));
    ClearedLive(w1.book, key(q));
    OneBreakpointStep(key, w1, q, None);
    FirstTable(p, q);
    assert w2.table == Table(map[7 := "x"], map[p := [7]]);
    var call := Call([B.Spec(1, None)], [B.Outcome(Some(7), 1, B.Fine)]);
    assert w2.last == map[key(q) := call];
    NotAsked(key(q), call, 7, "x");
  }

  lemma {:induction false} RunOfTwo(key: string -> string, live: set<int>, first: Op, second: Op)
    ensures Run(key, live, [first, second]) == Step(key, Step(key, Init(live), first), second)
  {
    hide Step;
    var ops := [first, second];
    assert ops[..1] == [first] && [first][..0] == [];
    assert Run(key, live, [first]) == Step(key, Run(key, live, []), first);
  }

  lemma {:induction false} NotAsked(file: string, call: Call, id: int, text: string)
    requires forall i :: 0 <= i < |call.specs| ==> call.specs[i].condition == None
    ensures !AskedFor(map[file := call], id, text)
  {
  }

  lemma {:induction false} ClearedLive(b: B.Book, file: string)
    requires b.live == {} || (file in b.byPath && b.byPath[file] == [7])
    ensures 7 !in B.Cleared(b, B.Source(file))
  {
  }

  lemma {:induction false} FirstTable(p: string, q: string)
    requires p != q
    ensures var fine := [B.Outcome(Some(7), 1, B.Fine)];
            var first := Update(Table(map[], map[]), p, [B.Spec(1, Some("x"))], fine);
            && first == Table(map[7 := "x"], map[p := [7]])
            && Update(first, q, [B.Spec(1, None)], fine) == first
  {
    var fine := [B.Outcome(Some(7), 1, B.Fine)];
    var specs := [B.Spec(1, Some("x"))];
    var t := Table(map[], map[]);
    assert Clear(t, p) == t;
    assert "x"[0] == 'x' && !Blank("x");
    assert Record(t, p, specs, fine, 0) == t;
    assert Conditional(specs[0], fine[0]);
    assert PathIds(t, p) + [7] == [7];
    var r := Record(t, p, specs, fine, 1);
    assert r.conditions == map[7 := "x"] && r.idsByPath == map[p := [7]];
    var first := Table(map[7 := "x"], map[p := [7]]);
    assert Clear(first, q) == first;
    assert Record(first, q, [B.Spec(1, None)], fine, 0) == first;
  }

  /** The two indexes agree in every run over a set of paths exactly when no two of them name one file. */
  lemma {:induction false} AgreementNeedsOneSpelling(key: string -> string, paths: set<string>)
    requires forall path :: path in paths ==> UsablePath(path)
    ensures SameSpelling(key, paths)
       <==> forall live, ops :: Uses(ops, paths) ==> Agrees(Run(key, live, ops))
  {
    hide Agrees, Run, UsablePath;
    if SameSpelling(key, paths) {
      forall live, ops | Uses(ops, paths) ensures Agrees(Run(key, live, ops)) {
        AgreementOverRuns(key, paths, live, ops);
      }
    } else {
      var p, q :| p in paths && q in paths && key(p) == key(q) && p != q;
      StaleCondition(key, p, q);
      var ops := [OneBreakpoint(p, Some("x")), OneBreakpoint(q, None)];
      assert Uses(ops, paths) && !Agrees(Run(key, {}, ops));
    }
  }

  // ----- The request handler -----

  class Server {
    const key: string -> string
    const session: B.Session
    const table: ConditionTable

    constructor (key: string -> string, session: B.Session)
      ensures this.key == key && this.session == session && fresh(table)
      ensures table.State() == Table(map[], map[])
    {
      this.key := key;
      this.session := session;
      table := new ConditionTable();
    }

    /** The specs of the configurable requests. */
    static method Partition(rs: seq<SourceBreakpoint>) returns (supported: seq<B.Spec>)
      ensures supported == Specs(rs)
    {
      supported := [];
      for i := 0 to |rs|
        invariant supported == Specs(rs[..i])
      {
        SpecsUpTo(rs, i);
        var parsed := Parse(rs[i]);
        if parsed.Configurable? {
          supported := supported + [parsed.spec];
        }
      }
      assert rs[..|rs|] == rs;
    }

    /** setBreakpoints: an error response changes nothing; otherwise both indexes take one step and
        every request is answered with its own outcome. */
    method SetBreakpoints(request: Request, answer: nat -> set<int>, ghost last: map<string, Call>)
      returns (response: Option<seq<Response>>)
      requires request.SetBreakpoints? && B.Consistent(session.State())
      modifies session, table
      ensures B.Consistent(session.State())
      ensures response.Some? <==> Accepted(request)
      ensures var w := Step(key, World(old(session.State()), old(table.State()), last), Op(request, answer));
              session.State() == w.book && table.State() == w.table
      ensures response.Some? ==>
                var live := B.Cleared(old(session.State()), B.Source(key(request.path.value)));
                && |response.value| == |request.rs|
                && forall i :: 0 <= i < |request.rs| ==>
                     response.value[i] == ResponseTo(live, request.rs, answer, i)
      ensures response.Some? ==> forall i :: 0 <= i < |request.rs| ==> (response.value[i].Failed? <==> Refused(request.rs[i]))
    {
      hide B.Consistent, B.SourceOutcomes, B.SetSource, Update, ResponseTo;
      if !Accepted(request) {
        return None;
      }
      var path := request.path.value;
      ghost var live := B.Cleared(session.State(), B.Source(key(path)));
      var supported := Partition(request.rs);
      var configured := session.SetSourceBreakpoints(key(path), supported, answer);
      table.UpdatePath(path, configured, supported);
      var responses := Realign(request.rs, configured, live, answer);
      forall i | 0 <= i < |request.rs| ensures responses[i].Failed? <==> Refused(request.rs[i]) {
        ResponseExactly(live, request.rs, answer, i, 0);
      }
      return Some(responses);
    }
  }
}
