/** What holds in every run of a session. */
module SessionRuns {
  import opened Wrappers
  import opened S = Session

  // ----- Stops and resumes in the log -----

  /** The last stop in the log has not been left. */
  predicate StopOpen(log: seq<Event>) {
    if log == [] then false
    else
      var e := log[|log| - 1];
      e.Stopped? || (!e.Resumed? && StopOpen(log[..|log| - 1]))
  }

  /** No stop is reported while one is open. */
  predicate Alternates(log: seq<Event>) {
    log == []
    || (Alternates(log[..|log| - 1]) && (log[|log| - 1].Stopped? ==> !StopOpen(log[..|log| - 1])))
  }

  lemma {:induction false} LogAppend(log: seq<Event>, e: Event)
    ensures StopOpen(log + [e]) <==> e.Stopped? || (!e.Resumed? && StopOpen(log))
    ensures Alternates(log + [e]) <==> Alternates(log) && (e.Stopped? ==> !StopOpen(log))
  {
    assert (log + [e])[..|log|] == log;
  }

  predicate OnlyThreads(events: seq<Event>) {
    forall e :: e in events ==> e.Thread?
  }

  lemma {:induction false} LogThreads(log: seq<Event>, events: seq<Event>)
    requires OnlyThreads(events)
    ensures StopOpen(log + events) <==> StopOpen(log)
    ensures Alternates(log + events) <==> Alternates(log)
  {
    if events == [] {
      assert log + events == log;
    } else {
      var n := |events| - 1;
      assert events[n] in events;
      LogThreads(log, events[..n]);
      var before := log + events[..n];
      LogAppend(before, events[n]);
      assert before + [events[n]] == log + events;
    }
  }

  lemma {:induction false} OpenUntilResumed(log: seq<Event>, i: nat)
    requires i < |log| && log[i].Stopped? && forall k :: i < k < |log| ==> !log[k].Resumed?
    ensures StopOpen(log)
  {
    if i < |log| - 1 {
      OpenUntilResumed(log[..|log| - 1], i);
    }
  }

  /** Between two reported stops the target was resumed. */
  lemma {:induction false} ResumedBetween(log: seq<Event>, i: nat, j: nat) returns (k: nat)
    requires Alternates(log) && i < j < |log| && log[i].Stopped? && log[j].Stopped?
    ensures i < k < j && log[k].Resumed?
  {
    if j < |log| - 1 {
      k := ResumedBetween(log[..|log| - 1], i, j);
    } else {
      var before := log[..j];
      if forall k :: i < k < |before| ==> !before[k].Resumed? {
        OpenUntilResumed(before, i);
        assert false;
      }
      k :| i < k < |before| && before[k].Resumed?;
    }
  }

  // ----- The invariant -----

  /** Positions of the threads: a break to be skipped is owed while the target runs, a halted target
      with something to report owes its break, an owed break comes inside the wait, only the wait loop
      waits, and it goes on waiting for a running target only. */
  predicate Positions(s: State) {
    && (s.flags.skip ==> s.wait.owed && s.flags.running)
    && (s.flags.pending.Some? && !s.flags.running ==> s.wait.owed)
    && (s.wait.owed ==> s.wait.inWait) && (s.wait.inWait ==> s.wait.active)
    && (s.flags.running || s.flags.observed)
  }

  /** While the target runs nothing is left of the last stop. */
  predicate NothingLeft(s: State) {
    s.flags.running || s.wait.updating || s.life.engine != Live ==> s.cache.frames == {} && s.cache.variables == {}
  }

  /** A session that has ended has nothing to report, events are suppressed during updates only, and a
      parked engine waits for the loop that will destroy it. */
  predicate Ended(s: State) {
    && (s.life.engine != Live ==>
          !s.flags.running && s.flags.pending.None? && s.setup.conditions == map[] && !s.flags.kernelPending && !s.flags.skip && !s.flags.suppress
          && s.cache.threadEvents == [])
    && (s.life.engine == Live ==> (s.flags.suppress <==> s.wait.updating))
    && s.life.destructions == (if s.life.engine == Destroyed then 1 else 0)
    && (s.life.engine == Parked ==> s.wait.active)
    && (s.wait.inWait ==> s.life.engine != Destroyed)
  }

  predicate Inv(s: State) {
    Positions(s) && NothingLeft(s) && Ended(s) && OnlyThreads(s.cache.threadEvents)
  }

  /** Every callback keeps the invariant. */
  lemma {:induction false} CallbackKeepsInv(s: State, step: Step)
    requires Inv(s) && Enabled(s, step) && IsCallback(step)
    ensures Inv(Do(s, step))
  {
    assert OnlyThreads([]);
    if step.ThreadChange? {
      assert OnlyThreads(s.cache.threadEvents + [Thread(step.id, step.started)]);
    }
    hide OnlyThreads;
  }

  /** Every other step keeps the invariant. */
  lemma {:induction false} RequestKeepsInv(s: State, step: Step)
    requires Inv(s) && Enabled(s, step) && !IsCallback(step)
    ensures Inv(Do(s, step))
  {
    assert OnlyThreads([]);
    hide OnlyThreads, Submits;
  }

  lemma {:induction false} StepKeepsInv(s: State, step: Step)
    requires Inv(s) && Enabled(s, step)
    ensures Inv(Do(s, step))
  {
    hide Inv, Do, Enabled;
    if IsCallback(step) {
      CallbackKeepsInv(s, step);
    } else {
      RequestKeepsInv(s, step);
    }
  }

  lemma {:induction false} RunKeepsInv(s: State, steps: seq<Step>)
    requires Inv(s) && IsRun(s, steps)
    ensures Inv(After(s, steps))
  {
    hide Inv, Do, Enabled;
    if steps != [] {
      var n := |steps| - 1;
      RunKeepsInv(s, steps[..n]);
      StepKeepsInv(After(s, steps[..n]), steps[n]);
    }
  }

  lemma {:induction false} LaunchedInv(start: Start)
    ensures Inv(Launched(start))
  {
  }

  // ----- Stops and resumes over a run -----

  /** The target runs, or is on its way to a stop that will be reported. */
  predicate Active(s: State) {
    s.flags.running || s.flags.pending.Some? || s.wait.updating
  }

  /** Nothing makes an idle session active but a resume. */
  lemma {:induction false} ActiveOnlyByResume(s: State, step: Step)
    requires Inv(s) && Enabled(s, step) && !Active(s) && Active(Do(s, step))
    ensures LeavesStop(s, step)
  {
    hide OnlyThreads, Submits;
  }

  /** A reported stop, or the end, leaves the session idle, unless an update goes on. */
  lemma {:induction false} ReportedIsIdle(s: State, step: Step)
    requires Inv(s) && (step.ProcessExited? || step.SessionEnded? || (step.BreakHit? && BreakReport(s) != []))
    ensures Active(Do(s, step)) ==> s.wait.updating
    ensures step.BreakHit? ==> Active(s) && !Active(Do(s, step))
  {
  }

  ghost predicate Stops(s: State, log: seq<Event>) {
    Alternates(log) && (Active(s) ==> !StopOpen(log))
  }

  /** A log that goes on with deferred thread events and one more event. */
  lemma {:induction false} LogReport(log: seq<Event>, deferred: seq<Event>, e: Event)
    requires OnlyThreads(deferred)
    ensures StopOpen(log + (deferred + [e])) <==> e.Stopped? || (!e.Resumed? && StopOpen(log))
    ensures Alternates(log + (deferred + [e])) <==> Alternates(log) && (e.Stopped? ==> !StopOpen(log))
  {
    hide Alternates, StopOpen, OnlyThreads;
    LogThreads(log, deferred);
    LogAppend(log + deferred, e);
    assert log + (deferred + [e]) == log + deferred + [e];
  }

  lemma {:induction false} LogExit(log: seq<Event>, deferred: seq<Event>, code: int)
    requires OnlyThreads(deferred)
    ensures StopOpen(log + (deferred + [Exited(code), Terminated])) <==> StopOpen(log)
    ensures Alternates(log + (deferred + [Exited(code), Terminated])) <==> Alternates(log)
  {
    hide Alternates, StopOpen, OnlyThreads;
    LogReport(log, deferred, Exited(code));
    LogAppend(log + (deferred + [Exited(code)]), Terminated);
    assert log + (deferred + [Exited(code), Terminated]) == log + (deferred + [Exited(code)]) + [Terminated];
  }

  lemma {:induction false} StopsAfterReport(s: State, log: seq<Event>, step: Step)
    requires Inv(s) && Stops(s, log) && Report(s, step) != []
    requires step.BreakHit? || step.ProcessExited? || step.SessionEnded?
    ensures Stops(Do(s, step), log + Report(s, step))
  {
    ReportedIsIdle(s, step);
    assert OnlyThreads(s.cache.threadEvents);
    hide Alternates, StopOpen, OnlyThreads, Inv, Do;
    match step {
      case BreakHit => LogReport(log, s.cache.threadEvents, Stopped(s.flags.pending.value));
      case ProcessExited(code) => LogExit(log, s.cache.threadEvents, code);
      case SessionEnded => LogReport(log, s.cache.threadEvents, Terminated);
    }
  }

  /** The other steps send at most one event: a thread event, or the mark of a resume. */
  lemma {:induction false} ShortReport(s: State, step: Step) returns (e: Event)
    requires !(step.BreakHit? || step.ProcessExited? || step.SessionEnded?)
    ensures e.Thread? || e.Resumed?
    ensures Report(s, step) == [] || Report(s, step) == [e]
    ensures LeavesStop(s, step) ==> e.Resumed? && Report(s, step) == [e]
  {
    hide Configures;
    e := if step.ThreadChange? then Thread(step.id, step.started)
         else Resumed(if IsCallback(step) then Adapter else Client);
  }

  lemma {:induction false} StopsAfterOther(s: State, log: seq<Event>, step: Step)
    requires Inv(s) && Enabled(s, step) && Stops(s, log)
    requires !(step.BreakHit? || step.ProcessExited? || step.SessionEnded?)
    ensures Stops(Do(s, step), log + Report(s, step))
  {
    hide Alternates, StopOpen, Inv, Do, Enabled, Active, LeavesStop, Report;
    if !Active(s) && Active(Do(s, step)) {
      ActiveOnlyByResume(s, step);
    }
    var e := ShortReport(s, step);
    LogAppend(log, e);
    assert log + [] == log;
  }

  lemma {:induction false} StopsAfter(s: State, log: seq<Event>, step: Step)
    requires Inv(s) && Enabled(s, step) && Stops(s, log)
    ensures Stops(Do(s, step), log + Report(s, step))
  {
    hide Alternates, StopOpen, Inv, Do, Enabled, Active, LeavesStop, Report;
    if !(step.BreakHit? || step.ProcessExited? || step.SessionEnded?) {
      StopsAfterOther(s, log, step);
    } else if Report(s, step) != [] {
      StopsAfterReport(s, log, step);
    } else {
      assert log + [] == log;
      if !Active(s) && Active(Do(s, step)) {
        ActiveOnlyByResume(s, step);
        EndsLeaveNothing(s, step);
      }
    }
  }

  lemma {:induction false} EndsLeaveNothing(s: State, step: Step)
    requires step.BreakHit? || step.ProcessExited? || step.SessionEnded?
    ensures !LeavesStop(s, step)
  {
  }

  lemma {:induction false} RunKeepsStops(before: seq<Event>, s: State, steps: seq<Step>)
    requires Inv(s) && IsRun(s, steps) && Stops(s, before)
    ensures Stops(After(s, steps), Log(before, s, steps))
  {
    hide Inv, Do, Enabled, Stops, Report;
    if steps != [] {
      var n := |steps| - 1;
      RunKeepsInv(s, steps[..n]);
      RunKeepsStops(before, s, steps[..n]);
      StopsAfter(After(s, steps[..n]), Log(before, s, steps[..n]), steps[n]);
    }
  }

  lemma {:induction false} LaunchedStops(start: Start)
    ensures Stops(Launched(start), LaunchLog(start))
  {
    LogAppend([], Stopped(Paused));
    assert [] + [Stopped(Paused)] == [Stopped(Paused)];
  }

  /** In every run of a session two `stopped` events have a resume between them, the entry stop included. */
  lemma {:induction false} StopsHaveResumesBetween(start: Start, steps: seq<Step>, i: nat, j: nat)
    returns (k: nat)
    requires IsRun(Launched(start), steps)
    requires var log := Log(LaunchLog(start), Launched(start), steps);
             i < j < |log| && log[i].Stopped? && log[j].Stopped?
    ensures var log := Log(LaunchLog(start), Launched(start), steps);
            i < k < j && log[k].Resumed?
  {
    hide IsRun, Log, Launched, LaunchLog;
    LaunchedInv(start);
    LaunchedStops(start);
    RunKeepsStops(LaunchLog(start), Launched(start), steps);
    k := ResumedBetween(Log(LaunchLog(start), Launched(start), steps), i, j);
  }

  // ----- Who resumes -----

  /** A reported stop that the adapter left by itself. */
  ghost predicate LeftByAdapter(log: seq<Event>) {
    exists k :: 0 <= k < |log| && log[k] == Resumed(Adapter) && StopOpen(log[..k])
  }

  /** At step i of the run a hit the adapter runs on from comes while a reported stop is open. */
  ghost predicate RunsOnFromStopAt(before: seq<Event>, s: State, steps: seq<Step>, i: nat)
    requires i < |steps|
  {
    RunsOn(After(s, steps[..i]), steps[i]) && StopOpen(Log(before, s, steps[..i]))
  }

  lemma {:induction false} MarkInReport(s: State, step: Step)
    requires Inv(s)
    ensures Resumed(Adapter) in Report(s, step) ==> RunsOn(s, step)
    ensures RunsOn(s, step) && !s.flags.running ==> Report(s, step) == [Resumed(Adapter)]
    ensures Resumed(Adapter) in Report(s, step) ==> Report(s, step) == [Resumed(Adapter)]
  {
    hide Positions, NothingLeft, Ended;
  }

  lemma {:induction false} LeftByAdapterAppend(log: seq<Event>, more: seq<Event>)
    requires Resumed(Adapter) in more ==> more == [Resumed(Adapter)]
    ensures LeftByAdapter(log + more)
       <==> LeftByAdapter(log) || (more == [Resumed(Adapter)] && StopOpen(log))
  {
    hide StopOpen;
    var all := log + more;
    assert forall k :: 0 <= k <= |log| ==> all[..k] == log[..k];
    assert log[..|log|] == log;
    if LeftByAdapter(log) {
      var k :| 0 <= k < |log| && log[k] == Resumed(Adapter) && StopOpen(log[..k]);
      assert all[k] == log[k];
    }
    if more == [Resumed(Adapter)] && StopOpen(log) {
      assert all[|log|] == Resumed(Adapter);
    }
    if LeftByAdapter(all) {
      var k :| 0 <= k < |all| && all[k] == Resumed(Adapter) && StopOpen(all[..k]);
      if k >= |log| {
        assert more[k - |log|] in more;
      }
    }
  }

  /** In every run the adapter leaves a reported stop by itself exactly when a hit it runs on from, a false
      condition or the kernel's first break, comes while that stop is open. */
  lemma {:induction false} StopsLeftByAdapter(before: seq<Event>, s: State, steps: seq<Step>)
    requires Inv(s) && IsRun(s, steps) && Stops(s, before)
    ensures LeftByAdapter(Log(before, s, steps))
       <==> LeftByAdapter(before) || exists i :: 0 <= i < |steps| && RunsOnFromStopAt(before, s, steps, i)
  {
    hide Inv, Do, Enabled, Report, StopOpen, LeftByAdapter, RunsOn, Alternates;
    if steps != [] {
      var n := |steps| - 1;
      var t, log := After(s, steps[..n]), Log(before, s, steps[..n]);
      StopsLeftByAdapter(before, s, steps[..n]);
      RunKeepsInv(s, steps[..n]);
      RunKeepsStops(before, s, steps[..n]);
      MarkInReport(t, steps[n]);
      LeftByAdapterAppend(log, Report(t, steps[n]));
      assert RunsOnFromStopAt(before, s, steps, n) <==> Report(t, steps[n]) == [Resumed(Adapter)] && StopOpen(log);
      forall i | 0 <= i < n ensures RunsOnFromStopAt(before, s, steps, i) <==> RunsOnFromStopAt(before, s, steps[..n], i) {
        assert steps[..n][..i] == steps[..i];
      }
    }
  }

  /** Where the adapter left no stop by itself, a request of the client lies between any two stops. */
  lemma {:induction false} ClientResumedBetween(log: seq<Event>, i: nat, j: nat) returns (k: nat)
    requires Alternates(log) && !LeftByAdapter(log) && i < j < |log| && log[i].Stopped? && log[j].Stopped?
    ensures i < k < j && log[k] == Resumed(Client)
  {
    k := ResumedBetween(log, i, j);
    k := FirstResume(log, i, k);
    OpenUntilResumed(log[..k], i);
    assert log[k] != Resumed(Adapter);
    var who := log[k].who;
    assert log[k] == Resumed(who) && who != Adapter;
  }

  lemma {:induction false} FirstResume(log: seq<Event>, i: nat, j: nat) returns (k: nat)
    requires i < j < |log| && log[j].Resumed?
    ensures i < k <= j && log[k].Resumed? && forall m :: i < m < k ==> !log[m].Resumed?
  {
    k := i + 1;
    while !log[k].Resumed?
      invariant i < k <= j && forall m :: i < m < k ==> !log[m].Resumed?
      decreases j - k
    {
      k := k + 1;
    }
  }

  /** In every run in which no such hit comes while a reported stop is open, the client asked for a resume
      between any two stops. */
  lemma {:induction false} ClientResumesBetween(start: Start, steps: seq<Step>, i: nat, j: nat) returns (k: nat)
    requires IsRun(Launched(start), steps)
    requires forall n :: 0 <= n < |steps| ==> !RunsOnFromStopAt(LaunchLog(start), Launched(start), steps, n)
    requires var log := Log(LaunchLog(start), Launched(start), steps);
             i < j < |log| && log[i].Stopped? && log[j].Stopped?
    ensures i < k < j && Log(LaunchLog(start), Launched(start), steps)[k] == Resumed(Client)
  {
    assert !LeftByAdapter(LaunchLog(start));
    hide IsRun, Log, Launched, LaunchLog, RunsOnFromStopAt, LeftByAdapter;
    LaunchedInv(start);
    LaunchedStops(start);
    RunKeepsStops(LaunchLog(start), Launched(start), steps);
    StopsLeftByAdapter(LaunchLog(start), Launched(start), steps);
    k := ClientResumedBetween(Log(LaunchLog(start), Launched(start), steps), i, j);
  }

  /** The states a session can reach. */
  ghost predicate Reachable(s: State) {
    exists start, steps ::
      IsRun(Launched(start), steps) && s == After(Launched(start), steps)
  }

  lemma {:induction false} ReachableInv(s: State)
    requires Reachable(s)
    ensures Inv(s)
  {
    hide Inv, IsRun, After, Launched;
    var start, steps :|
      IsRun(Launched(start), steps) && s == After(Launched(start), steps);
    LaunchedInv(start);
    RunKeepsInv(Launched(start), steps);
  }

  // ----- Inspection -----

  /** While the target runs, no inspection request hands work to the dispatcher, which is parked in the
      wait: not even dataBreakpointInfo, which does not ask whether the target runs. */
  lemma {:induction false} NoWorkBehindRunningTarget(s: State, r: Request)
    requires Reachable(s) && s.flags.running
    ensures s.cache.frames == {} && s.cache.variables == {} && !Submits(s, r)
  {
    ReachableInv(s);
    hide Reachable;
  }

  /** The other way round: the dispatcher goes into a wait only while the target runs, so what is handed to
      it at a stop waits at most for the current wait to unwind. */
  lemma {:induction false} WaitsOnlyForRunningTarget(s: State, r: Request)
    requires Reachable(s) && Enabled(s, EnterWait)
    ensures s.flags.running && !Submits(s, r)
  {
    ReachableInv(s);
    hide Reachable;
  }

  // ----- Stops presented again -----

  predicate IsHit(step: Step) {
    step.BreakpointHit? || step.ExceptionHit?
  }

  /** A stop presented again while the target is halted sends the client nothing; and it leaves the whole
      state as it was, but for the observed flag, exactly when its hit is not one the adapter runs on from. */
  lemma {:induction false} RepeatedStopIsSilent(s: State, hit: Step)
    requires Reachable(s) && !s.flags.running && IsHit(hit) && Enabled(s, hit)
    ensures forall e :: e in Report(s, hit) + Report(Do(s, hit), BreakHit) ==> e == Resumed(Adapter)
    ensures Do(Do(s, hit), BreakHit) == s.(flags := s.flags.(observed := true)) <==> !RunsOn(s, hit)
    ensures RunsOn(s, hit) ==> Do(Do(s, hit), BreakHit).flags.running
  {
    ReachableInv(s);
    hide Reachable, OnlyThreads;
  }

  // ----- Hits and their breaks -----

  /** Steps that can come between a hit and its break without ending the session. */
  predicate Between(step: Step) {
    !step.BreakHit? && !step.ProcessExited? && !step.SessionEnded?
  }

  /** A surfaced hit is on its way to being reported. */
  predicate Surfacing(s: State, reason: Reason) {
    && s.life.engine == Live && s.wait.inWait && s.wait.owed && !s.flags.running && !s.flags.suppress && !s.wait.updating && !s.flags.skip
    && s.flags.pending == Some(reason)
  }

  lemma {:induction false} SurfacingKeeps(s: State, reason: Reason, step: Step)
    requires Surfacing(s, reason) && Enabled(s, step) && Between(step)
    ensures Surfacing(Do(s, step), reason)
  {
    hide Submits, AutoContinue, Dispose, Drain, StartWaiting;
  }

  lemma {:induction false} SurfacingRun(s: State, reason: Reason, steps: seq<Step>)
    requires Surfacing(s, reason) && IsRun(s, steps) && forall i :: 0 <= i < |steps| ==> Between(steps[i])
    ensures Surfacing(After(s, steps), reason)
  {
    hide Surfacing, Do, Enabled, Between;
    if steps != [] {
      var n := |steps| - 1;
      SurfacingRun(s, reason, steps[..n]);
      SurfacingKeeps(After(s, steps[..n]), reason, steps[n]);
    }
  }

  /** The reason a surfaced hit is reported with: an exception does not displace a pause or a step. */
  function HitReason(s: State, hit: Step): Reason
    requires IsHit(hit)
  {
    match hit
    case BreakpointHit(id, _) => Breakpoint(id)
    case ExceptionHit(code) => if s.flags.pending.Some? then s.flags.pending.value else Exception(code)
  }

  lemma {:induction false} HitSurfaces(s: State, hit: Step)
    requires Inv(s) && s.flags.running && !s.wait.updating && IsHit(hit) && Enabled(s, hit) && !RunsOn(s, hit)
    ensures Surfacing(Do(s, hit), HitReason(s, hit))
  {
    hide AutoContinue, OnlyThreads;
  }

  /** A hit while the target runs, outside an update, that the adapter does not run on from is reported by
      its break callback, whatever happens in between short of the end of the session.  In particular no
      earlier skip is left over. */
  lemma {:induction false} HitIsReported(s: State, hit: Step, between: seq<Step>)
    requires Reachable(s) && s.flags.running && !s.wait.updating && IsHit(hit) && Enabled(s, hit) && !RunsOn(s, hit)
    requires IsRun(Do(s, hit), between) && forall i :: 0 <= i < |between| ==> Between(between[i])
    ensures var t := After(Do(s, hit), between);
            Report(t, BreakHit) == t.cache.threadEvents + [Stopped(HitReason(s, hit))]
  {
    hide IsRun, After, Do, Enabled, Inv, RunsOn, HitReason, Between, Reachable;
    ReachableInv(s);
    HitSurfaces(s, hit);
    SurfacingRun(Do(s, hit), HitReason(s, hit), between);
  }

  /** A hit the adapter runs on from, until its break callback. */
  predicate Passing(s: State) {
    s.life.engine == Live && s.wait.inWait && s.wait.owed && s.flags.running && s.flags.skip
  }

  lemma {:induction false} PassingKeeps(s: State, step: Step)
    requires Inv(s) && Passing(s) && Enabled(s, step) && Between(step)
    ensures Passing(Do(s, step)) && (forall e :: e in Report(s, step) ==> !e.Stopped?)
  {
    hide Submits, AutoContinue, Dispose, Drain, OnlyThreads;
  }

  /** A hit with a false condition stops nothing: its own break callback is the one that is skipped, no
      stop is reported up to and including it, and afterwards the target runs with nothing left to skip. */
  lemma {:induction false} FalseHitSkipsItsOwnBreak(s: State, hit: Step, between: seq<Step>)
    requires Reachable(s) && IsHit(hit) && Enabled(s, hit) && RunsOn(s, hit)
    requires IsRun(Do(s, hit), between) && forall i :: 0 <= i < |between| ==> Between(between[i])
    ensures var t := After(Do(s, hit), between);
            && Report(t, BreakHit) == []
            && Do(t, BreakHit) == Owe(t.(flags := t.flags.(skip := false)), false)
            && t.flags.running
            && forall e :: e in Log([], Do(s, hit), between) ==> !e.Stopped?
  {
    ReachableInv(s);
    StepKeepsInv(s, hit);
    HitPasses(s, hit);
    hide IsRun, After, Enabled, Inv, Reachable, RunsOn, Log, OnBreakpointHit, OnExceptionHit;
    PassingRun(Do(s, hit), between);
  }

  lemma {:induction false} HitPasses(s: State, hit: Step)
    requires Inv(s) && IsHit(hit) && Enabled(s, hit) && RunsOn(s, hit)
    ensures Passing(Do(s, hit))
  {
    hide OnlyThreads;
  }

  lemma {:induction false} PassingRun(s: State, steps: seq<Step>)
    requires Inv(s) && Passing(s) && IsRun(s, steps) && forall i :: 0 <= i < |steps| ==> Between(steps[i])
    ensures Passing(After(s, steps))
    ensures forall e :: e in Log([], s, steps) ==> !e.Stopped?
  {
    hide Passing, Do, Enabled, Between, Inv, Report;
    if steps != [] {
      var n := |steps| - 1;
      RunKeepsInv(s, steps[..n]);
      PassingRun(s, steps[..n]);
      PassingKeeps(After(s, steps[..n]), steps[n]);
    }
  }

  // ----- Running and halting -----

  /** A halted session starts to run exactly when a step leaves the stop or an update resumes the target,
      or at least was about to: when the engine refuses, the flag stays set. */
  lemma {:induction false} RunsOnlyByResume(s: State, step: Step)
    requires Inv(s) && Enabled(s, step) && !s.flags.running
    ensures Do(s, step).flags.running
       <==> LeavesStop(s, step) || step.UpdateEnd? || (step.UpdateFails? && step.applied)
  {
    hide OnlyThreads, Submits, NothingLeft;
  }

  /** A running session halts exactly on a hit the adapter does not run on from, on a break that is not
      skipped, and at the end. */
  lemma {:induction false} HaltsOnlyByStop(s: State, step: Step)
    requires Inv(s) && Enabled(s, step) && s.flags.running
    ensures !Do(s, step).flags.running
       <==> (IsHit(step) && !RunsOn(s, step)) || (step.BreakHit? && !s.flags.skip) || IsEnd(step) || step.Shutdown?
  {
    hide OnlyThreads, Submits, NothingLeft;
  }

  /** A resume asked for by the client leaves empty caches, and a wait loop that is going to wait exactly when
      the loop of the last stop has ended. */
  lemma {:induction false} ResumeStartsWaiting(s: State, step: Step)
    requires Inv(s) && Enabled(s, step) && LeavesStop(s, step) && !IsCallback(step)
    ensures var t := Do(s, step);
            && t.cache == Cache({}, {}, []) && t.wait.active
            && (Enabled(t, EnterWait) <==> !s.wait.active)
  {
    hide OnlyThreads, Submits;
  }

  /** While a breakpoint update interrupts the target no stop is reported. */
  lemma {:induction false} UpdateIsInvisible(s: State, step: Step)
    requires Reachable(s) && s.wait.updating && Enabled(s, step)
    ensures forall e :: e in Report(s, step) ==> !e.Stopped?
    ensures step.UpdateEnd? ==> Do(s, step).flags.running && Do(s, step).wait.active
  {
    ReachableInv(s);
    hide Reachable, NothingLeft;
  }

  // ----- The end of the session -----

  predicate IsEnd(step: Step) {
    step.ProcessExited? || step.SessionEnded?
  }

  predicate Notified(steps: seq<Step>) {
    exists i :: 0 <= i < |steps| && IsEnd(steps[i])
  }

  function Exits(steps: seq<Step>): nat {
    if steps == [] then 0
    else Exits(steps[..|steps| - 1]) + if steps[|steps| - 1].ProcessExited? then 1 else 0
  }

  /** The first notification of the end says only that the session ended, not that the process exited. */
  predicate EndedFirst(steps: seq<Step>) {
    exists i :: 0 <= i < |steps| && steps[i].SessionEnded? && forall j :: 0 <= j < i ==> !IsEnd(steps[j])
  }

  function Count(log: seq<Event>, e: Event): nat {
    if log == [] then 0
    else Count(log[..|log| - 1], e) + if log[|log| - 1] == e then 1 else 0
  }

  lemma {:induction false} CountAppend(log: seq<Event>, more: seq<Event>, e: Event)
    ensures Count(log + more, e) == Count(log, e) + Count(more, e)
  {
    if more == [] {
      assert log + more == log;
    } else {
      var n := |more| - 1;
      CountAppend(log, more[..n], e);
      assert (log + more)[..|log| + n] == log + more[..n];
    }
  }

  lemma {:induction false} CountOne(other: Event, e: Event)
    ensures Count([other], e) == if other == e then 1 else 0
  {
    assert [other][..0] == [];
  }

  lemma {:induction false} CountNothing(e: Event)
    ensures Count([], e) == 0
  {
  }

  lemma {:induction false} CountThenOne(events: seq<Event>, other: Event, e: Event)
    ensures Count(events + [other], e) == Count(events, e) + if other == e then 1 else 0
  {
    CountAppend(events, [other], e);
    CountOne(other, e);
  }

  lemma {:induction false} CountThenExit(events: seq<Event>, code: int, e: Event)
    requires !e.Exited?
    ensures Count(events + [Exited(code), Terminated], e) == Count(events, e) + if e.Terminated? then 1 else 0
  {
    CountThenOne(events, Exited(code), e);
    CountThenOne(events + [Exited(code)], Terminated, e);
    assert events + [Exited(code), Terminated] == events + [Exited(code)] + [Terminated];
  }

  lemma {:induction false} ThreadsDoNotTerminate(events: seq<Event>)
    requires OnlyThreads(events)
    ensures Count(events, Terminated) == 0
  {
    if events != [] {
      assert events[|events| - 1] in events;
      ThreadsDoNotTerminate(events[..|events| - 1]);
    }
  }

  lemma {:induction false} BreakDoesNotTerminate(s: State)
    requires OnlyThreads(s.cache.threadEvents)
    ensures Count(BreakReport(s), Terminated) == 0
  {
    ThreadsDoNotTerminate(s.cache.threadEvents);
    CountNothing(Terminated);
    if s.flags.pending.Some? {
      CountThenOne(s.cache.threadEvents, Stopped(s.flags.pending.value), Terminated);
    }
    hide Count, OnlyThreads;
  }

  lemma {:induction false} TerminationsReported(s: State, step: Step)
    requires Inv(s)
    ensures Count(Report(s, step), Terminated)
         == if step.ProcessExited? || (step.SessionEnded? && s.life.engine == Live) then 1 else 0
  {
    ThreadsDoNotTerminate(s.cache.threadEvents);
    CountNothing(Terminated);
    hide Inv, LeavesStop, Count;
    if step.BreakHit? {
      BreakDoesNotTerminate(s);
    } else if step.ThreadChange? {
      CountOne(Thread(step.id, step.started), Terminated);
    } else if step.ProcessExited? {
      CountThenExit(s.cache.threadEvents, step.code, Terminated);
    } else if step.SessionEnded? {
      CountThenOne(s.cache.threadEvents, Terminated, Terminated);
    } else {
      var mark := OnlyMarks(s, step);
      CountOne(mark, Terminated);
      hide Report;
    }
  }

  lemma {:induction false} EngineAfter(s: State, step: Step)
    ensures Do(s, step).life.engine == Live <==> s.life.engine == Live && !IsEnd(step) && !step.Shutdown?
    ensures step.Shutdown? || s.life.engine == Destroyed ==> Do(s, step).life.engine == Destroyed
  {
    hide Submits;
  }

  /** The session is live until its end is notified or the server is destroyed; then nothing is notified. */
  lemma {:induction false} LiveUntilNotified(s: State, steps: seq<Step>)
    requires Inv(s) && s.life.engine == Live && IsRun(s, steps)
    ensures After(s, steps).life.engine == Live ==> !Notified(steps)
    ensures !Notified(steps) ==> After(s, steps).life.engine != Parked
  {
    hide Do, Enabled, Inv;
    if steps != [] {
      var n := |steps| - 1;
      var t := After(s, steps[..n]);
      LiveUntilNotified(s, steps[..n]);
      RunKeepsInv(s, steps[..n]);
      EngineAfter(t, steps[n]);
      assert Notified(steps) <==> Notified(steps[..n]) || IsEnd(steps[n]) by {
        assert forall i :: 0 <= i < n ==> steps[i] == steps[..n][i];
      }
    }
  }

  /** A notification comes inside the wait, where the engine object still exists. */
  lemma {:induction false} NotifiedWhileItExists(s: State, step: Step)
    requires Inv(s) && Enabled(s, step) && IsEnd(step)
    ensures s.life.engine != Destroyed
  {
  }

  lemma {:induction false} EndedFirstSnoc(steps: seq<Step>)
    requires steps != []
    ensures var n := |steps| - 1;
            EndedFirst(steps) <==> EndedFirst(steps[..n]) || (!Notified(steps[..n]) && steps[n].SessionEnded?)
  {
    var n := |steps| - 1;
    assert forall i :: 0 <= i < n ==> steps[i] == steps[..n][i];
    if EndedFirst(steps[..n]) {
      var i :| 0 <= i < n && steps[..n][i].SessionEnded? && forall j :: 0 <= j < i ==> !IsEnd(steps[..n][j]);
      assert steps[i].SessionEnded?;
    }
    if !Notified(steps[..n]) && steps[n].SessionEnded? {
      assert forall j :: 0 <= j < n ==> !IsEnd(steps[..n][j]);
    }
  }

  lemma {:induction false} TerminationsOverRun(before: seq<Event>, s: State, steps: seq<Step>)
    requires Inv(s) && s.life.engine == Live && IsRun(s, steps)
    ensures Count(Log(before, s, steps), Terminated)
         == Count(before, Terminated) + Exits(steps) + if EndedFirst(steps) then 1 else 0
  {
    hide Inv, Do, Enabled, Report, EndedFirst, Notified, Count;
    if steps == [] {
      NotEndedYet();
    } else {
      var n := |steps| - 1;
      var t := After(s, steps[..n]);
      TerminationsOverRun(before, s, steps[..n]);
      RunKeepsInv(s, steps[..n]);
      LiveUntilNotified(s, steps[..n]);
      EndedFirstSnoc(steps);
      if EndedFirst(steps[..n]) {
        EndedFirstIsNotified(steps[..n]);
      }
      if IsEnd(steps[n]) {
        NotifiedWhileItExists(t, steps[n]);
      }
      TerminationsReported(t, steps[n]);
      CountAppend(Log(before, s, steps[..n]), Report(t, steps[n]), Terminated);
    }
  }

  lemma {:induction false} NotEndedYet()
    ensures !EndedFirst([])
  {
  }

  lemma {:induction false} EndedFirstIsNotified(steps: seq<Step>)
    requires EndedFirst(steps)
    ensures Notified(steps)
  {
  }

  /** In every run the number of `terminated` events is the number of process exits, plus one if the
      session was said to have ended before any exit: so there is exactly one for an exit followed by
      any number of session ends, or for session ends alone, and otherwise not. */
  lemma {:induction false} TerminatedExactlyOnce(start: Start, steps: seq<Step>)
    requires IsRun(Launched(start), steps)
    ensures var n := Count(Log(LaunchLog(start), Launched(start), steps), Terminated);
            && n == Exits(steps) + (if EndedFirst(steps) then 1 else 0)
            && (n == 1 <==> (Exits(steps) == 1 && !EndedFirst(steps)) || (Exits(steps) == 0 && EndedFirst(steps)))
  {
    hide IsRun, Exits, EndedFirst, Log;
    LaunchedInv(start);
    CountOne(Stopped(Paused), Terminated);
    TerminationsOverRun(LaunchLog(start), Launched(start), steps);
  }

  /** Every `exited` event is followed at once by `terminated`. */
  predicate Paired(log: seq<Event>) {
    forall i :: 0 <= i < |log| && log[i].Exited? ==> i + 1 < |log| && log[i + 1].Terminated?
  }

  lemma {:induction false} PairedAppend(log: seq<Event>, more: seq<Event>)
    requires Paired(log) && Paired(more)
    ensures Paired(log + more)
  {
    var all := log + more;
    forall i | 0 <= i < |all| && all[i].Exited? ensures i + 1 < |all| && all[i + 1].Terminated? {
      if i < |log| {
        assert log[i].Exited? && all[i + 1] == log[i + 1];
      } else {
        assert more[i - |log|].Exited? && all[i + 1] == more[i - |log| + 1];
      }
    }
  }

  lemma {:induction false} ReportIsPaired(s: State, step: Step)
    requires Inv(s)
    ensures Paired(Report(s, step))
  {
    assert forall i :: 0 <= i < |s.cache.threadEvents| ==> s.cache.threadEvents[i] in s.cache.threadEvents;
    hide Positions, NothingLeft, Ended, LeavesStop;
  }

  lemma {:induction false} ExitedThenTerminated(start: Start, steps: seq<Step>)
    requires IsRun(Launched(start), steps)
    ensures Paired(Log(LaunchLog(start), Launched(start), steps))
  {
    hide Inv, Do, Enabled, Report, Paired, Launched;
    var s := Launched(start);
    if steps == [] {
      LaunchPaired(start);
    } else {
      var n := |steps| - 1;
      LaunchedInv(start);
      RunKeepsInv(s, steps[..n]);
      ExitedThenTerminated(start, steps[..n]);
      ReportIsPaired(After(s, steps[..n]), steps[n]);
      PairedAppend(Log(LaunchLog(start), s, steps[..n]), Report(After(s, steps[..n]), steps[n]));
    }
  }

  lemma {:induction false} LaunchPaired(start: Start)
    ensures Paired(LaunchLog(start))
  {
  }

  lemma {:induction false} QuietAfterEnd(s: State, step: Step)
    requires Inv(s) && s.life.engine != Live && !step.ProcessExited?
    ensures Report(s, step) == []
  {
    hide Positions, NothingLeft, OnlyThreads;
  }

  /** The end of a session sends every deferred thread event first, and after it nothing but further
      process exits is ever sent. */
  lemma {:induction false} NothingAfterTheEnd(s: State, step: Step)
    requires Reachable(s)
    ensures step.ProcessExited? ==> Report(s, step) == s.cache.threadEvents + [Exited(step.code), Terminated]
    ensures step.SessionEnded? && s.life.engine == Live ==> Report(s, step) == s.cache.threadEvents + [Terminated]
    ensures s.life.engine != Live ==> s.cache.threadEvents == [] && (!step.ProcessExited? ==> Report(s, step) == [])
  {
    ReachableInv(s);
    assert Ended(s);
    hide Reachable, Inv;
    if s.life.engine != Live && !step.ProcessExited? {
      QuietAfterEnd(s, step);
      hide Report;
    }
  }

  // ----- The engine object -----

  /** The engine object is destroyed only while the dispatcher is outside the wait, so never inside one
      of its own callbacks; and a destroyed or parked engine never comes back. */
  lemma {:induction false} NeverDestroyedInCallback(s: State, step: Step)
    requires Enabled(s, step)
    ensures Do(s, step).life.destructions != s.life.destructions ==> !s.wait.inWait && s.life.engine != Destroyed
    ensures IsCallback(step) ==> Do(s, step).life.destructions == s.life.destructions
    ensures s.life.engine == Destroyed ==> Do(s, step).life.engine == Destroyed
    ensures s.life.engine == Parked ==> Do(s, step).life.engine != Live
  {
    hide Submits, Configures;
  }

  /** Steps in which the adapter or a callback is inside the engine object, or calls it. */
  predicate UsesEngine(s: State, step: Step) {
    match step
    case Continue(_) => !s.flags.running && s.life.engine == Live
    case StepTarget(_) => !s.flags.running && s.life.engine == Live
    case Pause(_) => s.flags.running && s.life.engine == Live
    case ConfigurationDone(_, _) => Configures(s)
    case Inspect(r) => Submits(s, r)
    case LoopEnd => false
    case Shutdown => false
    case _ => true
  }

  /** No step uses a destroyed engine object, but for one: a breakpoint update goes on with the session it
      holds by reference, and if the session ended while the update waited, that object is gone. */
  lemma {:induction false} EngineIsUsedWhileAlive(s: State, step: Step)
    requires Reachable(s) && Enabled(s, step) && UsesEngine(s, step)
    ensures s.life.engine == Destroyed <==> step.UpdateAbandoned?
  {
    ReachableInv(s);
    hide Reachable, OnlyThreads, NothingLeft;
  }

  /** Whatever happened before, destroying the server leaves the engine object destroyed exactly once. */
  lemma {:induction false} DestroyedExactlyOnce(s: State)
    requires Reachable(s) && Enabled(s, Shutdown)
    ensures Do(s, Shutdown).life.engine == Destroyed && Do(s, Shutdown).life.destructions == 1
  {
    ReachableInv(s);
    hide Reachable, OnlyThreads;
  }

  // ----- Thread events -----

  /** Steps that forget the deferred thread events without sending them. */
  predicate Resets(s: State, step: Step) {
    match step
    case Continue(ok) => !s.flags.running && s.life.engine == Live && ok
    case StepTarget(ok) => !s.flags.running && s.life.engine == Live && ok
    case Pause(_) => s.flags.running && s.life.engine == Live
    case ConfigurationDone(known, _) => Configures(s) && known
    case Shutdown => true
    case _ => RunsOn(s, step)
  }

  /** How often a step hears of the thread event e. */
  function Heard(s: State, step: Step, e: Event): nat {
    if step.ThreadChange? && s.life.engine == Live && step.known && e == Thread(step.id, step.started) then 1 else 0
  }

  function Forgotten(s: State, step: Step, e: Event): nat {
    if Resets(s, step) then Count(s.cache.threadEvents, e) else 0
  }

  /** Every thread event heard of is deferred, sent or forgotten. */
  ghost predicate Accounts(s: State, step: Step, e: Event) {
    Count(Do(s, step).cache.threadEvents, e) + Forgotten(s, step, e) + Count(Report(s, step), e)
    == Count(s.cache.threadEvents, e) + Heard(s, step, e)
  }

  lemma {:induction false} BreakHitAccounts(s: State, e: Event)
    requires e.Thread?
    ensures Accounts(s, BreakHit, e)
  {
    CountNothing(e);
    if s.flags.pending.Some? {
      CountThenOne(s.cache.threadEvents, Stopped(s.flags.pending.value), e);
    }
    hide Count;
  }

  lemma {:induction false} ThreadChangeAccounts(s: State, step: Step, e: Event)
    requires step.ThreadChange?
    ensures Accounts(s, step, e)
  {
    CountNothing(e);
    CountOne(Thread(step.id, step.started), e);
    CountThenOne(s.cache.threadEvents, Thread(step.id, step.started), e);
    hide Count;
  }

  lemma {:induction false} ExitAccounts(s: State, code: int, e: Event)
    requires e.Thread?
    ensures Accounts(s, ProcessExited(code), e)
  {
    CountNothing(e);
    CountThenExit(s.cache.threadEvents, code, e);
    hide Count;
  }

  lemma {:induction false} EndAccounts(s: State, e: Event)
    requires Ended(s) && e.Thread?
    ensures Accounts(s, SessionEnded, e)
  {
    CountNothing(e);
    CountThenOne(s.cache.threadEvents, Terminated, e);
    hide Count;
  }

  lemma {:induction false} ResetForgets(s: State, step: Step)
    requires Resets(s, step)
    ensures Do(s, step).cache.threadEvents == []
  {
    hide Submits, Configures;
  }

  lemma {:induction false} OthersDefer(s: State, step: Step)
    requires !(step.BreakHit? || step.ThreadChange? || IsEnd(step)) && !Resets(s, step)
    ensures Do(s, step).cache.threadEvents == s.cache.threadEvents
  {
    hide Submits, Configures;
  }

  lemma {:induction false} OtherAccounts(s: State, step: Step, e: Event)
    requires !(step.BreakHit? || step.ThreadChange? || IsEnd(step)) && e.Thread?
    ensures Accounts(s, step, e)
  {
    var mark := OnlyMarks(s, step);
    CountNothing(e);
    CountOne(mark, e);
    hide Report, Count, Do, Resets;
    if Resets(s, step) {
      ResetForgets(s, step);
    } else {
      OthersDefer(s, step);
    }
  }

  lemma {:induction false} OnlyMarks(s: State, step: Step) returns (mark: Event)
    requires !(step.BreakHit? || step.ThreadChange? || IsEnd(step))
    ensures mark.Resumed? && (Report(s, step) == [] || Report(s, step) == [mark])
  {
    hide LeavesStop;
    mark := Resumed(if IsCallback(step) then Adapter else Client);
  }

  lemma {:induction false} StepAccounts(s: State, step: Step, e: Event)
    requires Inv(s) && e.Thread?
    ensures Accounts(s, step, e)
  {
    assert Ended(s);
    hide Inv, Accounts, Ended;
    if step.BreakHit? {
      BreakHitAccounts(s, e);
    } else if step.ThreadChange? {
      ThreadChangeAccounts(s, step, e);
    } else if step.ProcessExited? {
      ExitAccounts(s, step.code, e);
    } else if step.SessionEnded? {
      EndAccounts(s, e);
    } else {
      OtherAccounts(s, step, e);
    }
  }

  function TotalHeard(s: State, steps: seq<Step>, e: Event): nat {
    if steps == [] then 0
    else
      var n := |steps| - 1;
      TotalHeard(s, steps[..n], e) + Heard(After(s, steps[..n]), steps[n], e)
  }

  function TotalForgotten(s: State, steps: seq<Step>, e: Event): nat {
    if steps == [] then 0
    else
      var n := |steps| - 1;
      TotalForgotten(s, steps[..n], e) + Forgotten(After(s, steps[..n]), steps[n], e)
  }

  /** Over every run each thread event is sent as often as it was heard of, but for the times it is still
      deferred or was forgotten by a step that resets the stop's caches: among those a pause, and a hit
      the adapter runs on from. */
  lemma {:induction false} ThreadEventsAreConserved(start: Start, steps: seq<Step>, e: Event)
    requires IsRun(Launched(start), steps) && e.Thread?
    ensures var s := Launched(start);
            Count(Log(LaunchLog(start), s, steps), e) + Count(After(s, steps).cache.threadEvents, e)
            + TotalForgotten(s, steps, e)
            == TotalHeard(s, steps, e)
  {
    hide Inv, Do, Enabled, Report, Heard, Forgotten, Count, Launched;
    var s := Launched(start);
    if steps == [] {
      NothingHeardYet(start, e);
    } else {
      var n := |steps| - 1;
      var t := After(s, steps[..n]);
      LaunchedInv(start);
      RunKeepsInv(s, steps[..n]);
      ThreadEventsAreConserved(start, steps[..n], e);
      StepAccounts(t, steps[n], e);
      CountAppend(Log(LaunchLog(start), s, steps[..n]), Report(t, steps[n]), e);
    }
  }

  lemma {:induction false} NothingHeardYet(start: Start, e: Event)
    requires e.Thread?
    ensures Count(LaunchLog(start), e) == 0 && Count(Launched(start).cache.threadEvents, e) == 0
  {
    CountOne(Stopped(Paused), e);
  }

  // ----- Runs step by step -----

  lemma {:induction false} RunSnoc(before: seq<Event>, s: State, steps: seq<Step>, step: Step)
    ensures IsRun(s, steps + [step]) <==> IsRun(s, steps) && Enabled(After(s, steps), step)
    ensures After(s, steps + [step]) == Do(After(s, steps), step)
    ensures Log(before, s, steps + [step]) == Log(before, s, steps) + Report(After(s, steps), step)
  {
    hide Do, Enabled, Report;
    assert (steps + [step])[..|steps|] == steps;
  }

  lemma {:induction false} RunOfTwo(before: seq<Event>, s: State, steps: seq<Step>, a: Step, b: Step)
    requires IsRun(s, steps) && Enabled(After(s, steps), a) && Enabled(Do(After(s, steps), a), b)
    ensures var t := After(s, steps);
            && IsRun(s, steps + [a, b])
            && After(s, steps + [a, b]) == Do(Do(t, a), b)
            && Log(before, s, steps + [a, b]) == Log(before, s, steps) + (Report(t, a) + Report(Do(t, a), b))
  {
    hide Do, Enabled, Report, IsRun, After, Log;
    RunSnoc(before, s, steps, a);
    RunSnoc(before, s, steps + [a], b);
    assert steps + [a] + [b] == steps + [a, b];
    var t, log := After(s, steps), Log(before, s, steps);
    assert log + Report(t, a) + Report(Do(t, a), b) == log + (Report(t, a) + Report(Do(t, a), b));
  }

  /** Four more steps of a run. */
  lemma {:induction false} RunOfFour(before: seq<Event>, s: State, steps: seq<Step>, a: Step, b: Step, c: Step, d: Step)
    requires IsRun(s, steps)
    requires var t := After(s, steps);
             && Enabled(t, a) && Enabled(Do(t, a), b)
             && Enabled(Do(Do(t, a), b), c) && Enabled(Do(Do(Do(t, a), b), c), d)
    ensures var t := After(s, steps);
            && IsRun(s, steps + [a, b, c, d])
            && After(s, steps + [a, b, c, d]) == Do(Do(Do(Do(t, a), b), c), d)
            && Log(before, s, steps + [a, b, c, d])
               == Log(before, s, steps) + (Report(t, a) + Report(Do(t, a), b)
                                           + (Report(Do(Do(t, a), b), c) + Report(Do(Do(Do(t, a), b), c), d)))
  {
    hide Do, Enabled, Report, IsRun, After, Log;
    RunOfTwo(before, s, steps, a, b);
    RunOfTwo(before, s, steps + [a, b], c, d);
    assert steps + [a, b] + [c, d] == steps + [a, b, c, d];
    var t, log := After(s, steps), Log(before, s, steps);
    var x, y := Report(t, a) + Report(Do(t, a), b), Report(Do(Do(t, a), b), c) + Report(Do(Do(Do(t, a), b), c), d);
    assert log + x + y == log + (x + y);
  }

  lemma {:induction false} EmptyRun(before: seq<Event>, s: State)
    ensures IsRun(s, []) && After(s, []) == s && Log(before, s, []) == before
  {
  }
}
