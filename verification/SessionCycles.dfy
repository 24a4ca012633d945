/** What a session does do: the ordinary courses of a debug session, from every state in which they can begin.

    Each course is a run of explicit steps, with explicit conditions on the state and explicit reports. */
module SessionCycles {
  import opened Wrappers
  import opened S = Session
  import opened SessionRuns

  /** Halted, with nothing going on. */
  predicate AtRest(s: State) {
    s.life.engine == Live && !s.flags.running && !s.wait.active && !s.wait.inWait && !s.wait.updating
  }

  /** Running, with the dispatcher inside the wait. */
  predicate Underway(s: State) {
    s.life.engine == Live && s.flags.running && s.wait.inWait && !s.wait.owed && !s.wait.updating
  }

  /** Halted by a stop that the wait has not unwound from yet. */
  predicate AtStop(s: State) {
    && s.life.engine == Live && !s.flags.running && s.flags.observed && s.flags.pending.None?
    && s.wait.inWait && !s.wait.owed && !s.wait.updating
  }

  /** The breakpoint has no condition, or the engine does not find it false. */
  predicate Surfaces(s: State, id: int, verdict: Option<bool>) {
    id !in s.setup.conditions || verdict != Some(false)
  }

  // ----- Beginnings, and requests that are refused -----

  /** The client is told of the first stop of a session unless it was launched or attached to without stopping at
      its entry; a launch gives the entry as the reason, anything else a pause. */
  lemma {:induction false} EntryStop(start: Start)
    ensures LaunchLog(start) == [] <==> !start.DumpFile? && !start.stopAtEntry
    ensures LaunchLog(start) != [] ==> LaunchLog(start) == [Stopped(if start.Launch? then Entry else Paused)]
    ensures AtRest(Launched(start)) && (Launched(start).flags.kernelPending <==> start.KernelAttach?)
  {
  }

  /** Requests that cannot be served change nothing: to resume what runs, to pause what is halted, to do either
      with a session that is gone, or to resume what the engine does not let go on. */
  lemma {:induction false} RefusedRequests(s: State, ok: bool)
    requires Inv(s)
    ensures s.flags.running || s.life.engine != Live ==>
              && Do(s, Continue(ok)) == s == Do(s, StepTarget(ok))
              && Report(s, Continue(ok)) == Report(s, StepTarget(ok)) == []
    ensures !s.flags.running || s.life.engine != Live ==> Do(s, Pause(ok)) == s && Report(s, Pause(ok)) == []
    ensures AtRest(s) ==>
              && Do(s, Continue(false)) == s == Do(s, StepTarget(false))
              && Report(s, Continue(false)) == Report(s, StepTarget(false)) == []
  {
    hide OnlyThreads, NothingLeft;
  }

  // ----- From rest to running -----

  lemma {:induction false} ContinueRuns(s: State)
    requires Inv(s) && AtRest(s)
    ensures var a := Continue(true);
            var t := Do(Do(s, a), EnterWait);
            && Enabled(s, a) && Enabled(Do(s, a), EnterWait)
            && Report(s, a) == [Resumed(Client)] && Report(Do(s, a), EnterWait) == []
            && Underway(t) && t.flags.pending.None? && t.cache == Cache({}, {}, []) && t.setup == s.setup
            && t.flags.kernelPending == s.flags.kernelPending
  {
    hide OnlyThreads;
  }

  lemma {:induction false} StepRuns(s: State)
    requires Inv(s) && AtRest(s)
    ensures var a := StepTarget(true);
            var t := Do(Do(s, a), EnterWait);
            && Enabled(s, a) && Enabled(Do(s, a), EnterWait)
            && Report(s, a) == [Resumed(Client)] && Report(Do(s, a), EnterWait) == []
            && Underway(t) && t.flags.pending == Some(Stepped) && t.cache == Cache({}, {}, []) && t.setup == s.setup
            && t.flags.kernelPending == s.flags.kernelPending
  {
    hide OnlyThreads;
  }

  // ----- From running to a stop -----

  lemma {:induction false} HitStops(s: State, id: int, verdict: Option<bool>)
    requires Inv(s) && Underway(s) && Surfaces(s, id, verdict)
    ensures var a := BreakpointHit(id, verdict);
            && Enabled(s, a) && Enabled(Do(s, a), BreakHit)
            && Report(s, a) == [] && Report(Do(s, a), BreakHit) == s.cache.threadEvents + [Stopped(Breakpoint(id))]
            && AtStop(Do(Do(s, a), BreakHit))
  {
    hide OnlyThreads;
  }

  /** An exception stops the target with the reason the client asked for, if it asked for one. */
  lemma {:induction false} ExceptionStops(s: State, code: int)
    requires Inv(s) && Underway(s) && !s.flags.kernelPending
    ensures var a := ExceptionHit(code);
            var r := if s.flags.pending.Some? then s.flags.pending.value else Exception(code);
            && Enabled(s, a) && Enabled(Do(s, a), BreakHit)
            && Report(s, a) == [] && Report(Do(s, a), BreakHit) == s.cache.threadEvents + [Stopped(r)]
            && AtStop(Do(Do(s, a), BreakHit))
  {
    hide OnlyThreads;
  }

  /** Continue, and then hit a breakpoint. */
  lemma {:induction false} ContinueToBreakpoint(s: State, id: int, verdict: Option<bool>)
    requires Reachable(s) && AtRest(s) && Surfaces(s, id, verdict)
    ensures var steps := [Continue(true), EnterWait, BreakpointHit(id, verdict), BreakHit];
            && IsRun(s, steps) && Log([], s, steps) == [Resumed(Client), Stopped(Breakpoint(id))]
            && AtStop(After(s, steps))
  {
    hide IsRun, After, Log, Do, Enabled, Report, Reachable, Inv;
    ReachableInv(s);
    ContinueRuns(s);
    StepKeepsInv(s, Continue(true));
    StepKeepsInv(Do(s, Continue(true)), EnterWait);
    HitStops(Do(Do(s, Continue(true)), EnterWait), id, verdict);
    EmptyRun([], s);
    RunOfFour([], s, [], Continue(true), EnterWait, BreakpointHit(id, verdict), BreakHit);
    assert [] + [Continue(true), EnterWait, BreakpointHit(id, verdict), BreakHit]
        == [Continue(true), EnterWait, BreakpointHit(id, verdict), BreakHit];
  }

  /** Continue, and then run into an exception. */
  lemma {:induction false} ContinueToException(s: State, code: int)
    requires Reachable(s) && AtRest(s) && !s.flags.kernelPending
    ensures var steps := [Continue(true), EnterWait, ExceptionHit(code), BreakHit];
            && IsRun(s, steps) && Log([], s, steps) == [Resumed(Client), Stopped(Exception(code))]
            && AtStop(After(s, steps))
  {
    hide IsRun, After, Log, Do, Enabled, Report, Reachable, Inv;
    ReachableInv(s);
    ContinueRuns(s);
    StepKeepsInv(s, Continue(true));
    StepKeepsInv(Do(s, Continue(true)), EnterWait);
    ExceptionStops(Do(Do(s, Continue(true)), EnterWait), code);
    EmptyRun([], s);
    RunOfFour([], s, [], Continue(true), EnterWait, ExceptionHit(code), BreakHit);
    assert [] + [Continue(true), EnterWait, ExceptionHit(code), BreakHit]
        == [Continue(true), EnterWait, ExceptionHit(code), BreakHit];
  }

  lemma {:induction false} BreakStops(s: State, r: Reason)
    requires Inv(s) && Underway(s) && s.flags.pending == Some(r)
    ensures Enabled(s, BreakHit) && Report(s, BreakHit) == s.cache.threadEvents + [Stopped(r)]
    ensures AtStop(Do(s, BreakHit))
  {
    hide OnlyThreads;
  }

  /** Step, and be told that the step is complete. */
  lemma {:induction false} StepToBreak(s: State)
    requires Reachable(s) && AtRest(s)
    ensures var steps := [StepTarget(true), EnterWait, BreakHit];
            && IsRun(s, steps) && Log([], s, steps) == [Resumed(Client), Stopped(Stepped)]
            && AtStop(After(s, steps))
  {
    hide IsRun, After, Log, Do, Enabled, Report, Reachable, Inv;
    ReachableInv(s);
    StepRuns(s);
    StepKeepsInv(s, StepTarget(true));
    StepKeepsInv(Do(s, StepTarget(true)), EnterWait);
    BreakStops(Do(Do(s, StepTarget(true)), EnterWait), Stepped);
    EmptyRun([], s);
    RunOfTwo([], s, [], StepTarget(true), EnterWait);
    assert [] + [StepTarget(true), EnterWait] == [StepTarget(true), EnterWait];
    RunSnoc([], s, [StepTarget(true), EnterWait], BreakHit);
    assert [StepTarget(true), EnterWait] + [BreakHit] == [StepTarget(true), EnterWait, BreakHit];
  }

  lemma {:induction false} PauseAsks(s: State)
    requires Inv(s) && Underway(s)
    ensures Enabled(s, Pause(true)) && Report(s, Pause(true)) == []
    ensures var t := Do(s, Pause(true));
            && Underway(t) && t.flags.pending == Some(Paused) && t.cache == Cache({}, {}, [])
            && t.flags.kernelPending == s.flags.kernelPending
  {
    hide OnlyThreads;
  }

  /** A pause the engine refuses forgets what was pending and deferred, and the target runs on. */
  lemma {:induction false} RefusedPause(s: State)
    requires Inv(s) && Underway(s)
    ensures Enabled(s, Pause(false)) && Report(s, Pause(false)) == []
    ensures var t := Do(s, Pause(false)); Underway(t) && t.flags.pending.None? && t.cache == Cache({}, {}, [])
  {
    hide OnlyThreads;
  }

  /** A pause finds a running target that nobody waits for any more, as a wait that threw leaves it: somebody does
      again. */
  lemma {:induction false} PauseWaitsAgain(s: State)
    requires Inv(s) && s.life.engine == Live && s.flags.running && !s.wait.active && !s.wait.inWait && !s.wait.updating
    ensures var t := Do(s, Pause(true));
            && Enabled(s, Pause(true)) && Enabled(t, EnterWait)
            && t.flags.pending == Some(Paused) && Underway(Do(t, EnterWait))
  {
    hide OnlyThreads;
  }

  /** Pause, and be told of the pause: the break-in comes as an exception, but is reported as the pause. */
  lemma {:induction false} PauseToBreak(s: State, code: int)
    requires Reachable(s) && Underway(s) && !s.flags.kernelPending
    ensures var steps := [Pause(true), ExceptionHit(code), BreakHit];
            && IsRun(s, steps) && Log([], s, steps) == [Stopped(Paused)] && AtStop(After(s, steps))
  {
    hide IsRun, After, Log, Do, Enabled, Report, Reachable, Inv;
    ReachableInv(s);
    PauseAsks(s);
    StepKeepsInv(s, Pause(true));
    ExceptionStops(Do(s, Pause(true)), code);
    EmptyRun([], s);
    RunOfTwo([], s, [], Pause(true), ExceptionHit(code));
    assert [] + [Pause(true), ExceptionHit(code)] == [Pause(true), ExceptionHit(code)];
    RunSnoc([], s, [Pause(true), ExceptionHit(code)], BreakHit);
    assert [Pause(true), ExceptionHit(code)] + [BreakHit] == [Pause(true), ExceptionHit(code), BreakHit];
  }

  // ----- From a stop to rest -----

  lemma {:induction false} StopToRest(s: State)
    requires Inv(s) && AtStop(s)
    ensures Enabled(s, Unwind(false)) && Enabled(Do(s, Unwind(false)), LoopEnd)
    ensures Report(s, Unwind(false)) == Report(Do(s, Unwind(false)), LoopEnd) == []
    ensures var t := Do(Do(s, Unwind(false)), LoopEnd);
            AtRest(t) && t.cache == s.cache && t.setup == s.setup && t.flags == s.flags
  {
    hide OnlyThreads;
  }

  /** The wait unwinds from a stop and its loop ends; then the next resume is waited for.  A resume that comes
      between the two is not: the loop that is still active makes the start a no-op, and then ends. */
  lemma {:induction false} ResumeNobodyWaitsFor(s: State)
    requires Reachable(s) && AtStop(s)
    ensures var steps := [Unwind(false), LoopEnd, Continue(true), EnterWait];
            IsRun(s, steps) && Log([], s, steps) == [Resumed(Client)] && Underway(After(s, steps))
    ensures var steps := [Unwind(false), Continue(true), LoopEnd];
            var t := After(s, steps);
            && IsRun(s, steps) && Log([], s, steps) == [Resumed(Client)]
            && t.flags.running && !t.wait.active && !Enabled(t, EnterWait)
  {
    hide IsRun, After, Log, Do, Enabled, Report, Reachable, Inv;
    ReachableInv(s);
    StopToRest(s);
    EarlyResume(s);
    StepKeepsInv(s, Unwind(false));
    StepKeepsInv(Do(s, Unwind(false)), LoopEnd);
    ContinueRuns(Do(Do(s, Unwind(false)), LoopEnd));
    EmptyRun([], s);
    RunOfFour([], s, [], Unwind(false), LoopEnd, Continue(true), EnterWait);
    assert [] + [Unwind(false), LoopEnd, Continue(true), EnterWait] == [Unwind(false), LoopEnd, Continue(true), EnterWait];
    RunOfTwo([], s, [], Unwind(false), Continue(true));
    assert [] + [Unwind(false), Continue(true)] == [Unwind(false), Continue(true)];
    RunSnoc([], s, [Unwind(false), Continue(true)], LoopEnd);
    assert [Unwind(false), Continue(true)] + [LoopEnd] == [Unwind(false), Continue(true), LoopEnd];
  }

  lemma {:induction false} EarlyResume(s: State)
    requires Inv(s) && AtStop(s)
    ensures var t := Do(s, Unwind(false));
            var u := Do(Do(t, Continue(true)), LoopEnd);
            && Enabled(s, Unwind(false)) && Enabled(t, Continue(true)) && Enabled(Do(t, Continue(true)), LoopEnd)
            && Report(s, Unwind(false)) == Report(Do(t, Continue(true)), LoopEnd) == []
            && Report(t, Continue(true)) == [Resumed(Client)]
            && u.flags.running && !u.wait.active && !Enabled(u, EnterWait)
  {
    hide OnlyThreads;
  }

  // ----- Hits that stop nothing -----

  /** A false condition: the target runs on, nothing is sent, and the next hit is as good as the first. */
  lemma {:induction false} FalseConditionRunsOn(s: State, id: int)
    requires Inv(s) && Underway(s) && id in s.setup.conditions
    ensures var a := BreakpointHit(id, Some(false));
            && Enabled(s, a) && Enabled(Do(s, a), BreakHit)
            && Report(s, a) == Report(Do(s, a), BreakHit) == []
            && var t := Do(Do(s, a), BreakHit);
               Underway(t) && t.setup == s.setup && !t.flags.observed && t.cache == Cache({}, {}, [])
  {
    hide OnlyThreads;
  }

  /** The kernel's first break: the same, once. */
  lemma {:induction false} KernelRunsOn(s: State, code: int)
    requires Inv(s) && Underway(s) && s.flags.kernelPending
    ensures var a := ExceptionHit(code);
            var t := Do(Do(s, a), BreakHit);
            && Enabled(s, a) && Enabled(Do(s, a), BreakHit)
            && Report(s, a) == Report(Do(s, a), BreakHit) == []
            && Underway(t) && !t.flags.kernelPending && !t.flags.observed
  {
    hide OnlyThreads;
  }

  // ----- Updates -----

  lemma {:induction false} UpdateHalts(s: State)
    requires Inv(s) && Underway(s)
    ensures var a, b, c, d := UpdateBegin, BreakHit, Unwind(false), LoopEnd;
            var t := Do(Do(Do(Do(s, a), b), c), d);
            && Enabled(s, a) && Enabled(Do(s, a), b) && Enabled(Do(Do(s, a), b), c) && Enabled(Do(Do(Do(s, a), b), c), d)
            && Report(s, a) == Report(Do(s, a), b) == Report(Do(Do(s, a), b), c) == Report(Do(Do(Do(s, a), b), c), d) == []
            && t.life == s.life && t.wait.updating && !t.wait.active && !t.wait.inWait && !t.wait.owed
            && t.flags.pending.None? && !t.flags.skip && t.cache == s.cache && t.setup == s.setup
  {
    hide OnlyThreads;
  }

  lemma {:induction false} UpdateGoesOn(s: State, conditions: map<int, string>)
    requires s.life.engine == Live && s.wait.updating && !s.wait.active && !s.wait.inWait && !s.wait.owed
    requires s.flags.pending.None?
    ensures var a := UpdateEnd(conditions);
            var t := Do(Do(s, a), EnterWait);
            && Enabled(s, a) && Enabled(Do(s, a), EnterWait) && Report(s, a) == Report(Do(s, a), EnterWait) == []
            && Underway(t) && t.setup.conditions == conditions && t.cache == s.cache && t.flags.pending.None?
  {
  }

  /** A breakpoint update while the target runs: it is interrupted, the change applied, and it runs on, with
      nothing sent and nothing of the deferred events lost. */
  lemma {:induction false} UpdateWhileRunning(s: State, conditions: map<int, string>)
    requires Reachable(s) && Underway(s)
    ensures var steps := [UpdateBegin, BreakHit, Unwind(false), LoopEnd] + [UpdateEnd(conditions), EnterWait];
            var t := After(s, steps);
            && IsRun(s, steps) && Log([], s, steps) == []
            && Underway(t) && t.setup.conditions == conditions && t.cache == s.cache
  {
    hide IsRun, After, Log, Do, Enabled, Report, Reachable, Inv;
    ReachableInv(s);
    UpdateHalts(s);
    EmptyRun([], s);
    RunOfFour([], s, [], UpdateBegin, BreakHit, Unwind(false), LoopEnd);
    var half := [UpdateBegin, BreakHit, Unwind(false), LoopEnd];
    assert [] + half == half;
    UpdateGoesOn(After(s, half), conditions);
    RunOfTwo([], s, half, UpdateEnd(conditions), EnterWait);
  }

  /** Whatever halts the target of an update, a break-in exception or a breakpoint, is swallowed: no reason, nothing
      sent, and the kernel's first break is still to come. */
  lemma {:induction false} UpdateSwallowsHit(s: State, hit: Step)
    requires Inv(s) && s.life.engine == Live && s.wait.updating && s.flags.suppress && s.flags.running
    requires Enabled(s, hit) && (hit.ExceptionHit? || (hit.BreakpointHit? && Surfaces(s, hit.id, hit.verdict))) && !s.flags.skip
    ensures var t := Do(Do(s, hit), BreakHit);
            && Report(s, hit) == Report(Do(s, hit), BreakHit) == []
            && !t.flags.running && t.flags.observed && t.flags.pending.None? && t.flags.kernelPending == s.flags.kernelPending
            && t.cache == s.cache && t.setup == s.setup
  {
    hide OnlyThreads;
  }

  /** A false condition does not halt it: the target runs on, still to be halted. */
  lemma {:induction false} UpdatePassesFalseCondition(s: State, id: int)
    requires Inv(s) && s.life.engine == Live && s.wait.updating && s.flags.suppress && s.flags.running
    requires s.wait.inWait && !s.wait.owed && id in s.setup.conditions
    ensures var a := BreakpointHit(id, Some(false));
            var t := Do(Do(s, a), BreakHit);
            && Enabled(s, a) && Enabled(Do(s, a), BreakHit) && Report(s, a) == Report(Do(s, a), BreakHit) == []
            && t.flags.running && t.flags.suppress && !t.flags.observed && !t.flags.skip && t.wait == s.wait
  {
    hide OnlyThreads;
  }

  /** An update that throws: events are no longer suppressed and the conditions are as they were; no wait is
      started, and the session counts as running if resuming was tried. */
  lemma {:induction false} FailedUpdate(s: State, applied: bool)
    requires s.wait.updating
    ensures var t := Do(s, UpdateFails(applied));
            && !t.flags.suppress && !t.wait.updating && t.wait.active == s.wait.active && t.setup == s.setup
            && t.flags.running == (s.flags.running || applied) && t.cache == s.cache
            && Report(s, UpdateFails(applied)) == []
  {
  }

  /** A wait that returns without a stop is entered again; one that throws ends the loop. */
  lemma {:induction false} WaitGoesOn(s: State)
    requires Underway(s) && s.wait.active && !s.flags.observed
    ensures Enabled(s, Unwind(false)) && Enabled(Do(s, Unwind(false)), EnterWait) && Underway(Do(Do(s, Unwind(false)), EnterWait))
    ensures Enabled(s, Unwind(true)) && !Enabled(Do(s, Unwind(true)), EnterWait) && Enabled(Do(s, Unwind(true)), LoopEnd)
    ensures !Enabled(Do(s, Unwind(false)), LoopEnd)
  {
  }

  /** Breakpoints set at a stop change the conditions and nothing else. */
  lemma {:induction false} SetAtRest(s: State, conditions: map<int, string>)
    requires AtRest(s)
    ensures var a := SetConditions(conditions);
            && Enabled(s, a) && Report(s, a) == []
            && Do(s, a) == s.(setup := s.setup.(conditions := conditions))
  {
  }

  // ----- Looking -----

  /** At a stop a stack trace, its scopes, and everything that needs a frame or a variable of theirs reach the
      engine; the handles last until the target resumes. */
  lemma {:induction false} LookingWorksAtRest(s: State, frames: set<int>, f: int, references: set<int>, v: int)
    requires AtRest(s) && f in frames && v in references
    ensures var a, b := Inspect(StackTrace(frames)), Inspect(Scopes(f, references));
            var t := Do(s, a);
            var u := Do(t, b);
            && Enabled(s, a) && Submits(s, StackTrace(frames)) && Submits(s, Threads)
            && Enabled(t, b) && Submits(t, Scopes(f, references))
            && Submits(t, Evaluate(Some(f), false)) && Submits(t, SetExpression(f))
            && Submits(t, DataBreakpointInfo(None, Some(f)))
            && Submits(u, SetVariable(v)) && Submits(u, DataBreakpointInfo(Some(v), None))
            && Submits(u, ReadMemory) && Submits(u, WriteMemory) && Submits(u, Disassemble) && Submits(u, Modules)
            && Submits(u, ExceptionInfo) && Submits(u, Evaluate(None, false))
            && AtRest(u) && u.cache.frames == s.cache.frames + frames && u.cache.variables == s.cache.variables + references
  {
  }

  /** In every reachable state a request reaches the engine exactly when the session is live and halted and the
      frame or container it names is known; a hover and `variables` never do. */
  lemma {:induction false} SubmitsExactly(s: State, r: Request)
    requires Reachable(s)
    ensures Submits(s, r)
       <==> && s.life.engine == Live && !s.flags.running && !r.Variables? && !(r.Evaluate? && r.hover)
            && ((r.Scopes? || r.SetExpression?) ==> r.frame in s.cache.frames)
            && (r.Evaluate? && r.inFrame.Some? ==> r.inFrame.value in s.cache.frames)
            && (r.SetVariable? ==> r.reference in s.cache.variables)
            && (r.DataBreakpointInfo? && r.container.Some? ==> r.container.value in s.cache.variables)
            && (r.DataBreakpointInfo? && r.container.None? ==> r.inFrame.Some? && r.inFrame.value in s.cache.frames)
  {
    ReachableInv(s);
    hide Reachable, OnlyThreads, Positions, Ended;
  }

  // ----- Thread events -----

  /** A thread event is sent at once at a stop, and kept while the target runs or is about to report a stop. */
  lemma {:induction false} ThreadEventIsSentOrKept(s: State, id: int, started: bool)
    requires s.life.engine == Live
    ensures var a := ThreadChange(id, started, true);
            && (Report(s, a) == [Thread(id, started)] <==> !s.flags.running && s.flags.pending.None?)
            && (s.flags.running || s.flags.pending.Some? ==>
                  Report(s, a) == [] && Do(s, a).cache.threadEvents == s.cache.threadEvents + [Thread(id, started)])
  {
  }

  // ----- The end -----

  /** The process exits: the client is told, and the engine object is parked. */
  lemma {:induction false} ExitTells(s: State, code: int)
    requires Inv(s) && s.life.engine == Live && s.wait.inWait && !s.wait.owed
    ensures var t := Do(s, ProcessExited(code));
            && Enabled(s, ProcessExited(code))
            && Report(s, ProcessExited(code)) == s.cache.threadEvents + [Exited(code), Terminated]
            && t.life.engine == Parked && t.flags.observed && t.wait == s.wait
  {
    hide OnlyThreads;
  }

  /** Then the session ends, silently, the wait unwinds, and the end of the loop destroys the engine object. */
  lemma {:induction false} EndUnwinds(s: State)
    requires s.life.engine == Parked && s.flags.observed && s.wait.inWait && s.wait.active && !s.wait.owed
    ensures var b, c, d := SessionEnded, Unwind(false), LoopEnd;
            var t := Do(Do(Do(s, b), c), d);
            && Enabled(s, b) && Enabled(Do(s, b), c) && Enabled(Do(Do(s, b), c), d)
            && Report(s, b) == Report(Do(s, b), c) == Report(Do(Do(s, b), c), d) == []
            && Do(s, b).life.engine == Parked && t.life.engine == Destroyed && !t.wait.active
  {
  }

  /** From any live session inside the wait: exit, end, and the engine object gone. */
  lemma {:induction false} ExitToEnd(s: State, code: int)
    requires Reachable(s) && s.life.engine == Live && s.wait.inWait && !s.wait.owed
    ensures var steps := [ProcessExited(code), SessionEnded, Unwind(false), LoopEnd];
            && IsRun(s, steps) && Log([], s, steps) == s.cache.threadEvents + [Exited(code), Terminated]
            && After(s, steps).life.engine == Destroyed
  {
    ReachableInv(s);
    assert s.wait.active;
    hide IsRun, After, Log, Do, Enabled, Report, Reachable, Inv;
    ExitTells(s, code);
    EndUnwinds(Do(s, ProcessExited(code)));
    EmptyRun([], s);
    RunOfFour([], s, [], ProcessExited(code), SessionEnded, Unwind(false), LoopEnd);
    assert [] + [ProcessExited(code), SessionEnded, Unwind(false), LoopEnd]
        == [ProcessExited(code), SessionEnded, Unwind(false), LoopEnd];
  }

  // ----- configurationDone -----

  /** The session awaits configurationDone: it is live, and none came yet. */
  lemma {:induction false} AwaitsConfiguration(start: Start, steps: seq<Step>)
    requires IsRun(Launched(start), steps)
    ensures var t := After(Launched(start), steps);
            && (t.setup.awaitingConfiguration ==> !start.DumpFile? && t.setup.stopAtEntry == start.stopAtEntry)
            && (t.life.engine == Live ==>
                  (t.setup.awaitingConfiguration
                   <==> !start.DumpFile? && forall i :: 0 <= i < |steps| ==> !steps[i].ConfigurationDone?))
  {
    hide Do, Enabled;
    var s := Launched(start);
    if steps != [] {
      var n := |steps| - 1;
      AwaitsConfiguration(start, steps[..n]);
      SetupAfter(After(s, steps[..n]), steps[n]);
      assert forall i :: 0 <= i < n ==> steps[..n][i] == steps[i];
    }
  }

  lemma {:induction false} SetupAfter(s: State, step: Step)
    ensures var t := Do(s, step);
            && (t.setup.awaitingConfiguration ==> s.setup.awaitingConfiguration && t.setup.stopAtEntry == s.setup.stopAtEntry)
            && (t.life.engine == Live ==>
                  s.life.engine == Live
                  && (t.setup.awaitingConfiguration <==> s.setup.awaitingConfiguration && !step.ConfigurationDone?))
  {
    hide Submits, Configures;
  }

  /** In every run, configurationDone resumes the target exactly when it is the first, the session was started
      without stopping at its entry, is live and halted, and the engine goes along.  Otherwise it sends nothing
      and leaves the target as it is: a session launched to stop at its entry stays there. */
  lemma {:induction false} ConfigurationDoneResumes(start: Start, steps: seq<Step>, known: bool, ok: bool)
    requires IsRun(Launched(start), steps)
    ensures var t := After(Launched(start), steps);
            var done := ConfigurationDone(known, ok);
            var resumes := && !start.DumpFile? && !start.stopAtEntry && t.life.engine == Live && !t.flags.running && known && ok
                           && forall i :: 0 <= i < |steps| ==> !steps[i].ConfigurationDone?;
            && Report(t, done) == (if resumes then [Resumed(Client)] else [])
            && Do(t, done).flags.running == (t.flags.running || resumes)
            && Do(t, done).setup == Setup(t.setup.conditions, false, false)
  {
    AwaitsConfiguration(start, steps);
    hide IsRun, After, Launched;
  }
}
