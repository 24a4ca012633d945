/** Runs of a session that show what the code does not promise. */
module SessionExamples {
  import opened Wrappers
  import opened S = Session
  import opened SessionRuns
  import opened RequestedStops

  /** A session that runs, with breakpoint 5 under a condition. */
  predicate Runs(s: State) {
    && s.life.engine == Live && s.setup.conditions == map[5 := "x"] && s.cache.threadEvents == []
    && s.flags.running && !s.flags.suppress && !s.flags.skip && !s.flags.kernelPending
    && s.wait.active && s.wait.inWait && !s.wait.owed && !s.wait.updating
  }

  lemma {:induction false} StartRunning() returns (steps: seq<Step>)
    ensures var s := Launched(Launch(false));
            IsRun(s, steps) && Runs(After(s, steps)) && Log([], s, steps) == [Resumed(Client)] && !Notified(steps)
  {
    hide IsRun, After, Log, Do, Enabled, Report, Launched, Runs;
    var s := Launched(Launch(false));
    var a, b := SetConditions(map[5 := "x"]), ConfigurationDone(true, true);
    Configured(s, a, b);
    Waiting(Do(Do(s, a), b));
    EmptyRun([], s);
    RunOfTwo([], s, [], a, b);
    steps := [] + [a, b];
    RunSnoc([], s, steps, EnterWait);
    steps := steps + [EnterWait];
  }

  /** The same with the wait about to begin. */
  predicate RunsSoon(s: State) {
    !s.wait.inWait && !s.wait.failed && !s.flags.observed && Runs(s.(wait := s.wait.(inWait := true)))
  }

  lemma {:induction false} Configured(s: State, a: Step, b: Step)
    requires s == Launched(Launch(false)) && a == SetConditions(map[5 := "x"]) && b == ConfigurationDone(true, true)
    ensures Enabled(s, a) && Enabled(Do(s, a), b) && Report(s, a) + Report(Do(s, a), b) == [Resumed(Client)]
    ensures RunsSoon(Do(Do(s, a), b))
  {
    hide DoContinue, DoStep, DoPause, DoInspect, OnBreakpointHit, OnExceptionHit, OnBreakHit, OnThread, Dispose;
    assert Report(s, a) == [];
  }

  lemma {:induction false} Waiting(s: State)
    requires RunsSoon(s)
    ensures Enabled(s, EnterWait) && Report(s, EnterWait) == [] && Runs(Do(s, EnterWait))
  {
  }

  /** A surfaced hit and its break. */
  lemma {:induction false} HitThenBreak(s: State, id: int, verdict: Option<bool>)
    requires Runs(s) && (id == 5 ==> verdict != Some(false))
    ensures var hit := BreakpointHit(id, verdict);
            var t := Do(Do(s, hit), BreakHit);
            && Enabled(s, hit) && Enabled(Do(s, hit), BreakHit)
            && Report(s, hit) + Report(Do(s, hit), BreakHit) == [Stopped(Breakpoint(id))]
            && t == s.(flags := s.flags.(running := false, observed := true, pending := None))
  {
  }

  /** A hit the adapter runs on from, presented to a halted target, and its break. */
  lemma {:induction false} PassedHitThenBreak(s: State)
    requires Runs(s.(flags := s.flags.(running := true))) && !s.flags.running
    ensures var hit := BreakpointHit(5, Some(false));
            var t := Do(Do(s, hit), BreakHit);
            && Enabled(s, hit) && Enabled(Do(s, hit), BreakHit)
            && Report(s, hit) + Report(Do(s, hit), BreakHit) == [Resumed(Adapter)]
            && Runs(t)
  {
    var hit := BreakpointHit(5, Some(false));
    assert LeavesStop(s, hit) && Report(s, hit) == [Resumed(Adapter)];
    assert Do(s, hit).flags.skip && Report(Do(s, hit), BreakHit) == [];
  }

  /** A run in which the client sees two stops and has resumed only before the first: a conditional
      breakpoint is presented again to the halted target, with its condition false by then. */
  lemma {:induction false} StopLeftByAdapter() returns (steps: seq<Step>)
    ensures var s := Launched(Launch(false));
            && IsRun(s, steps)
            && Log([], s, steps)
               == [Resumed(Client), Stopped(Breakpoint(5)), Resumed(Adapter), Stopped(Breakpoint(6))]
  {
    hide IsRun, After, Log, Do, Enabled, Report, Launched;
    var s := Launched(Launch(false));
    steps := StartRunning();
    var t := After(s, steps);
    HitThenBreak(t, 5, Some(true));
    RunOfTwo([], s, steps, BreakpointHit(5, Some(true)), BreakHit);
    steps := steps + [BreakpointHit(5, Some(true)), BreakHit];
    t := After(s, steps);
    PassedHitThenBreak(t);
    RunOfTwo([], s, steps, BreakpointHit(5, Some(false)), BreakHit);
    steps := steps + [BreakpointHit(5, Some(false)), BreakHit];
    t := After(s, steps);
    HitThenBreak(t, 6, None);
    RunOfTwo([], s, steps, BreakpointHit(6, None), BreakHit);
    steps := steps + [BreakpointHit(6, None), BreakHit];
  }

  // ----- Requested stops that are lost -----

  /** A pause that a false condition throws away: the skipped break of the hit, and then the break the pause
      brought about, report nothing. */
  lemma {:induction false} PauseThenFalseHit(s: State)
    requires Runs(s)
    ensures var a, b := Pause(true), BreakpointHit(5, Some(false));
            && Enabled(s, a) && Enabled(Do(s, a), b) && Enabled(Do(Do(s, a), b), BreakHit)
            && Enabled(Do(Do(Do(s, a), b), BreakHit), BreakHit)
            && Gives(s, a, Paused)
            && Report(s, a) == Report(Do(s, a), b) == Report(Do(Do(s, a), b), BreakHit) == []
            && Report(Do(Do(Do(s, a), b), BreakHit), BreakHit) == []
            && var t := Do(Do(Do(Do(s, a), b), BreakHit), BreakHit);
               !t.flags.running && t.flags.pending.None? && t.life.engine == Live
  {
  }

  /** A run in which the client asks for a pause, the target halts, and the client is never told. */
  lemma {:induction false} PauseLostToFalseCondition() returns (steps: seq<Step>, k: nat)
    ensures var s := Launched(Launch(false));
            && IsRun(s, steps) && k < |steps| && GivenAt(s, steps, Paused, k)
            && Log([], s, steps) == [Resumed(Client)]
            && var t := After(s, steps); !t.flags.running && t.flags.pending.None? && t.life.engine == Live
  {
    hide IsRun, After, Log, Do, Enabled, Report, Launched, Runs, Gives;
    var s := Launched(Launch(false));
    steps := StartRunning();
    k := |steps|;
    var t := After(s, steps);
    PauseThenFalseHit(t);
    var more := [Pause(true), BreakpointHit(5, Some(false)), BreakHit, BreakHit];
    RunOfFour([], s, steps, Pause(true), BreakpointHit(5, Some(false)), BreakHit, BreakHit);
    assert (steps + more)[..k] == steps && (steps + more)[k] == Pause(true);
    steps := steps + more;
  }

  /** A pause that a breakpoint update throws away: the update's own halt takes the pause's reason. */
  lemma {:induction false} PauseThenUpdate(s: State)
    requires Runs(s)
    ensures var a, b, c, d := Pause(true), UpdateBegin, BreakHit, Unwind(false);
            var t := Do(Do(Do(Do(s, a), b), c), d);
            && Enabled(s, a) && Enabled(Do(s, a), b) && Enabled(Do(Do(s, a), b), c)
            && Enabled(Do(Do(Do(s, a), b), c), d)
            && Gives(s, a, Paused)
            && Report(s, a) == Report(Do(s, a), b) == Report(Do(Do(s, a), b), c) == []
            && Report(Do(Do(Do(s, a), b), c), d) == []
            && t.life.engine == Live && t.wait.updating && t.wait.active && !t.wait.inWait && t.flags.observed
            && t.flags.pending.None?
  {
  }

  lemma {:induction false} UpdateResumes(s: State)
    requires s.life.engine == Live && s.wait.updating && s.wait.active && !s.wait.inWait && s.flags.observed
    requires s.flags.pending.None?
    ensures var d := UpdateEnd(map[]);
            && Enabled(s, LoopEnd) && Enabled(Do(s, LoopEnd), d)
            && Report(s, LoopEnd) == Report(Do(s, LoopEnd), d) == []
            && var t := Do(Do(s, LoopEnd), d); t.flags.running && t.flags.pending.None?
  {
  }

  /** A run in which the client asks for a pause and the target just keeps running. */
  lemma {:induction false} PauseLostToUpdate() returns (steps: seq<Step>, k: nat)
    ensures var s := Launched(Launch(false));
            && IsRun(s, steps) && k < |steps| && GivenAt(s, steps, Paused, k)
            && Log([], s, steps) == [Resumed(Client)]
            && var t := After(s, steps); t.flags.running && t.flags.pending.None?
  {
    hide IsRun, After, Log, Do, Enabled, Report, Launched, Gives;
    var s := Launched(Launch(false));
    steps := StartRunning();
    k := |steps|;
    PauseThenUpdate(After(s, steps));
    var more := [Pause(true), UpdateBegin, BreakHit, Unwind(false)];
    RunOfFour([], s, steps, Pause(true), UpdateBegin, BreakHit, Unwind(false));
    UpdateResumes(After(s, steps + more));
    RunOfTwo([], s, steps + more, LoopEnd, UpdateEnd(map[]));
    var all := steps + more + [LoopEnd, UpdateEnd(map[])];
    assert all[..k] == steps && all[k] == Pause(true);
    steps := all;
  }

  /** A kernel session that runs before the machine's first break. */
  predicate KernelRuns(s: State) {
    && s.life.engine == Live && s.flags.running && !s.flags.suppress && s.flags.kernelPending
    && s.wait.inWait && s.wait.active && !s.wait.owed && !s.wait.updating
  }

  lemma {:induction false} StartKernel(s: State, a: Step)
    requires s == Launched(KernelAttach(false)) && a == ConfigurationDone(true, true)
    ensures Enabled(s, a) && Enabled(Do(s, a), EnterWait) && KernelRuns(Do(Do(s, a), EnterWait))
    ensures Report(s, a) == [Resumed(Client)] && Report(Do(s, a), EnterWait) == []
  {
    hide DoContinue, DoStep, DoPause, DoInspect, OnBreakpointHit, OnExceptionHit, OnBreakHit, OnThread, Dispose;
  }

  lemma {:induction false} PauseThenKernelBreak(s: State)
    requires KernelRuns(s)
    ensures var a, b := Pause(true), ExceptionHit(3);
            var t := Do(Do(s, a), b);
            && Enabled(s, a) && Enabled(Do(s, a), b) && Enabled(t, BreakHit) && Gives(s, a, Paused)
            && Report(s, a) == Report(Do(s, a), b) == Report(t, BreakHit) == []
            && Do(t, BreakHit).flags.running && Do(t, BreakHit).flags.pending.None? && !Do(t, BreakHit).flags.skip
  {
  }

  /** A run in which the kernel's first break throws a pause away, and the target keeps running. */
  lemma {:induction false} PauseLostToKernelBreak() returns (steps: seq<Step>, k: nat)
    ensures var s := Launched(KernelAttach(false));
            && IsRun(s, steps) && k < |steps| && GivenAt(s, steps, Paused, k)
            && Log([], s, steps) == [Resumed(Client)]
            && var t := After(s, steps); t.flags.running && t.flags.pending.None? && !t.flags.skip
  {
    hide IsRun, After, Log, Do, Enabled, Report, Launched, Gives, KernelRuns;
    var s := Launched(KernelAttach(false));
    var a := ConfigurationDone(true, true);
    StartKernel(s, a);
    EmptyRun([], s);
    RunOfTwo([], s, [], a, EnterWait);
    steps := [] + [a, EnterWait];
    k := |steps|;
    PauseThenKernelBreak(After(s, steps));
    var more := [Pause(true), ExceptionHit(3)];
    RunOfTwo([], s, steps, Pause(true), ExceptionHit(3));
    RunSnoc([], s, steps + more, BreakHit);
    var all := steps + more + [BreakHit];
    assert all[..k] == steps && all[k] == Pause(true);
    steps := all;
  }

  /** A session that is stepping. */
  predicate Steps(s: State) {
    && s.life.engine == Live && s.flags.running && s.flags.pending == Some(Stepped) && !s.flags.suppress
    && !s.flags.skip && s.wait.inWait && !s.wait.updating
  }

  lemma {:induction false} StartStepping(s: State)
    requires s == Launched(Launch(true))
    ensures var a := StepTarget(true);
            && Enabled(s, a) && Enabled(Do(s, a), EnterWait) && Gives(s, a, Stepped)
            && Report(s, a) == [Resumed(Client)] && Report(Do(s, a), EnterWait) == []
            && Steps(Do(Do(s, a), EnterWait))
  {
    hide DoContinue, DoPause, DoInspect, OnBreakpointHit, OnExceptionHit, OnBreakHit, OnThread, Dispose;
  }

  lemma {:induction false} RefusedPauseThenBreak(s: State)
    requires Steps(s)
    ensures var a := Pause(false);
            var t := Do(Do(s, a), BreakHit);
            && Enabled(s, a) && Enabled(Do(s, a), BreakHit)
            && Report(s, a) == Report(Do(s, a), BreakHit) == []
            && !t.flags.running && t.flags.pending.None? && t.life.engine == Live
  {
  }

  /** A run in which a pause that the engine refuses throws a step away: the step ends, the target is halted,
      and the client is never told. */
  lemma {:induction false} StepLostToRefusedPause() returns (steps: seq<Step>)
    ensures var s := Launched(Launch(true));
            && IsRun(s, steps) && steps != [] && GivenAt(s, steps, Stepped, 0)
            && Log(LaunchLog(Launch(true)), s, steps) == [Stopped(Entry), Resumed(Client)]
            && var t := After(s, steps); !t.flags.running && t.flags.pending.None? && t.life.engine == Live
  {
    hide IsRun, After, Log, Do, Enabled, Report, Launched, Gives, Steps;
    var s, before := Launched(Launch(true)), LaunchLog(Launch(true));
    StartStepping(s);
    RefusedPauseThenBreak(Do(Do(s, StepTarget(true)), EnterWait));
    EmptyRun(before, s);
    RunOfFour(before, s, [], StepTarget(true), EnterWait, Pause(false), BreakHit);
    steps := [] + [StepTarget(true), EnterWait, Pause(false), BreakHit];
    assert steps[..0] == [];
  }

  // ----- The end, twice -----

  lemma {:induction false} EndThenExit(s: State)
    requires Runs(s)
    ensures && Enabled(s, SessionEnded) && Enabled(Do(s, SessionEnded), ProcessExited(0))
            && Report(s, SessionEnded) + Report(Do(s, SessionEnded), ProcessExited(0))
               == [Terminated, Exited(0), Terminated]
  {
  }

  /** A run with two `terminated` events: the session's end is reported before the process's exit. */
  lemma {:induction false} TerminatedTwice() returns (steps: seq<Step>)
    ensures var s := Launched(Launch(false));
            && IsRun(s, steps) && EndedFirst(steps) && Exits(steps) == 1
            && Log([], s, steps) == [Resumed(Client), Terminated, Exited(0), Terminated]
  {
    hide IsRun, After, Log, Do, Enabled, Report, Launched, Runs, EndedFirst, Exits;
    var s := Launched(Launch(false));
    steps := StartRunning();
    EndThenExit(After(s, steps));
    RunOfTwo([], s, steps, SessionEnded, ProcessExited(0));
    EndBeforeExit(steps);
    steps := steps + [SessionEnded, ProcessExited(0)];
  }

  lemma {:induction false} EndBeforeExit(steps: seq<Step>)
    requires !Notified(steps)
    ensures var all := steps + [SessionEnded, ProcessExited(0)]; EndedFirst(all) && Exits(all) == 1
  {
    var all := steps + [SessionEnded, ProcessExited(0)];
    NoExits(steps);
    assert all[..|steps| + 1] == steps + [SessionEnded] && (steps + [SessionEnded])[..|steps|] == steps;
    assert all[|steps|].SessionEnded?;
    assert forall j :: 0 <= j < |steps| ==> all[j] == steps[j];
  }

  lemma {:induction false} NoExits(steps: seq<Step>)
    requires !Notified(steps)
    ensures Exits(steps) == 0
  {
    if steps != [] {
      var n := |steps| - 1;
      assert forall i :: 0 <= i < n ==> steps[..n][i] == steps[i];
      assert !IsEnd(steps[n]);
      NoExits(steps[..n]);
    }
  }

  // ----- A thread event that is lost -----

  lemma {:induction false} ThreadThenPause(s: State)
    requires Runs(s)
    ensures var a, b, c := ThreadChange(7, true, true), Pause(true), ExceptionHit(3);
            var u := Do(Do(s, a), b);
            && Enabled(s, a) && Enabled(Do(s, a), b) && Heard(s, a, Thread(7, true)) == 1
            && Report(s, a) == Report(Do(s, a), b) == []
            && Runs(u) && u.flags.pending == Some(Paused)
  {
  }

  lemma {:induction false} BreakInThenBreak(s: State)
    requires Runs(s) && s.flags.pending == Some(Paused)
    ensures var c := ExceptionHit(3);
            var t := Do(Do(s, c), BreakHit);
            && Enabled(s, c) && Enabled(Do(s, c), BreakHit)
            && Report(s, c) == [] && Report(Do(s, c), BreakHit) == [Stopped(Paused)]
            && t.cache.threadEvents == []
  {
  }

  lemma {:induction false} HeardOnce(s: State, steps: seq<Step>, e: Event, k: nat)
    requires k < |steps|
    ensures TotalHeard(s, steps, e) >= Heard(After(s, steps[..k]), steps[k], e)
  {
    hide Heard;
    var n := |steps| - 1;
    if k < n {
      HeardOnce(s, steps[..n], e, k);
      assert steps[..n][..k] == steps[..k];
    }
  }

  /** A run in which a thread starts while the target runs, the client pauses and is told of the stop, but
      never of the thread: the pause forgot it. */
  lemma {:induction false} ThreadLostToPause() returns (steps: seq<Step>)
    ensures var s := Launched(Launch(false));
            && IsRun(s, steps) && Log([], s, steps) == [Resumed(Client), Stopped(Paused)]
            && After(s, steps).cache.threadEvents == []
            && TotalForgotten(s, steps, Thread(7, true)) >= 1
  {
    hide IsRun, After, Log, Do, Enabled, Report, Launched, Runs, Heard, TotalHeard, TotalForgotten;
    var s := Launched(Launch(false));
    var e := Thread(7, true);
    steps := StartRunning();
    var k := |steps|;
    ThreadThenPause(After(s, steps));
    var a, b, c := ThreadChange(7, true, true), Pause(true), ExceptionHit(3);
    RunOfTwo([], s, steps, a, b);
    BreakInThenBreak(After(s, steps + [a, b]));
    RunOfTwo([], s, steps + [a, b], c, BreakHit);
    var all := steps + [a, b] + [c, BreakHit];
    assert all[..k] == steps && all[k] == a;
    HeardOnce(s, all, e, k);
    ThreadEventsAreConserved(Launch(false), all, e);
    NotInLog(e);
    steps := all;
  }

  lemma {:induction false} NotInLog(e: Event)
    requires e.Thread?
    ensures Count([], e) == 0 && Count([Resumed(Client), Stopped(Paused)], e) == 0
  {
    var log := [Resumed(Client), Stopped(Paused)];
    assert log[..1] == [Resumed(Client)] && [Resumed(Client)][..0] == [];
    assert Count([Resumed(Client)], e) == 0;
  }

  // ----- An engine object used after its end -----

  lemma {:induction false} UpdateThenExit(s: State)
    requires Runs(s)
    ensures var a, b, c := UpdateBegin, ProcessExited(0), Unwind(false);
            var t := Do(Do(Do(Do(s, a), b), c), LoopEnd);
            && Enabled(s, a) && Enabled(Do(s, a), b) && Enabled(Do(Do(s, a), b), c)
            && Enabled(Do(Do(Do(s, a), b), c), LoopEnd)
            && t.life.engine == Destroyed && Enabled(t, UpdateAbandoned)
  {
  }

  /** A run in which the process exits while a breakpoint update waits for the target to halt: the update
      goes on when the engine object it holds has been destroyed. */
  lemma {:induction false} UpdateOutlivesEngine() returns (steps: seq<Step>)
    ensures var s := Launched(Launch(false));
            && IsRun(s, steps) && Enabled(After(s, steps), UpdateAbandoned)
            && After(s, steps).life.engine == Destroyed
  {
    hide IsRun, After, Log, Do, Enabled, Report, Launched, Runs;
    var s := Launched(Launch(false));
    steps := StartRunning();
    UpdateThenExit(After(s, steps));
    RunOfFour([], s, steps, UpdateBegin, ProcessExited(0), Unwind(false), LoopEnd);
    steps := steps + [UpdateBegin, ProcessExited(0), Unwind(false), LoopEnd];
  }
}
