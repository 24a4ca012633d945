/** Which stops the client is told of.

    A stop is reported by the break callback with the reason that is pending then.  A step or pause request and
    a surfaced hit give a reason; later steps may displace it.  Here is exactly when it is still there. */
module RequestedStops {
  import opened Wrappers
  import opened S = Session
  import opened SessionRuns

  /** The step makes r the reason of the coming stop. */
  predicate Gives(s: State, step: Step, r: Reason) {
    match r
    case Entry => false
    case Stepped => step == StepTarget(true) && !s.flags.running && s.life.engine == Live
    case Paused => step == Pause(true) && s.flags.running && s.life.engine == Live
    case Breakpoint(id) =>
      step.BreakpointHit? && step.id == id && !RunsOn(s, step) && s.flags.running && !s.flags.suppress
    case Exception(code) =>
      && step == ExceptionHit(code) && !RunsOn(s, step) && s.flags.running && !s.flags.suppress
      && s.flags.pending.None?
  }

  /** The step takes r away as the reason of the coming stop: a hit the adapter runs on from, a hit during an
      update, another breakpoint, a break that is not skipped, a pause that is refused or that comes after a
      step, or the end. */
  predicate Displaces(s: State, step: Step, r: Reason) {
    match step
    case BreakpointHit(id, _) => RunsOn(s, step) || (s.flags.running && (s.flags.suppress || r != Breakpoint(id)))
    case ExceptionHit(_) => RunsOn(s, step) || (s.flags.running && s.flags.suppress)
    case BreakHit => !s.flags.skip
    case Pause(ok) => s.flags.running && !(ok && r == Paused)
    case ProcessExited(_) => true
    case SessionEnded => true
    case Shutdown => true
    case _ => false
  }

  lemma {:induction false} PendingAfterHit(s: State, step: Step, r: Reason)
    requires Inv(s) && IsHit(step)
    ensures Do(s, step).flags.pending == Some(r)
       <==> Gives(s, step, r) || (s.flags.pending == Some(r) && !Displaces(s, step, r))
  {
    hide OnlyThreads, NothingLeft, OnBreakHit, OnThread, OnProcessExited, OnSessionEnded,
         DoContinue, DoStep, DoPause, DoConfigurationDone, DoInspect, StartWaiting, Drain, Dispose;
  }

  lemma {:induction false} PendingAfterCallback(s: State, step: Step, r: Reason)
    requires Inv(s) && IsCallback(step) && !IsHit(step)
    ensures Do(s, step).flags.pending == Some(r)
       <==> Gives(s, step, r) || (s.flags.pending == Some(r) && !Displaces(s, step, r))
  {
    hide OnlyThreads, NothingLeft, OnBreakpointHit, OnExceptionHit, AutoContinue,
         DoContinue, DoStep, DoPause, DoConfigurationDone, DoInspect, StartWaiting, Drain;
  }

  lemma {:induction false} PendingAfterRequest(s: State, step: Step, r: Reason)
    requires Inv(s) && Enabled(s, step) && !IsCallback(step)
    ensures Do(s, step).flags.pending == Some(r)
       <==> Gives(s, step, r) || (s.flags.pending == Some(r) && !Displaces(s, step, r))
  {
    hide OnlyThreads, NothingLeft, Submits, OnBreakpointHit, OnExceptionHit, OnBreakHit, OnThread, OnProcessExited,
         OnSessionEnded, AutoContinue;
  }

  /** One step: r is pending afterwards exactly when the step gives it, or it was and is not displaced. */
  lemma {:induction false} PendingAfterStep(s: State, step: Step, r: Reason)
    requires Inv(s) && Enabled(s, step)
    ensures Do(s, step).flags.pending == Some(r)
       <==> Gives(s, step, r) || (s.flags.pending == Some(r) && !Displaces(s, step, r))
  {
    hide Inv, Enabled, Do, Gives, Displaces;
    if IsHit(step) {
      PendingAfterHit(s, step, r);
    } else if IsCallback(step) {
      PendingAfterCallback(s, step, r);
    } else {
      PendingAfterRequest(s, step, r);
    }
  }

  ghost predicate GivenAt(s: State, steps: seq<Step>, r: Reason, i: nat)
    requires i < |steps|
  {
    Gives(After(s, steps[..i]), steps[i], r)
  }

  ghost predicate DisplacedAt(s: State, steps: seq<Step>, r: Reason, i: nat)
    requires i < |steps|
  {
    Displaces(After(s, steps[..i]), steps[i], r)
  }

  /** No step of the run from step `from` on displaces r. */
  ghost predicate Undisplaced(s: State, steps: seq<Step>, r: Reason, from: nat) {
    forall j :: from <= j < |steps| ==> !DisplacedAt(s, steps, r, j)
  }

  /** Some step of the run gave the reason r, and none after it displaced it. */
  ghost predicate Stands(s: State, steps: seq<Step>, r: Reason) {
    exists i :: 0 <= i < |steps| && GivenAt(s, steps, r, i) && Undisplaced(s, steps, r, i + 1)
  }

  lemma {:induction false} EarlierSteps(s: State, steps: seq<Step>, r: Reason, i: nat)
    requires i + 1 < |steps|
    ensures GivenAt(s, steps, r, i) <==> GivenAt(s, steps[..|steps| - 1], r, i)
    ensures DisplacedAt(s, steps, r, i) <==> DisplacedAt(s, steps[..|steps| - 1], r, i)
  {
    assert steps[..|steps| - 1][..i] == steps[..i];
  }

  lemma {:induction false} UndisplacedSnoc(s: State, steps: seq<Step>, r: Reason, from: nat)
    requires steps != [] && from < |steps|
    ensures Undisplaced(s, steps, r, from)
       <==> Undisplaced(s, steps[..|steps| - 1], r, from) && !DisplacedAt(s, steps, r, |steps| - 1)
  {
    hide DisplacedAt, GivenAt;
    var n := |steps| - 1;
    forall j | from <= j < n ensures DisplacedAt(s, steps, r, j) <==> DisplacedAt(s, steps[..n], r, j) {
      EarlierSteps(s, steps, r, j);
    }
    if Undisplaced(s, steps[..n], r, from) && !DisplacedAt(s, steps, r, n) {
      forall j | from <= j < |steps| ensures !DisplacedAt(s, steps, r, j) {
        assert j < n ==> !DisplacedAt(s, steps[..n], r, j);
      }
    }
    if Undisplaced(s, steps, r, from) {
      forall j | from <= j < n ensures !DisplacedAt(s, steps[..n], r, j) {
        assert !DisplacedAt(s, steps, r, j);
      }
    }
  }

  lemma {:induction false} StandsSnoc(s: State, steps: seq<Step>, r: Reason)
    requires steps != []
    ensures var n := |steps| - 1;
            Stands(s, steps, r)
            <==> GivenAt(s, steps, r, n) || (Stands(s, steps[..n], r) && !DisplacedAt(s, steps, r, n))
  {
    hide DisplacedAt, GivenAt, Undisplaced;
    var n := |steps| - 1;
    if GivenAt(s, steps, r, n) {
      NothingAfter(s, steps, r);
    }
    if Stands(s, steps, r) {
      var i :| 0 <= i < |steps| && GivenAt(s, steps, r, i) && Undisplaced(s, steps, r, i + 1);
      if i < n {
        EarlierSteps(s, steps, r, i);
        UndisplacedSnoc(s, steps, r, i + 1);
      }
    }
    if Stands(s, steps[..n], r) && !DisplacedAt(s, steps, r, n) {
      var i :| 0 <= i < n && GivenAt(s, steps[..n], r, i) && Undisplaced(s, steps[..n], r, i + 1);
      EarlierSteps(s, steps, r, i);
      UndisplacedSnoc(s, steps, r, i + 1);
    }
  }

  lemma {:induction false} NothingAfter(s: State, steps: seq<Step>, r: Reason)
    ensures Undisplaced(s, steps, r, |steps|)
  {
  }

  /** Over any run, r is pending at its end exactly when it was given and not displaced since, or was
      pending at its start and never displaced. */
  lemma {:induction false} PendingAfterRun(s: State, steps: seq<Step>, r: Reason)
    requires Inv(s) && IsRun(s, steps)
    ensures After(s, steps).flags.pending == Some(r)
       <==> Stands(s, steps, r) || (s.flags.pending == Some(r) && Undisplaced(s, steps, r, 0))
  {
    hide Inv, Do, Enabled, Undisplaced, Stands, Gives, Displaces;
    if steps == [] {
      NothingAfter(s, steps, r);
      NothingStands(s, r);
    } else {
      var n := |steps| - 1;
      PendingAfterRun(s, steps[..n], r);
      RunKeepsInv(s, steps[..n]);
      PendingAfterStep(After(s, steps[..n]), steps[n], r);
      StandsSnoc(s, steps, r);
      UndisplacedSnoc(s, steps, r, 0);
    }
  }

  lemma {:induction false} NothingStands(s: State, r: Reason)
    ensures !Stands(s, [], r)
  {
  }

  /** What a break reports. */
  lemma {:induction false} BreakReports(s: State, r: Reason)
    requires Inv(s)
    ensures Stopped(r) in Report(s, BreakHit) <==> s.flags.pending == Some(r) && !s.flags.skip && !s.flags.suppress
    ensures Report(s, BreakHit) == [] <==> s.flags.pending.None? || s.flags.skip || s.flags.suppress
  {
    hide Positions, NothingLeft, Ended;
  }

  /** In every run, a break reports a stop with reason r exactly when some step gave that reason, no later
      one displaced it, and the break is neither skipped nor part of an update. */
  lemma {:induction false} StopIsReported(start: Start, steps: seq<Step>, r: Reason)
    requires IsRun(Launched(start), steps)
    ensures var t := After(Launched(start), steps);
            Stopped(r) in Report(t, BreakHit)
            <==> Stands(Launched(start), steps, r) && !t.flags.skip && !t.flags.suppress
  {
    hide IsRun, After, Inv, Report, Stands, Undisplaced;
    LaunchedInv(start);
    RunKeepsInv(Launched(start), steps);
    PendingAfterRun(Launched(start), steps, r);
    BreakReports(After(Launched(start), steps), r);
  }

  /** In every run, a break that halts the target does so without telling the client exactly when it
      belongs to an update or no reason stands. */
  lemma {:induction false} HaltIsSilent(start: Start, steps: seq<Step>)
    requires IsRun(Launched(start), steps) && !After(Launched(start), steps).flags.skip
    ensures var t := After(Launched(start), steps);
            Report(t, BreakHit) == [] <==> t.flags.suppress || forall r :: !Stands(Launched(start), steps, r)
  {
    hide IsRun, After, Inv, Report, Stands, Undisplaced;
    var t := After(Launched(start), steps);
    LaunchedInv(start);
    RunKeepsInv(Launched(start), steps);
    BreakReports(t, Paused);
    forall r ensures t.flags.pending == Some(r) <==> Stands(Launched(start), steps, r) {
      PendingAfterRun(Launched(start), steps, r);
    }
    if t.flags.pending.Some? {
      assert Stands(Launched(start), steps, t.flags.pending.value);
    }
  }

  /** A step, a pause or a surfaced hit, followed by any run in which the same reason is not given again: a
      break then reports it exactly when nothing in between displaced it, and the break is neither skipped
      nor part of an update. */
  lemma {:induction false} RequestedStopIsReported(s: State, request: Step, r: Reason, between: seq<Step>)
    requires Reachable(s) && Enabled(s, request) && Gives(s, request, r) && IsRun(Do(s, request), between)
    requires forall i :: 0 <= i < |between| ==> !GivenAt(Do(s, request), between, r, i)
    ensures var t := After(Do(s, request), between);
            Stopped(r) in Report(t, BreakHit)
            <==> Undisplaced(Do(s, request), between, r, 0) && !t.flags.skip && !t.flags.suppress
  {
    hide IsRun, After, Inv, Report, Undisplaced, Do, Enabled, Reachable, Gives, GivenAt;
    ReachableInv(s);
    StepKeepsInv(s, request);
    PendingAfterStep(s, request, r);
    PendingAfterRun(Do(s, request), between, r);
    RunKeepsInv(Do(s, request), between);
    BreakReports(After(Do(s, request), between), r);
  }
}
