/** The server object: the fields its handlers and callbacks update.

    A valid server satisfies the invariant of the session's runs, and its own log never holds two stops
    without a resume between them.  Each method takes one step of the session's state machine, sends what
    that step reports, and leaves the server valid. */
module DapServer {
  import opened Wrappers
  import opened S = Session
  import opened SessionRuns

  /** The dispatcher inside the wait, a break-state callback owed, the transport thread inside an update. */
  datatype Place = Place(inWait: bool, owed: bool, updating: bool)

  // Some steps, spelled out.

  lemma {:induction false} BreakHitIs(s: State)
    ensures Do(s, BreakHit) == OnBreakHit(s) && Report(s, BreakHit) == BreakReport(s)
  {
  }

  lemma {:induction false} ConfigurationDoneIs(s: State, known: bool, ok: bool)
    ensures Do(s, ConfigurationDone(known, ok)) == DoConfigurationDone(s, known, ok)
    ensures Report(s, ConfigurationDone(known, ok)) == if Configures(s) && known && ok then [Resumed(Client)] else []
  {
  }

  lemma {:induction false} UpdateEndIs(s: State, conditions: map<int, string>)
    ensures Do(s, UpdateEnd(conditions))
         == StartWaiting(Resume(SetConditionsTo(EndUpdate(s), conditions), s.flags.pending))
    ensures Report(s, UpdateEnd(conditions)) == []
  {
  }

  lemma {:induction false} ExceptionHitIs(s: State, code: int)
    ensures Do(s, ExceptionHit(code)) == OnExceptionHit(s, code)
    ensures Report(s, ExceptionHit(code))
         == if s.flags.kernelPending && !s.flags.suppress && !s.flags.running then [Resumed(Adapter)] else []
  {
  }

  class Server {
    var flags: Flags
    var cache: Cache
    var setup: Setup
    // The owning pointer, the parking place, and the number of destroyed engine objects.
    var hasSession: bool
    var hasParked: bool
    var destructions: nat
    // The wait loop.
    var waitActive: bool
    var waitFailed: bool
    /** Where the threads are. */
    ghost var at: Place
    /** What has been sent, with the marks of resumes. */
    var log: seq<Event>

    /** The engine object has one owner at most. */
    ghost predicate Owned()
      reads this
    {
      !(hasSession && hasParked)
    }

    ghost predicate Valid()
      reads this
    {
      Owned() && Inv(Abstract()) && Stops(Abstract(), log)
    }

    /** The server took the step and sent what it reports. */
    twostate predicate Took(step: Step)
      reads this
    {
      Abstract() == Do(old(Abstract()), step) && log == old(log) + Report(old(Abstract()), step)
    }

    ghost function Abstract(): State
      reads this
    {
      State(flags, cache, setup,
            Life(if hasSession then Live else if hasParked then Parked else Destroyed, destructions),
            Wait(waitActive, waitFailed, at.inWait, at.owed, at.updating))
    }

    /** A server right after launch or attach. */
    constructor (start: Start)
      ensures Valid() && Abstract() == Launched(start) && log == LaunchLog(start)
    {
      flags := Flags(false, true, false, start.KernelAttach?, false, None);
      cache := Cache({}, {}, []);
      setup := Setup(map[], !start.DumpFile?, !start.DumpFile? && start.stopAtEntry);
      hasSession, hasParked, destructions := true, false, 0;
      waitActive, waitFailed := false, false;
      at := Place(false, false, false);
      log := match start
             case Launch(stopAtEntry) => if stopAtEntry then [Stopped(Entry)] else []
             case Attach(stopAtEntry) => if stopAtEntry then [Stopped(Paused)] else []
             case KernelAttach(stopAtEntry) => if stopAtEntry then [Stopped(Paused)] else []
             case DumpFile => [Stopped(Paused)];
      LaunchedInv(start);
      LaunchedStops(start);
    }

    /** The step keeps the server valid. */
    lemma {:induction false} Keeps(step: Step)
      requires Valid() && Enabled(Abstract(), step)
      ensures Inv(Do(Abstract(), step)) && Stops(Do(Abstract(), step), log + Report(Abstract(), step))
    {
      hide Inv, Stops, Do, Enabled, Report;
      StepKeepsInv(Abstract(), step);
      StopsAfter(Abstract(), log, step);
    }

    /** Whatever was called so far: between two stops in a server's log there is a resume. */
    lemma {:induction false} LogHasResumesBetween(i: nat, j: nat) returns (k: nat)
      requires Valid() && i < j < |log| && log[i].Stopped? && log[j].Stopped?
      ensures i < k < j && log[k].Resumed?
    {
      k := ResumedBetween(log, i, j);
    }

    // ----- Shared pieces -----

    method ResetSuspendedState()
      modifies this`cache
      ensures Abstract() == ResetSuspended(old(Abstract()))
    {
      cache := Cache({}, {}, []);
    }

    method FlushPendingThreadEvents()
      modifies this`cache, this`log
      ensures cache == old(cache).(threadEvents := []) && log == old(log) + old(cache.threadEvents)
    {
      var events := cache.threadEvents;
      cache := cache.(threadEvents := []);
      for i := 0 to |events|
        invariant log == old(log) + events[..i] && cache == old(cache).(threadEvents := [])
      {
        log := log + [events[i]];
        assert events[..i + 1] == events[..i] + [events[i]];
      }
      assert events[..|events|] == events;
    }

    method StartWaitingForSessionEvent()
      modifies this`flags, this`waitActive, this`waitFailed
      ensures Abstract() == StartWaiting(old(Abstract()))
    {
      if waitActive {
        return;
      }
      flags := flags.(observed := false);
      waitActive := true;
      waitFailed := false;
    }

    /** Tears the session down.  On the dispatcher's own thread the engine is in the middle of a callback, so
        it is parked instead of destroyed. */
    method DisposeDebuggerSession(onWorker: bool)
      requires Owned()
      modifies this
      ensures Owned() && log == old(log)
      ensures Abstract() == Dispose(old(Abstract()), onWorker)
      ensures onWorker ==> destructions == old(destructions)
    {
      if hasSession {
        hasSession := false;
        if onWorker {
          hasParked := true;
        } else {
          destructions := destructions + 1;
        }
      }
      flags := Flags(running := false, observed := true, suppress := false, kernelPending := false, skip := false,
                     pending := None);
      setup := Setup(map[], awaitingConfiguration := false, stopAtEntry := false);
      ResetSuspendedState();
    }

    method DrainPendingDisposedSession()
      requires Owned()
      modifies this`hasParked, this`destructions
      ensures Owned() && !hasParked
      ensures Abstract() == Drain(old(Abstract()))
    {
      if !hasParked {
        return;
      }
      hasParked := false;
      destructions := destructions + 1;
    }

    // ----- Callbacks -----

    method AutoContinueTarget()
      modifies this
      ensures Abstract() == AutoContinue(old(Abstract())) && hasSession == old(hasSession) && hasParked == old(hasParked)
      ensures log == if old(flags.running) then old(log) else old(log) + [Resumed(Adapter)]
    {
      ResetSuspendedState();
      flags := flags.(pending := None, observed := false);
      if !flags.running {
        log := log + [Resumed(Adapter)];
      }
      flags := flags.(running := true, skip := true);
    }

    method BreakpointHitCallback(id: int, verdict: Option<bool>)
      requires Valid() && Enabled(Abstract(), BreakpointHit(id, verdict))
      modifies this
      ensures Took(BreakpointHit(id, verdict))
      ensures Valid()
    {
      hide Inv, Stops, Enabled;
      Keeps(BreakpointHit(id, verdict));
      at := at.(owed := true);
      if id in setup.conditions && verdict == Some(false) {
        AutoContinueTarget();
        return;
      }
      if !flags.running {
        return;
      }
      flags := flags.(running := false, observed := true);
      if flags.suppress {
        flags := flags.(pending := None);
        return;
      }
      flags := flags.(pending := Some(Breakpoint(id)));
    }

    method ExceptionHitCallback(code: int)
      requires Valid() && Enabled(Abstract(), ExceptionHit(code))
      modifies this
      ensures Took(ExceptionHit(code))
      ensures Valid()
    {
      hide Inv, Stops, Enabled, Do, Report;
      ExceptionHitIs(Abstract(), code);
      Keeps(ExceptionHit(code));
      at := at.(owed := true);
      if flags.kernelPending && !flags.suppress {
        flags := flags.(kernelPending := false);
        AutoContinueTarget();
        return;
      }
      if !flags.running {
        return;
      }
      flags := flags.(running := false, observed := true);
      if flags.suppress {
        flags := flags.(pending := None);
        return;
      }
      if flags.pending.None? {
        flags := flags.(pending := Some(Exception(code)));
      }
    }

    method BreakHitCallback()
      requires Valid() && Enabled(Abstract(), BreakHit)
      modifies this
      ensures Took(BreakHit)
      ensures Valid()
    {
      hide Inv, Stops, Enabled, Do, Report;
      BreakHitIs(Abstract());
      Keeps(BreakHit);
      at := at.(owed := false);
      if flags.skip {
        flags := flags.(skip := false);
        return;
      }
      flags := flags.(running := false, observed := true);
      var taken := flags.pending;
      flags := flags.(pending := None);
      if flags.suppress || taken.None? {
        return;
      }
      FlushPendingThreadEvents();
      log := log + [Stopped(taken.value)];
    }

    method QueueThreadEvent(id: int, started: bool, known: bool)
      requires Valid() && Enabled(Abstract(), ThreadChange(id, started, known))
      modifies this`cache, this`log
      ensures Took(ThreadChange(id, started, known))
      ensures Valid()
    {
      hide Inv, Stops, Enabled;
      Keeps(ThreadChange(id, started, known));
      if !hasSession || !known {
        return;
      }
      if flags.running || flags.pending.Some? {
        cache := cache.(threadEvents := cache.threadEvents + [Thread(id, started)]);
        return;
      }
      log := log + [Thread(id, started)];
    }

    method QueueSessionTermination(code: int)
      requires Valid() && Enabled(Abstract(), ProcessExited(code))
      modifies this
      ensures Took(ProcessExited(code))
      ensures Valid()
      ensures destructions == old(destructions)
    {
      hide Inv, Stops, Enabled;
      Keeps(ProcessExited(code));
      flags := flags.(running := false, observed := true);
      FlushPendingThreadEvents();
      log := log + [Exited(code)];
      log := log + [Terminated];
      DisposeDebuggerSession(true);
    }

    method QueueSessionEnded()
      requires Valid() && Enabled(Abstract(), SessionEnded)
      modifies this
      ensures Took(SessionEnded)
      ensures Valid()
      ensures destructions == old(destructions)
    {
      hide Inv, Stops, Enabled;
      Keeps(SessionEnded);
      flags := flags.(running := false, observed := true);
      if !hasSession {
        return;
      }
      FlushPendingThreadEvents();
      log := log + [Terminated];
      DisposeDebuggerSession(true);
    }

    // ----- Requests -----

    /** `ok`: the engine accepted the operation; otherwise it threw. */
    method HandleContinue(ok: bool)
      requires Valid() && Enabled(Abstract(), Continue(ok))
      modifies this
      ensures Took(Continue(ok))
      ensures Valid()
    {
      hide Inv, Stops, Enabled;
      Keeps(Continue(ok));
      if flags.running || !hasSession {
        return;
      }
      flags := flags.(running := true);
      if !ok {
        flags := flags.(running := false);
        return;
      }
      ResetSuspendedState();
      log := log + [Resumed(Client)];
      StartWaitingForSessionEvent();
    }

    /** next, stepIn and stepOut. */
    method HandleStep(ok: bool)
      requires Valid() && Enabled(Abstract(), StepTarget(ok))
      modifies this
      ensures Took(StepTarget(ok))
      ensures Valid()
    {
      hide Inv, Stops, Enabled;
      Keeps(StepTarget(ok));
      if flags.running || !hasSession {
        return;
      }
      flags := flags.(pending := Some(Stepped), running := true);
      if !ok {
        flags := flags.(running := false, pending := None);
        return;
      }
      log := log + [Resumed(Client)];
      ResetSuspendedState();
      StartWaitingForSessionEvent();
    }

    method HandlePause(ok: bool)
      requires Valid() && Enabled(Abstract(), Pause(ok))
      modifies this
      ensures Took(Pause(ok))
      ensures Valid()
    {
      hide Inv, Stops, Enabled;
      Keeps(Pause(ok));
      if !flags.running || !hasSession {
        return;
      }
      ResetSuspendedState();
      flags := flags.(pending := Some(Paused));
      if !ok {
        flags := flags.(pending := None);
        return;
      }
      StartWaitingForSessionEvent();
    }

    method HandleConfigurationDone(known: bool, ok: bool)
      requires Valid() && Enabled(Abstract(), ConfigurationDone(known, ok))
      modifies this
      ensures Took(ConfigurationDone(known, ok))
      ensures Valid()
    {
      hide Inv, Stops, Enabled, Do, Report;
      ConfigurationDoneIs(Abstract(), known, ok);
      Keeps(ConfigurationDone(known, ok));
      if setup.awaitingConfiguration && !setup.stopAtEntry && hasSession && !flags.running && known {
        ResetSuspendedState();
        flags := flags.(running := true);
        if ok {
          log := log + [Resumed(Client)];
          StartWaitingForSessionEvent();
        } else {
          flags := flags.(running := false);
        }
      }
      setup := setup.(awaitingConfiguration := false, stopAtEntry := false);
    }

    /** The first half of a breakpoint update while the target runs, up to the wait for its halt. */
    method BeginUpdateWhileRunning()
      requires Valid() && Enabled(Abstract(), UpdateBegin)
      modifies this`flags, this`at
      ensures Took(UpdateBegin)
      ensures Valid()
    {
      hide Inv, Stops, Enabled;
      Keeps(UpdateBegin);
      flags := flags.(suppress := true);
      at := at.(updating := true);
    }

    /** The second half: apply, resume, and wait again. */
    method EndUpdateWhileRunning(newConditions: map<int, string>)
      requires Valid() && Enabled(Abstract(), UpdateEnd(newConditions))
      modifies this
      ensures Took(UpdateEnd(newConditions))
      ensures Valid()
    {
      hide Inv, Stops, Enabled, Do, Report;
      UpdateEndIs(Abstract(), newConditions);
      Keeps(UpdateEnd(newConditions));
      flags := flags.(running := true, suppress := false);
      at := at.(updating := false);
      StartWaitingForSessionEvent();
      setup := setup.(conditions := newConditions);
    }

    /** The second half when applying throws, or when resuming does after the flag was set. */
    method FailUpdateWhileRunning(applied: bool)
      requires Valid() && Enabled(Abstract(), UpdateFails(applied))
      modifies this`flags, this`at
      ensures Took(UpdateFails(applied))
      ensures Valid()
    {
      hide Inv, Stops, Enabled;
      Keeps(UpdateFails(applied));
      if applied {
        flags := flags.(running := true);
      }
      flags := flags.(suppress := false);
      at := at.(updating := false);
    }

    // ----- Requests that look -----

    /** stackTrace: registers the frames it read, none while the target runs. */
    method HandleStackTrace(newFrames: set<int>) returns (submitted: bool)
      requires Valid() && Enabled(Abstract(), Inspect(StackTrace(newFrames)))
      modifies this`cache
      ensures Took(Inspect(StackTrace(newFrames)))
      ensures Valid()
      ensures submitted <==> old(Submits(Abstract(), StackTrace(newFrames)))
      ensures submitted ==> !flags.running
    {
      Keeps(Inspect(StackTrace(newFrames)));
      hide Inv, Stops, Enabled;
      submitted := hasSession && !flags.running;
      var frames := if submitted then newFrames else {};
      assert cache.frames + {} == cache.frames;
      cache := cache.(frames := cache.frames + frames);
    }

    /** scopes: allocates references for a frame it knows, which a running target does not have. */
    method HandleScopes(frame: int, newReferences: set<int>) returns (submitted: bool)
      requires Valid() && Enabled(Abstract(), Inspect(Scopes(frame, newReferences)))
      modifies this`cache
      ensures Took(Inspect(Scopes(frame, newReferences)))
      ensures Valid()
      ensures submitted <==> old(Submits(Abstract(), Scopes(frame, newReferences)))
      ensures old(flags.running) ==> !submitted && cache == old(cache)
    {
      Keeps(Inspect(Scopes(frame, newReferences)));
      assert flags.running ==> cache.frames == {};
      hide Inv, Stops, Enabled;
      if frame !in cache.frames {
        return false;
      }
      submitted := hasSession && !flags.running;
      cache := cache.(variables := cache.variables + newReferences);
    }

    /** dataBreakpointInfo never asks whether the target runs, and still hands nothing to the dispatcher
        while it does: there is then no container and no frame to resolve. */
    method HandleDataBreakpointInfo(container: Option<int>, frame: Option<int>) returns (submitted: bool)
      requires Valid()
      ensures submitted <==> Submits(Abstract(), DataBreakpointInfo(container, frame))
      ensures submitted ==> !flags.running
    {
      hide Stops;
      if container.Some? {
        if container.value !in cache.variables {
          return false;
        }
      } else if frame.Some? {
        if frame.value !in cache.frames {
          return false;
        }
      } else {
        return false;
      }
      submitted := hasSession;
    }

    // ----- The wait loop and the destructor -----

    /** One turn of the wait loop: into the wait, and out of it again. */
    method EnterWaitForEvent()
      requires Valid() && Enabled(Abstract(), EnterWait)
      modifies this`at
      ensures Took(EnterWait)
      ensures Valid()
    {
      hide Inv, Stops, Enabled;
      Keeps(EnterWait);
      at := at.(inWait := true);
    }

    method LeaveWaitForEvent(fails: bool)
      requires Valid() && Enabled(Abstract(), Unwind(fails))
      modifies this`at, this`waitFailed
      ensures Took(Unwind(fails))
      ensures Valid()
    {
      hide Inv, Stops, Enabled;
      Keeps(Unwind(fails));
      at := at.(inWait := false);
      waitFailed := fails;
    }

    method EndWaitLoop()
      requires Valid() && Enabled(Abstract(), LoopEnd)
      modifies this`waitActive, this`hasParked, this`destructions
      ensures Took(LoopEnd)
      ensures Valid()
    {
      hide Inv, Stops, Enabled;
      Keeps(LoopEnd);
      DrainPendingDisposedSession();
      waitActive := false;
    }

    method Destroy()
      requires Valid() && Enabled(Abstract(), Shutdown)
      modifies this
      ensures Took(Shutdown)
      ensures Valid()
      ensures !hasSession && !hasParked
    {
      hide Inv, Stops, Enabled;
      Keeps(Shutdown);
      DisposeDebuggerSession(false);
      waitActive := false;
      DrainPendingDisposedSession();
    }
  }
}
