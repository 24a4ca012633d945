/** The stop/resume state machine of a debug session.

    A transport thread runs request handlers; one dispatcher thread runs engine calls, and with them the
    engine's callbacks.  Each handler body and each callback is one step; a breakpoint update while the
    target runs is two, because it waits for the target to stop in between.

    The engine is any source of callbacks that keeps two promises: callbacks come only while the
    dispatcher is inside `wait_for_event`, and each breakpoint or exception callback is followed by one
    break-state callback before the next of its kind. */
module Session {
  import opened Wrappers

  datatype Reason = Entry | Stepped | Paused | Breakpoint(id: int) | Exception(code: int)

  datatype Resumer = Client | Adapter

  /** What the client is sent, in order, with a mark wherever the target leaves a stop. */
  datatype Event =
    | Stopped(reason: Reason)
    | Thread(id: int, started: bool)
    | Exited(code: int)
    | Terminated
    | Resumed(who: Resumer)

  /** Who owns the engine object: the server, the parking place, or nobody any more. */
  datatype Engine = Live | Parked | Destroyed

  /** What the two threads share. */
  datatype Flags = Flags(
    running: bool,
    observed: bool,
    suppress: bool,
    kernelPending: bool,
    /** The next break-state callback is to be skipped. */
    skip: bool,
    pending: Option<Reason>)

  /** What belongs to one stop: registered frame ids, allocated variable references, deferred events. */
  datatype Cache = Cache(frames: set<int>, variables: set<int>, threadEvents: seq<Event>)

  datatype Setup = Setup(conditions: map<int, string>, awaitingConfiguration: bool, stopAtEntry: bool)

  /** The engine object, and how often it was destroyed. */
  datatype Life = Life(engine: Engine, destructions: nat)

  /** Where the threads are. */
  datatype Wait = Wait(
    /** The wait loop has been started and has not ended. */
    active: bool,
    /** Its last wait threw. */
    failed: bool,
    /** The dispatcher is inside `wait_for_event`. */
    inWait: bool,
    /** A breakpoint or exception callback came whose break-state callback has not come yet. */
    owed: bool,
    /** The transport thread is in the middle of a breakpoint update. */
    updating: bool)

  datatype State = State(flags: Flags, cache: Cache, setup: Setup, life: Life, wait: Wait)

  /** How a session comes about.  A dump file is only looked at: nothing waits for configurationDone. */
  datatype Start = Launch(stopAtEntry: bool) | Attach(stopAtEntry: bool) | KernelAttach(stopAtEntry: bool) | DumpFile

  /** A session right after launch or attach: halted, with its entry stop reported or not. */
  function Launched(start: Start): State {
    State(Flags(running := false, observed := true, suppress := false, kernelPending := start.KernelAttach?,
                skip := false, pending := None),
          Cache({}, {}, []),
          Setup(map[], awaitingConfiguration := !start.DumpFile?,
                stopAtEntry := !start.DumpFile? && start.stopAtEntry),
          Life(Live, 0),
          Wait(active := false, failed := false, inWait := false, owed := false, updating := false))
  }

  /** What the client has been told at that point. */
  function LaunchLog(start: Start): seq<Event> {
    match start
    case Launch(stopAtEntry) => if stopAtEntry then [Stopped(Entry)] else []
    case Attach(stopAtEntry) => if stopAtEntry then [Stopped(Paused)] else []
    case KernelAttach(stopAtEntry) => if stopAtEntry then [Stopped(Paused)] else []
    case DumpFile => [Stopped(Paused)]
  }

  // ----- Shared pieces -----

  function ResetSuspended(s: State): State {
    s.(cache := Cache({}, {}, []))
  }

  function StartWaiting(s: State): State {
    if s.wait.active then s
    else s.(flags := s.flags.(observed := false), wait := s.wait.(active := true, failed := false))
  }

  /** The target goes on by itself: its next break-state callback is to be skipped. */
  function AutoContinue(s: State): State {
    ResetSuspended(s).(flags := s.flags.(pending := None, observed := false, running := true, skip := true))
  }

  function Dispose(s: State, onWorker: bool): State {
    State(Flags(running := false, observed := true, suppress := false, kernelPending := false, skip := false,
                pending := None),
          Cache({}, {}, []),
          Setup(map[], awaitingConfiguration := false, stopAtEntry := false),
          if s.life.engine != Live then s.life
          else if onWorker then Life(Parked, s.life.destructions)
          else Life(Destroyed, s.life.destructions + 1),
          s.wait)
  }

  /** Destroys a parked engine. */
  function Drain(s: State): State {
    if s.life.engine == Parked then s.(life := Life(Destroyed, s.life.destructions + 1)) else s
  }

  // ----- Engine callbacks -----

  function Owe(s: State, owed: bool): State {
    s.(wait := s.wait.(owed := owed))
  }

  /** The target has halted, with `pending` to be reported by the break-state callback. */
  function Halt(s: State, pending: Option<Reason>): State {
    s.(flags := s.flags.(running := false, observed := true, pending := pending))
  }

  /** `verdict` is what the engine makes of the breakpoint's condition, if it has one. */
  function OnBreakpointHit(s: State, id: int, verdict: Option<bool>): State {
    Owe(if id in s.setup.conditions && verdict == Some(false) then AutoContinue(s)
        else if !s.flags.running then s
        else Halt(s, if s.flags.suppress then None else Some(Breakpoint(id))),
        true)
  }

  function OnExceptionHit(s: State, code: int): State {
    Owe(if s.flags.kernelPending && !s.flags.suppress then
          AutoContinue(s.(flags := s.flags.(kernelPending := false)))
        else if !s.flags.running then s
        else Halt(s, if s.flags.suppress then None
                     else if s.flags.pending.Some? then s.flags.pending
                     else Some(Exception(code))),
        true)
  }

  function OnBreakHit(s: State): State {
    Owe(if s.flags.skip then s.(flags := s.flags.(skip := false))
        else if s.flags.suppress || s.flags.pending.None? then Halt(s, None)
        else Halt(s, None).(cache := s.cache.(threadEvents := [])),
        false)
  }

  /** Deferred thread events go out before the stop. */
  function BreakReport(s: State): seq<Event> {
    if s.flags.skip || s.flags.suppress || s.flags.pending.None? then [] else s.cache.threadEvents + [Stopped(s.flags.pending.value)]
  }

  /** `known`: the current thread's id could be read. */
  function OnThread(s: State, id: int, started: bool, known: bool): State {
    if s.life.engine == Live && known && (s.flags.running || s.flags.pending.Some?) then
      s.(cache := s.cache.(threadEvents := s.cache.threadEvents + [Thread(id, started)]))
    else s
  }

  function ThreadReport(s: State, id: int, started: bool, known: bool): seq<Event> {
    if s.life.engine == Live && known && !(s.flags.running || s.flags.pending.Some?) then [Thread(id, started)] else []
  }

  function OnProcessExited(s: State): State {
    Dispose(s, true)
  }

  function ExitReport(s: State, code: int): seq<Event> {
    s.cache.threadEvents + [Exited(code), Terminated]
  }

  function OnSessionEnded(s: State): State {
    if s.life.engine != Live then Halt(s, s.flags.pending) else Dispose(s, true)
  }

  function EndReport(s: State): seq<Event> {
    if s.life.engine != Live then [] else s.cache.threadEvents + [Terminated]
  }

  // ----- Requests that resume or stop the target -----

  function Resume(s: State, pending: Option<Reason>): State {
    s.(flags := s.flags.(running := true, pending := pending))
  }

  function SetPending(s: State, pending: Option<Reason>): State {
    s.(flags := s.flags.(pending := pending))
  }

  function SetConditionsTo(s: State, conditions: map<int, string>): State {
    s.(setup := s.setup.(conditions := conditions))
  }

  function BeginUpdate(s: State): State {
    s.(flags := s.flags.(suppress := true), wait := s.wait.(updating := true))
  }

  function EndUpdate(s: State): State {
    s.(flags := s.flags.(suppress := false), wait := s.wait.(updating := false))
  }

  function EndLoop(s: State): State {
    s.(wait := s.wait.(active := false))
  }

  /** `ok`: the engine accepted the operation. */
  function DoContinue(s: State, ok: bool): State {
    if s.flags.running || s.life.engine != Live then s
    else if ok then StartWaiting(Resume(ResetSuspended(s), s.flags.pending))
    else s
  }

  /** next, stepIn and stepOut. */
  function DoStep(s: State, ok: bool): State {
    if s.flags.running || s.life.engine != Live then s
    else if ok then StartWaiting(Resume(ResetSuspended(s), Some(Stepped)))
    else SetPending(s, None)
  }

  function DoPause(s: State, ok: bool): State {
    if !s.flags.running || s.life.engine != Live then s
    else if ok then StartWaiting(SetPending(ResetSuspended(s), Some(Paused)))
    else SetPending(ResetSuspended(s), None)
  }

  function DoConfigurationDone(s: State, known: bool, ok: bool): State {
    var t := if Configures(s) && known then
               (if ok then StartWaiting(Resume(ResetSuspended(s), s.flags.pending)) else ResetSuspended(s))
             else s;
    t.(setup := t.setup.(awaitingConfiguration := false, stopAtEntry := false))
  }

  predicate Configures(s: State) {
    s.setup.awaitingConfiguration && !s.setup.stopAtEntry && s.life.engine == Live && !s.flags.running
  }

  // ----- Requests that only look -----

  datatype Request =
    | Threads
    | StackTrace(newFrames: set<int>)
    | Scopes(frame: int, newReferences: set<int>)
    | Variables(reference: int)
    | Evaluate(inFrame: Option<int>, hover: bool)
    | ReadMemory | WriteMemory | Disassemble | Modules | ExceptionInfo
    | SetVariable(reference: int)
    | SetExpression(frame: int)
    | DataBreakpointInfo(container: Option<int>, inFrame: Option<int>)

  /** Whether the handler hands work to the dispatcher, after all checks of its own. */
  predicate Submits(s: State, r: Request) {
    match r
    case Threads => s.life.engine == Live && !s.flags.running
    case StackTrace(_) => s.life.engine == Live && !s.flags.running
    case Scopes(frame, _) => frame in s.cache.frames && s.life.engine == Live && !s.flags.running
    case Variables(_) => false
    case Evaluate(frame, hover) =>
      (frame.Some? ==> frame.value in s.cache.frames) && !hover && !s.flags.running && s.life.engine == Live
    case SetVariable(reference) => !s.flags.running && reference in s.cache.variables && s.life.engine == Live
    case SetExpression(frame) => frame in s.cache.frames && !s.flags.running && s.life.engine == Live
    case DataBreakpointInfo(reference, frame) =>
      (if reference.Some? then reference.value in s.cache.variables else frame.Some? && frame.value in s.cache.frames)
      && s.life.engine == Live
    case _ => !s.flags.running && s.life.engine == Live
  }

  /** What the handler leaves in the caches: stackTrace registers the frames it read, scopes allocates
      references even when the read gave it nothing. */
  function DoInspect(s: State, r: Request): State {
    match r
    case StackTrace(frames) => if Submits(s, r) then s.(cache := s.cache.(frames := s.cache.frames + frames)) else s
    case Scopes(frame, references) =>
      if frame in s.cache.frames then s.(cache := s.cache.(variables := s.cache.variables + references)) else s
    case _ => s
  }

  // ----- Steps -----

  /** A breakpoint update while the target runs begins by suppressing events and interrupting, and goes on once
      the wait loop has ended: it applies the change and resumes (`UpdateEnd`), or interrupting, applying or
      resuming throws (`UpdateFails`), or the session has ended meanwhile (`UpdateAbandoned`).  In the last case the source
      still calls the session it holds by reference; what that does is not modelled, only that it happens. */
  datatype Step =
    | Continue(ok: bool) | StepTarget(ok: bool) | Pause(ok: bool)
    | ConfigurationDone(known: bool, ok: bool)
    | Inspect(request: Request)
    | SetConditions(conditions: map<int, string>)
    | UpdateBegin | UpdateEnd(conditions: map<int, string>) | UpdateFails(applied: bool) | UpdateAbandoned
    | BreakpointHit(id: int, verdict: Option<bool>) | ExceptionHit(code: int) | BreakHit
    | ThreadChange(id: int, started: bool, known: bool)
    | ProcessExited(code: int) | SessionEnded
    | EnterWait | Unwind(fails: bool) | LoopEnd
    | Shutdown

  predicate IsCallback(step: Step) {
    step.BreakpointHit? || step.ExceptionHit? || step.BreakHit? || step.ThreadChange?
    || step.ProcessExited? || step.SessionEnded?
  }

  /** Whether a step can happen: one request at a time, no dispatcher work during a wait, and the
      engine's two promises. */
  predicate Enabled(s: State, step: Step) {
    match step
    case Continue(_) => !s.wait.updating && (s.flags.running || s.life.engine != Live || !s.wait.inWait)
    case StepTarget(_) => !s.wait.updating && (s.flags.running || s.life.engine != Live || !s.wait.inWait)
    case Pause(_) => !s.wait.updating
    case ConfigurationDone(_, _) => !s.wait.updating && (Configures(s) ==> !s.wait.inWait)
    case Inspect(r) => !s.wait.updating && (Submits(s, r) ==> !s.wait.inWait)
    case SetConditions(_) => !s.wait.updating && s.life.engine == Live && !s.flags.running && !s.wait.inWait
    case UpdateBegin => !s.wait.updating && s.life.engine == Live && s.flags.running
    case UpdateEnd(_) => s.wait.updating && s.life.engine == Live && !s.wait.active
    case UpdateFails(applied) => s.wait.updating && s.life.engine == Live && (applied ==> !s.wait.active)
    case UpdateAbandoned => s.wait.updating && s.life.engine != Live && !s.wait.active
    case BreakpointHit(_, _) => s.wait.inWait && !s.wait.owed
    case ExceptionHit(_) => s.wait.inWait && !s.wait.owed
    case BreakHit => s.wait.inWait
    case ThreadChange(_, _, _) => s.wait.inWait
    case ProcessExited(_) => s.wait.inWait
    case SessionEnded => s.wait.inWait
    case EnterWait => s.wait.active && !s.wait.inWait && !s.wait.failed && s.life.engine == Live && !s.flags.observed
    case Unwind(_) => s.wait.inWait && !s.wait.owed
    case LoopEnd => s.wait.active && !s.wait.inWait && (s.wait.failed || s.flags.observed || s.life.engine != Live)
    case Shutdown => !s.wait.inWait
  }

  function Do(s: State, step: Step): State {
    match step
    case Continue(ok) => DoContinue(s, ok)
    case StepTarget(ok) => DoStep(s, ok)
    case Pause(ok) => DoPause(s, ok)
    case ConfigurationDone(known, ok) => DoConfigurationDone(s, known, ok)
    case Inspect(r) => DoInspect(s, r)
    case SetConditions(conditions) => SetConditionsTo(s, conditions)
    case UpdateBegin => BeginUpdate(s)
    case UpdateEnd(conditions) =>
      StartWaiting(Resume(SetConditionsTo(EndUpdate(s), conditions), s.flags.pending))
    case UpdateFails(applied) => if applied then Resume(EndUpdate(s), s.flags.pending) else EndUpdate(s)
    case UpdateAbandoned => EndUpdate(s)
    case BreakpointHit(id, verdict) => OnBreakpointHit(s, id, verdict)
    case ExceptionHit(code) => OnExceptionHit(s, code)
    case BreakHit => OnBreakHit(s)
    case ThreadChange(id, started, known) => OnThread(s, id, started, known)
    case ProcessExited(_) => OnProcessExited(s)
    case SessionEnded => OnSessionEnded(s)
    case EnterWait => s.(wait := s.wait.(inWait := true))
    case Unwind(fails) => s.(wait := s.wait.(inWait := false, failed := fails))
    case LoopEnd => Drain(EndLoop(s))
    case Shutdown => Drain(EndLoop(Dispose(s, false)))
  }

  /** A hit the adapter does not surface but runs on from: a false condition, or the kernel's first break. */
  predicate RunsOn(s: State, step: Step) {
    || (step.BreakpointHit? && step.id in s.setup.conditions && step.verdict == Some(false))
    || (step.ExceptionHit? && s.flags.kernelPending && !s.flags.suppress)
  }

  /** Whether a step takes a halted target out of its stop. */
  predicate LeavesStop(s: State, step: Step) {
    match step
    case Continue(ok) => !s.flags.running && s.life.engine == Live && ok
    case StepTarget(ok) => !s.flags.running && s.life.engine == Live && ok
    case ConfigurationDone(known, ok) => Configures(s) && known && ok
    case _ => RunsOn(s, step) && !s.flags.running
  }

  /** What a step sends to the client, with a mark where it takes the target out of a stop. */
  function Report(s: State, step: Step): seq<Event> {
    match step
    case BreakHit => BreakReport(s)
    case ThreadChange(id, started, known) => ThreadReport(s, id, started, known)
    case ProcessExited(code) => ExitReport(s, code)
    case SessionEnded => EndReport(s)
    case _ => if LeavesStop(s, step) then [Resumed(if IsCallback(step) then Adapter else Client)] else []
  }

  /** Everything reported in a run, after what was reported before. */
  function Log(before: seq<Event>, s: State, steps: seq<Step>): seq<Event> {
    if steps == [] then before
    else
      var n := |steps| - 1;
      Log(before, s, steps[..n]) + Report(After(s, steps[..n]), steps[n])
  }

  ghost predicate IsRun(s: State, steps: seq<Step>) {
    steps == [] || (IsRun(s, steps[..|steps| - 1]) && Enabled(After(s, steps[..|steps| - 1]), steps[|steps| - 1]))
  }

  function After(s: State, steps: seq<Step>): State {
    if steps == [] then s else Do(After(s, steps[..|steps| - 1]), steps[|steps| - 1])
  }
}
