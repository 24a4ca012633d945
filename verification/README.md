# Verification of the dbgeng debug adapter

This project models the logic of a Debug Adapter Protocol server for the Windows debug engine, and proves
what that logic keeps.  The engine itself is not modelled: it appears as an arbitrary decoder, an arbitrary set of
live breakpoint ids, an arbitrary list of symbols and an arbitrary source of callbacks, and the results hold for
all of them.  `dafny verify dfyconfig.toml` checks everything.

One module per component:

- `Session` is the stop/resume state machine: requests on the transport thread, callbacks on the dispatcher
  thread, the wait loop and the teardown, each as one step.  `SessionRuns` proves what every run keeps,
  `RequestedStops` which stops the client is told of, `SessionCycles` what the ordinary courses of a session send,
  and `SessionExamples` holds runs that show what the code does not promise.  `DapServer` is the server object: its methods take those steps and keep it valid.
- `Disassembly` is the disassembly window: forward decoding, the backward scan, placeholders and the removal of
  repeats.
- `LocalsTree` expands the flat symbol list and rebuilds the forest; `VariableTree` publishes it by reference.
- `Breakpoints` is the session's bookkeeping of engine ids; `Conditions` is the server's second index and the
  setBreakpoints request that keeps both.
- `Framing` and `Transport` are the wire (Debug Adapter Protocol overview, "Base protocol") and the outbound
  path; `CommandLine` is Windows argument quoting; `Base64` follows sections 3.2, 3.3 and 4 of RFC 4648.
- `FrameId` is the frame-id hash, `TopologicalSort` the generator's class order, `TraceRecorder` the trace buffer.

What the engine is assumed to do: callbacks come only while the dispatcher is inside `wait_for_event`, and each
breakpoint or exception callback is followed by one break-state callback before the next; `bc` removes exactly its
id, and a set command removes none; expanding a symbol inserts its members right after it.

Where a property one would expect is false of the code, the model keeps the code and states when it holds:

- A reported stop can be left without a request: a conditional breakpoint presented again while the stop is open,
  with its condition false by then, resumes the target (`SessionRuns.StopsLeftByAdapter` says exactly when,
  `ClientResumesBetween` that otherwise the client resumed; `SessionExamples.StopLeftByAdapter`).
- A pause or step the client asked for can be lost without a word: a false condition or the kernel's first break
  clears its reason, and so do the halt of a breakpoint update and a pause the engine refuses (`RequestedStops.StopIsReported` and
  `RequestedStopIsReported` say exactly when, `HaltIsSilent` which halts the client is not told of;
  `SessionExamples.PauseLostToFalseCondition`, `PauseLostToUpdate`, `PauseLostToKernelBreak`,
  `StepLostToRefusedPause`).
- A process exit after a session end sends a second `terminated` (`SessionRuns.TerminatedExactlyOnce`,
  `SessionExamples.TerminatedTwice`).
- A pause, and a false condition, drop thread events that were deferred (`SessionRuns.ThreadEventsAreConserved`,
  `SessionExamples.ThreadLostToPause`).
- A resume that comes after the wait has unwound from a stop but before its loop has ended is not waited for: the
  start of a loop is a no-op while one is active (`SessionCycles.ResumeNobodyWaitsFor`; `SessionRuns.ResumeStartsWaiting`
  says exactly when).
- A breakpoint update goes on with an engine object that has been destroyed, if the session ends while it waits
  (`SessionRuns.EngineIsUsedWhileAlive`, `SessionExamples.UpdateOutlivesEngine`).
- With leading placeholders clamped at address zero, the target is not where `instructionOffset` says
  (`Disassembly.TargetPosition`, `ClampedAtZero`).
- A fetch from the symbol's start that its cap cuts short misses the target (`Disassembly.SymbolRunReachesTarget`,
  `CappedFetchMisses`).
- Frames of different threads can share an id, though those of one thread cannot (`FrameId.FramesThatCollide`);
  those of threads that are apart do not (`FrameId.ThreadsApart`).
- A program path with a space and a quote, with a leading quote, or with a tab and no space is not read back
  (`CommandLine.ReadProgram`, `MisreadProgram`).
- A file spelled in two ways leaves stale conditions behind, because the server finds conditions by the path as
  spelled and the session finds ids by the normalized path; the comment on the server's map calls its key
  case-insensitive, which it is not (`Conditions.AgreementNeedsOneSpelling`, `StaleCondition`).
- A breakpoint without a condition and one with the one-character condition U+001E share a key
  (`Breakpoints.SameKey`).

## Model

| member | source | states |
|---|---|---|
| SessionRuns.StopsHaveResumesBetween | src/service/dap_server.cpp:460-533 | in every run of requests, callbacks and wait-loop steps, any two `stopped` events, the entry stop included, have a resume between them |
| SessionRuns.StopsLeftByAdapter | src/service/dap_server.cpp:899-938 | in every run the adapter leaves a reported stop by itself exactly when a false condition, or the kernel's first break, comes while that stop is open |
| SessionRuns.ClientResumesBetween | src/service/dap_server.cpp:460-533 | in every run in which no such hit comes while a reported stop is open, the client asked for a resume between any two stops |
| SessionRuns.ClientResumedBetween | src/service/dap_server.cpp:460-533 | the same for any log in which stops alternate and the adapter left none by itself |
| SessionExamples.StopLeftByAdapter | src/service/dap_server.cpp:460-468 | a run in which that happens: two stops, and only the adapter resumed between them |
| SessionRuns.RepeatedStopIsSilent | src/service/dap_server.cpp:614-617 | a stop presented again to a halted target sends the client nothing; it leaves the whole state as it was, but for the observed flag, exactly when the adapter does not run on from it |
| SessionRuns.HitIsReported | src/service/dap_server.cpp:460-533 | a surfaced hit on a running target is reported by its break callback, with its own reason or the pause or step it must not displace, whatever happens in between; no earlier skip is left over |
| SessionRuns.FalseHitSkipsItsOwnBreak | src/service/dap_server.cpp:899-921 | a hit with a false condition, or the kernel's first break: its own break callback is the one skipped, no stop is reported until then, and the target runs on with nothing left to skip |
| SessionRuns.StepKeepsInv | src/service/dap_server.cpp:456-545 | every step keeps the invariant: a skip is owed by a running target, a halted target with something to report owes its break, a running or updating session has empty caches, an ended one has nothing pending, suppression happens during updates only |
| SessionRuns.ActiveOnlyByResume | src/service/dap_server.cpp:866-886 | nothing but a resume makes an idle session run or have a stop to report |
| RequestedStops.StopIsReported | src/service/dap_server.cpp:507-533 | in every run, a break reports a stop with reason r exactly when some step gave that reason, no later step displaced it, and the break is neither skipped nor part of an update |
| RequestedStops.HaltIsSilent | src/service/dap_server.cpp:519-528 | in every run, an unskipped break tells the client nothing exactly when it is part of an update or no reason stands |
| RequestedStops.RequestedStopIsReported | src/service/dap_server_next.cpp:33-40 | a step, a pause or a surfaced hit, followed by any run that does not give the same reason again: a break reports it exactly when nothing displaced it and the break is neither skipped nor part of an update |
| RequestedStops.PendingAfterRun | src/service/dap_server.cpp:594-617 | over any run a reason is pending exactly when it was given and not displaced since, or was pending at the start and never displaced |
| RequestedStops.PendingAfterStep | src/service/dap_server.cpp:460-533 | the same for one step: which steps give a reason and which displace it |
| SessionExamples.PauseLostToFalseCondition | src/service/dap_server.cpp:914-918 | a run in which a false condition throws a pause away: the target halts and the client is never told |
| SessionExamples.PauseLostToUpdate | src/service/dap_server.cpp:866-886 | a run in which a breakpoint update throws a pause away: the target just keeps running |
| SessionExamples.PauseLostToKernelBreak | src/service/dap_server.cpp:923-938 | a run in which the kernel's first break throws a pause away |
| SessionExamples.StepLostToRefusedPause | src/service/dap_server_pause.cpp:32-35 | a run in which a pause the engine refuses throws a step away: the target halts and the client is never told |
| SessionRuns.RunsOnlyByResume | src/service/dap_server.cpp:668-711 | a halted session starts to run exactly at a resume or at the end of an update, a refused resume at that end included |
| SessionRuns.HaltsOnlyByStop | src/service/dap_server.cpp:460-533 | a running session halts exactly on a hit that is surfaced, a break that is not skipped, or the end |
| SessionRuns.ResumeStartsWaiting | src/service/dap_server_continue.cpp:32-53 | a client's resume leaves empty caches, and a loop that is going to wait exactly when the last loop has ended |
| SessionRuns.UpdateIsInvisible | src/service/dap_server.cpp:866-886 | no stop is reported while an update interrupts the target, and its end leaves the target running and waited for |
| SessionRuns.NoWorkBehindRunningTarget | src/service/dap_server_data_breakpoint_info.cpp:22-75 | in every reachable state a running target means empty frame and variable maps, so no inspection request hands work to the parked dispatcher, not even dataBreakpointInfo, which has no running check |
| SessionRuns.WaitsOnlyForRunningTarget | src/service/dap_server_session_events.cpp:100-105 | the dispatcher goes into a wait only while the target runs, so work handed over at a stop waits at most for the current wait to unwind |
| SessionRuns.TerminatedExactlyOnce | src/service/dap_server_session_events.cpp:30-53 | the number of `terminated` events over a run is the number of process exits, plus one if session-ended came before any exit; exactly one if and only if there is one exit and it is first, or no exit and at least one end |
| SessionExamples.TerminatedTwice | src/service/dap_server_session_events.cpp:30-53 | a run with two `terminated` events: a session end before the process exit |
| SessionRuns.ExitedThenTerminated | src/service/dap_server_session_events.cpp:30-39 | in every run each `exited` is followed at once by `terminated` |
| SessionRuns.NothingAfterTheEnd | src/service/dap_server_session_events.cpp:30-70 | the end of a session sends the deferred thread events first, and afterwards only a further process exit sends anything |
| SessionRuns.ThreadEventsAreConserved | src/service/dap_server_session_events.cpp:11-28 | each thread event heard of is sent once, still deferred, or was dropped by a step that resets the stop's caches; a pause and a false condition are such steps |
| SessionExamples.ThreadLostToPause | src/service/dap_server_pause.cpp:27-30 | a run in which a deferred thread event is dropped by a pause and never sent |
| SessionRuns.EngineIsUsedWhileAlive | src/service/dap_server.cpp:866-886 | no step uses a destroyed engine object, except, exactly, a breakpoint update that goes on after the session ended while it waited |
| SessionExamples.UpdateOutlivesEngine | src/service/dap_server.cpp:873-885 | a run in which that happens: the process exits while the update waits for the halt |
| SessionRuns.NeverDestroyedInCallback | src/service/dap_server.cpp:275-304 | the engine object is destroyed only while the dispatcher is outside the wait, never in a callback, and never comes back |
| SessionRuns.DestroyedExactlyOnce | src/service/dap_server.cpp:96-100 | destroying the server, in any reachable state, leaves the engine object destroyed exactly once |
| DapServer.Server.constructor | src/service/dap_server_launch.cpp:66-85 | a server after launch, attach, kernel attach or opening a dump: valid, in the launched state, with the entry stop sent or not |
| DapServer.Server.LogHasResumesBetween | src/service/dap_server.cpp:460-533 | whatever was called on a server, its own log has a resume between two stops |
| DapServer.Server.Keeps | src/service/dap_server.cpp:456-545 | every enabled step keeps a valid server valid: the invariant and the alternation of its log |
| DapServer.Server.BreakpointHitCallback | src/service/dap_server.cpp:460-479 | takes the breakpoint-hit step, sends what it reports, and keeps the server valid, so its log alternates |
| DapServer.Server.ExceptionHitCallback | src/service/dap_server.cpp:481-505 | the same for exceptions, with the kernel's first break and without displacing a pending reason |
| DapServer.Server.BreakHitCallback | src/service/dap_server.cpp:507-533 | the same for the break callback: skip, read and clear the pending reason, flush, report |
| DapServer.Server.AutoContinueTarget | src/service/dap_server.cpp:914-919 | resets the caches and the pending reason, runs on and asks for one skip |
| DapServer.Server.FlushPendingThreadEvents | src/service/dap_server_session_events.cpp:55-70 | sends all deferred thread events, in order, and defers none |
| DapServer.Server.QueueThreadEvent | src/service/dap_server_session_events.cpp:11-28 | defers while running or about to report a stop, otherwise sends |
| DapServer.Server.QueueSessionTermination | src/service/dap_server_session_events.cpp:30-39 | flush, exited, terminated, dispose; destroys no engine |
| DapServer.Server.QueueSessionEnded | src/service/dap_server_session_events.cpp:41-53 | flush, terminated, dispose, only while there is a session; destroys no engine |
| DapServer.Server.DisposeDebuggerSession | src/service/dap_server.cpp:275-321 | clears the session's state; parks the engine on the dispatcher's thread and destroys it elsewhere |
| DapServer.Server.DrainPendingDisposedSession | src/service/dap_server_session_events.cpp:133-153 | destroys a parked engine and leaves none parked |
| DapServer.Server.StartWaitingForSessionEvent | src/service/dap_server_session_events.cpp:79-94 | starts a wait loop unless one is active |
| DapServer.Server.EndWaitLoop | src/service/dap_server_session_events.cpp:120-131 | the wait loop's end drains the parked engine |
| DapServer.Server.Destroy | src/service/dap_server.cpp:96-100 | the destructor is the shutdown step: no session, no parked engine |
| DapServer.Server.HandleContinue | src/service/dap_server_continue.cpp:22-54 | the continue request is the continue step, with its rollback |
| DapServer.Server.HandleStep | src/service/dap_server_next.cpp:19-49 | next, stepIn and stepOut are the step request, with their rollback |
| DapServer.Server.HandlePause | src/service/dap_server_pause.cpp:13-36 | the pause request is the pause step, off the dispatcher |
| DapServer.Server.HandleConfigurationDone | src/service/dap_server_configuration_done.cpp:5-15 | the handler is the configurationDone step, which `SessionCycles.ConfigurationDoneResumes` pins over runs |
| DapServer.Server.BeginUpdateWhileRunning | src/service/dap_server.cpp:866-875 | a breakpoint update while running first suppresses events |
| DapServer.Server.EndUpdateWhileRunning | src/service/dap_server.cpp:877-886 | then resumes, ends the suppression and waits again; nothing is sent |
| DapServer.Server.FailUpdateWhileRunning | src/service/dap_server.h:306-320 | an update whose interrupt, change or resume throws ends the suppression; the running flag is set if resuming was tried |
| DapServer.Server.HandleStackTrace | src/service/dap_server_stack_trace.cpp:19-32 | registers frames, and hands work to the dispatcher, only while the target is halted |
| DapServer.Server.HandleScopes | src/service/dap_server_scopes.cpp:14-57 | allocates references for a known frame; with a running target it changes nothing and hands over nothing |
| DapServer.Server.HandleDataBreakpointInfo | src/service/dap_server_data_breakpoint_info.cpp:22-75 | without any running check, hands work to the dispatcher only while the target is halted |
| DapServer.Server.EnterWaitForEvent | src/service/dap_server_session_events.cpp:100-105 | the wait loop enters the wait |
| DapServer.Server.LeaveWaitForEvent | src/service/dap_server_session_events.cpp:102-118 | and leaves it, normally or by an exception |
| SessionCycles.ConfigurationDoneResumes | src/service/dap_server_configuration_done.cpp:5-15 | in every run, configurationDone resumes the target exactly when it is the first, the session was started without stopping at its entry, is live and halted, and the engine goes along; otherwise it sends nothing and leaves the running flag |
| SessionCycles.AwaitsConfiguration | src/service/dap_server_launch.cpp:68-73 | in every run, a live session awaits configurationDone exactly when it is not a dump and none came yet |
| SessionCycles.EntryStop | src/service/dap_server_launch.cpp:76-85 | the first stop is sent unless the session was started without stopping at its entry; a launch gives the entry as the reason, anything else a pause |
| SessionCycles.RefusedRequests | src/service/dap_server_continue.cpp:22-50 | resuming what runs, pausing what is halted, either without a session, and a resume the engine refuses change nothing |
| SessionCycles.ContinueToBreakpoint | src/service/dap_server.cpp:460-479 | from every reachable state at rest: continue, wait, a hit that is not found false, break; the log is one resume and one stop with that breakpoint's id |
| SessionCycles.ContinueToException | src/service/dap_server.cpp:481-505 | the same with an exception, which is reported with its own code |
| SessionCycles.StepToBreak | src/service/dap_server_next.cpp:19-49 | from every reachable state at rest: step, wait, break; the log is one resume and one stop with the step as reason |
| SessionCycles.PauseToBreak | src/service/dap_server_pause.cpp:13-36 | from every reachable running state: pause, the break-in exception, break; the log is one stop with the pause as reason |
| SessionCycles.RefusedPause | src/service/dap_server_pause.cpp:27-36 | a pause the engine refuses forgets what was pending and deferred, and the target runs on |
| SessionCycles.PauseWaitsAgain | src/service/dap_server_pause.cpp:13-36 | a pause starts a wait for a running target that nobody waits for any more |
| SessionCycles.StopToRest | src/service/dap_server_session_events.cpp:96-131 | after a stop the wait unwinds and its loop ends, with nothing sent and the caches kept |
| SessionCycles.ResumeNobodyWaitsFor | src/service/dap_server_session_events.cpp:79-131 | from every reachable stop: a resume after the loop has ended is waited for; one that comes between the unwinding and the end of the loop leaves a running target that nobody waits for |
| SessionCycles.FalseConditionRunsOn | src/service/dap_server.cpp:899-921 | a false condition and its break send nothing and leave a running target that is waited for, with no stop observed, empty caches and the same conditions |
| SessionCycles.KernelRunsOn | src/service/dap_server.cpp:923-938 | the kernel's first break does the same, and only once |
| SessionCycles.UpdateWhileRunning | src/service/dap_server.cpp:866-886 | from every reachable running state a breakpoint update halts, changes the conditions and runs on, with nothing sent and the deferred events kept |
| SessionCycles.UpdateSwallowsHit | src/service/dap_server.cpp:460-533 | whatever halts the target of an update is swallowed: no reason, nothing sent, and the kernel's first break is still to come |
| SessionCycles.UpdatePassesFalseCondition | src/service/dap_server.cpp:899-921 | a false condition during an update runs on, with the target still to be halted |
| SessionCycles.SetAtRest | src/service/dap_server_set_breakpoints.cpp:137-183 | breakpoints set at a stop change the conditions and nothing else |
| SessionCycles.FailedUpdate | src/service/dap_server.h:306-320 | an update that throws ends the suppression, keeps the conditions and caches and starts no wait |
| SessionCycles.WaitGoesOn | src/service/dap_server_session_events.cpp:96-131 | a wait that returns without a stop is entered again; one that throws ends the loop |
| SessionCycles.SubmitsExactly | src/service/dap_server.h:169-210 | in every reachable state a request reaches the engine exactly when the session is live and halted and the frame or container it names is known; a hover and `variables` never do |
| SessionCycles.LookingWorksAtRest | src/service/dap_server_scopes.cpp:14-57 | at a stop a stack trace, the scopes of its frames, and what needs a frame or container of theirs reach the engine |
| SessionCycles.ThreadEventIsSentOrKept | src/service/dap_server_session_events.cpp:11-28 | a thread event is sent at once exactly when the target is halted with nothing to report, and kept last in line otherwise |
| SessionCycles.ExitToEnd | src/service/dap_server_session_events.cpp:30-53 | from every reachable live session inside the wait: exit, end, unwinding; the log is the deferred events, exited, terminated, and the engine object is gone |
| Disassembly.DisassembleRange | src/debugger/debugger_session_memory.cpp:49-72 | the forward loop returns the decode chain from the start, cut at the first failure |
| Disassembly.ForwardMoves | src/debugger/debugger_session_memory.cpp:59-71 | a decode chain starts at its start, strictly increases, and entry n is at least n bytes on |
| Disassembly.ForwardReaches | src/debugger/debugger_session_memory.cpp:59-71 | entry j of a decode chain is where j instructions from the start end, and it is there exactly if one more can be decoded |
| Disassembly.DisassembleBackward | src/debugger/debugger_session_memory.cpp:74-128 | the backward scan returns the tail of the first landing run in its window |
| Disassembly.Probe | src/debugger/debugger_session_memory.cpp:94-116 | one probe is aligned exactly when the run from it lands on the end address, and then returns that run |
| Disassembly.FirstLandingIsEarliest | src/debugger/debugger_session_memory.cpp:88-126 | the scan finds the earliest start that lands, or none does |
| Disassembly.BackwardLands | src/debugger/debugger_session_memory.cpp:74-128 | any result is a contiguous chain ending exactly at the end address; it is empty exactly when no start in the window lands |
| Disassembly.BackwardIsComplete | src/debugger/debugger_session_memory.cpp:74-128 | with instructions of at most 15 bytes and one landing run from at least 15 * (count + 2) bytes before, exactly `count` instructions come back, as a chain ending on the end address |
| Disassembly.BackwardFromZero | src/debugger/debugger_session_memory.cpp:88-92 | near address zero a run from zero gives all it has, up to `count` |
| Disassembly.InvalidLeading | src/debugger/debugger_session_internal.h:340-359 | leading placeholders right before the first address, or from zero when there is no room |
| Disassembly.Disassemble | src/debugger/debugger_session_memory.cpp:130-249 | the request returns the window, of exactly `count` entries, and fails only for a negative count |
| Disassembly.Collect | src/debugger/debugger_session_memory.cpp:144-212 | the window before the removal of repeats, which `WindowPrefix` and `CollectedForward` pin |
| Disassembly.FindPrevious | src/debugger/debugger_session_memory.cpp:147-179 | the previous instructions, from the symbol's start or by the backward scan |
| Disassembly.RemoveRepeated | src/debugger/debugger_session_memory.cpp:214-230 | keeps the first entry of each address, up to `count` |
| Disassembly.Pad | src/debugger/debugger_session_memory.cpp:237-246 | fills up with placeholders that wrap at the top of the address space |
| Disassembly.CoreIsCollected | src/debugger/debugger_session_memory.cpp:214-230 | removing repeats is the identity unless the leading placeholders are clamped at zero |
| Disassembly.CoreWhenClamped | src/debugger/debugger_session_memory.cpp:214-230 | when they are clamped, exactly the real instructions below their count are dropped |
| Disassembly.WindowIsIncreasing | src/debugger/debugger_session_memory.cpp:130-249 | addresses strictly increase exactly when the trailing placeholders do not pass the top of the address space |
| Disassembly.TargetPosition | src/debugger/debugger_session_memory.cpp:145-249 | for -count < offset <= 0 and a decodable target, entry number -offset is the target exactly when the leading placeholders are not clamped |
| Disassembly.CollectedForward | src/debugger/debugger_session_memory.cpp:199-212 | for offset >= 0 the window is the decode chain from entry `offset` on |
| Disassembly.SymbolRunReachesTarget | src/debugger/debugger_session_memory.cpp:150-174 | the previous instructions are the tail of the run from the symbol's start exactly when the run has no more entries than are fetched, and then lead up to the target without gap or overlap; within the reach of an int that is always so |
| Disassembly.WindowLeadsToTarget | src/debugger/debugger_session_memory.cpp:145-197 | for -count <= offset < 0 and a run from the symbol's start that lands on the target: the entries before the target are one contiguous chain ending on it exactly when that run has at least -offset entries and is fetched to its end; they are then its last ones, and the target, if decodable and in the window, follows |
| Disassembly.WindowLeadsBackward | src/debugger/debugger_session_memory.cpp:74-179 | the same without a symbol: with instructions of at most 15 bytes and a landing run from far enough before, the entries before the target are one chain ending on it, -offset long |
| Disassembly.WindowPrefix | src/debugger/debugger_session_memory.cpp:144-197 | for -count <= offset < 0 the window opens with the previous instructions if there are enough of them, and with a placeholder otherwise |
| Disassembly.WindowFromTarget | src/debugger/debugger_session_memory.cpp:144-246 | for every offset from -count on, unless clamped: from the target on the window shows the instructions that follow one another from the target, skipping `offset` of them, and placeholders where there are none |
| Disassembly.SymbolAtTarget | src/debugger/debugger_session_memory.cpp:150-174 | a symbol that starts at the target: every entry before the target is a placeholder |
| Disassembly.SymbolAfterTarget | src/debugger/debugger_session_memory.cpp:151-179 | a symbol that starts after the target gives the window of no symbol at all |
| Disassembly.LookBackIsCapped | src/debugger/debugger_session_memory.cpp:147-147 | an offset below -count gives the window of offset -count |
| Disassembly.PlaceholdersAdjacent | src/debugger/debugger_session_memory.cpp:181-246 | each placeholder is one address on from the entry before it, modulo 2^64, and so is the first instruction after leading ones, unless they are clamped; with nothing collected the window starts at the target |
| Disassembly.LookBack | src/debugger/debugger_session_memory.cpp:147-197 | the negative part: placeholders up to the first previous instruction, then the previous instructions, as many as wanted |
| Disassembly.CappedFetchMisses | src/debugger/debugger_session_memory.cpp:153-158 | 2^31 one-byte instructions from the symbol to the target: the capped fetch misses it |
| Disassembly.ClampedAtZero | src/debugger/debugger_session_memory.cpp:181-188 | a target at address zero with one placeholder before it: clamped, and not where the offset says |
| LocalsTree.ExpandIsPreorder | src/debugger/debugger_session_inspection.cpp:224-265 | inserting members right after their parent keeps the list a preorder |
| LocalsTree.ExpandKeepsSymbols | src/debugger/debugger_session_inspection.cpp:224-265 | an expansion keeps every symbol once, with its data and its moved parent |
| LocalsTree.ExpandKeepsDepth | src/debugger/debugger_session_inspection.cpp:224-265 | an expansion changes no symbol's depth and puts members one below their parent |
| LocalsTree.ExpandKeepsDepthWithin | src/debugger/debugger_session_inspection.cpp:244-259 | no symbol ends deeper than the limit |
| LocalsTree.SymbolDepth | src/debugger/debugger_session_inspection.cpp:64-75 | the parent walk computes the depth |
| LocalsTree.ExpandOne | src/debugger/debugger_session_inspection.cpp:243-264 | one scan expands the first symbol the engine lets expand, and makes progress in the pair (nodes, unexpanded symbols) |
| LocalsTree.ExpandAll | src/debugger/debugger_session_inspection.cpp:230-265 | the loop ends; the result is a preorder of depth at most 3 in which no pointer is expanded and nothing is left to expand unless the limit of 4096 symbols is reached, and it contains the start list unchanged |
| LocalsTree.Link | src/debugger/debugger_session_inspection.cpp:298-308 | linking high to low leaves at each top-level index its complete subtree |
| LocalsTree.CollectRoots | src/debugger/debugger_session_inspection.cpp:309-315 | the top level, in order |
| LocalsTree.Rebuild | src/debugger/debugger_session_inspection.cpp:275-315 | the array algorithm builds the forest of the parent indices |
| LocalsTree.BlockFlattens | src/debugger/debugger_session_inspection.cpp:298-315 | the subtrees of a block of rows flatten to exactly that block |
| LocalsTree.ForestIsList | src/debugger/debugger_session_inspection.cpp:267-317 | the rebuilt forest, read in preorder, is the flat symbol list: every symbol once, in order, under its parent |
| LocalsTree.LocalsForest | src/debugger/debugger_session_inspection.cpp:222-318 | both phases together, from the engine's top-level symbols to the forest |
| LocalsTree.PointerIs | src/debugger/debugger_session_inspection.cpp:46-62 | a type is a pointer exactly when some star has only white space behind it |
| LocalsTree.ExpandIsWellExpanded | src/debugger/debugger_session_inspection.cpp:243-264 | an expansion keeps: nothing expanded is a pointer, without sub-elements or at the depth limit |
| LocalsTree.ChildrenAreMembers | src/debugger/debugger_session_inspection.cpp:224-265 | an expansion gives a symbol exactly the engine's members, in their order and yet to be expanded; only expanded symbols have members in the list |
| LocalsTree.DepthIs | src/debugger/debugger_session_inspection.cpp:64-75 | in a preorder the depth is zero at the top and one more than the parent's elsewhere |
| VariableTree.Publisher.CreateReference | src/service/dap_server.cpp:724-735 | an empty list gets reference 0, any other a fresh one; earlier containers are untouched |
| VariableTree.Publisher.Build | src/service/dap_server.cpp:747-797 | unfolding the published variable through the map gives back the tree, with values and access paths; its references are new, pairwise distinct throughout the tree, and one for each node with children |
| VariableTree.Publisher.BuildAll | src/service/dap_server.cpp:782-787 | the same for a list of siblings, whose own references are new and pairwise distinct |
| VariableTree.SiblingsDiffer | src/service/dap_server.cpp:724-735 | distinct references throughout a tree mean distinct references of siblings |
| VariableTree.Publisher.PublishScopes | src/service/dap_server_scopes.cpp:37-57 | locals and registers become containers: unfolding the first gives the frame's forest, with references that are new and distinct, and the second holds each register's own name and value in order, under another reference |
| VariableTree.Publisher.Variables | src/service/dap_server_variables.cpp:5-48 | a known reference gives all of its container from `start` on, or the next `count` of it; an absent, non-positive or oversized argument counts as none; a request for indexed variables only gives none; an unknown reference is an error |
| VariableTree.Publisher.Reset | src/service/dap_server.cpp:668-672 | a new stop forgets every reference |
| VariableTree.UnfoldIsStable | src/service/dap_server.cpp:724-735 | later allocations never change what an earlier reference unfolds to |
| VariableTree.ReadPage | src/service/dap_server_variables.cpp:38-46 | the paging loop, which `PageIs` pins |
| VariableTree.PagesCover | src/service/dap_server_variables.cpp:38-46 | reading page by page loses and repeats nothing |
| VariableTree.PageIs | src/service/dap_server_variables.cpp:38-46 | a page is the container's entries from `start` on, as many as asked for or, for none asked, as there are |
| VariableTree.PathIsJoinedNames | src/service/dap_server.cpp:763-778 | along every route into a tree, the published access path is the joined names on the way: each non-empty name after a dot, unless it is an index or the first |
| Breakpoints.ReplaceIsConsistent | src/debugger/debugger_session_breakpoints.cpp:173-228 | replace-all keeps all tracked lists duplicate-free, live and pairwise disjoint for every engine answer, and leaves every other list and live id alone |
| Breakpoints.ReplaceRemovesOwnList | src/debugger/debugger_session_breakpoints.cpp:179-184 | what is live afterwards is what was live and not on the owner's old list, plus what the commands added |
| Breakpoints.ForgetIsConsistent | src/debugger/debugger_session_breakpoints.cpp:344-358 | clearing a file removes exactly its ids and its entry |
| Breakpoints.TrackedIds | src/debugger/debugger_session_breakpoints.cpp:119-152 | the tracked ids of a call are new, live and without repetition |
| Breakpoints.FatesDiffer | src/debugger/debugger_session_breakpoints.cpp:116-141 | two commands of one call never get the same id |
| Breakpoints.ResultsFollowRequests | src/debugger/debugger_session_breakpoints.cpp:154-171 | results are in request order; equal specs share one result, different verified specs have different ids, and exactly the lines below 1 are refused |
| Breakpoints.ResultsNameTrackedIds | src/debugger/debugger_session_breakpoints.cpp:132-171 | the ids in the results are exactly the tracked ids |
| Breakpoints.SameKey | src/debugger/debugger_session_breakpoints.cpp:47-51 | spec keys coincide exactly for equal line and condition, and for no condition against the one-character condition U+001E |
| Breakpoints.DistinctCovers | src/debugger/debugger_session_breakpoints.cpp:64-81 | every valid spec has its key among the distinct ones |
| Breakpoints.DistinctKeys | src/debugger/debugger_session_breakpoints.cpp:64-81 | distinct specs have distinct keys |
| Breakpoints.Session.SetSourceBreakpoints | src/debugger/debugger_session_breakpoints.cpp:39-171 | the whole call: one command for each distinct spec; a request is verified with an id, and the file's list holds it, exactly when its command added that id and nothing else; no specs leave no entry; the book stays consistent |
| Breakpoints.Session.Configure | src/debugger/debugger_session_breakpoints.cpp:83-150 | the command loop: live ids, tracked ids and the result of each key |
| Breakpoints.Session.SetOne | src/debugger/debugger_session_breakpoints.cpp:85-130 | one command and its before/after difference, which `TrackedExactly` and `VerifiedExactly` pin |
| Breakpoints.Session.SetCommands | src/debugger/debugger_session_breakpoints.cpp:173-228 | function, instruction and data breakpoints: command k is verified with an id, and the list holds it, exactly when the engine's ids after it are those before and that one; the book stays consistent |
| Breakpoints.Session.ClearSource | src/debugger/debugger_session_breakpoints.cpp:344-358 | clears a file's ids and its entry |
| Breakpoints.TrackedExactly | src/debugger/debugger_session_breakpoints.cpp:119-150 | an id is on the new list exactly when some command of the call added it and nothing else |
| Breakpoints.VerifiedExactly | src/debugger/debugger_session_breakpoints.cpp:132-171 | a request is verified with an id exactly when the command of its key added that id and nothing else |
| Breakpoints.CommandIsInOrder | src/debugger/debugger_session_breakpoints.cpp:64-83 | the command of a request is the one of the first request with its key, numbered by the keys that came before |
| Conditions.AgreementOverRuns | src/service/dap_server.cpp:830-864 | after any sequence of breakpoint requests over files that are always spelled the same way, an id has a condition exactly when the last call for some file asked for it with that non-blank condition; the books are consistent and hold exactly the reported ids |
| Conditions.ConditionsAreOfLiveBreakpoints | src/service/dap_server.cpp:830-864 | in such runs an id has a condition exactly when the last call of some file asked for it, the session tracks it for that file, and it is live |
| Conditions.AgreementNeedsOneSpelling | src/debugger/debugger_session_breakpoints.cpp:45-152 | the two indexes agree in all runs over a set of paths if and only if no two of the paths name one file |
| Conditions.StaleCondition | src/service/dap_server.cpp:852-864 | two spellings of one file: an unconditional live breakpoint is left with a replaced one's condition |
| Conditions.ConsistentOverRuns | src/debugger/debugger_session_breakpoints.cpp:39-228 | the session's books are consistent after any sequence of requests, however paths are spelled |
| Conditions.StepKeepsInvariant | src/service/dap_server_set_breakpoints.cpp:117-203 | one request keeps the agreement, the books and the server's per-path lists |
| Conditions.UpdateConditions | src/service/dap_server.cpp:830-864 | a call changes the conditions of exactly the ids it asks for and the ids its path had |
| Conditions.CallIsWellFormed | src/debugger/debugger_session_breakpoints.cpp:132-171 | within a call an id has at most one non-blank condition |
| Conditions.BookAfter | src/debugger/debugger_session_breakpoints.cpp:39-171 | after a call the session tracks for the file exactly the ids reported |
| Conditions.AskedIsTracked | src/service/dap_server.cpp:830-850 | an id with a condition is tracked for its file, and live |
| Conditions.RankIsOwnSpec | src/service/dap_server_set_breakpoints.cpp:184-203 | the realignment index stays inside the results and points at the request's own spec |
| Conditions.Realign | src/service/dap_server_set_breakpoints.cpp:184-203 | each request is answered with its parse error or the outcome of its own spec |
| Conditions.Server.SetBreakpoints | src/service/dap_server_set_breakpoints.cpp:117-203 | the handler: an error changes nothing, otherwise both indexes take one step and every request gets its own answer |
| Conditions.Server.Partition | src/service/dap_server_set_breakpoints.cpp:137-168 | the configurable requests, in order |
| Conditions.ConditionTable.UpdatePath | src/service/dap_server.cpp:830-850 | the update loop |
| Conditions.ConditionTable.ClearPath | src/service/dap_server.cpp:852-864 | the clearing loop |
| Conditions.RefusedIs | src/service/dap_server_set_breakpoints.cpp:63-90 | a request is configurable, with its own line and condition, exactly when it has no column, no hit condition, log message or mode with text in it, and a line from 1 to 2^31 - 1 |
| Conditions.ResponseExactly | src/service/dap_server_set_breakpoints.cpp:137-203 | a request gets an error, the right one, exactly when it is refused; any other has its own spec, and is verified with an id exactly when the command of that spec added that id and nothing else |
| Conditions.SpecsOfUnrefused | src/service/dap_server_set_breakpoints.cpp:137-168 | the specs handed to the session are those of the requests that are not refused, in order |
| Conditions.AcceptedIs | src/service/dap_server_set_breakpoints.cpp:117-135 | the call is accepted exactly without a positive source reference and with a path that holds some character other than white space |
| Framing.ParseContentLength | src/transport/io_stream_server.cpp:14-69 | the value of the first well-formed Content-Length line |
| Framing.ReadMessage | src/transport/io_stream_server.cpp:156-197 | reads one frame, a clean end of input, or fails; `FrameRoundTrip` and `FrameWithHeaders` pin what it reads |
| Framing.FrameRoundTrip | src/dap/dap_server.cpp:5-9 | reading a frame gives its body and what follows, for every body, exactly when its length is below 2^63 |
| Framing.FramesRoundTrip | src/transport/io_stream_server.cpp:156-197 | reading the frames of a list of bodies gives the list and then a clean end, unless a body is too long |
| Framing.FrameWithHeaders | src/transport/io_stream_server.cpp:14-69 | a header of any lines, the first Content-Length among them, in any letter case: as much as it announces is read and the rest left, or, with less than that, the read fails |
| Framing.LengthAmongLines | src/transport/io_stream_server.cpp:14-69 | the first header line with a usable Content-Length decides, whatever lines come before or after |
| Framing.LengthLine | src/transport/io_stream_server.cpp:33-66 | the Content-Length name in any letter case, white space, and the number, with a plus sign or without, gives the number, whatever follows its digits |
| Framing.UselessLine | src/transport/io_stream_server.cpp:46-66 | a Content-Length that is negative or has no digits at its front gives nothing |
| Framing.OtherLine | src/transport/io_stream_server.cpp:33-45 | a line with another name gives nothing |
| Framing.BrokenHeaders | src/transport/io_stream_server.cpp:156-197 | a header without a usable Content-Length, or without an end, fails; a clean end is an empty input and nothing else |
| Framing.FrameOfEmptyObject | src/dap/dap_server.cpp:5-9 | the frame of an empty object, character by character |
| Transport.Channel.Push | src/core/channel.h:14-26 | appends, or drops when closed |
| Transport.Channel.Pop | src/core/channel.h:30-41 | the oldest item, or none once closed and drained |
| Transport.Channel.Close | src/core/channel.h:58-65 | closes and keeps what is queued |
| Transport.IoStreamServer.Send | src/transport/io_stream_server.cpp:88-91 | accepted unless the channel is closed |
| Transport.IoStreamServer.WriteOne | src/transport/io_stream_server.cpp:134-153 | one turn of the writer keeps: output is the frames of the written messages, numbered |
| Transport.IoStreamServer.WriterLoop | src/transport/io_stream_server.cpp:132-154 | once closed the loop ends with everything accepted on the wire |
| Transport.EveryRun | src/transport/io_stream_server.cpp:132-154 | in every interleaving the output is the frames of a prefix of the accepted messages, once each and in order, and the channel holds the rest |
| Transport.NothingIsLost | src/transport/io_stream_server.cpp:122-154 | a drained run has written exactly the messages sent before the first close |
| Transport.ClosingDrains | src/transport/io_stream_server.cpp:122-154 | from any point of any run, closing and letting the writer run drains the channel |
| Transport.NumbersCountUp | src/transport/io_stream_server.cpp:136-143 | senders that leave `seq` unset get 1, 2, 3, ... |
| Transport.EndToEnd | src/transport/io_stream_server.cpp:132-197 | the reader, fed with the output, parses exactly the accepted messages, numbered, and then a clean end |
| Transport.EveryMessageIsNumbered | src/transport/io_stream_server.cpp:136-143 | every message on the wire carries a positive integer `seq`: its own if it had one, otherwise one more than the number of unnumbered messages before it; the rest is unchanged |
| Transport.HasNumberIs | src/transport/io_stream_server.cpp:136-143 | a message is numbered exactly when it has no positive integer `seq` below 2^63 |
| CommandLine.QuoteToken | src/util/dap_argument_reader.cpp:9-58 | the quoting loop computes the quoted form |
| CommandLine.CommandLineArguments | src/util/dap_argument_reader.cpp:211-231 | tokens joined by spaces; no argument string for an empty list |
| CommandLine.BuildCommandLine | src/debugger/debugger_session_internal.h:76-85 | program, quoted if it holds a space, and arguments |
| CommandLine.ReadEscaped | src/util/dap_argument_reader.cpp:26-54 | reading an escaped text inside quotes gives the text back, whatever backslash runs precede quotes or the end |
| CommandLine.ReadToken | src/util/dap_argument_reader.cpp:9-58 | reading a quoted token gives the value and leaves the rest, for every string |
| CommandLine.ArgumentsRoundTrip | src/util/dap_argument_reader.cpp:9-58 | parsing the joined line by the CommandLineToArgvW rules gives back exactly the argument list, in both readings of a doubled quote |
| CommandLine.ReadProgram | src/debugger/debugger_session_internal.h:76-85 | the program name is read back exactly when a name with a space holds no quote, and any other no tab and no leading quote |
| CommandLine.MisreadProgram | src/debugger/debugger_session_internal.h:76-85 | any other name is read as something else |
| CommandLine.LaunchCommandLine | src/util/dap_argument_reader.cpp:211-231 | the whole launch line parses to the program and its arguments exactly for those program names |
| CommandLine.QuotesWhenNeeded | src/util/dap_argument_reader.cpp:9-24 | a value is left as it is exactly when it is not empty and holds no space, tab or quote; any other is put in quotes |
| CommandLine.OtherValuesVerbatim | src/util/dap_argument_reader.cpp:211-231 | an item that is not a string is joined as dumped |
| Base64.Encode | src/util/base64.h:8-41 | the output encodes the bytes: same bits, right padding |
| Base64.EncodeRemainder | src/util/base64.h:23-39 | the last one or two bytes |
| Base64.TryDecode | src/util/base64.h:46-119 | accepts exactly the CR/LF-stripped texts of valid shape, and its bytes are the bits of the data characters |
| Base64.TakeSextet | src/util/base64.h:97-112 | one data character through the accumulator |
| Base64.ShiftIn | src/util/base64.h:102-103 | the wrapping 32-bit accumulator keeps the held bits |
| Base64.BitsOfWrapped | src/util/base64.h:102-112 | wrapping at 2^32 is invisible to the low bits, so the bytes are those of an unbounded accumulator |
| Base64.RoundTrip | src/util/base64.h:8-119 | whatever encodes the bytes decodes to them |
| Base64.EncodeThenDecode | src/util/base64.h:8-119 | running the encoder and then the decoder gives the bytes back |
| Base64.CanonicalText | src/util/base64.h:8-119 | a text is what the encoder writes for its bytes exactly when it is canonical |
| Base64.EncodesIsFunctional | src/util/base64.h:8-41 | the encoder's output is determined by the bytes |
| Base64.DecodeThenEncode | src/util/base64.h:8-119 | decoding a text and encoding again gives the text back exactly when it is canonical |
| Base64.CharOfValue | src/util/base64.h:49-71 | the decoder's character test inverts the alphabet |
| Base64.Alphabet | src/util/base64.h:10-10 | the 64 characters, by value |
| Base64.ManIsTWFu | src/util/base64.h:8-41 | the bytes of Man are encoded as TWFu and as nothing else |
| Base64.ShapeIs | src/util/base64.h:77-118 | data characters and pads are of valid shape exactly when the pads complete a last quantum of two or three, or there are none and the last quantum is not a single character |
| Base64.OtherShapes | src/util/base64.h:84-100 | any other character, or a pad before the end, is refused |
| FrameId.IdIsInjective | src/util/debugger_session_dap_factory.cpp:132-152 | for a fixed thread, ids of 16-bit frame numbers are pairwise distinct, through 32-bit wrap-around, the 31-bit mask and the remap of 0; the walk's 1024 frames are inside |
| FrameId.SameFrameOfTwoThreads | src/util/debugger_session_dap_factory.cpp:132-152 | the same frame number in two threads with 16-bit ids has two ids, except when the hashes are 0 and 1 modulo 2^31 |
| FrameId.FramesOfTwoThreads | src/util/debugger_session_dap_factory.cpp:132-152 | 16-bit frames of any two threads collide exactly when their cores agree modulo 2^31, or through the remap |
| FrameId.ThreadsApart | src/util/debugger_session_dap_factory.cpp:132-152 | a condition on two threads alone under which no frames below 1024 of theirs share an id: modulo 2^31 their hashes do not lie within 510 of up to three inverses of the prime from each other, nor within 255 of that from zero |
| FrameId.SmallThreadsApart | src/util/debugger_session_dap_factory.cpp:132-152 | threads 4 and 8 meet it |
| FrameId.FrameMap.RegisterThreads | src/service/dap_server.cpp:715-722 | registering the stacks of several threads: a thread apart from all the others keeps every frame, in whatever order and however often they come |
| FrameId.FramesThatCollide | src/util/debugger_session_dap_factory.cpp:132-152 | frame 664 of thread 30923 and frame 49 of thread 32812 share an id |
| FrameId.XorOctetIsXor | src/util/debugger_session_dap_factory.cpp:143-143 | exclusive or with an octet, as modelled, is exclusive or of the whole word |
| FrameId.CoresMissRemap | src/util/debugger_session_dap_factory.cpp:150-151 | the remap of 0 to 1 adds no collision |
| FrameId.NoSmallMultiple | src/util/debugger_session_dap_factory.cpp:139-148 | no small multiple of the prime comes near a multiple of 2^31 |
| FrameId.CreateFrameId | src/util/debugger_session_dap_factory.cpp:132-152 | the two byte loops and the mask compute the id, which is positive |
| FrameId.MixWord | src/util/debugger_session_dap_factory.cpp:140-146 | the byte loop folds the word's four octets in |
| FrameId.FrameMap.RegisterFrames | src/service/dap_server.cpp:715-722 | registering one thread's frames loses none: each id finds its own frame |
| TopologicalSort.TopologicalClasses | protgen/protogen.py:444-470 | each class exactly once and after every other class it holds by value, or the exception, raised exactly when classes hold each other in a circle |
| TopologicalSort.HardDependencies | protgen/protogen.py:445-451 | hard dependencies within the classes, without self-references; `CircleIsCycle` pins them |
| TopologicalSort.CircleIsCycle | protgen/protogen.py:445-451 | a cycle of the graph is exactly a circle of classes each holding the next, another class, by value |
| TopologicalSort.TopologicalOrder | protgen/protogen.py:453-470 | the search: an order of the whole graph, or a failure exactly when there is a cycle |
| TopologicalSort.Search.Visit | protgen/protogen.py:456-466 | after a visit the class and all it needs are in the order; a failing visit's trail is a path that runs into itself |
| TopologicalSort.OrderedIsAcyclic | protgen/protogen.py:444-470 | a graph that can be ordered has no cycle |
| TopologicalSort.CycleInTrail | protgen/protogen.py:459-460 | the trail of the exception contains a cycle |
| TraceRecorder.RecordIsNormalForm | src/transport/dap_trace_recorder.cpp:169-188 | recording one more message takes the normal form of a sequence to that of the longer one |
| TraceRecorder.NormalFormKeeps | src/transport/dap_trace_recorder.cpp:169-188 | no text and no other message is lost, repeated or reordered |
| TraceRecorder.NormalFormSeparates | src/transport/dap_trace_recorder.cpp:169-188 | no two console entries stay adjacent |
| TraceRecorder.WithOwnText | src/transport/dap_trace_recorder.cpp:190-231 | a lone console output is left exactly as it is |
| TraceRecorder.RefusalIsForever | src/transport/dap_trace_recorder.cpp:107-134 | once the first launch or attach has no usable trace path, the buffer is empty whatever follows |
| TraceRecorder.Recorder.RecordInput | src/transport/dap_trace_recorder.cpp:89-105 | the buffer stays what the whole history prescribes |
| TraceRecorder.Recorder.RecordOutput | src/transport/dap_trace_recorder.cpp:136-144 | the same for outbound messages |
| TraceRecorder.Recorder.ResolveOnce | src/transport/dap_trace_recorder.cpp:107-134 | only the first launch or attach decides |
| TraceRecorder.Recorder.RecordOne | src/transport/dap_trace_recorder.cpp:169-188 | merge into a preceding console output, or append |
| TraceRecorder.ConsoleTextIs | src/transport/dap_trace_recorder.cpp:190-231 | an entry has console text exactly when it is outbound and its JSON is an output event whose body is category console and that text, and nothing else |
| TraceRecorder.ConsoleOutputsMerge | src/transport/dap_trace_recorder.cpp:169-188 | two adjacent outbound console events, written out as JSON, leave one entry, the second's, with the joined text |
| TraceRecorder.InboundStandsAlone | src/transport/dap_trace_recorder.cpp:169-188 | an inbound message is never merged with anything |
| TraceRecorder.FirstLaunchDecides | src/transport/dap_trace_recorder.cpp:107-134 | whatever came before and comes after, the first launch or attach, written out as JSON, decides: all is kept with a non-empty trace path that can be prepared, nothing without |
| TraceRecorder.DecidesIs | src/transport/dap_trace_recorder.cpp:107-112 | the messages that decide are exactly launch and attach requests |

## Left out

- The engine, COM and Win32 calls (loading, attaching, symbol paths, process listing): foreign code, present only as arbitrary functions with the assumptions above.
- Kernel disconnect, with its sleep and the deliberate release of the engine, and the dispatcher's timed detach: timing and process teardown.
- Terminate and disconnect requests, and a second launch or attach: they reach the dispatcher without a running check; a run here starts right after launch or attach and ends with the end of the session or the destruction of the server.
- Interleavings inside one handler body: each request and each callback is one step, a breakpoint update while running is two.
- Scheduling of the wait loop's thread: that a loop which can go on does so is not claimed; what a start during the old loop leads to is (`SessionCycles.ResumeNobodyWaitsFor`).
- What the calls of a breakpoint update on a destroyed engine object do: stated is only when they happen.
- What a breakpoint update that throws part way leaves in the tracked lists and the condition table, and `bc *` at detach, which leaves the lists stale at the end of a session; the session's flags after such an update are modelled.
- The parsing of breakpoint ids from event descriptions and of condition results by regular expression: the id and the verdict are arguments of the hit.
- The task queue and the dispatcher's `invoke`: present only as the rule that no dispatcher work runs during a wait and that callbacks run on the dispatcher's thread.
- `continued`, `output`, `process` and response messages in the session's log: they depend on one branch each; the log holds stops, thread events, exits, terminations and marks of resumes.
- Session: frames and variable containers appear as sets of ids in the state machine; their contents are in `FrameId` and `VariableTree`.
- Transport.EndToEnd: JSON printing and parsing are an arbitrary pair of functions in which parsing undoes printing.
- Transport.IoStreamServer.WriteOne: the writer's counter is unbounded; the source's 32-bit counter would overflow after 2^31 - 1 messages.
- VariableTree.Publisher.CreateReference: the reference counter is unbounded, where the source's is a 32-bit int.
- Disassembly.Disassemble: the arguments are bounded so that the source's int arithmetic does not overflow.
- Offsets below -count in `disassemble`: no position of their own, since the code caps the look-back at `count` (`Disassembly.LookBackIsCapped`).
- Instruction text, bytes and symbols in disassembly, and names, types and addresses of locals beyond what the tree carries: read from the engine and passed through.
- Trace file output, path preparation and failure reporting: I/O; whether a path can be prepared is an argument.
- JSON, fmt, spdlog, generated request dispatch, capability lists and argument-validation messages: single-branch facts or foreign code.
- The VS Code extension, scripts, documentation, sample driver and process-level test harness: UI and I/O.
