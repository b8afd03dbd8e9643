# Properties of pyads' asynchronous runtime, step chains, structure codec and sum commands

This project models the parts of pyads in which several pieces have to agree with each other, and
proves what they promise together.

**The serialized runtime** (`SerialRuntime`, `SerialTheorems`, `AsyncConnections`). An
`AsyncConnection` is a first-in-first-out queue, one worker thread, futures resolved by callbacks on the
event loop, cancellation, a closed flag and a shutdown signal. It is modelled as a state machine whose
steps are submit, cancel, get, check, execute, post, deliver and the phases of `aclose`, over arbitrary
calls and an arbitrary connection state; the theorems are about every interleaving. The class
`AsyncConnection` is the same thing as an object whose methods assign its fields, each proved to be the
step of that name. The scheduling assumption: one event-loop thread, so that `_submit` and the part of
`aclose` before its first `await` are atomic with respect to each other (the lock alone does not give
this, because the `put` lies outside it). The loop stays open, and wrapped calls raise only `Exception`.

**Step chains** (`StepChainPlc`, `StepChainDevice`, `StepChainStatus`, `StepChainProtocol`,
`StepChainTheorems`, `StepChainProgress`, `StepChainLiveness`, `StepChainUnstarted`, `StepChainLeaks`,
`StepChainSchedules`, `StepChainPoll`). The function block `FB_TestStepChain` is a state machine over its
cyclic body, start and abort, recording its runs. An operation of either backend, polling or
notifications with a 64-slot event queue, is interleaved with PLC cycles, other clients, the worker,
notification delivery, timeouts and cancellation, on top of the serialized runtime. One status read is
an atomic snapshot of at most seven symbols, and the device announces every change of a watched symbol.

**The structure codec** (`Bytes`, `Text`, `StructureCodec`, `CodecTheorems`, `CodecCases`, `Scalars`,
`AdsStructures`, `StructureByName`). Size, encoder and decoder over scalars, STRING, WSTRING, arrays and nested
definitions, to any depth. Integers are little-endian with their ranges, floats are bit patterns, texts
are Unicode scalar values with full UTF-8 and UTF-16. The specifications are recursive functions with
Python's error cases; the loops of `ads.py` are methods proved against them.

**Sum read and sum write** (`AdvancedHandlers`, `Numerals`, `SumCommands`, `SumCases`, `SumCalls`, `SumTexts`,
`SumLayout`, `SumTheorems`). One flat buffer with hand-computed offsets, filled in place by slice assignments that may
resize it, and a server that parses the same bytes by itself.

**Lists by name** (`Connections`, `ConnectionTheorems`, `Spills`, `ListRoundTrips`). The symbol cache,
chunking, and structures in lists, as a class whose methods update the cache in place; `ListRoundTrip` puts codec, sum
commands, server and chunking together.

**The symbol list** (`SymbolLists`). The server's entry printer against the client's upload parser and
entry accessors.

## What the code does not keep

Each of these is a lemma with the exact condition or a concrete case:

- A STRING of a structure with a non-ASCII character overshoots its slot, because padding is counted in
  characters while the bytes are UTF-8 (`ExactSize`, `WritesExactly`). The documentation calls the layout
  size the data size required; it is that exactly for ASCII STRINGs.
- In sum writes such a text makes the buffer grow (`TextResizesExactly`), which does no harm as long as its
  encoding leaves room for the terminator: "é" in a STRING(80) is written and read back. A text that leaves
  none is written without complaint and makes the sum read raise (`TextReadsExactly`, `RoundTripExactly`).
- A nested member of count 1 is encoded by index and decoded bare, so what was decoded cannot be encoded
  again (`ReencodableExactly`).
- A status sub-read that fails yields an error text, which is truthy (`TestUnderFailedReads`).
- A structured sub-read that fails makes the whole list read raise, while a plain name that fails only
  gets its error text (`FailedStructureRaises`).
- A symbol entry smaller than its scalar type makes the reader take bytes of the next variable
  (`OwnWindowExactly`); exactly the lists in which it can make a chunked read and a single one differ are
  those of `ChunkedReadExactly`.
- A list write with a value of the wrong type or range writes nothing in one call, but in chunks leaves
  the chunks before it written (`PartialWriteExample`: two INT variables, 1 and 70000, chunk size 1); exactly
  when chunking makes no difference is `ChunkedWriteExactly`.
- A text too long for its STRING is written without complaint, and in one call what sticks out of it lands in
  the variable behind, also behind the text written there (`SpillExample`: "abc" and "" for two STRINGs of
  two bytes leave "c" in the second); exactly when that differs from writing them one by one is `SpillExactly`.
- A second `aclose` may return before the first has drained the queue (`SecondAcloseReturnsUndrained`);
  exactly when everything is settled is `SecondAcloseExactly`.
- The start of a run by someone else under the same id can make a client report a success for a run that
  failed (`SameIdRivalFools`); exactly when is `RivalReportedExactly`.
- An operation invoked on a closed connection starts nothing, takes that for acceptance, and may report a
  stale run of the same id (`StaleRunReported`; the smallest case is `AbortedRivalReported`); which run it
  reports is `UnstartedReport`.
- Cancelling an operation's task while it awaits the registration or the deletion of its notifications can
  leave them registered for good on a connection that stays open (`NotificationsLeak`); they are given back
  exactly as `GivenBackExactly` says, and always when the task is not cancelled at those two places
  (`PatientGivesBack`).
- An operation whose run was overtaken by another id is never told how its run ended
  (`OvertakenRunIsNeverReported`).
- A negative chunk size silently reads and writes nothing (`NoChunksWithoutSize`).

## Model

| member | source | states |
|---|---|---|
| `SerialRuntime.InvPlay` | src/pyads/async_connection.py:549-599 | every step of any interleaving of submits, cancellations, worker steps, posted callbacks and `aclose` phases keeps the runtime invariant: queue, futures, fates, log and posted callbacks agree |
| `SerialRuntime.CloseResolvedMeansDrained` | src/pyads/async_connection.py:656-676 | when the close call's future is resolved, every earlier call has been taken from the queue and delivered, so the shutdown signal goes onto an empty queue |
| `SerialTheorems.SerialExecution` | src/pyads/async_connection.py:549-568 | in every reachable state the calls that ran are the submission sequence without the ones not run, in submission order, each once; a taken call that did not run was cancelled or is in the worker's hand; the connection state is the left fold of the calls that ran |
| `SerialTheorems.CancelledNeverRuns` | src/pyads/async_connection.py:556-557 | a call cancelled before the worker looks at it never runs in any continuation |
| `SerialTheorems.FutureSettlesOnce` | src/pyads/async_connection.py:570-580 | a settled future keeps its value through every further step of every interleaving |
| `SerialTheorems.FutureHoldsOwnResult` | src/pyads/async_connection.py:559-568 | a resolved future holds the outcome of its own call, computed on the state left by everything that ran before it; earlier submissions ran first |
| `SerialTheorems.DeliveryIsLocal` | src/pyads/async_connection.py:570-580 | a result arriving changes no other future, and not its own if that was cancelled |
| `SerialTheorems.QuietMeansSettled` | src/pyads/async_connection.py:549-568 | with nothing queued, in hand or on its way, no future is pending |
| `SerialTheorems.AcloseDrains` | src/pyads/async_connection.py:656-676 | when `aclose` has returned, every future is settled, the queue is empty, the worker has exited, and the last call to run was the connection's close |
| `SerialTheorems.NothingBehindClose` | src/pyads/async_connection.py:584-586 | once closed is set no step of any interleaving queues another call |
| `SerialTheorems.WorkDecreases` | src/pyads/async_connection.py:656-676 | in every state each working step strictly lowers the work ahead, and on a closed connection no other step raises it |
| `SerialTheorems.DrainIsBounded` | src/pyads/async_connection.py:656-676 | however steps interleave, a closed connection performs at most that many more working steps |
| `SerialTheorems.NeverStuck` | src/pyads/async_connection.py:674-676 | while `aclose` is waiting, some step can work |
| `SerialTheorems.AcloseFinishes` | src/pyads/async_connection.py:656-676 | every interleaving in which no working step is left has ended with `aclose` returned or given up |
| `SerialTheorems.SubmitQueues` | src/pyads/async_connection.py:582-599 | submitting to an open connection queues the call last with a pending future and changes nothing else; to a closed one, nothing |
| `SerialTheorems.CancelSettles` | src/pyads/async_connection.py:570-580 | cancelling settles a pending future as cancelled, whatever the worker is doing, and touches nothing else |
| `SerialTheorems.GetTakesTheNext` | src/pyads/async_connection.py:549-555 | a free worker takes the head of the queue: the next call in submission order, or the shutdown signal, at which it exits with an empty queue |
| `SerialTheorems.CallInHandIsServed` | src/pyads/async_connection.py:556-568 | the call in hand is skipped if its future is cancelled, and otherwise run on the connection as it stands and its outcome handed over to the event loop |
| `SerialTheorems.DeliverySettles` | src/pyads/async_connection.py:570-580 | a delivered result settles its own future if still pending and is dropped otherwise |
| `SerialTheorems.AcloseCloses` | src/pyads/async_connection.py:656-673 | `aclose` on an open connection closes it in every reachable state, whatever the worker is doing, with the close call queued last and nothing else changed |
| `SerialTheorems.AcloseGoesOn` | src/pyads/async_connection.py:674-676 | a close that returned sends the shutdown signal onto an empty queue, one that raised sends none; once the worker has exited `aclose` returns |
| `SerialTheorems.AcloseGivesUp` | src/pyads/async_connection.py:674-676 | cancelling the closing task gives up and cancels the close call's future if it is pending |
| `SerialTheorems.EveryAcloseFinishes` | src/pyads/async_connection.py:656-676 | every run with an `aclose` anywhere in it is closed from there on, and played until no working step is left ends with `aclose` returned or given up |
| `SerialTheorems.GivesUpOnlyOnRaise` | src/pyads/async_connection.py:674-674 | `aclose` is given up only when its own task is cancelled or the wrapped close raises |
| `SerialTheorems.SettledExactly` | src/pyads/async_connection.py:570-580 | in every reachable state all futures are settled if and only if the last one that is not cancelled is resolved |
| `SerialTheorems.SecondAcloseExactly` | src/pyads/async_connection.py:656-661 | what a second `aclose` may rely on: it changes nothing, and when it returns every future is settled if and only if the close call's future is resolved; if that future was cancelled, the first `aclose` was given up, and the last call not cancelled decides |
| `SerialTheorems.LatePutNeverResolves` | src/pyads/async_connection.py:584-598 | why submit and the first half of `aclose` must be atomic: a call put behind the shutdown signal never resolves, in any continuation |
| `AsyncConnections.AsyncConnection.constructor` | src/pyads/async_connection.py:522-541 | a new connection is the start state of the runtime, with the id counter at 1 |
| `AsyncConnections.AsyncConnection.Submit` | src/pyads/async_connection.py:582-599 | queues the call behind all others and hands out a pending future, or raises when closed and changes nothing; every field of the object is accounted for |
| `AsyncConnections.AsyncConnection.NextRequestId` | src/pyads/async_connection.py:601-604 | hands out the counter modulo 2^32 and moves it on by one |
| `AsyncConnections.RequestIdsCollide` | src/pyads/async_connection.py:601-604 | two automatic ids are equal exactly when a multiple of 2^32 calls lies between them |
| `AsyncConnections.IdsCount` | src/pyads/async_connection.py:601-604 | below 2^32 an id is the counter itself, and from 2^32 on it starts again at 0 |
| `AsyncConnections.AsyncConnection.WorkerMain` | src/pyads/async_connection.py:549-568 | the worker's loop is a schedule of worker steps of the runtime; it stops at an empty queue or the shutdown signal, having skipped exactly the cancelled calls and run all others |
| `AsyncConnections.AsyncConnection.RunCallback` | src/pyads/async_connection.py:570-580 | the loop callback sets its own future if pending and drops the result otherwise |
| `AsyncConnections.AsyncConnection.AcloseFirstHalf` | src/pyads/async_connection.py:656-673 | on an open connection sets closed, queues the close call last with a pending future and waits for it, whatever the worker is doing; on a closed one returns at once and changes nothing |
| `AsyncConnections.AsyncConnection.AcloseSecondHalf` | src/pyads/async_connection.py:674-676 | sends the shutdown signal onto an empty queue, or raises what close raised and sends none |
| `StepChainPlc.SiteStepsKeep` | examples/twincat_reference/pyads_agile_reference.st:64-163 | every cycle, start and abort keeps: busy exactly in steps 10, 20, 30, 40; never done together with error; the status agrees with the step; recorded runs keep their id and end at most once |
| `StepChainPlc.CycleProgress` | examples/twincat_reference/pyads_agile_reference.st:64-120 | every cycle of a busy block lowers (steps ahead, ticks left) lexicographically |
| `StepChainPlc.RunEnds` | examples/twincat_reference/pyads_agile_reference.st:64-120 | undisturbed, a busy block stops being busy within the cycles its measure says, with the same request id, in step 100 or, when the error was forced in time, 901 |
| `StepChainPlc.StartedRunEnds` | examples/twincat_reference/pyads_agile_reference.st:64-144 | an accepted start undisturbed ends within 14009 cycles, done if and only if no error was forced |
| `StepChainPlc.RunTakesItsTime` | examples/twincat_reference/pyads_agile_reference.st:64-120 | no working step is skipped or cut short: a run that succeeds has taken at least the milliseconds its remaining steps need |
| `StepChainPlc.StartedRunTakesItsTime` | examples/twincat_reference/pyads_agile_reference.st:64-144 | a started run that succeeds has taken eight seconds, or six when the first timer was still running from an aborted run |
| `StepChainPlc.OtherTimersReset` | examples/twincat_reference/pyads_agile_reference.st:64-74 | a cycle leaves running only the timer of the step it found; every other one is back at its start, and an idle block stays idle |
| `StepChainPlc.RestedRunTakesEight` | examples/twincat_reference/pyads_agile_reference.st:64-144 | with one idle cycle before its start, whatever was aborted before, a run that succeeds has taken eight seconds |
| `StepChainPlc.FirstCallStarts` | examples/twincat_reference/pyads_agile_reference.st:64-105 | the first call of the body in a step starts that step's timer, whatever the time since the last call, and stays in the step |
| `StepChainPlc.LeavesOnTime` | examples/twincat_reference/pyads_agile_reference.st:64-120 | with its timer running the block leaves a step exactly when 2, 2, 3 and 1 seconds have come, for the next step, whose timer starts anew |
| `StepChainPlc.StepLasts` | examples/twincat_reference/pyads_agile_reference.st:64-120 | over any cycles: a step whose timer has just started is still held if and only if the time since then is below its preset |
| `StepChainPlc.ForcedErrorEndsAtOnce` | examples/twincat_reference/pyads_agile_reference.st:89-101 | a forced error ends the run with the first call in step 30, with code 9001, whatever its timer says |
| `StepChainPlc.RunEndsInTime` | examples/twincat_reference/pyads_agile_reference.st:64-120 | an undisturbed run is over when the time allowed is spent: what its steps still need, and two calls of the body a step |
| `StepChainPlc.StartedRunEndsInTime` | examples/twincat_reference/pyads_agile_reference.st:64-144 | an upper bound in time: a started run is over once eight seconds and eight times the longest cycle have passed |
| `StepChainPlc.StepNamesKeep` | examples/twincat_reference/pyads_agile_reference.st:67-163 | the published step name is always that of the published step, and a busy block publishes the step it was in |
| `StepChainPlc.FbTestStepChain.Body` | examples/twincat_reference/pyads_agile_reference.st:62-120 | the cyclic body as assignments to the block's variables is the cycle function, whose durations `LeavesOnTime` and `StepLasts` give; it keeps the invariant and the request id |
| `StepChainPlc.FbTestStepChain.StartStepChain` | examples/twincat_reference/pyads_agile_reference.st:122-144 | accepts exactly outside steps 10, 20, 30 and 40, and then publishes a fresh busy status under this id in step 10; a refused start changes nothing |
| `StepChainPlc.FbTestStepChain.AbortStepChain` | examples/twincat_reference/pyads_agile_reference.st:146-163 | aborts exactly in steps 10, 20, 30 and 40, with error code -2 in step 900; a refused abort changes nothing |
| `StepChainStatus.ReadCoversTest` | src/pyads/async_connection.py:292-310 | every symbol the completion test looks at is among the symbols read, at most seven; none is read twice if and only if the request-id and done symbols differ |
| `StepChainStatus.ReadsTheConfigured` | src/pyads/async_connection.py:292-310 | a status read asks for exactly the configured symbols |
| `StepChainStatus.DefaultReads` | src/pyads/async_connection.py:292-310 | the seven symbols of the default configuration, in reading order |
| `StepChainStatus.MatchesMeans` | src/pyads/async_connection.py:375-389 | what matches a configured flag value: by Python's truth for a boolean, by its number for an integer, also a number given as a text; a missing value only false |
| `StepChainStatus.TestReadsStatus` | src/pyads/async_connection.py:312-337 | for any configuration and any values its symbols show, with the id an integer and the flags booleans or integers: the test says failed, completed or waiting exactly as id, error and done say |
| `StepChainStatus.DefaultTestIsVerdict` | src/pyads/async_connection.py:292-337 | with the default configuration that is the verdict the PLC status itself gives |
| `StepChainStatus.TestUnderFailedReads` | src/pyads/async_connection.py:312-337 | for any configuration: when sub-reads fail and yield error texts, the test still tells the truth if and only if the id's read failed only where the truth is waiting and, for this id, the error flag's read failed only where its text is taken for what the flag holds, and so the done flag's on a run without error |
| `StepChainStatus.FailedReadPassesForDone` | src/pyads/async_connection.py:385-389 | the case that fails, for any configuration whose expected done value a text passes for: a failed read of the done flag alone passes for completion of a running step chain |
| `StepChainStatus.WaitsForTheIdItSends` | src/pyads/async_connection.py:213-259 | the id waited for is the argument sent in the request-id position: the one given by keyword or position, else the next of the connection's counter; the other arguments are untouched, and the call is refused exactly for unknown, doubled or missing arguments |
| `StepChainStatus.NoRequestArgument` | src/pyads/async_connection.py:256-259 | a method without the request-id argument is refused |
| `StepChainDevice.RegisterThenUnregister` | src/pyads/async_connection.py:427-436 | registering and then deleting what was registered restores the live notifications, the callback store and the symbol handles |
| `StepChainDevice.UnregisterExact` | src/pyads/pyads_ex.py:1358-1381 | deleting handles removes exactly them from all three tables |
| `StepChainDevice.UnregisterStops` | src/pyads/pyads_ex.py:1358-1381 | deleting stops with KeyError at the first handle the callback store does not hold, those before it deleted |
| `StepChainDevice.OpenCalls` | src/pyads/connection.py:477-509 | what each call on an open connection does to the device and returns |
| `StepChainDevice.ClosedCalls` | src/pyads/connection.py:1282-1304 | a call on a connection that is not open reaches no device: reads and registrations raise, the rest return None |
| `StepChainDevice.Events` | examples/twincat_reference/pyads_agile_reference.st:62-163 | what cycles, other clients' calls, samples and deliveries change: each notification on a changed field is sent once more, and nothing else happens |
| `StepChainDevice.RegisterAllExact` | src/pyads/pyads_ex.py:1268-1355 | registration adds exactly its handles to all three tables |
| `StepChainDevice.RegisterAllFresh` | src/pyads/async_connection.py:427-436 | one handle pair per watched symbol, all new, everything registered before left alone |
| `StepChainDevice.ExecAnnounces` | src/pyads/pyads_ex.py:1296-1355 | whatever call the worker makes, a change of a watched field is followed by a notification in flight |
| `StepChainDevice.ReactAnnounces` | examples/twincat_reference/pyads_agile_reference.st:62-163 | the same for PLC cycles and other clients' starts and aborts |
| `StepChainProtocol.RunKeeps` | src/pyads/async_connection.py:393-510 | every interleaving of PLC cycles, other clients, worker steps, notifications, timeouts, cancellations and the waiter keeps the joint invariant of operation, runtime and device |
| `StepChainTheorems.ReadTellsTheRun` | src/pyads/async_connection.py:312-337 | whatever other clients do, a status read after an accepted start says completed if and only if the latest run carries the id and succeeded, failed if and only if it carries the id and ended in error or abort, with that code, and waiting otherwise; the latest run is the own one or a later one, and the own one if nobody reused the id |
| `StepChainTheorems.RivalReportedExactly` | src/pyads/async_connection.py:312-337 | a decisive read speaks of a later run if and only if the latest run is not the own one, carries its id and has ended; the outcome told is wrong exactly when moreover one of the two succeeded and the other did not |
| `StepChainTheorems.StepChainSound` | src/pyads/async_connection.py:261-290 | both backends, all interleavings: an operation whose start was accepted and that returns, or raises failed, speaks of a run with its id, the one its own accepted call began or a later one; that run was the latest and had really ended so when read, and stays recorded so; it is the own run when nobody reused the id |
| `StepChainUnstarted.EveryReport` | src/pyads/async_connection.py:261-290 | every operation that returns or raises failed, accepted or not: the run reported was the latest at the read, carries the id, had really ended so and stays recorded so; after an accepted start it is the own run or a later one, otherwise nothing was started and it is a stale one exactly if no run was begun in between |
| `StepChainUnstarted.UnstartedReport` | src/pyads/async_connection.py:261-290 | an operation whose start call returned None: the connection was closed and nothing was started; the run it reports is one begun before the operation if and only if no run was begun up to the read, in particular when no start ran |
| `StepChainUnstarted.StaleRunReported` | src/pyads/async_connection.py:261-290 | such states are reached: after any events at the device that leave the status decided under the id, an operation invoked on the closed connection, which is then opened, reports that status as its own |
| `StepChainTheorems.OvertakenRunIsNeverReported` | src/pyads/async_connection.py:312-321 | a limit of the protocol: once another run has begun under another id, no read reports how this one ended |
| `StepChainProgress.RunEndsInLog` | examples/twincat_reference/pyads_agile_reference.st:62-163 | on any log of calls, cycles and other clients: once 14009 cycles with time passing lie behind an accepted start, its run has ended; without an abort it succeeded if and only if no error was forced when it started |
| `StepChainProgress.ReadAfterEndDecides` | src/pyads/async_connection.py:279-290 | if no other run was started, a status read waits if and only if the own run has not ended, and says completed if and only if it succeeded; behind 14009 such cycles it never waits |
| `StepChainProgress.FirstReadAfterEndLeavesTheLoop` | src/pyads/async_connection.py:279-290 | both backends, every reached state: an operation that resumes with a status read after its run's end, no other run started, leaves its loop with success or failure, as the run ended, from that very read |
| `StepChainProgress.PollStartedRun` | src/pyads/async_connection.py:279-290 | the polling loop fed with the statuses read at given log positions: the first poll behind the run's 14009 cycles is the last one at the latest |
| `StepChainLiveness.InvokeSubmits` | src/pyads/async_connection.py:193-209 | invoking on an open connection submits the start, in notify mode behind the registration, and awaits it |
| `StepChainLiveness.RegistrationHeard` | src/pyads/async_connection.py:471-471 | the registration's result resumes the waiter with its handles; a failure or cancellation ends the operation |
| `StepChainLiveness.AnswerHeard` | src/pyads/async_connection.py:267-271 | FALSE is a rejection; TRUE and None lead to the first status read; a failure or cancellation leaves the loop |
| `StepChainLiveness.StatusHeard` | src/pyads/async_connection.py:279-290 | a status read leaves the loop exactly when it carries the id and says error or done, as that; otherwise the operation sleeps |
| `StepChainLiveness.DeletionHeard` | src/pyads/async_connection.py:505-510 | the deletion settled, the operation is over with the result it had |
| `StepChainLiveness.TimeoutLeaves` | src/pyads/async_connection.py:486-500 | a timeout ends a sleep, by the deletion in notify mode, and nothing else |
| `StepChainLiveness.WakeReads` | src/pyads/async_connection.py:283-290 | a sleeping operation woken, by its poll interval or by a queued event, submits the next status read and awaits it, with one event fewer in notify mode |
| `StepChainLiveness.CancelLeaves` | src/pyads/async_connection.py:505-510 | cancelling the task cancels the future it awaits; inside the loop it leaves by the deletion, outside it the operation is over |
| `StepChainLiveness.NotificationsArrive` | src/pyads/async_connection.py:438-461 | a notification is taken from the device and posted once; a posted one is queued unless 64 are |
| `StepChainLiveness.AdvanceLowers` | src/pyads/async_connection.py:463-510 | a measure that every move left to worker, event loop, notifications or operation strictly lowers, in both backends (in poll mode between two polls): without new calls, device events, timeouts and cancellations only finitely many are made |
| `StepChainLiveness.RunsDry` | src/pyads/async_connection.py:463-510 | so from every state such moves lead to one in which none is left |
| `StepChainLiveness.OperationSettles` | src/pyads/async_connection.py:463-510 | progress of the notification backend to the end: from every reached state of an undisturbed operation whose own accepted run has ended, no other run started, the moves that are left, in whatever order, lead to its being over with that run's own outcome |
| `StepChainLiveness.PollSettles` | src/pyads/async_connection.py:279-290 | progress of the polling backend: the poll an undisturbed sleeping operation makes after its own run has ended is the last one, and it is over with that run's own outcome, in whatever order the moves that are left are made |
| `StepChainProgress.OperationFinishes` | src/pyads/async_connection.py:438-510 | notification backend, every reached state with nothing left to do for worker, event loop, notifications or the operation: an operation whose own run has ended is over, if no other run was started and the connection was not closed since the registration; that such a state is reached is `OperationSettles` |
| `StepChainTheorems.NoLostWakeUp` | src/pyads/async_connection.py:438-504 | on a connection not closed since the registration: whenever the notify waiter sleeps and the watched status is not what it last read, an event is queued, an enqueue is posted or a notification is in flight, also when the 64-slot queue drops events |
| `StepChainTheorems.NeverBlockedOnFinishedRun` | src/pyads/async_connection.py:479-504 | likewise: once notifications are delivered and no event is queued, a sleeping waiter's run is not finished |
| `StepChainTheorems.DeletionSubmittedOnce` | src/pyads/async_connection.py:471-510 | on every exit on an open connection, registration heard of, exactly one deletion of exactly the registered handles is submitted, none before; once it has run on a connection not closed since the registration, no handle is left at the device, in the callback store or among the symbol handles |
| `StepChainLeaks.GivenBackExactly` | src/pyads/async_connection.py:463-510 | every reached state with nothing left to happen, granted notifications, a decided operation and a connection not closed since the registration: the notifications are given back if and only if the operation heard of them and its deletion ran; otherwise all are still registered, and a deletion that did not run was skipped because its future was cancelled |
| `StepChainLeaks.PatientGivesBack` | src/pyads/async_connection.py:463-510 | the condition a caller controls: if the task is never cancelled while it awaits the registration or the deletion, every exit gives every notification back |
| `StepChainLeaks.NotificationsLeak` | src/pyads/async_connection.py:505-510 | a limit of the code: states are reached, by either kind of cancellation, in which a cancelled operation's notifications are all still registered on an open connection with nothing left to happen, and stay so through every continuation while the connection stays open |
| `StepChainPoll.WaitUntilDone` | src/pyads/async_connection.py:261-290 | the polling loop returns or raises on the first decisive status, with every earlier read undecided and in time; it times out only after an undecided read past the deadline |
| `StepChainPoll.PollBound` | src/pyads/async_connection.py:275-290 | as long as it waits in time, the loop has read at most ceil(timeout / interval) times |
| `StepChainPoll.WaitWithTimeout` | src/pyads/async_connection.py:275-290 | with a timeout and sleeps of at least the poll interval, at most ceil(timeout / interval) + 1 status reads are made and the loop then ends |
| `StepChainPoll.IntervalsForIsLeast` | src/pyads/async_connection.py:275-290 | the bound is the least number of intervals that reaches the timeout |
| `Bytes.LEDigits` | src/pyads/constants.py:90-105 | the packed bytes of an integer are its digits to the base 256, least significant first |
| `Text.FindWstringNullTerminator` | src/pyads/utils.py:72-82 | finds the first aligned zero unit, or none |
| `Text.Utf8RoundTrip` | src/pyads/ads.py:326-328 | decoding UTF-8 gives the text back, and the encoding has a zero byte exactly if the text has a NUL |
| `Text.Utf8OfDecoded` | src/pyads/ads.py:326-328 | what decodes as UTF-8 is the encoding of what it decodes to |
| `Text.Utf8Length` | src/pyads/ads.py:421-422 | UTF-8 is as long as the text exactly for ASCII, and longer otherwise |
| `Text.Utf16RoundTrip` | src/pyads/ads.py:337-338 | decoding UTF-16 gives the text back, surrogate pairs included |
| `Text.Utf16OfDecoded` | src/pyads/ads.py:337-338 | what decodes as UTF-16 is the encoding of what it decodes to |
| `Text.UndecodableRaises` | src/pyads/ads.py:322-338 | bytes that are no encoding raise a UnicodeError, in either encoding |
| `Text.KnownEncodings` | src/pyads/ads.py:322-338 | known encodings of characters of each length by their bytes |
| `Text.Utf8Spells` | src/pyads/ads.py:417-426 | each UTF-8 encoding spells the bits of its character, six to a continuation byte, in one to four bytes |
| `Text.Utf16Spells` | src/pyads/ads.py:428-437 | outside the basic plane a high and a low surrogate with ten bits each; otherwise one little-endian unit |
| `CodecTheorems.ExactSize` | src/pyads/ads.py:254-279 | for every definition and well-typed value the encoder emits the layout size plus one byte for each UTF-8 byte beyond the characters of its STRINGs, hence the layout size if and only if all STRINGs are ASCII; the decoder then consumes exactly it |
| `CodecTheorems.NoExcessExactly` | src/pyads/ads.py:416-427 | no byte is emitted beyond the layout if and only if every STRING, at every depth, is ASCII |
| `CodecTheorems.SizeOfRepeated` | src/pyads/connection.py:1074-1076 | the size of the definition repeated n times is n times its size |
| `CodecTheorems.RoundTrip` | src/pyads/ads.py:282-453 | decoding the encoding of any well-typed ASCII value gives the value with single nested members taken out of their lists, and the value itself when there are none |
| `CodecTheorems.ArrayRoundTrip` | src/pyads/ads.py:309-369 | a list of n structures takes n times the size if and only if its STRINGs are ASCII, and then comes back as the list (bare for n = 1) with single nested members taken out of their lists, unchanged when there are none |
| `CodecTheorems.SingleBreaksReencoding` | src/pyads/ads.py:438-443 | what is decoded for a definition with a nested member of count 1 cannot be encoded again |
| `CodecTheorems.ReencodableExactly` | src/pyads/ads.py:360-363 | a decoded value can be encoded again if and only if the definition has no nested member of count 1 that is reached, and then gives the same bytes |
| `CodecTheorems.ReencodingCanonicalises` | src/pyads/ads.py:310-364 | encoding what was decoded from a clean buffer of n structures gives that buffer with only the bytes behind string terminators zeroed |
| `CodecTheorems.DecodeEncodeDecode` | src/pyads/ads.py:282-453 | decode, encode, decode is decode, on every clean buffer of n structures |
| `CodecCases.MembersCompose` | src/pyads/ads.py:406-453 | the members are encoded in the order of the definition, and the first that fails decides |
| `CodecCases.StructuresCompose` | src/pyads/ads.py:406-453 | a list of structures is encoded in its order |
| `CodecCases.MembersDecodeInOrder` | src/pyads/ads.py:310-364 | members are decoded in order, each from the bytes the ones before it leave |
| `CodecCases.OneMemberEncodes` | src/pyads/ads.py:406-415 | a missing key raises KeyError, and what is no dictionary TypeError |
| `CodecCases.TextEncodes` | src/pyads/ads.py:416-437 | a WSTRING of length n, 80 when none is given, fills 2n + 2 bytes with its UTF-16 and zeros; a STRING n + 1 bytes and as many more as its UTF-8 has beyond its characters; what is no text is refused |
| `CodecCases.CountOneOrNone` | src/pyads/ads.py:416-453 | a member of count 1 is its value, a nested one the value's first element, with the error of indexing anything else; one of count 0 is nothing |
| `CodecCases.FirstElementToFail` | src/pyads/ads.py:416-453 | an array is encoded up to the first element that fails: IndexError for too short a list, else that element's own error |
| `CodecCases.ArrayWantsIndices` | src/pyads/ads.py:416-453 | an array member given a number raises TypeError, given a dictionary KeyError |
| `CodecCases.StringDecodes` | src/pyads/ads.py:322-330 | a STRING decodes to s if and only if the UTF-8 of s is what lies before the first zero byte, or all bytes when there is none; otherwise it raises |
| `CodecCases.WStringDecodes` | src/pyads/ads.py:331-340 | a WSTRING decodes to s if and only if the UTF-16 of s is what lies before the first aligned zero unit, or all bytes when there is none; otherwise it raises |
| `CodecCases.OneMemberDecodes` | src/pyads/ads.py:312-364 | a member of count 1 is one element under its name, one of another count a list of as many, and the bytes behind are left |
| `CodecCases.ElementsInOrder` | src/pyads/ads.py:321-359 | element i of an array is decoded from the bytes at i element sizes |
| `Scalars.PacksExactly` | src/pyads/constants.py:90-105 | each integer type packs an integer if and only if its literal range holds it: S16 -32768 to 32767, U16 0 to 65535, and so the other six |
| `Scalars.UnpacksExactly` | src/pyads/constants.py:90-105 | each type unpacks exactly as many bytes as it is wide: unsigned types to the sum of the bytes times powers of 256, signed ones less 256 to their number exactly when the top bit is set, floats to their bits |
| `Scalars.TruthPacks` | src/pyads/constants.py:90-105 | a BOOL field takes the truth of any value; a truth value counts as 1 or 0 in an integer field, and nothing else does |
| `Scalars.FloatTruth` | src/pyads/constants.py:90-105 | a float written to a BOOL field is true unless it is zero, of either sign |
| `Scalars.SizesAre` | src/pyads/ads.py:254-279 | the layout size of n members of each type by literals: 1, 2, 4 and 8 bytes, STRINGs of n + 1 and WSTRINGs of 2n + 2 with 80 as default |
| `Scalars.OneMember` | src/pyads/ads.py:307-453 | a structure of one scalar is that scalar under its name, decoded and encoded |
| `AdsStructures.SizeOfStructure` | src/pyads/ads.py:254-279 | the summing loop computes the layout size, or raises for the first unknown type |
| `AdsStructures.DictFromBytes` | src/pyads/ads.py:307-369 | the decoding loops with their running index compute the decoder specification, errors included; what that makes of each type's bytes is `UnpacksExactly`, `StringDecodes` and `WStringDecodes` |
| `AdsStructures.BytesFromDict` | src/pyads/ads.py:403-453 | the encoding loops compute the encoder specification, errors included; what that makes of each type's values is `PacksExactly` and `TextEncodes` |
| `StructureByName.WriteStructure` | src/pyads/connection.py:1224-1229 | the bytes sent are the encoding in an array of the given size, or of the size of the repeated definition when none is given, or the call raises |
| `StructureByName.WritesExactly` | src/pyads/connection.py:1224-1229 | writing one structure or an array by name succeeds if and only if the encoding fits the size; with no size given, if and only if all STRINGs are ASCII |
| `StructureByName.WrittenReadsBack` | src/pyads/connection.py:1074-1081 | what is written by name is read back by name, one structure or an array, with single nested members taken out of their lists and unchanged when there are none |
| `StructureByName.WrittenWithRoom` | src/pyads/connection.py:1224-1229 | with a size given that the encoding fits: the encoding with zeros behind it, from whose front the structures come back |
| `AdvancedHandlers.AdvancedHandler.SumUpWrite` | src/pyads/testserver/advanced_handler.py:356-379 | parses the request part, writes the payload slices in order, raises at the first unknown address with the earlier writes done |
| `AdvancedHandlers.AdvancedHandler.SumUpRead` | src/pyads/testserver/advanced_handler.py:381-398 | answers zero error words and the stored values in order, or raises for an unknown address |
| `AdvancedHandlers.StopsAtUnknown` | src/pyads/testserver/advanced_handler.py:372-393 | at the first unknown address the writes before it are done and KeyError is raised; a read raises it too |
| `AdvancedHandlers.WordOf` | src/pyads/testserver/advanced_handler.py:357-370 | a word is the little-endian number in its four bytes, and raises when they are not all there |
| `SumCalls.BuildRequests` | src/pyads/pyads_ex.py:947-955 | the request array is the concatenation of group, offset and size of each name |
| `SumCommands.NumOfCharsIs` | src/pyads/utils.py:84-110 | the length read off a type name is the number behind its first STRING, in capital or small letters, whatever precedes it |
| `SumCommands.NumOfCharsDefault` | src/pyads/utils.py:84-110 | 80 for a name that ends with STRING, -1 for a name without it |
| `Numerals.DigitsArePlaces` | src/pyads/utils.py:104-108 | the number in a digit string is the sum of its digits times 10 to the number of digits behind each |
| `Numerals.PrintedIsRead` | src/pyads/utils.py:104-108 | the decimal of every number, printed by division by 10, reads as that number |
| `Numerals.ParsesExactly` | src/pyads/utils.py:104-110 | only digits, with at most a minus sign before them, are read as a number; anything else raises |
| `SumCommands.LengthIsRead` | src/pyads/utils.py:84-110 | for every n, the length in the name STRING(n) is n, also behind a W or an array's bounds |
| `SumCommands.TextsByTypeName` | src/pyads/pyads_ex.py:1007-1035 | a STRING(n) of size n + 1, or a WSTRING(n) of size 2n + 2, is read and written as one text, and a variable m times as large as an array of m of them that far apart; a bare STRING counts as one of 80 |
| `SumCommands.TextWithoutLength` | src/pyads/pyads_ex.py:1007-1042 | a text variable whose type name has no STRING is one text, whatever its size |
| `Scalars.SumScalarsAre` | src/pyads/constants.py:110-146 | the ADS data type numbers by what a sum read makes of a variable of one value of each |
| `SumCases.ScalarsAreRead` | src/pyads/pyads_ex.py:1046-1052 | element i of a scalar array is read from its own bytes, at i widths |
| `SumCases.ScalarsReadExactly` | src/pyads/pyads_ex.py:1046-1052 | a scalar array is read if and only if all its bytes are there, and raises otherwise |
| `SumCases.StatusOfEach` | src/pyads/pyads_ex.py:1078-1092 | the statuses of a sum write: of each name the text of its own error word, for any words; KeyError for a word without a text |
| `SumCases.WordIs` | src/pyads/pyads_ex.py:998-1001 | an error word is the little-endian number in its four bytes |
| `SumCases.SpliceMeans` | src/pyads/pyads_ex.py:1123-1157 | a slice assignment by where its bounds lie: in order, past the end, crossed, or counted from the end |
| `SumCases.LandedAt` | src/pyads/pyads_ex.py:985-993 | a response in its buffer byte by byte: cut off at its end, zeros where it is too short |
| `SumCases.TextIsItsCharacters` | src/pyads/pyads_ex.py:1135-1142 | a str written to an array of texts is written character by character; a number cannot be iterated |
| `SumCalls.ParseSumResponse` | src/pyads/pyads_ex.py:994-1061 | the reading loop with its running offset computes the result specification |
| `SumCalls.ReadTextArray` | src/pyads/pyads_ex.py:1013-1021 | each element of a text array is read between its own start and the end of the variable |
| `SumCalls.AdsSumRead` | src/pyads/pyads_ex.py:971-1063 | a sum read against the server's store, exceptions included; by type name and size each variable is read as `TextsByTypeName`, `ScalarsAreRead` and `SumScalarsAre` say |
| `SumCalls.BuildWriteBuffer` | src/pyads/pyads_ex.py:1115-1167 | the buffer filled in place, slice assignments that resize it included, is the buffer specification |
| `SumCalls.AdsSumWrite` | src/pyads/pyads_ex.py:1095-1176 | a sum write: the server's store after it and the status of each name |
| `SumTexts.TextResizesExactly` | src/pyads/pyads_ex.py:1143-1157 | writing a text makes the buffer grow by the bytes of its encoding beyond those counted, none if and only if it is ASCII (STRING) or within the basic plane (WSTRING) |
| `SumTexts.TextReadsExactly` | src/pyads/pyads_ex.py:1023-1025 | a text without NUL, of any length and any characters, comes back from its variable if and only if its encoding leaves room for the terminator; otherwise reading raises |
| `SumTexts.ReadsExactly` | src/pyads/pyads_ex.py:1013-1042 | a window reads as a text if and only if it starts with the text's encoding and a terminator, and the text holds no NUL |
| `SumTexts.ArrayReadsExactly` | src/pyads/pyads_ex.py:1013-1040 | the texts of an array, of any lengths and characters, written onto zeros and read back as the loops do: they all come back if and only if each is without NUL and has a terminator in its own element, runs on into exactly the (plain) text behind it, or, as the last, has one in what the array leaves of the variable |
| `SumLayout.VariableWrites` | src/pyads/pyads_ex.py:1135-1167 | writing a value that stays within its variable puts its image next behind what is there and leaves zeros behind it, as many more as its texts grew |
| `SumLayout.ImageReadsExactly` | src/pyads/pyads_ex.py:1003-1060 | the image of a placed value, of any of the layouts, reads back as the value if and only if it fits: texts without NUL and with a terminator, as many elements as the variable holds, scalars of the type |
| `SumLayout.OwnWindowExactly` | src/pyads/pyads_ex.py:1046-1058 | a variable is read from its own window alone, for every buffer, if and only if its entry is at least as large as its scalar type |
| `SumTheorems.ResponseWindows` | src/pyads/pyads_ex.py:994-1061 | for every pattern of failing sub-requests the windows tile the data part exactly and each name's result is made of its own error word and its own window, as long as no entry that is read is too small for its scalar type while bytes follow it |
| `SumTheorems.FailureMisalignsNobody` | src/pyads/pyads_ex.py:998-1001 | two responses that agree on a name's word and window give the name the same result, whatever happened to the others, also when a variable is named twice |
| `SumTheorems.GatheredKeys` | src/pyads/pyads_ex.py:985-1063 | the result has exactly the names, and a call fails only when one name's own result does |
| `SumTheorems.RequestsRead` | src/pyads/testserver/advanced_handler.py:357-370 | the server's own parser finds exactly the requests the client printed |
| `SumTheorems.BufferIs` | src/pyads/pyads_ex.py:1095-1167 | the buffer sent is the requests, every image at the offset summed from the entry sizes, and zeros for all that the texts grew |
| `SumTheorems.SumWriteIs` | src/pyads/pyads_ex.py:1114-1176 | a sum write of values that stay within their variables, whatever characters their texts hold, is the server writing their images in order; all names are reported written unless an address is unknown |
| `SumTheorems.WrittenAt` | src/pyads/testserver/advanced_handler.py:372-377 | the server stores at each distinct address that column's own slice of the payload and changes nothing else |
| `SumTheorems.WriteThenRead` | src/pyads/pyads_ex.py:971-1176 | sum write then sum read is the identity on the written variables, for any mix of scalars, arrays, texts of any characters, text arrays and structures; every other variable keeps its value |
| `SumTheorems.RoundTripExactly` | src/pyads/pyads_ex.py:971-1176 | for values of their variables' shapes, with texts and text arrays of any length and characters: all come back if and only if every one fits, and a single text without room for its terminator makes the sum read raise |
| `Connections.SliceGenerator` | src/pyads/ads.py:456-467 | both slice generators: the slices of the list, a raised ValueError for size 0, nothing for a negative size |
| `ConnectionTheorems.SlicesPartition` | src/pyads/ads.py:456-467 | the slices concatenate to the list, none is empty, none is longer than the size, and only the last may be shorter |
| `Connections.Connection.constructor` | src/pyads/connection.py:402-417 | a connection starts with an empty cache |
| `Connections.Connection.QueryPlcDatatypeFromName` | src/pyads/connection.py:460-476 | the type name from the target's table, looked up only if not cached; the cache grows by this name alone |
| `Connections.Connection.GatherSymbols` | src/pyads/connection.py:1000-1010 | looks up exactly the names not cached, adds them to the cache only if all are known, and returns the target's entries |
| `Connections.CacheAfterMeans` | src/pyads/connection.py:1000-1010 | a caching call that finds all its names leaves each with its entry in the cache and the others alone; every other call leaves the cache alone |
| `Connections.AskedIs` | src/pyads/connection.py:1000-1010 | the lookups made are the wanted names up to the first the target does not know, that one included |
| `Connections.DefinitionRefused` | src/pyads/connection.py:1162-1168 | a definition without an item raises KeyError, and a value it cannot encode the error of the encoder |
| `Connections.Connection.ReadListByName` | src/pyads/connection.py:973-1032 | the same result with and without the cache; lookups and the new cache exactly |
| `Connections.Connection.WriteListByName` | src/pyads/connection.py:1113-1183 | the same store and statuses with and without the cache; lookups and the new cache exactly |
| `ConnectionTheorems.OneCallYields` | src/pyads/connection.py:1012-1025 | one call gives every name what it would give alone, structures decoded, and raises exactly when one of them would |
| `ConnectionTheorems.ChunkedReadAgrees` | src/pyads/connection.py:1024-1032 | for every list without a borrower, repetitions included, every chunk size of at least 1 and any target that reserves each window, the chunked read returns what one call returns, or both raise; a borrower is an entry smaller than its scalar type with enough bytes behind it |
| `ConnectionTheorems.BorrowingBreaksChunking` | src/pyads/connection.py:1012-1032 | every list with a borrower has a device on which one call returns and reading name by name raises |
| `ConnectionTheorems.ChunkedReadExactly` | src/pyads/connection.py:1012-1032 | for distinct requests, chunked and single reads agree on every target and chunk size if and only if the list has no borrower |
| `ConnectionTheorems.ChunkedWriteAgrees` | src/pyads/connection.py:1170-1183 | for values their variables have room for, any texts and shorter text lists included, the chunked write leaves the same store and statuses as one call; when an address is unknown both raise with the same writes done |
| `ConnectionTheorems.RefusalBreaksChunking` | src/pyads/connection.py:1170-1183 | a value the writer refuses behind one it takes: one call raises with nothing written, one name a call raises with the first variable overwritten |
| `ConnectionTheorems.ChunkedWriteExactly` | src/pyads/connection.py:1170-1183 | for lists whose values are each placed or refused by type, count or range: chunked and single writes agree on all stores and chunk sizes if and only if no value is refused or the first one is |
| `Spills.SpillExactly` | src/pyads/pyads_ex.py:1123-1141 | a text too long for its STRING with a text in the STRING behind, anywhere in a list: one call stores in the second variable its own text and then what sticks out of the first beyond its characters, one name a call stores its own text alone; both report success, and they agree if and only if nothing sticks out so far or the second text leaves no room |
| `ListRoundTrips.ListRoundTrip` | src/pyads/connection.py:973-1183 | a list written by name with any chunk size comes back when read by name with any other: structures as dictionaries with single nested members taken out of their lists, unchanged when there are none, texts of any characters with room for the terminator; every other variable is unchanged |
| `ConnectionTheorems.NoChunksWithoutSize` | src/pyads/connection.py:1024-1032 | with a chunk size below 1 nothing of a non-empty list is read or written: 0 raises, a negative size returns an empty result |
| `ConnectionTheorems.NarrowAloneRaises` | src/pyads/pyads_ex.py:1053-1058 | a scalar whose entry is too small always raises when it is read alone |
| `ConnectionTheorems.CacheCoherent` | src/pyads/connection.py:468-475 | through any sequence of calls the cache is a part of the symbol table and only grows |
| `ConnectionTheorems.NeverAskedAgain` | src/pyads/connection.py:1000-1005 | a name once cached is not looked up by any later caching call |
| `ConnectionTheorems.FailedStructureRaises` | src/pyads/connection.py:1017-1020 | a failed sub-read of a structured name makes the whole list call raise, unless its definition has no element to look at |
| `ConnectionTheorems.TextElementRaises` | src/pyads/ads.py:322-358 | what an element does with an error text: an unknown type is named first, anything else cannot be read from a str |
| `SymbolLists.TextSurvivesExactly` | src/pyads/utils.py:60-69 | a text printed by the server and decoded by the client is unchanged if and only if it is ASCII and has no blank at either end |
| `SymbolLists.CodePage` | src/pyads/utils.py:60-69 | windows-1252 byte by byte: five undefined bytes raise, ASCII and Latin-1 stand for themselves |
| `SymbolLists.HighCharacters` | src/pyads/utils.py:60-69 | the 27 characters between 0x80 and 0x9F by their code points |
| `SymbolLists.StripIsASlice` | src/pyads/utils.py:60-69 | stripping cuts a text down to the part between its first and last character that is not a blank, tab, line end or NUL |
| `SymbolLists.SkippedFields` | src/pyads/testserver/advanced_handler.py:90-128 | the fields of an entry that the client skips: the size, the type number, and no flags |
| `SymbolLists.PrintedExactly` | src/pyads/testserver/advanced_handler.py:90-128 | an entry is printed if and only if each text takes less than 65536 bytes, with a blank behind the name and the type, in 32 bytes and the texts; otherwise packing raises |
| `SymbolLists.GetAllSymbols` | src/pyads/connection.py:752-778 | the loop with its running pointer computes the parser specification |
| `SymbolLists.EntryRound` | src/pyads/testserver/advanced_handler.py:90-128 | a printed entry parses to its symbol wherever it lies if and only if its texts are clean, and the parser moves to the byte behind it whatever it parsed |
| `SymbolLists.UploadRoundTrip` | src/pyads/connection.py:752-778 | the upload parser returns the printed symbols in order if and only if all their texts are ASCII without blank ends |
| `SymbolLists.AccessorsExactly` | src/pyads/structs.py:336-356 | each entry accessor recovers its ASCII text if and only if it lies within the 768-byte buffer |

## Left out

- `rpc_interface.py` annotation resolution and attribute dispatch: the resolved configuration is a datatype.
- The ctypes calls into the ADS library, sockets, routes and server threads: replaced by the server's branches over its store, or by any device that answers each sub-request by itself.
- The thin submit/async method pairs of `AsyncConnection`: all of them are `_submit` of one call.
- Error-message texts and the error-code table: codes map to texts through a parameter.
- `BasicHandler`, `AdsSymbol` and its type-name patterns, and the FILETIME conversion.
- Float rounding and integers given for REAL fields: a float is its bit pattern in the width of its field.
- Lone surrogates, negative counts and negative string lengths in structure definitions, and dictionaries passed where a sequence is iterated.
- `int()` on text is digits with an optional minus sign; upper-casing of type names is ASCII.
- Handles, notifications and type names of the test server's variables: the store keeps address and value.
- The order of keys in result dictionaries: results are maps.
- Notification registration is one atomic call that succeeds; a registration that fails or is cancelled midway is not modelled.
- Leaving the waiting loop and submitting the deletion is one step; closing a connection drops its live notifications at the device.
- The clock of `_wait_until_done` and the statuses it meets are parameters of the polling loop; timers count ticks with the TON semantics of IEC 61131-3.
- ADST_INT8 follows the table as written, which maps it to an unsigned byte.
- ChunkedReadAgrees: when a call raises, the two forms may raise different exceptions, because a structure of an early chunk is decoded before a later chunk is read.
- ChunkedWriteExactly: stated for values that stay within their variables or are refused; of those that spill over, `SpillExactly` covers texts, and structure bytes of another length are not covered.
- RoundTripExactly: structure bytes of another length than their entry, and scalars whose entry is smaller than their type, are not covered.
- ListRoundTrip: a structure with a non-ASCII STRING is not covered, because its encoding overshoots its entry (`ExactSize`) and is cut off.
- WorkerMain: the loop up to its next blocking get, with no other thread's step in between; the interleavings are those of the label sequences in `SerialRuntime`.
- QueryPlcDatatypeFromName: stops at the type name; `AdsSymbol.get_type_from_str` is not part of this model.
