/**
 Progress through the whole stack: a started run ends whatever other clients do, and the first status
 read after its end, with no other run begun, ends the waiting loop of either backend.
 */
module StepChainProgress {
  import opened Wrappers
  import opened SerialRuntime
  import opened SerialTheorems
  import opened StepChainPlc
  import opened StepChainStatus
  import opened StepChainDevice
  import opened StepChainProtocol
  import opened StepChainTheorems
  import Poll = StepChainPoll

  type Log = seq<Entry<Job, Val, Event>>

  /** The PLC cycles with time passing among the entries from `from` up to `upTo`. */
  function PositiveTicks(log: Log, from: nat, upTo: nat): nat
    requires from <= upTo <= |log|
    decreases upTo
  {
    if from == upTo then 0 else
    PositiveTicks(log, from, upTo - 1)
    + (if log[upTo - 1].Env? && log[upTo - 1].event.Tick? && log[upTo - 1].event.dt > 0 then 1 else 0)
  }

  predicate IsStart(e: Entry<Job, Val, Event>) {
    match e case Ran(_, job, _) => job.StartRun? case Env(ev) => ev.RivalStart?
  }

  predicate IsAbort(e: Entry<Job, Val, Event>) {
    match e case Ran(_, job, _) => job == AbortRun case Env(ev) => ev.RivalAbort?
  }

  ghost predicate NoStarts(log: Log, from: nat, upTo: nat) {
    forall j | from <= j < upTo && j < |log| :: !IsStart(log[j])
  }

  ghost predicate NoAborts(log: Log, from: nat, upTo: nat) {
    forall j | from <= j < upTo && j < |log| :: !IsAbort(log[j])
  }

  /** The device's next state after a log entry. */
  function Moves(watch: seq<Field>, d: Device, e: Entry<Job, Val, Event>): Device {
    match e case Ran(_, job, _) => Exec(watch, d, job).0 case Env(ev) => React(d, ev)
  }

  /** Run `k` has ended, or is the one in progress and has `spent` of its cycles behind it. */
  ghost predicate EndsInTime(s: Site, k: nat, spent: nat) {
    && k < |s.runs|
    && (s.runs[k].ending.None? ==> |s.runs| == k + 1 && s.plc.busy && CyclesLeft(s.plc) + spent <= 14009)
  }

  /** Undisturbed by aborts, run `k` ends as the flag read at its start says. */
  ghost predicate EndsAsForced(s: Site, k: nat, force: bool) {
    && k < |s.runs|
    && (s.runs[k].ending.None? ==> s.plc.simulateError == force && (force ==> s.plc.step != 40))
    && (s.runs[k].ending.Some? ==> s.runs[k].ending.value == if force then FailedWith(9001) else DoneOk)
  }

  lemma CycleMoves(s: Site, dt: nat, k: nat, spent: nat, force: bool)
    requires SiteInv(s) && EndsInTime(s, k, spent)
    ensures EndsInTime(SiteCycle(s, dt), k, if dt > 0 then spent + 1 else spent)
    ensures EndsAsForced(s, k, force) ==> EndsAsForced(SiteCycle(s, dt), k, force)
  {
    if s.runs[k].ending.None? && dt > 0 {
      CycleProgress(s.plc, dt);
    }
  }

  /** A busy block refuses starts, and an abort ends the run it finds. */
  lemma CallMoves(s: Site, requestId: nat, forceError: bool, k: nat, spent: nat, force: bool)
    requires SiteInv(s) && EndsInTime(s, k, spent)
    ensures var started, aborted := SiteStart(s, requestId, forceError).0, SiteAbort(s).0;
            && EndsInTime(started, k, spent) && EndsInTime(aborted, k, spent)
            && (EndsAsForced(s, k, force) ==> EndsAsForced(started, k, force))
            && |aborted.runs| == |s.runs|
  {
    hide CyclesLeft;
  }

  /** Nothing else touches the block but its cycles. */
  lemma EntryMoves(watch: seq<Field>, d: Device, e: Entry<Job, Val, Event>, k: nat, spent: nat, force: bool)
    requires DeviceInv(d) && EndsInTime(d.site, k, spent)
    ensures var d' := Moves(watch, d, e);
            && EndsInTime(d'.site, k, if e.Env? && e.event.Tick? && e.event.dt > 0 then spent + 1 else spent)
            && (EndsAsForced(d.site, k, force) && !IsAbort(e) ==> EndsAsForced(d'.site, k, force))
            && (!IsStart(e) ==> |d'.site.runs| == |d.site.runs|)
  {
    var id := match e case Ran(_, StartRun(id), _) => id case Env(RivalStart(id)) => id case _ => 0;
    CallMoves(d.site, id, d.forceError, k, spent, force);
    if e.Env? && e.event.Tick? { CycleMoves(d.site, e.event.dt, k, spent, force); }
    if e.Ran? && e.call.Register? { RegisterAllFresh(d, watch); }
    if e.Ran? && e.call.Unregister? { UnregisterInv(d, e.call.handles); }
    hide EndsInTime, EndsAsForced, SiteStart, SiteAbort, DeviceInv, SiteInv, Cycle;
  }

  lemma StartMoves(watch: seq<Field>, d: Device, requestId: nat)
    requires DeviceInv(d) && Exec(watch, d, StartRun(requestId)).1 == Returned(Accepted(true))
    ensures var site, k := Exec(watch, d, StartRun(requestId)).0.site, |d.site.runs|;
            && site.runs == d.site.runs + [RunRecord(requestId, None)]
            && EndsInTime(site, k, 0) && EndsAsForced(site, k, d.forceError)
  {
  }

  /** From an accepted start on, every entry of the log keeps run `k` on its way to its end. */
  lemma {:induction false} LogMoves(watch: seq<Field>, log: Log, p: nat, q: nat, requestId: nat)
    requires Truthful(DeviceSemantics(watch), log) && p < q <= |log|
    requires log[p].Ran? && log[p].call == StartRun(requestId) && log[p].outcome == Returned(Accepted(true))
    ensures var d := DeviceAt(watch, log, p);
            var k, site := |d.site.runs|, DeviceAt(watch, log, q).site;
            && EndsInTime(site, k, PositiveTicks(log, p + 1, q))
            && (NoAborts(log, p + 1, q) ==> EndsAsForced(site, k, d.forceError))
            && (NoStarts(log, p + 1, q) ==> |site.runs| == k + 1)
    decreases q
  {
    hide Truthful, DeviceAt, EndsInTime, EndsAsForced;
    var d := DeviceAt(watch, log, p);
    DeviceSound(watch, log, p);
    if q == p + 1 {
      DeviceStep(watch, log, p);
      AcceptedMeans(watch, log, p, requestId);
      StartMoves(watch, d, requestId);
    } else {
      LogMoves(watch, log, p, q - 1, requestId);
      DeviceSound(watch, log, q - 1);
      DeviceStep(watch, log, q - 1);
      EntryMoves(watch, DeviceAt(watch, log, q - 1), log[q - 1], |d.site.runs|, PositiveTicks(log, p + 1, q - 1), d.forceError);
    }
  }

  lemma AcceptedMeans(watch: seq<Field>, log: Log, p: nat, requestId: nat)
    requires Truthful(DeviceSemantics(watch), log) && p < |log|
    requires log[p].Ran? && log[p].call == StartRun(requestId) && log[p].outcome == Returned(Accepted(true))
    ensures Exec(watch, DeviceAt(watch, log, p), StartRun(requestId)).1 == Returned(Accepted(true))
  {
  }

  /**
   A started run ends: once 14009 cycles with time passing lie behind its accepted start it has ended,
   whatever starts, aborts and calls happened in between; without an abort it has succeeded if and only
   if no error was forced when it was started.
   */
  lemma RunEndsInLog(watch: seq<Field>, log: Log, p: nat, q: nat, requestId: nat)
    requires Truthful(DeviceSemantics(watch), log) && p < q <= |log|
    requires log[p].Ran? && log[p].call == StartRun(requestId) && log[p].outcome == Returned(Accepted(true))
    requires PositiveTicks(log, p + 1, q) >= 14009
    ensures var d, runs := DeviceAt(watch, log, p), DeviceAt(watch, log, q).site.runs;
            var k := |d.site.runs|;
            && k < |runs| && runs[k].ending.Some?
            && (NoAborts(log, p + 1, q) ==> (runs[k].ending.value.DoneOk? <==> !d.forceError))
  {
    hide Truthful, DeviceAt;
    LogMoves(watch, log, p, q, requestId);
    DeviceSound(watch, log, q);
  }

  /**
   A read of the status after the run's end decides, exactly when the latest run carries the id: in
   particular when no other run was begun. It then says "completed" or "failed" as the run ended.
   */
  lemma ReadAfterEndDecides(watch: seq<Field>, log: Log, p: nat, q: nat, requestId: nat, st: Status)
    requires Truthful(DeviceSemantics(watch), log) && p < q < |log|
    requires log[p].Ran? && log[p].call == StartRun(requestId) && log[p].outcome == Returned(Accepted(true))
    requires log[q].Ran? && log[q].call == ReadStatus && log[q].outcome == Returned(Read(st))
    requires NoStarts(log, p + 1, q)
    ensures var runs, k := DeviceAt(watch, log, q).site.runs, |DeviceAt(watch, log, p).site.runs|;
            && |runs| == k + 1
            && (StatusVerdict(st, requestId).StillWaiting? <==> runs[k].ending.None?)
            && (StatusVerdict(st, requestId).Completed? <==> runs[k].ending == Some(DoneOk))
    ensures PositiveTicks(log, p + 1, q) >= 14009 ==>
              && !StatusVerdict(st, requestId).StillWaiting?
              && (NoAborts(log, p + 1, q) ==>
                    (StatusVerdict(st, requestId).Completed? <==> !DeviceAt(watch, log, p).forceError))
  {
    hide Truthful, DeviceAt, EndsInTime, EndsAsForced, StatusVerdict;
    ReadTellsTheRun(watch, log, p, q, requestId, st);
    LogMoves(watch, log, p, q, requestId);
    if PositiveTicks(log, p + 1, q) >= 14009 {
      RunEndsInLog(watch, log, p, q, requestId);
    }
  }

  lemma ReachedTruthful(watch: seq<Field>, mode: Mode, requestId: nat, s: Sys)
    requires Reached(watch, mode, requestId, s)
    ensures Truthful(DeviceSemantics(watch), s.rt.log)
  {
    ReachedInv(watch, mode, requestId, s);
    hide Reached;
  }

  lemma ResumeDecides(watch: seq<Field>, s: Sys, st: Status)
    requires s.op.wait.AwaitRead?
    requires s.op.wait.read < |s.rt.futures| && s.rt.futures[s.op.wait.read] == Done(Returned(Read(st)))
    ensures var r, v := Decided(Step(watch, s, Resume).op), StatusVerdict(st, s.op.requestId);
            && (v.Completed? ==> r == Some(Success(s.op.wait.read, st)))
            && (v.StepFailed? ==> r == Some(Failure(s.op.wait.read, st)))
  {
  }

  /**
   The client loop of either backend ends with it: an operation that resumes with a status read after the
   end of its run, no other run having begun, leaves its loop with success or failure from that very read.
   */
  lemma FirstReadAfterEndLeavesTheLoop(watch: seq<Field>, mode: Mode, requestId: nat, s: Sys, p: nat, q: nat, st: Status)
    requires Reached(watch, mode, requestId, s) && s.op.wait.AwaitRead?
    requires s.op.wait.read < |s.rt.futures| && s.rt.futures[s.op.wait.read] == Done(Returned(Read(st)))
    requires p < q < |s.rt.log| && NoStarts(s.rt.log, p + 1, q)
    requires s.rt.log[p] == Ran(s.op.start, StartRun(s.op.requestId), Returned(Accepted(true)))
    requires s.rt.log[q] == Ran(s.op.wait.read, ReadStatus, Returned(Read(st)))
    requires var runs, k := DeviceAt(watch, s.rt.log, q).site.runs, |DeviceAt(watch, s.rt.log, p).site.runs|;
             PositiveTicks(s.rt.log, p + 1, q) >= 14009 || (k < |runs| && runs[k].ending.Some?)
    ensures var runs, k := DeviceAt(watch, s.rt.log, q).site.runs, |DeviceAt(watch, s.rt.log, p).site.runs|;
            var r := Decided(Step(watch, s, Resume).op);
            && k < |runs| && runs[k].ending.Some?
            && r == Some(if runs[k].ending.value.DoneOk? then Success(s.op.wait.read, st) else Failure(s.op.wait.read, st))
  {
    ReachedTruthful(watch, mode, requestId, s);
    ResumeDecides(watch, s, st);
    hide Reached, Step, Truthful, DeviceAt, StatusVerdict;
    ReadAfterEndDecides(watch, s.rt.log, p, q, s.op.requestId, st);
  }

  /** Poll `i` of the loop read the status at log position `at[i]`. */
  ghost predicate PolledAt(log: Log, snaps: seq<Option<Status>>, at: seq<nat>) {
    && |at| == |snaps|
    && forall i | 0 <= i < |snaps| && snaps[i].Some? ::
         at[i] < |log| && log[at[i]].Ran? && log[at[i]].call == ReadStatus && log[at[i]].outcome == Returned(Read(snaps[i].value))
  }

  /**
   The polling loop itself, fed with the statuses read at given log positions: poll number `j`, made when
   the run has had its cycles and no other run has begun, is the last one at the latest.
   */
  method PollStartedRun(
    watch: seq<Field>, ghost log: Log, ghost p: nat, requestId: nat, snaps: seq<Option<Status>>, ghost at: seq<nat>,
    clock: seq<real>, timeout: Option<real>, ghost j: nat) returns (end: Poll.PollEnd, count: nat)
    requires |clock| == |snaps| + 1 && PolledAt(log, snaps, at) && j < |snaps|
    requires Truthful(DeviceSemantics(watch), log) && p < |log|
    requires log[p].Ran? && log[p].call == StartRun(requestId) && log[p].outcome == Returned(Accepted(true))
    requires p < at[j] <= |log| && NoStarts(log, p + 1, at[j]) && PositiveTicks(log, p + 1, at[j]) >= 14009
    ensures count <= j + 1 && !end.TraceEnded?
  {
    if snaps[j].Some? {
      ReadAfterEndDecides(watch, log, p, at[j], requestId, snaps[j].value);
    }
    assert !Poll.Open(snaps, requestId, j);
    end, count := Poll.WaitUntilDone(requestId, Some(true), snaps, clock, timeout);
  }

  // --- nothing left to happen ----------------------------------------------------------------------

  /** The moves that take the operation, or the runtime and the notifications under it, further. */
  ghost predicate Advances(s: Sys, m: Move) {
    match m
    case Runtime(l) => Works(s.rt, l)
    case DeliverNotification(h) => IsHandle(Granted(s.rt, s.op), h) && h in s.rt.conn.pending
    case EnqueueEvent => s.posted > 0
    case Resume =>
      var at := Awaited(s.op);
      at.Some? && at.value < |s.rt.futures| && !s.rt.futures[at.value].Pending?
    case Wake => s.op.wait.Idle? && (s.op.mode.Poll? || s.events > 0)
    case _ => false
  }

  /** With nothing left to happen in the runtime every future is settled. */
  lemma NothingLeftMeansSettled(watch: seq<Field>, s: Sys)
    requires SysInv(watch, s) && forall m: Move :: !Advances(s, m)
    ensures forall i | 0 <= i < |s.rt.futures| :: !s.rt.futures[i].Pending?
    ensures !s.op.wait.NotInvoked? ==> s.op.wait.Idle? || s.op.wait.Over?
  {
    assert !Advances(s, Runtime(Get)) && !Advances(s, Runtime(Check)) && !Advances(s, Runtime(Execute));
    assert !Advances(s, Runtime(Post)) && !Advances(s, Runtime(Deliver));
    QuietMeansSettled(DeviceSemantics(watch), s.rt);
    assert !Advances(s, Resume);
  }

  /** Nor is an event or a notification on its way to a sleeping waiter. */
  lemma NothingLeftMeansNoWakeUp(watch: seq<Field>, s: Sys)
    requires SysInv(watch, s) && s.op.mode.Notified? && s.op.wait.Idle? && forall m: Move :: !Advances(s, m)
    ensures s.events == 0 && s.posted == 0 && !Due(s.rt.conn.pending, s.op.handles)
  {
    hide Inv, DeviceInv, WakeInv;
    assert !Advances(s, Wake) && !Advances(s, EnqueueEvent);
    RegisteredMeansGranted(watch, s);
    forall k | 0 <= k < |s.op.handles| ensures s.op.handles[k].0 !in s.rt.conn.pending {
      assert !Advances(s, DeliverNotification(s.op.handles[k].0));
    }
  }

  /** Whether the client waits is told by the latest run the device has recorded. */
  lemma WaitingTellsTheRun(d: Device, requestId: nat)
    requires DeviceInv(d) && d.site.runs != []
    ensures StatusVerdict(d.site.plc.status, requestId).StillWaiting? <==>
            Last(d.site.runs).id != requestId || Last(d.site.runs).ending.None?
  {
  }

  /**
   The notification backend as a whole: in every reached state in which nothing is left to happen in the
   worker, the event loop, the notifications or the operation itself, an operation whose own run has ended
   is over, when no other run was begun and the connection has stayed open.
   */
  lemma OperationFinishes(watch: seq<Field>, requestId: nat, s: Sys, p: nat)
    requires Reached(watch, Notified, requestId, s) && CoversTest(watch) && StayedOpen(s.rt, s.op)
    requires !s.op.wait.NotInvoked? && p < |s.rt.log| && NoStarts(s.rt.log, p + 1, |s.rt.log|)
    requires s.rt.log[p] == Ran(s.op.start, StartRun(requestId), Returned(Accepted(true)))
    requires var runs, k := s.rt.conn.site.runs, |DeviceAt(watch, s.rt.log, p).site.runs|;
             PositiveTicks(s.rt.log, p + 1, |s.rt.log|) >= 14009 || (k < |runs| && runs[k].ending.Some?)
    requires forall m: Move :: !Advances(s, m)
    ensures s.op.wait.Over?
  {
    ReachedInv(watch, Notified, requestId, s);
    ModeKept(watch, Notified, requestId, s);
    NothingLeftMeansSettled(watch, s);
    hide SysInv, Reached, Advances, StatusVerdict, StayedOpen, DeviceAt, DeviceInv, Truthful, NoStarts;
    if s.op.wait.Idle? {
      NothingLeftMeansNoWakeUp(watch, s);
      NeverBlockedOnFinishedRun(watch, requestId, s);
      LogOf(watch, s);
      OwnRunIsLast(watch, s.rt.log, p, |s.rt.log|, requestId);
      WaitingTellsTheRun(s.rt.conn, requestId);
      assert false;
    }
  }

  /** With no other start the latest run is the own one, and has its id. */
  lemma OwnRunIsLast(watch: seq<Field>, log: Log, p: nat, q: nat, requestId: nat)
    requires Truthful(DeviceSemantics(watch), log) && p < q <= |log| && NoStarts(log, p + 1, q)
    requires log[p].Ran? && log[p].call == StartRun(requestId) && log[p].outcome == Returned(Accepted(true))
    requires var runs, k := DeviceAt(watch, log, q).site.runs, |DeviceAt(watch, log, p).site.runs|;
             PositiveTicks(log, p + 1, q) >= 14009 || (k < |runs| && runs[k].ending.Some?)
    ensures var runs := DeviceAt(watch, log, q).site.runs;
            runs != [] && Last(runs).id == requestId && Last(runs).ending.Some?
  {
    hide Truthful, DeviceAt, EndsInTime, EndsAsForced, NoStarts;
    var d := DeviceAt(watch, log, p);
    LogMoves(watch, log, p, q, requestId);
    DeviceStep(watch, log, p);
    AcceptedMeans(watch, log, p, requestId);
    DeviceSound(watch, log, p);
    StartMoves(watch, d, requestId);
    RunsExtend(watch, log, p + 1, q);
    LastKeepsId(d.site.runs, requestId, DeviceAt(watch, log, q).site.runs);
    if PositiveTicks(log, p + 1, q) >= 14009 {
      RunEndsInLog(watch, log, p, q, requestId);
    }
  }

  lemma LastKeepsId(before: seq<RunRecord>, requestId: nat, runs: seq<RunRecord>)
    requires Extends(before + [RunRecord(requestId, None)], runs) && |runs| == |before| + 1
    ensures Last(runs).id == requestId
  {
    assert (before + [RunRecord(requestId, None)])[|before|] == RunRecord(requestId, None);
  }

  lemma LogOf(watch: seq<Field>, s: Sys)
    requires SysInv(watch, s)
    ensures Truthful(DeviceSemantics(watch), s.rt.log) && DeviceAt(watch, s.rt.log, |s.rt.log|) == s.rt.conn
    ensures DeviceInv(s.rt.conn)
  {
    assert s.rt.log[..|s.rt.log|] == s.rt.log;
  }
}
