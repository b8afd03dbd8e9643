/**
 What every interleaving of a step-chain operation guarantees: what it reports is the latest run under its
 id, its own when nobody reused the id; it never sleeps through a change; and leaving its waiting loop it
 submits the deletion of its notifications, once.
 */
module StepChainTheorems {
  import opened Wrappers
  import opened SerialRuntime
  import opened SerialTheorems
  import opened StepChainPlc
  import opened StepChainStatus
  import opened StepChainDevice
  import opened StepChainProtocol

  // --- the device along the log --------------------------------------------------------------------

  ghost function DeviceAt(watch: seq<Field>, log: seq<Entry<Job, Val, Event>>, p: nat): Device
    requires p <= |log|
  {
    After(DeviceSemantics(watch), log[..p])
  }

  lemma DeviceStep(watch: seq<Field>, log: seq<Entry<Job, Val, Event>>, p: nat)
    requires p < |log|
    ensures DeviceAt(watch, log, p + 1) ==
            match log[p] case Ran(_, job, _) => Exec(watch, DeviceAt(watch, log, p), job).0
                         case Env(e) => React(DeviceAt(watch, log, p), e)
  {
    AfterSnoc(DeviceSemantics(watch), log[..p], log[p]);
    assert log[..p + 1] == log[..p] + [log[p]];
  }

  lemma {:induction false} DeviceSound(watch: seq<Field>, log: seq<Entry<Job, Val, Event>>, p: nat)
    requires p <= |log|
    ensures DeviceInv(DeviceAt(watch, log, p))
  {
    if p > 0 {
      DeviceSound(watch, log, p - 1);
      DeviceStep(watch, log, p - 1);
      match log[p - 1]
      case Ran(_, job, _) => ExecKeeps(watch, DeviceAt(watch, log, p - 1), job);
      case Env(e) => ReactKeeps(DeviceAt(watch, log, p - 1), e);
    }
  }

  /** Runs recorded at one point of the log are still there, unchanged if ended, at every later point. */
  lemma {:induction false} RunsExtend(watch: seq<Field>, log: seq<Entry<Job, Val, Event>>, p: nat, q: nat)
    requires p <= q <= |log|
    ensures Extends(DeviceAt(watch, log, p).site.runs, DeviceAt(watch, log, q).site.runs)
    decreases q
  {
    hide Exec, React, DeviceInv;
    if p < q {
      RunsExtend(watch, log, p, q - 1);
      DeviceSound(watch, log, q - 1);
      DeviceStep(watch, log, q - 1);
      match log[q - 1]
      case Ran(_, job, _) => ExecKeeps(watch, DeviceAt(watch, log, q - 1), job);
      case Env(e) => ReactKeeps(DeviceAt(watch, log, q - 1), e);
    }
  }

  // --- soundness -----------------------------------------------------------------------------------

  /** No run after the `k`-th carries the id. */
  ghost predicate NoRival(runs: seq<RunRecord>, k: nat, requestId: nat) {
    forall j | k < j < |runs| :: runs[j].id != requestId
  }

  function Last(runs: seq<RunRecord>): RunRecord
    requires runs != []
  {
    runs[|runs| - 1]
  }

  /**
   The heart of soundness. Log position `p` accepted a start, `q` read the status later. The start began
   run number `k`, unended, which is there at `q`. Whatever other clients do, the read says "completed"
   exactly when the latest run carries the id and has succeeded, "failed" exactly when it carries the id
   and has ended in error or abort, with its error code, and "waiting" otherwise. The latest run is run
   `k` or a later one, never an earlier one; it is run `k` when nobody reused the id.
   */
  lemma ReadTellsTheRun(
    watch: seq<Field>, log: seq<Entry<Job, Val, Event>>, p: nat, q: nat, requestId: nat, st: Status)
    requires Truthful(DeviceSemantics(watch), log) && p < q < |log|
    requires log[p].Ran? && log[p].call == StartRun(requestId) && log[p].outcome == Returned(Accepted(true))
    requires log[q].Ran? && log[q].call == ReadStatus && log[q].outcome == Returned(Read(st))
    ensures var before, runs := DeviceAt(watch, log, p).site.runs, DeviceAt(watch, log, q).site.runs;
            var k := |before|;
            && DeviceAt(watch, log, p + 1).site.runs == before + [RunRecord(requestId, None)]
            && k < |runs| && runs[k].id == requestId
            && (StatusVerdict(st, requestId).Completed? <==> Last(runs) == RunRecord(requestId, Some(DoneOk)))
            && (StatusVerdict(st, requestId).StepFailed? <==>
                  Last(runs).id == requestId && Last(runs).ending.Some? && Last(runs).ending.value.FailedWith?)
            && (StatusVerdict(st, requestId).StepFailed? ==> Last(runs).ending == Some(FailedWith(st.errorCode)))
            && (StatusVerdict(st, requestId).StillWaiting? <==> Last(runs).id != requestId || Last(runs).ending.None?)
            && (NoRival(runs, k, requestId) && !StatusVerdict(st, requestId).StillWaiting? ==> |runs| == k + 1)
  {
    DeviceStep(watch, log, p);
    DeviceSound(watch, log, q);
    RunsExtend(watch, log, p + 1, q);
    var before := DeviceAt(watch, log, p).site.runs;
    assert DeviceAt(watch, log, p + 1).site.runs[|before|].id == requestId;
  }

  /** The verdict is about a run with this ending. */
  predicate SpeaksOf(v: Verdict, ending: Ending) {
    if ending.DoneOk? then v.Completed? else v.StepFailed?
  }

  /**
   Exactly when a rival's run is taken for the own one: a decisive read speaks of a later run if and only
   if the latest run is not run `k`, carries its id, and has ended. Run `k` had ended then too, and the
   client is told the wrong outcome exactly when one of the two succeeded and the other did not.
   */
  lemma RivalReportedExactly(
    watch: seq<Field>, log: seq<Entry<Job, Val, Event>>, p: nat, q: nat, requestId: nat, st: Status)
    requires Truthful(DeviceSemantics(watch), log) && p < q < |log|
    requires log[p].Ran? && log[p].call == StartRun(requestId) && log[p].outcome == Returned(Accepted(true))
    requires log[q].Ran? && log[q].call == ReadStatus && log[q].outcome == Returned(Read(st))
    ensures var k, runs := |DeviceAt(watch, log, p).site.runs|, DeviceAt(watch, log, q).site.runs;
            var v := StatusVerdict(st, requestId);
            && k < |runs| && (|runs| > k + 1 ==> runs[k].ending.Some?)
            && (!v.StillWaiting? && |runs| > k + 1 <==>
                  |runs| > k + 1 && Last(runs).id == requestId && Last(runs).ending.Some?)
            && (!v.StillWaiting? && runs[k].ending.Some? && !SpeaksOf(v, runs[k].ending.value) <==>
                  |runs| > k + 1 && Last(runs).id == requestId && Last(runs).ending.Some?
                  && (Last(runs).ending.value.DoneOk? <==> runs[k].ending.value.FailedWith?))
  {
    ReadTellsTheRun(watch, log, p, q, requestId, st);
    DeviceSound(watch, log, q);
  }

  /** The operation stands at a decided or current read, and its start call was accepted with TRUE. */
  ghost predicate AcceptedOp(s: Sys) {
    && CurrentRead(s.op).Some? && s.op.start < |s.rt.futures|
    && s.rt.futures[s.op.start] == Done(Returned(Accepted(true)))
  }

  /** The log positions of the accepted start and of the read the operation stands at. */
  lemma StartBeforeRead(watch: seq<Field>, s: Sys, st: Status) returns (p: nat, q: nat)
    requires SysInv(watch, s) && AcceptedOp(s)
    requires CurrentRead(s.op).value < |s.rt.futures|
    requires s.rt.futures[CurrentRead(s.op).value] == Done(Returned(Read(st)))
    ensures p < q < |s.rt.log| && Truthful(DeviceSemantics(watch), s.rt.log)
    ensures s.rt.log[p] == Ran(s.op.start, StartRun(s.op.requestId), Returned(Accepted(true)))
    ensures s.rt.log[q] == Ran(CurrentRead(s.op).value, ReadStatus, Returned(Read(st)))
  {
    p := FutureHoldsOwnResult(DeviceSemantics(watch), s.rt, s.op.start);
    q := FutureHoldsOwnResult(DeviceSemantics(watch), s.rt, CurrentRead(s.op).value);
    assert s.rt.log[p].id < CurrentRead(s.op).value;
  }

  ghost predicate Reached(watch: seq<Field>, mode: Mode, requestId: nat, s: Sys) {
    exists ms :: s == Run(watch, Init(watch, mode, requestId), ms)
  }

  lemma ReachedInv(watch: seq<Field>, mode: Mode, requestId: nat, s: Sys)
    requires Reached(watch, mode, requestId, s)
    ensures SysInv(watch, s)
  {
    var ms :| s == Run(watch, Init(watch, mode, requestId), ms);
    InitInv(watch, mode, requestId);
    RunKeeps(watch, Init(watch, mode, requestId), ms);
  }

  /** The same along the log: what a decisive read says of its latest run stays recorded. */
  lemma DecisiveReadSound(
    watch: seq<Field>, log: seq<Entry<Job, Val, Event>>, p: nat, q: nat, requestId: nat, st: Status)
    requires Truthful(DeviceSemantics(watch), log) && p < q < |log| && !StatusVerdict(st, requestId).StillWaiting?
    requires log[p].Ran? && log[p].call == StartRun(requestId) && log[p].outcome == Returned(Accepted(true))
    requires log[q].Ran? && log[q].call == ReadStatus && log[q].outcome == Returned(Read(st))
    ensures var before, runs, now :=
              DeviceAt(watch, log, p).site.runs, DeviceAt(watch, log, q).site.runs, DeviceAt(watch, log, |log|).site.runs;
            var ended := RunRecord(requestId, Some(
              if StatusVerdict(st, requestId).Completed? then DoneOk else FailedWith(st.errorCode)));
            && DeviceAt(watch, log, p + 1).site.runs == before + [RunRecord(requestId, None)]
            && |before| < |runs| <= |now| && runs[|runs| - 1] == ended && now[|runs| - 1] == ended
            && (NoRival(runs, |before|, requestId) ==> |runs| == |before| + 1)
  {
    hide Truthful, DeviceAt, StatusVerdict, NoRival;
    ReadTellsTheRun(watch, log, p, q, requestId, st);
    RunsExtend(watch, log, q, |log|);
  }

  /** What an operation that has decided on a status has read it from. */
  lemma DecidedRead(watch: seq<Field>, s: Sys)
    requires SysInv(watch, s) && Decided(s.op).Some? && (Decided(s.op).value.Success? || Decided(s.op).value.Failure?)
    ensures var r := Decided(s.op).value;
            && CurrentRead(s.op) == Some(r.read) && r.read < |s.rt.futures|
            && s.rt.futures[r.read] == Done(Returned(Read(r.status)))
            && (r.Success? ==> StatusVerdict(r.status, s.op.requestId).Completed?)
            && (r.Failure? ==> StatusVerdict(r.status, s.op.requestId).StepFailed?)
    ensures DeviceAt(watch, s.rt.log, |s.rt.log|) == s.rt.conn
  {
    assert s.rt.log[..|s.rt.log|] == s.rt.log;
  }

  /** The log positions of the accepted start and of the deciding read. */
  lemma SoundPositions(watch: seq<Field>, mode: Mode, requestId: nat, s: Sys) returns (p: nat, q: nat)
    requires Reached(watch, mode, requestId, s) && AcceptedOp(s)
    requires Decided(s.op).Some? && (Decided(s.op).value.Success? || Decided(s.op).value.Failure?)
    ensures p < q < |s.rt.log| && Truthful(DeviceSemantics(watch), s.rt.log)
    ensures s.rt.log[p] == Ran(s.op.start, StartRun(s.op.requestId), Returned(Accepted(true)))
    ensures var r := Decided(s.op).value;
            && s.rt.log[q] == Ran(r.read, ReadStatus, Returned(Read(r.status)))
            && (r.Success? ==> StatusVerdict(r.status, s.op.requestId).Completed?)
            && (r.Failure? ==> StatusVerdict(r.status, s.op.requestId).StepFailed?)
    ensures DeviceAt(watch, s.rt.log, |s.rt.log|) == s.rt.conn
  {
    hide SysInv, Reached, Truthful, DeviceAt, AcceptedOp, StatusVerdict;
    ReachedInv(watch, mode, requestId, s);
    DecidedRead(watch, s);
    p, q := StartBeforeRead(watch, s, Decided(s.op).value.status);
  }

  /**
   Soundness, both backends, every interleaving: an operation that returns a status, or raises "failed",
   speaks of a run `m` that carries its id, is the one its own accepted call began at log position `p` or
   a later one, was the latest and had really ended so when the status was read, and is recorded so ever
   after. When nobody reused the id it is the own run, `k`.
   */
  lemma StepChainSound(watch: seq<Field>, mode: Mode, requestId: nat, s: Sys)
    returns (p: nat, q: nat, k: nat, m: nat)
    requires Reached(watch, mode, requestId, s) && AcceptedOp(s)
    requires Decided(s.op).Some? && (Decided(s.op).value.Success? || Decided(s.op).value.Failure?)
    ensures p < q < |s.rt.log| && k == |DeviceAt(watch, s.rt.log, p).site.runs|
    ensures s.rt.log[p] == Ran(s.op.start, StartRun(s.op.requestId), Returned(Accepted(true)))
    ensures DeviceAt(watch, s.rt.log, p + 1).site.runs ==
            DeviceAt(watch, s.rt.log, p).site.runs + [RunRecord(s.op.requestId, None)]
    ensures s.rt.log[q].Ran? && s.rt.log[q].id == Decided(s.op).value.read
    ensures var ending := if Decided(s.op).value.Success? then DoneOk else FailedWith(Decided(s.op).value.status.errorCode);
            && k <= m && |DeviceAt(watch, s.rt.log, q).site.runs| == m + 1
            && DeviceAt(watch, s.rt.log, q).site.runs[m] == RunRecord(s.op.requestId, Some(ending))
            && m < |s.rt.conn.site.runs| && s.rt.conn.site.runs[m] == RunRecord(s.op.requestId, Some(ending))
    ensures NoRival(DeviceAt(watch, s.rt.log, q).site.runs, k, s.op.requestId) ==> m == k
  {
    hide SysInv, Reached, Truthful, DeviceAt, AcceptedOp, StatusVerdict, NoRival, CurrentRead;
    p, q := SoundPositions(watch, mode, requestId, s);
    DecisiveReadSound(watch, s.rt.log, p, q, s.op.requestId, Decided(s.op).value.status);
    k := |DeviceAt(watch, s.rt.log, p).site.runs|;
    m := |DeviceAt(watch, s.rt.log, q).site.runs| - 1;
  }

  /**
   The limit of the protocol: once a later run has begun, no read tells how run `k` ended, whatever that
   was, until someone reuses the id; the operation keeps waiting.
   */
  lemma OvertakenRunIsNeverReported(
    watch: seq<Field>, log: seq<Entry<Job, Val, Event>>, p: nat, q: nat, q': nat, requestId: nat, st: Status)
    requires Truthful(DeviceSemantics(watch), log) && p < q <= q' < |log|
    requires log[p].Ran? && log[p].call == StartRun(requestId) && log[p].outcome == Returned(Accepted(true))
    requires log[q'].Ran? && log[q'].call == ReadStatus && log[q'].outcome == Returned(Read(st))
    requires |DeviceAt(watch, log, q).site.runs| > |DeviceAt(watch, log, p).site.runs| + 1
    requires NoRival(DeviceAt(watch, log, q').site.runs, |DeviceAt(watch, log, p).site.runs|, requestId)
    ensures StatusVerdict(st, requestId).StillWaiting?
  {
    ReadTellsTheRun(watch, log, p, q', requestId, st);
    RunsExtend(watch, log, q, q');
  }

  function SiteCycles(s: Site, dts: seq<nat>): Site
    decreases |dts|
  {
    if dts == [] then s else SiteCycle(SiteCycles(s, dts[..|dts| - 1]), dts[|dts| - 1])
  }

  lemma {:induction false} SiteCyclesKeep(s: Site, dts: seq<nat>)
    requires SiteInv(s)
    ensures var t := SiteCycles(s, dts); t.plc == Cycles(s.plc, dts) && SiteInv(t) && Extends(s.runs, t.runs)
    decreases |dts|
  {
    if dts != [] {
      SiteCyclesKeep(s, dts[..|dts| - 1]);
      SiteStepsKeep(SiteCycles(s, dts[..|dts| - 1]), dts[|dts| - 1], 0, false);
    }
  }

  /**
   Why no rival may reuse the id: started, aborted, and started again under the same id by someone
   else, the block reports "completed" for the id once the second run is over, though the first failed.
   */
  lemma SameIdRivalFools(s: Site, requestId: nat, dts: seq<nat>)
    requires SiteInv(s) && !s.plc.busy && Ticking(dts) && |dts| >= 14009
    ensures var own := SiteStart(s, requestId, false).0;
            var rival := SiteStart(SiteAbort(own).0, requestId, false).0;
            var end := SiteCycles(rival, dts);
            && StatusVerdict(end.plc.status, requestId).Completed?
            && |s.runs| < |end.runs| && end.runs[|s.runs|] == RunRecord(requestId, Some(FailedWith(-2)))
  {
    var own := SiteStart(s, requestId, false).0;
    var aborted := SiteAbort(own).0;
    var rival := SiteStart(aborted, requestId, false).0;
    SiteStepsKeep(s, 0, requestId, false);
    SiteStepsKeep(own, 0, requestId, false);
    SiteStepsKeep(aborted, 0, requestId, false);
    assert aborted.runs == s.runs + [RunRecord(requestId, Some(FailedWith(-2)))];
    SiteCyclesKeep(rival, dts);
    StartedRunEnds(aborted.plc, requestId, false, dts);
  }

  // --- wake-ups ------------------------------------------------------------------------------------

  /**
   No lost wake-up: whenever the notify waiter is blocked on its event queue and the watched status is
   no longer what it last read, an event is queued, an enqueue is posted, or a notification is in flight.
   */
  lemma NoLostWakeUp(watch: seq<Field>, requestId: nat, s: Sys)
    requires Reached(watch, Notified, requestId, s) && s.op.wait.Idle? && StayedOpen(s.rt, s.op)
    ensures SameSeen(watch, s.op.wait.seen, s.rt.conn.site.plc.status)
            || s.events > 0 || s.posted > 0 || Due(s.rt.conn.pending, s.op.handles)
  {
    ReachedInv(watch, Notified, requestId, s);
    ModeKept(watch, Notified, requestId, s);
    RegisteredMeansGranted(watch, s);
  }

  lemma ModeKept(watch: seq<Field>, mode: Mode, requestId: nat, s: Sys)
    requires Reached(watch, mode, requestId, s)
    ensures s.op.mode == mode && s.op.requestId == requestId
  {
    var ms :| s == Run(watch, Init(watch, mode, requestId), ms);
    ModeKeptRun(watch, Init(watch, mode, requestId), ms);
  }

  lemma {:induction false} ModeKeptRun(watch: seq<Field>, s: Sys, ms: seq<Move>)
    ensures Run(watch, s, ms).op.mode == s.op.mode && Run(watch, s, ms).op.requestId == s.op.requestId
    decreases |ms|
  {
    if ms != [] {
      ModeKeptRun(watch, s, ms[..|ms| - 1]);
      ModeKeptStep(watch, Run(watch, s, ms[..|ms| - 1]), ms[|ms| - 1]);
    }
  }

  lemma ModeKeptStep(watch: seq<Field>, s: Sys, m: Move)
    ensures Step(watch, s, m).op.mode == s.op.mode && Step(watch, s, m).op.requestId == s.op.requestId
  {
  }

  /** Two statuses that agree on the watched fields give the same kind of verdict. */
  lemma SameSeenSameVerdict(watch: seq<Field>, a: Status, b: Status, requestId: nat)
    requires CoversTest(watch) && SameSeen(watch, a, b)
    ensures SameVerdict(StatusVerdict(a, requestId), StatusVerdict(b, requestId))
  {
    var i :| 0 <= i < |watch| && watch[i] == RequestIdF;
    var j :| 0 <= j < |watch| && watch[j] == DoneF;
    var k :| 0 <= k < |watch| && watch[k] == ErrorF;
    assert !Differs(a, b, watch[i]) && !Differs(a, b, watch[j]) && !Differs(a, b, watch[k]);
  }

  /** Hence it never stays blocked on a finished run once every notification has been delivered. */
  lemma NeverBlockedOnFinishedRun(watch: seq<Field>, requestId: nat, s: Sys)
    requires Reached(watch, Notified, requestId, s) && s.op.wait.Idle? && StayedOpen(s.rt, s.op) && CoversTest(watch)
    requires s.events == 0 && s.posted == 0 && !Due(s.rt.conn.pending, s.op.handles)
    ensures StatusVerdict(s.rt.conn.site.plc.status, requestId).StillWaiting?
  {
    ReachedInv(watch, Notified, requestId, s);
    NoLostWakeUp(watch, requestId, s);
    ModeKept(watch, Notified, requestId, s);
    SameSeenSameVerdict(watch, s.op.wait.seen, s.rt.conn.site.plc.status, requestId);
  }

  // --- the deletion of the notifications ----------------------------------------------------------

  /** Only on a closed connection does an operation leave without submitting the deletion. */
  ghost predicate DeletionInv(s: Sys) {
    s.op.mode.Notified? && s.op.registered && Decided(s.op).Some? && s.op.deletion.None? ==> s.rt.closed
  }

  lemma ClosedStays(watch: seq<Field>, rt: Rt, l: Label<Job, Event>)
    ensures rt.closed ==> Next(DeviceSemantics(watch), rt, l).closed
  {
  }

  lemma DeletionStep(watch: seq<Field>, s: Sys, m: Move)
    requires CallsInv(s.op, s.rt.calls) && DeletionInv(s)
    ensures DeletionInv(Step(watch, s, m))
  {
    match m
    case Runtime(l) => ClosedStays(watch, s.rt, l);
    case DeliverNotification(h) => ClosedStays(watch, s.rt, Outside(Notify(h)));
    case _ =>
  }

  lemma {:induction false} DeletionRun(watch: seq<Field>, s: Sys, ms: seq<Move>)
    requires SysInv(watch, s) && DeletionInv(s)
    ensures DeletionInv(Run(watch, s, ms))
    decreases |ms|
  {
    if ms != [] {
      DeletionRun(watch, s, ms[..|ms| - 1]);
      RunKeeps(watch, s, ms[..|ms| - 1]);
      DeletionStep(watch, Run(watch, s, ms[..|ms| - 1]), ms[|ms| - 1]);
    }
  }

  lemma DeletionOnceOver(watch: seq<Field>, requestId: nat, s: Sys)
    requires Reached(watch, Notified, requestId, s)
    ensures DeletionInv(s)
  {
    var ms :| s == Run(watch, Init(watch, Notified, requestId), ms);
    InitInv(watch, Notified, requestId);
    DeletionRun(watch, Init(watch, Notified, requestId), ms);
  }

  /**
   Once registration has been heard of, an operation that has left its waiting loop while the connection
   took calls has submitted exactly one deletion of exactly its handles; before it leaves there is none;
   and when that deletion has run on a connection that stayed open, none of the handles is left at the
   device, in the callback store or among the symbol handles. Whether it runs is told in `StepChainLeaks`.
   */
  lemma DeletionSubmittedOnce(watch: seq<Field>, requestId: nat, s: Sys)
    requires Reached(watch, Notified, requestId, s) && s.op.registered && watch != []
    ensures |s.op.handles| == |watch|
    ensures forall i | 0 <= i < |s.rt.calls| && s.rt.calls[i] == Unregister(s.op.handles) :: s.op.deletion == Some(i)
    ensures s.op.deletion.Some? ==>
              s.op.deletion.value < |s.rt.calls| && s.rt.calls[s.op.deletion.value] == Unregister(s.op.handles)
    ensures InTry(s.op) ==> s.op.deletion.None?
    ensures Decided(s.op).Some? && !s.rt.closed ==> s.op.deletion.Some?
    ensures DeletionRan(s.rt, s.op) && StayedOpen(s.rt, s.op) ==> Gone(s.rt.conn, s.op.handles)
  {
    ReachedInv(watch, Notified, requestId, s);
    ModeKept(watch, Notified, requestId, s);
    RegisteredMeansGranted(watch, s);
    DeletionOnceOver(watch, requestId, s);
    NotApartFromSelf(s.op.handles);
  }

  lemma NotApartFromSelf(hs: Handles)
    requires hs != []
    ensures !Apart(hs, hs)
  {
    assert hs[0].0 == hs[0].0;
  }
}
