/**
 An operation invoked on a closed connection: its start call returns None, which the code takes for
 acceptance. Nothing was started, and what the operation then reports is somebody else's run.
 */
module StepChainUnstarted {
  import opened Wrappers
  import opened SerialRuntime
  import opened SerialTheorems
  import opened StepChainPlc
  import opened StepChainStatus
  import opened StepChainDevice
  import opened StepChainProtocol
  import opened StepChainTheorems
  import opened StepChainProgress
  import opened StepChainSchedules

  // --- which run is reported -----------------------------------------------------------------------

  /** The operation stands at a status read although its start call returned None. */
  ghost predicate UnstartedOp(s: Sys) {
    && CurrentRead(s.op).Some? && s.op.start < |s.rt.futures|
    && s.rt.futures[s.op.start] == Done(Returned(Nothing))
  }

  /** Every operation that reads the status was either accepted or not started at all. */
  lemma AcceptedOrUnstarted(watch: seq<Field>, mode: Mode, requestId: nat, s: Sys)
    requires Reached(watch, mode, requestId, s) && CurrentRead(s.op).Some?
    ensures AcceptedOp(s) || UnstartedOp(s)
  {
    ReachedInv(watch, mode, requestId, s);
    var p := FutureHoldsOwnResult(DeviceSemantics(watch), s.rt, s.op.start);
  }

  lemma ClosedStartsNothing(watch: seq<Field>, d: Device, requestId: nat)
    requires Exec(watch, d, StartRun(requestId)).1 == Returned(Nothing)
    ensures !d.open && Exec(watch, d, StartRun(requestId)).0 == d
  {
  }

  lemma UnstartedMoves(watch: seq<Field>, log: Log, p: nat, requestId: nat)
    requires Truthful(DeviceSemantics(watch), log) && p < |log|
    requires log[p].Ran? && log[p].call == StartRun(requestId) && log[p].outcome == Returned(Nothing)
    ensures !DeviceAt(watch, log, p).open && DeviceAt(watch, log, p + 1) == DeviceAt(watch, log, p)
  {
    DeviceStep(watch, log, p);
    ClosedStartsNothing(watch, DeviceAt(watch, log, p), requestId);
  }

  lemma NoStartNoRun(watch: seq<Field>, d: Device, e: Entry<Job, Val, Event>)
    requires DeviceInv(d) && !IsStart(e)
    ensures |Moves(watch, d, e).site.runs| == |d.site.runs|
  {
    match e
    case Ran(_, Register, _) => RegisterAllFresh(d, watch);
    case Ran(_, Unregister(hs), _) => UnregisterInv(d, hs);
    case _ =>
  }

  lemma {:induction false} NoStartsNoRuns(watch: seq<Field>, log: Log, p: nat, q: nat)
    requires p <= q <= |log| && NoStarts(log, p, q)
    ensures |DeviceAt(watch, log, q).site.runs| == |DeviceAt(watch, log, p).site.runs|
    decreases q
  {
    hide DeviceAt;
    if p < q {
      NoStartsNoRuns(watch, log, p, q - 1);
      DeviceSound(watch, log, q - 1);
      DeviceStep(watch, log, q - 1);
      NoStartNoRun(watch, DeviceAt(watch, log, q - 1), log[q - 1]);
    }
  }

  /**
   What an operation reports whose start call, at log position `p`, returned None: the connection was
   closed and nothing was started; the run reported, number `m`, carries the id and was the latest when the
   status was read at `q`. It is one begun before the operation, a stale one, if and only if no run was
   begun in between, in particular when no start ran.
   */
  lemma UnstartedReport(watch: seq<Field>, mode: Mode, requestId: nat, s: Sys) returns (p: nat, q: nat, m: nat)
    requires Reached(watch, mode, requestId, s) && UnstartedOp(s)
    requires Decided(s.op).Some? && (Decided(s.op).value.Success? || Decided(s.op).value.Failure?)
    ensures p < q < |s.rt.log| && s.rt.log[p] == Ran(s.op.start, StartRun(s.op.requestId), Returned(Nothing))
    ensures s.rt.log[q].Ran? && s.rt.log[q].id == Decided(s.op).value.read
    ensures !DeviceAt(watch, s.rt.log, p).open && DeviceAt(watch, s.rt.log, p + 1) == DeviceAt(watch, s.rt.log, p)
    ensures var ending := if Decided(s.op).value.Success? then DoneOk else FailedWith(Decided(s.op).value.status.errorCode);
            var before, runs := DeviceAt(watch, s.rt.log, p).site.runs, DeviceAt(watch, s.rt.log, q).site.runs;
            && |runs| == m + 1 && runs[m] == RunRecord(s.op.requestId, Some(ending))
            && m < |s.rt.conn.site.runs| && s.rt.conn.site.runs[m] == RunRecord(s.op.requestId, Some(ending))
            && (m < |before| <==> |runs| == |before|) && (NoStarts(s.rt.log, p + 1, q) ==> m < |before|)
  {
    hide SysInv, Reached, Truthful, DeviceAt, StatusVerdict, NoStarts;
    ReachedInv(watch, mode, requestId, s);
    DecidedRead(watch, s);
    p, q := UnstartedBeforeRead(watch, s, Decided(s.op).value.status);
    var log, st := s.rt.log, Decided(s.op).value.status;
    UnstartedMoves(watch, log, p, s.op.requestId);
    DecisiveReport(watch, log, q, s.op.requestId, st);
    RunsExtend(watch, log, p, q);
    RunsExtend(watch, log, q, |log|);
    m := |DeviceAt(watch, log, q).site.runs| - 1;
    if NoStarts(log, p + 1, q) {
      NoStartsNoRuns(watch, log, p + 1, q);
    }
  }

  /**
   Every operation that returns a status or raises "failed", in either backend and every interleaving,
   speaks of the run `m` that was the latest at its read, carries its id, had really ended so, and stays
   recorded so. If its start was accepted that is its own run or a later one; otherwise nothing was started,
   and the run is a stale one exactly if none was begun in between.
   */
  lemma EveryReport(watch: seq<Field>, mode: Mode, requestId: nat, s: Sys) returns (p: nat, q: nat, m: nat)
    requires Reached(watch, mode, requestId, s)
    requires Decided(s.op).Some? && (Decided(s.op).value.Success? || Decided(s.op).value.Failure?)
    ensures p < q < |s.rt.log| && s.rt.log[q].Ran? && s.rt.log[q].id == Decided(s.op).value.read
    ensures s.rt.log[p].Ran? && s.rt.log[p].id == s.op.start && s.rt.log[p].call == StartRun(s.op.requestId)
    ensures var ending := if Decided(s.op).value.Success? then DoneOk else FailedWith(Decided(s.op).value.status.errorCode);
            var runs := DeviceAt(watch, s.rt.log, q).site.runs;
            && |runs| == m + 1 && runs[m] == RunRecord(s.op.requestId, Some(ending))
            && m < |s.rt.conn.site.runs| && s.rt.conn.site.runs[m] == RunRecord(s.op.requestId, Some(ending))
    ensures var before, runs := DeviceAt(watch, s.rt.log, p).site.runs, DeviceAt(watch, s.rt.log, q).site.runs;
            if s.rt.log[p].outcome == Returned(Accepted(true))
            then |before| <= m && DeviceAt(watch, s.rt.log, p + 1).site.runs == before + [RunRecord(s.op.requestId, None)]
            else s.rt.log[p].outcome == Returned(Nothing) && DeviceAt(watch, s.rt.log, p + 1) == DeviceAt(watch, s.rt.log, p)
                 && (m < |before| <==> |runs| == |before|)
  {
    hide SysInv, Reached, Truthful, DeviceAt, StatusVerdict, NoStarts, UnstartedOp, AcceptedOp;
    AcceptedOrUnstarted(watch, mode, requestId, s);
    if AcceptedOp(s) {
      var k: nat;
      p, q, k, m := StepChainSound(watch, mode, requestId, s);
    } else {
      p, q, m := UnstartedReport(watch, mode, requestId, s);
    }
  }

  lemma UnstartedBeforeRead(watch: seq<Field>, s: Sys, st: Status) returns (p: nat, q: nat)
    requires SysInv(watch, s) && UnstartedOp(s)
    requires CurrentRead(s.op).value < |s.rt.futures|
    requires s.rt.futures[CurrentRead(s.op).value] == Done(Returned(Read(st)))
    ensures p < q < |s.rt.log| && Truthful(DeviceSemantics(watch), s.rt.log)
    ensures s.rt.log[p] == Ran(s.op.start, StartRun(s.op.requestId), Returned(Nothing))
    ensures s.rt.log[q] == Ran(CurrentRead(s.op).value, ReadStatus, Returned(Read(st)))
  {
    p := FutureHoldsOwnResult(DeviceSemantics(watch), s.rt, s.op.start);
    q := FutureHoldsOwnResult(DeviceSemantics(watch), s.rt, CurrentRead(s.op).value);
    assert s.rt.log[p].id < CurrentRead(s.op).value;
  }

  /** A decisive read is of the latest run there is, which carries the id and has ended so. */
  lemma DecisiveReport(watch: seq<Field>, log: Log, q: nat, requestId: nat, st: Status)
    requires Truthful(DeviceSemantics(watch), log) && q < |log|
    requires log[q].Ran? && log[q].call == ReadStatus && log[q].outcome == Returned(Read(st))
    requires !StatusVerdict(st, requestId).StillWaiting?
    ensures var runs := DeviceAt(watch, log, q).site.runs;
            runs != [] && Last(runs) == RunRecord(requestId, Some(
              if StatusVerdict(st, requestId).Completed? then DoneOk else FailedWith(st.errorCode)))
  {
    DeviceSound(watch, log, q);
  }

  // --- it happens ----------------------------------------------------------------------------------

  /** The device after events of its own and of others. */
  function Reacted(d: Device, es: seq<Event>): Device
    decreases |es|
  {
    if es == [] then d else React(Reacted(d, es[..|es| - 1]), es[|es| - 1])
  }

  function Entries(es: seq<Event>): seq<Entry<Job, Val, Event>> {
    seq(|es|, k requires 0 <= k < |es| => Env(es[k]))
  }

  function Outsides(es: seq<Event>): seq<Move> {
    seq(|es|, k requires 0 <= k < |es| => Runtime(Outside(es[k])))
  }

  lemma OutsideSteps(watch: seq<Field>, s: Sys, e: Event)
    requires s.op.wait.NotInvoked?
    ensures Step(watch, s, Runtime(Outside(e))) ==
            s.(rt := s.rt.(conn := React(s.rt.conn, e), log := s.rt.log + [Env(e)]))
  {
    hide React;
  }

  lemma {:induction false} OutsidesRun(watch: seq<Field>, requestId: nat, es: seq<Event>)
    ensures var s := Init(watch, Mode.Poll, requestId);
            Run(watch, s, Outsides(es)) == s.(rt := s.rt.(conn := Reacted(INITIAL, es), log := Entries(es)))
    decreases |es|
  {
    hide React, Step;
    if es != [] {
      var front, e := es[..|es| - 1], es[|es| - 1];
      OutsidesRun(watch, requestId, front);
      assert Outsides(es) == Outsides(front) + [Runtime(Outside(e))];
      RunThen(watch, Init(watch, Mode.Poll, requestId), Outsides(front), Runtime(Outside(e)));
      OutsideSteps(watch, Run(watch, Init(watch, Mode.Poll, requestId), Outsides(front)), e);
      assert Entries(es) == Entries(front) + [Env(e)];
    } else {
      assert Entries(es) == [];
    }
  }

  lemma {:induction false} StaysClosed(es: seq<Event>)
    ensures !Reacted(INITIAL, es).open
    decreases |es|
  {
    if es != [] {
      StaysClosed(es[..|es| - 1]);
    }
  }

  /** The operation has submitted its start call. */
  lemma ScheduleInvokes(watch: seq<Field>, requestId: nat, es: seq<Event>)
    ensures var s := Run(watch, Init(watch, Mode.Poll, requestId), Outsides(es) + [Invoke]);
            && s.op == Op(Mode.Poll, requestId, 0, 0, false, [], None, AwaitAccept)
            && s.rt.calls == [StartRun(requestId)] && s.rt.queue == [Call(0)] && Ready(s.rt, 0) && !s.rt.closed
            && s.rt.conn == Reacted(INITIAL, es)
  {
    hide React, Reacted;
    OutsidesRun(watch, requestId, es);
    RunThen(watch, Init(watch, Mode.Poll, requestId), Outsides(es), Invoke);
  }

  /** The start call has returned None, and the connection has been opened. */
  lemma ScheduleOpens(watch: seq<Field>, requestId: nat, es: seq<Event>)
    ensures var s := Run(watch, Init(watch, Mode.Poll, requestId),
                         Outsides(es) + [Invoke] + SERVE + [Runtime(Submit(OpenConn))] + SERVE);
            && s.op == Op(Mode.Poll, requestId, 0, 0, false, [], None, AwaitAccept)
            && s.rt.calls == [StartRun(requestId), OpenConn] && Idling(s.rt) && s.rt.conn == Reacted(INITIAL, es).(open := true)
            && |s.rt.futures| == 2 && s.rt.futures[0] == Done(Returned(Nothing))
  {
    hide React, Reacted;
    StaysClosed(es);
    ScheduleInvokes(watch, requestId, es);
    var origin, ms := Init(watch, Mode.Poll, requestId), Outsides(es) + [Invoke];
    ServeRuns(watch, origin, ms, Run(watch, origin, ms), 0);
    RunThen(watch, origin, ms + SERVE, Runtime(Submit(OpenConn)));
    var next := ms + SERVE + [Runtime(Submit(OpenConn))];
    ServeRuns(watch, origin, next, Run(watch, origin, next), 1);
  }

  /** The schedule: others do `es`; invoke on the closed connection, serve, open, serve, go on to the read. */
  function ReadSchedule(es: seq<Event>): seq<Move> {
    Outsides(es) + [Invoke] + SERVE + [Runtime(Submit(OpenConn))] + SERVE + [Resume]
  }

  /** The status others left is on its way to being read. */
  lemma ScheduleReads(watch: seq<Field>, requestId: nat, es: seq<Event>)
    ensures var s := Run(watch, Init(watch, Mode.Poll, requestId), ReadSchedule(es));
            && s.op == Op(Mode.Poll, requestId, 0, 0, false, [], None, AwaitRead(2))
            && s.rt.calls == [StartRun(requestId), OpenConn, ReadStatus] && Ready(s.rt, 2) && !s.rt.closed
            && s.rt.conn == Reacted(INITIAL, es).(open := true) && s.rt.futures[0] == Done(Returned(Nothing))
  {
    hide React, Reacted, Outsides, SERVE;
    ScheduleOpens(watch, requestId, es);
    RunThen(watch, Init(watch, Mode.Poll, requestId),
            Outsides(es) + [Invoke] + SERVE + [Runtime(Submit(OpenConn))] + SERVE, Resume);
    hide Run;
  }

  /**
   It does happen: whatever others have done to the device before, an operation invoked on a closed
   connection that is opened right after it reads the status they left, and reports their run as its own when
   that has ended under its id.
   */
  lemma StaleRunReported(watch: seq<Field>, requestId: nat, es: seq<Event>) returns (s: Sys)
    requires !StatusVerdict(Reacted(INITIAL, es).site.plc.status, requestId).StillWaiting?
    ensures Reached(watch, Mode.Poll, requestId, s) && UnstartedOp(s)
    ensures s.rt.conn.site == Reacted(INITIAL, es).site
    ensures var st := Reacted(INITIAL, es).site.plc.status;
            s.op.wait == Over(if StatusVerdict(st, requestId).Completed? then Success(2, st) else Failure(2, st))
  {
    hide React, Reacted, StatusVerdict, Outsides, SERVE, Step;
    var origin, ms := Init(watch, Mode.Poll, requestId), ReadSchedule(es);
    ScheduleReads(watch, requestId, es);
    ServeRuns(watch, origin, ms, Run(watch, origin, ms), 2);
    RunThen(watch, origin, ms + SERVE, Resume);
    s := Run(watch, origin, ms + SERVE + [Resume]);
    ReadReported(watch, Run(watch, origin, ms));
  }

  /** The read served and the operation resumed. */
  lemma ReadReported(watch: seq<Field>, s: Sys)
    requires s.op.mode.Poll? && s.op.start == 0 && s.op.wait == AwaitRead(2) && Ready(s.rt, 2) && s.rt.calls[2] == ReadStatus
    requires s.rt.conn.open && s.rt.futures[0] == Done(Returned(Nothing))
    requires !StatusVerdict(s.rt.conn.site.plc.status, s.op.requestId).StillWaiting?
    ensures var t, st := Step(watch, s.(rt := Served(watch, s.rt, 2)), Resume), s.rt.conn.site.plc.status;
            && t.rt.conn == s.rt.conn && UnstartedOp(t)
            && t.op.wait == Over(
                 if StatusVerdict(st, s.op.requestId).Completed? then Success(2, st) else Failure(2, st))
  {
    hide StatusVerdict;
  }

  /** The smallest case: a run begun and aborted by someone else under the id is reported as failed. */
  lemma AbortedRivalReported(watch: seq<Field>, requestId: nat) returns (s: Sys)
    ensures Reached(watch, Mode.Poll, requestId, s) && UnstartedOp(s) && s.op.wait.Over? && s.op.wait.result.Failure?
    ensures s.rt.conn.site.runs == [RunRecord(requestId, Some(FailedWith(-2)))]
  {
    var es := [RivalStart(requestId), RivalAbort];
    assert es[..1] == [RivalStart(requestId)] && es[..1][..0] == [];
    assert Reacted(INITIAL, es[..1]) == React(INITIAL, RivalStart(requestId));
    s := StaleRunReported(watch, requestId, es);
  }
}
