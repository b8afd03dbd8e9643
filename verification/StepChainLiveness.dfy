/**
 A step-chain operation does go on: what each of its moves does, and that the moves left to it, to the
 worker, to the event loop and to the notifications come to an end.
 */
module StepChainLiveness {
  import opened Wrappers
  import opened SerialRuntime
  import opened SerialTheorems
  import opened StepChainPlc
  import opened StepChainStatus
  import opened StepChainDevice
  import opened StepChainProtocol
  import opened StepChainTheorems
  import opened StepChainProgress
  import opened StepChainLeaks

  // --- what the moves do ---------------------------------------------------------------------------

  /** One call more, queued last with a pending future, and nothing else of the runtime changed. */
  ghost predicate Called(a: Rt, b: Rt, job: Job) {
    && b.calls == a.calls + [job] && b.futures == a.futures + [Pending] && b.queue == a.queue + [Call(|a.calls|)]
    && b.fate == a.fate + [Open] && b.worker == a.worker && b.callbacks == a.callbacks && b.closed == a.closed
    && b.phase == a.phase && b.conn == a.conn && b.taken == a.taken && b.log == a.log
  }

  /** Invoking on an open connection submits the start, in notify mode behind the registration, and awaits it. */
  lemma InvokeSubmits(watch: seq<Field>, s: Sys)
    requires s.op.wait.NotInvoked? && !s.rt.closed
    ensures var t, n := Step(watch, s, Invoke), |s.rt.calls|;
            && t.posted == s.posted && t.events == s.events
            && (s.op.mode.Poll? ==>
                  Called(s.rt, t.rt, StartRun(s.op.requestId)) && t.op == s.op.(start := n, wait := AwaitAccept))
            && (s.op.mode.Notified? ==>
                  && t.rt.calls == s.rt.calls + [Register, StartRun(s.op.requestId)]
                  && t.rt.futures == s.rt.futures + [Pending, Pending]
                  && t.rt.queue == s.rt.queue + [Call(n), Call(n + 1)]
                  && t.op == s.op.(register := n, start := n + 1, wait := AwaitRegister))
  {
  }

  /** A sleeping operation woken, by its poll interval or by an event, reads the status again. */
  lemma WakeReads(watch: seq<Field>, s: Sys)
    requires s.op.wait.Idle? && !s.rt.closed && (s.op.mode.Notified? ==> s.events > 0)
    ensures var t := Step(watch, s, Wake);
            && Called(s.rt, t.rt, ReadStatus) && t.op == s.op.(wait := AwaitRead(|s.rt.calls|))
            && t.posted == s.posted && t.events == (if s.op.mode.Notified? then s.events - 1 else s.events)
  {
  }

  /** The operation leaves its loop with this result: at once, or after the deletion it submits. */
  ghost predicate Leaves(s: Sys, t: Sys, result: StepChainProtocol.Result) {
    if s.op.mode.Poll? || s.rt.closed then t == s.(op := s.op.(wait := Over(result)))
    else Called(s.rt, t.rt, Unregister(s.op.handles)) && t.posted == s.posted && t.events == s.events
         && t.op == s.op.(deletion := Some(|s.rt.calls|), wait := AwaitDelete(result))
  }

  /** The registration's result resumes the coroutine: with its handles, or as the failure it is. */
  lemma RegistrationHeard(watch: seq<Field>, s: Sys)
    requires s.op.wait.AwaitRegister? && s.op.register < |s.rt.futures| && !s.rt.futures[s.op.register].Pending?
    ensures var t, f := Step(watch, s, Resume), s.rt.futures[s.op.register];
            && t.rt == s.rt
            && (forall hs | f == Done(Returned(Registered(hs))) ::
                  t.op == s.op.(registered := true, handles := hs, wait := AwaitAccept))
            && (f.Done? && f.outcome.Raised? ==> t.op == s.op.(wait := Over(Broken)))
            && (f.Cancelled? ==> t.op == s.op.(wait := Over(OpCancelled)))
  {
  }

  /** The start's answer: FALSE is a rejection, TRUE and None lead to the first status read. */
  lemma AnswerHeard(watch: seq<Field>, s: Sys)
    requires s.op.wait.AwaitAccept? && s.op.start < |s.rt.futures| && !s.rt.futures[s.op.start].Pending?
    ensures var t, f := Step(watch, s, Resume), s.rt.futures[s.op.start];
            && (f == Done(Returned(Accepted(false))) ==> Leaves(s, t, Rejected))
            && (f == Done(Returned(Accepted(true))) || f == Done(Returned(Nothing)) ==>
                  if s.rt.closed then Leaves(s, t, Broken)
                  else Called(s.rt, t.rt, ReadStatus) && t.op == s.op.(wait := AwaitRead(|s.rt.calls|)))
            && (f.Done? && f.outcome.Raised? ==> Leaves(s, t, Broken))
            && (f.Cancelled? ==> Leaves(s, t, OpCancelled))
  {
  }

  /** A status read: decided as the status says, or asleep until the next one. */
  lemma StatusHeard(watch: seq<Field>, s: Sys)
    requires s.op.wait.AwaitRead? && s.op.wait.read < |s.rt.futures| && !s.rt.futures[s.op.wait.read].Pending?
    ensures var t, i := Step(watch, s, Resume), s.op.wait.read;
            var f := s.rt.futures[i];
            && (forall st | f == Done(Returned(Read(st))) ::
                  && (st.requestId != s.op.requestId || (!st.error && !st.done) ==> t == s.(op := s.op.(wait := Idle(i, st))))
                  && (st.requestId == s.op.requestId && st.error ==> Leaves(s, t, Failure(i, st)))
                  && (st.requestId == s.op.requestId && !st.error && st.done ==> Leaves(s, t, Success(i, st))))
            && (f.Done? && f.outcome.Raised? ==> Leaves(s, t, Broken))
            && (f.Cancelled? ==> Leaves(s, t, OpCancelled))
  {
  }

  /** The deletion settled, the operation is over with the result it had. */
  lemma DeletionHeard(watch: seq<Field>, s: Sys)
    requires s.op.wait.AwaitDelete? && s.op.deletion.Some? && s.op.deletion.value < |s.rt.futures|
    requires !s.rt.futures[s.op.deletion.value].Pending?
    ensures Step(watch, s, Resume) == s.(op := s.op.(wait := Over(s.op.wait.result)))
  {
  }

  /** A timeout ends the sleep, and nothing else. */
  lemma TimeoutLeaves(watch: seq<Field>, s: Sys)
    ensures if s.op.wait.Idle? then Leaves(s, Step(watch, s, Timeout), TimedOut) else Step(watch, s, Timeout) == s
  {
  }

  /** Cancelling the task cancels the future it awaits and leaves the loop, or ends the operation outside it. */
  lemma CancelLeaves(watch: seq<Field>, s: Sys)
    requires SysInv(watch, s)
    ensures var t := Step(watch, s, CancelTask);
            && (s.op.wait.NotInvoked? || s.op.wait.Over? ==> t == s)
            && (s.op.wait.Idle? ==> Leaves(s, t, OpCancelled))
            && (s.op.wait.AwaitRegister? || s.op.wait.AwaitDelete? ==>
                  t == s.(rt := Next(DeviceSemantics(watch), s.rt, Cancel(Awaited(s.op).value)),
                          op := s.op.(wait := Over(OpCancelled))))
            && (s.op.wait.AwaitAccept? || s.op.wait.AwaitRead? ==>
                  Leaves(s.(rt := Next(DeviceSemantics(watch), s.rt, Cancel(Awaited(s.op).value))), t, OpCancelled))
  {
    hide Inv, DeviceInv, HandleInv, WakeInv, FuturesInv;
  }

  /** A notification of the operation is taken from the device and posted; a posted one is queued unless 64 are. */
  lemma NotificationsArrive(watch: seq<Field>, s: Sys, h: nat)
    requires exists k :: 0 <= k < |Granted(s.rt, s.op)| && Granted(s.rt, s.op)[k].0 == h
    requires h in s.rt.conn.pending
    ensures var t := Step(watch, s, DeliverNotification(h));
            && t.posted == s.posted + 1 && t.events == s.events && t.op == s.op
            && t.rt == s.rt.(conn := t.rt.conn, log := s.rt.log + [Env(Notify(h))])
            && t.rt.conn == s.rt.conn.(pending := s.rt.conn.pending - multiset{h})
    ensures s.posted > 0 ==>
              Step(watch, s, EnqueueEvent) ==
              s.(posted := s.posted - 1, events := if s.events < 64 then s.events + 1 else s.events)
  {
  }

  // --- the moves left come to an end ---------------------------------------------------------------

  /** Calls below `n` that have not been looked at yet and may change the device: all but status reads. */
  function OpenCalls(fate: seq<Fate>, calls: seq<Job>, n: nat): nat
    requires n <= |fate| && n <= |calls|
  {
    if n == 0 then 0 else OpenCalls(fate, calls, n - 1) + (if fate[n - 1].Open? && calls[n - 1] != ReadStatus then 1 else 0)
  }

  /** How many notifications of the handles are still to be delivered. */
  function DueCount(pending: multiset<nat>, hs: Handles): nat {
    if hs == [] then 0 else pending[hs[0].0] + DueCount(pending, hs[1..])
  }

  /** Calls that may still change the device: those queued or in hand, and the deletion to come. */
  function Outer(s: Sys): nat
    requires |s.rt.fate| == |s.rt.calls|
  {
    OpenCalls(s.rt.fate, s.rt.calls, |s.rt.calls|) + (if s.op.wait.AwaitRegister? || InLoop(s.op) then 1 else 0)
  }

  predicate InLoop(op: Op) {
    op.wait.AwaitAccept? || op.wait.AwaitRead? || op.wait.Idle?
  }

  function Stage(w: Wait): nat {
    match w
    case AwaitRegister => 15
    case AwaitAccept => 14
    case AwaitRead(_) => 7
    case AwaitDelete(_) => 1
    case _ => 0
  }

  /** With those fixed: the worker's and the loop's work, notifications on their way, and the operation's stage. */
  function Inner(s: Sys): nat {
    WorkLeft(s.rt) + 15 * DueCount(s.rt.conn.pending, Granted(s.rt, s.op)) + 14 * s.posted + 13 * s.events + Stage(s.op.wait)
  }

  ghost predicate Lower(t: Sys, s: Sys)
    requires |s.rt.fate| == |s.rt.calls| && |t.rt.fate| == |t.rt.calls|
  {
    Outer(t) < Outer(s) || (Outer(t) == Outer(s) && Inner(t) < Inner(s))
  }

  lemma {:induction false} OpenCallsSame(a: seq<Fate>, b: seq<Fate>, c: seq<Job>, d: seq<Job>, n: nat)
    requires n <= |a| && n <= |b| && n <= |c| && n <= |d|
    requires forall i | 0 <= i < n :: c[i] == d[i] && (b[i].Open? ==> a[i].Open?)
    ensures OpenCalls(b, d, n) <= OpenCalls(a, c, n)
    ensures (forall i | 0 <= i < n :: a[i].Open? ==> b[i].Open?) ==> OpenCalls(b, d, n) == OpenCalls(a, c, n)
    ensures (exists i :: 0 <= i < n && a[i].Open? && !b[i].Open? && c[i] != ReadStatus) ==> OpenCalls(b, d, n) < OpenCalls(a, c, n)
  {
    if n > 0 {
      OpenCallsSame(a, b, c, d, n - 1);
    }
  }

  lemma {:induction false} DueLess(pending: multiset<nat>, hs: Handles, h: nat)
    requires h in pending
    ensures DueCount(pending - multiset{h}, hs) <= DueCount(pending, hs)
    ensures (exists k :: 0 <= k < |hs| && hs[k].0 == h) ==> DueCount(pending - multiset{h}, hs) < DueCount(pending, hs)
  {
    if hs != [] {
      DueLess(pending, hs[1..], h);
      if exists k :: 0 <= k < |hs| && hs[k].0 == h {
        var k :| 0 <= k < |hs| && hs[k].0 == h;
        if k > 0 { assert hs[1..][k - 1].0 == h; }
      }
    }
  }

  /** A call more: one open call more unless it is a status read. */
  lemma CalledCounts(a: Rt, b: Rt, job: Job)
    requires Called(a, b, job) && |a.fate| == |a.calls|
    ensures |b.fate| == |b.calls| == |a.calls| + 1
    ensures OpenCalls(b.fate, b.calls, |b.calls|) == OpenCalls(a.fate, a.calls, |a.calls|) + (if job == ReadStatus then 0 else 1)
    ensures WorkLeft(b) == WorkLeft(a) + 5
  {
    OpenCallsSame(a.fate, b.fate, a.calls, b.calls, |a.calls|);
  }

  lemma FatesCount(watch: seq<Field>, s: Sys)
    requires SysInv(watch, s)
    ensures |s.rt.fate| == |s.rt.calls| == |s.rt.futures|
  {
    InHandFacts(watch, s.rt);
  }

  lemma WorksQuietly(watch: seq<Field>, s: Sys, l: Label<Job, Event>)
    requires SysInv(watch, s) && Works(s.rt, l) && !l.Execute?
    ensures var t := Next(DeviceSemantics(watch), s.rt, l);
            && Quiet(s.rt, t) && t.calls == s.rt.calls && |t.fate| == |s.rt.fate|
            && forall i | 0 <= i < |t.fate| && t.fate[i].Open? :: s.rt.fate[i].Open?
  {
    QuietLabels(watch, s.rt, l);
    hide Inv, DeviceSemantics;
  }

  /** Everything the worker, the loop and `aclose` do. */
  lemma RuntimeLowers(watch: seq<Field>, s: Sys, l: Label<Job, Event>)
    requires SysInv(watch, s) && Works(s.rt, l)
    ensures |s.rt.fate| == |s.rt.calls| && Step(watch, s, Runtime(l)) == s.(rt := Next(DeviceSemantics(watch), s.rt, l))
    ensures var t := Step(watch, s, Runtime(l)); |t.rt.fate| == |t.rt.calls| && Lower(t, s)
  {
    InHandFacts(watch, s.rt);
    WorkDecreases(DeviceSemantics(watch), s.rt, l);
    var rt := Next(DeviceSemantics(watch), s.rt, l);
    if l.Execute? {
      ExecuteLowers(watch, s);
    } else {
      WorksQuietly(watch, s, l);
      hide Inv, DeviceInv, HandleInv, WakeInv, Next, WorkLeft;
      QuietGrant(s.rt, rt, s.op);
      OpenCallsSame(s.rt.fate, rt.fate, s.rt.calls, rt.calls, |rt.calls|);
    }
  }

  lemma ExecuteLowers(watch: seq<Field>, s: Sys)
    requires SysInv(watch, s) && s.rt.worker.Running? && |s.rt.fate| == |s.rt.calls|
    requires WorkLeft(WorkerExecute(DeviceSemantics(watch), s.rt)) < WorkLeft(s.rt)
    ensures var t := s.(rt := WorkerExecute(DeviceSemantics(watch), s.rt)); |t.rt.fate| == |t.rt.calls| && Lower(t, s)
  {
    var rt, i := WorkerExecute(DeviceSemantics(watch), s.rt), s.rt.worker.id;
    ExecuteAdvances(watch, s.rt);
    FatesBounded(watch, s.rt);
    hide Inv, DeviceInv, HandleInv, WakeInv, WorkerExecute, WorkLeft;
    OpenCallsSame(s.rt.fate, rt.fate, s.rt.calls, rt.calls, |rt.calls|);
    if s.rt.calls[i] == ReadStatus {
      AdvanceGrant(s.rt, rt, s.op, Some(i));
    }
  }

  lemma GrantSame(a: Rt, b: Rt, job: Job, op: Op, op': Op)
    requires Called(a, b, job) && op'.register == op.register && op'.mode == op.mode
    requires op'.wait.NotInvoked? == op.wait.NotInvoked?
    ensures Granted(b, op') == Granted(a, op)
  {
  }

  /** Leaving the loop from an answer or a read. */
  lemma LeavingLowers(s: Sys, t: Sys, result: StepChainProtocol.Result)
    requires (s.op.wait.AwaitAccept? || s.op.wait.AwaitRead?) && Leaves(s, t, result)
    requires |s.rt.fate| == |s.rt.calls|
    ensures |t.rt.fate| == |t.rt.calls| && Lower(t, s)
  {
    if s.op.mode.Notified? && !s.rt.closed {
      CalledCounts(s.rt, t.rt, Unregister(s.op.handles));
      GrantSame(s.rt, t.rt, Unregister(s.op.handles), s.op, t.op);
    }
  }

  /** Submitting a status read, from an accepted start or woken by an event. */
  lemma ReadingLowers(s: Sys, t: Sys)
    requires |s.rt.fate| == |s.rt.calls| && Called(s.rt, t.rt, ReadStatus) && t.op == s.op.(wait := AwaitRead(|s.rt.calls|))
    requires t.posted == s.posted
    requires (s.op.wait.AwaitAccept? && t.events == s.events) || (s.op.wait.Idle? && t.events < s.events)
    ensures |t.rt.fate| == |t.rt.calls| && Lower(t, s)
  {
    CalledCounts(s.rt, t.rt, ReadStatus);
    GrantSame(s.rt, t.rt, ReadStatus, s.op, t.op);
  }

  /** A move that only takes the operation to a later stage. */
  lemma StageLowers(s: Sys, op: Op)
    requires |s.rt.fate| == |s.rt.calls| && op.register == s.op.register && op.mode == s.op.mode
    requires !s.op.wait.NotInvoked? && !op.wait.NotInvoked? && Stage(op.wait) < Stage(s.op.wait)
    requires op.wait.AwaitRegister? || InLoop(op) ==> s.op.wait.AwaitRegister? || InLoop(s.op)
    ensures Lower(s.(op := op), s)
  {
    assert Granted(s.rt, op) == Granted(s.rt, s.op);
  }

  lemma ResumeLowers(watch: seq<Field>, s: Sys)
    requires SysInv(watch, s) && Advances(s, Resume)
    ensures var t := Step(watch, s, Resume); |s.rt.fate| == |s.rt.calls| && |t.rt.fate| == |t.rt.calls| && Lower(t, s)
  {
    InHandFacts(watch, s.rt);
    var t, f := Step(watch, s, Resume), s.rt.futures[Awaited(s.op).value];
    match s.op.wait
    case AwaitRegister => StageLowers(s, t.op);
    case AwaitAccept =>
      AnswerLowers(watch, s);
    case AwaitRead(i) => StatusLowers(watch, s);
    case AwaitDelete(_) => StageLowers(s, t.op);
    case _ =>
  }

  lemma AnswerLowers(watch: seq<Field>, s: Sys)
    requires Advances(s, Resume) && s.op.wait.AwaitAccept? && |s.rt.fate| == |s.rt.calls|
    ensures var t := Step(watch, s, Resume); |t.rt.fate| == |t.rt.calls| && Lower(t, s)
  {
    var t, f := Step(watch, s, Resume), s.rt.futures[s.op.start];
    if f.Cancelled? {
      assert Leaves(s, t, OpCancelled);
      hide Leaves, Lower, Step;
      LeavingLowers(s, t, OpCancelled);
    } else if f.outcome.Raised? || (s.rt.closed && f.outcome.value != Accepted(false)) {
      assert Leaves(s, t, Broken);
      hide Leaves, Lower, Step;
      LeavingLowers(s, t, Broken);
    } else if f.outcome.value == Accepted(false) {
      assert Leaves(s, t, Rejected);
      hide Leaves, Lower, Step;
      LeavingLowers(s, t, Rejected);
    } else {
      assert Called(s.rt, t.rt, ReadStatus) && t.op == s.op.(wait := AwaitRead(|s.rt.calls|));
      hide Called, Lower, Step;
      ReadingLowers(s, t);
    }
  }

  lemma StatusLowers(watch: seq<Field>, s: Sys)
    requires Advances(s, Resume) && s.op.wait.AwaitRead? && |s.rt.fate| == |s.rt.calls|
    ensures var t := Step(watch, s, Resume); |t.rt.fate| == |t.rt.calls| && Lower(t, s)
  {
    hide StatusVerdict;
    var t := Step(watch, s, Resume);
    if t.op.wait.Idle? {
      StageLowers(s, t.op);
    } else {
      var r := t.op.wait.result;
      assert Leaves(s, t, r);
      hide Leaves, Lower, Step;
      LeavingLowers(s, t, r);
    }
  }

  lemma WakeLowers(watch: seq<Field>, s: Sys)
    requires SysInv(watch, s) && s.op.mode.Notified? && Advances(s, Wake)
    ensures var t := Step(watch, s, Wake); |s.rt.fate| == |s.rt.calls| && |t.rt.fate| == |t.rt.calls| && Lower(t, s)
  {
    FatesCount(watch, s);
    hide SysInv;
    if !s.rt.closed {
      WokenLowers(watch, s);
    }
  }

  lemma WokenLowers(watch: seq<Field>, s: Sys)
    requires s.op.mode.Notified? && Advances(s, Wake) && !s.rt.closed && |s.rt.fate| == |s.rt.calls|
    ensures var t := Step(watch, s, Wake); |t.rt.fate| == |t.rt.calls| && Lower(t, s)
  {
    hide Step, Called, Lower;
    WakeReads(watch, s);
    ReadingLowers(s, Step(watch, s, Wake));
  }

  lemma ArrivalLowers(watch: seq<Field>, s: Sys, h: nat)
    requires SysInv(watch, s) && Advances(s, DeliverNotification(h))
    ensures var t := Step(watch, s, DeliverNotification(h));
            |s.rt.fate| == |s.rt.calls| && |t.rt.fate| == |t.rt.calls| && Lower(t, s)
  {
    InHandFacts(watch, s.rt);
    NotificationsArrive(watch, s, h);
    FatesBounded(watch, s.rt);
    hide SysInv, Step;
    var t := Step(watch, s, DeliverNotification(h));
    assert Granted(t.rt, t.op) == Granted(s.rt, s.op);
    DueLess(s.rt.conn.pending, Granted(s.rt, s.op), h);
  }

  lemma QueueingLowers(watch: seq<Field>, s: Sys)
    requires SysInv(watch, s) && Advances(s, EnqueueEvent)
    ensures var t := Step(watch, s, EnqueueEvent);
            |s.rt.fate| == |s.rt.calls| && |t.rt.fate| == |t.rt.calls| && Lower(t, s)
  {
    InHandFacts(watch, s.rt);
  }

  /** A move that is left, other than the end of a poll's sleep. */
  ghost predicate Goes(s: Sys, m: Move) {
    Advances(s, m) && (s.op.mode.Notified? || m != Wake)
  }

  /**
   Every such move strictly lowers the measure: however they interleave, without new calls, device events,
   timeouts and cancellations only finitely many are made, in poll mode between two polls.
   */
  lemma AdvanceLowers(watch: seq<Field>, s: Sys, m: Move)
    requires SysInv(watch, s) && Goes(s, m)
    ensures |s.rt.fate| == |s.rt.calls| && |Step(watch, s, m).rt.fate| == |Step(watch, s, m).rt.calls|
    ensures Lower(Step(watch, s, m), s)
  {
    match m
    case Runtime(l) => RuntimeLowers(watch, s, l);
    case DeliverNotification(h) => ArrivalLowers(watch, s, h);
    case EnqueueEvent => QueueingLowers(watch, s);
    case Resume => ResumeLowers(watch, s);
    case Wake => WakeLowers(watch, s);
  }

  // --- and then the operation is over --------------------------------------------------------------

  /** Every move of the sequence is one that was left when it was made. */
  ghost predicate AllAdvance(watch: seq<Field>, s: Sys, ms: seq<Move>)
    decreases |ms|
  {
    ms == [] || (AllAdvance(watch, s, ms[..|ms| - 1]) && Goes(Run(watch, s, ms[..|ms| - 1]), ms[|ms| - 1]))
  }

  lemma {:induction false} RunConcat(watch: seq<Field>, s: Sys, a: seq<Move>, b: seq<Move>)
    ensures Run(watch, s, a + b) == Run(watch, Run(watch, s, a), b)
    ensures AllAdvance(watch, s, a) && AllAdvance(watch, Run(watch, s, a), b) ==> AllAdvance(watch, s, a + b)
    decreases |b|
  {
    hide Step, Goes;
    if b == [] {
      assert a + b == a;
    } else {
      RunConcat(watch, s, a, b[..|b| - 1]);
      assert (a + b)[..|a + b| - 1] == a + b[..|b| - 1];
    }
  }

  lemma RunOne(watch: seq<Field>, s: Sys, m: Move)
    ensures Run(watch, s, [m]) == Step(watch, s, m) && (Goes(s, m) ==> AllAdvance(watch, s, [m]))
  {
    hide Step, Goes;
    assert [m][..0] == [];
  }

  /** A state in which no move is left is reached by the moves that are left. */
  lemma {:induction false} RunsDry(watch: seq<Field>, s: Sys) returns (ms: seq<Move>)
    requires SysInv(watch, s) && |s.rt.fate| == |s.rt.calls|
    ensures AllAdvance(watch, s, ms) && forall m: Move :: !Goes(Run(watch, s, ms), m)
    decreases Outer(s), Inner(s)
  {
    hide SysInv, Step, Goes;
    if m: Move :| Goes(s, m) {
      var t := Step(watch, s, m);
      AdvanceLowers(watch, s, m);
      StepKeeps(watch, s, m);
      ModeKeptStep(watch, s, m);
      var rest := RunsDry(watch, t);
      RunOne(watch, s, m);
      RunConcat(watch, s, [m], rest);
      ms := [m] + rest;
    } else {
      ms := [];
    }
  }

  /** No call that is still to run starts a run or closes the connection. */
  ghost predicate Harmless(rt: Rt) {
    && |rt.fate| == |rt.calls|
    && forall i | 0 <= i < |rt.fate| && rt.fate[i].Open? :: !rt.calls[i].StartRun? && rt.calls[i] != CloseConn
  }

  /** What the operation awaits has not been cancelled, and it has not left its loop but with a verdict. */
  ghost predicate Undisturbed(op: Op, futures: seq<Future<Val>>) {
    match op.wait
    case AwaitRegister => NotCancelled(futures, op.register) && NotCancelled(futures, op.start)
    case AwaitAccept => NotCancelled(futures, op.start)
    case AwaitRead(i) => NotCancelled(futures, i)
    case Idle(_, _) => true
    case AwaitDelete(r) => r.Success? || r.Failure?
    case Over(r) => r.Success? || r.Failure?
    case NotInvoked => false
  }

  /** The log holds the accepted start at `p`, and no other start and no closing behind it. */
  ghost predicate StartedAt(s: Sys, p: nat) {
    && p < |s.rt.log| && s.rt.log[p] == Ran(s.op.start, StartRun(s.op.requestId), Returned(Accepted(true)))
    && NoStarts(s.rt.log, p + 1, |s.rt.log|)
    && forall j | p <= j < |s.rt.log| && s.rt.log[j].Ran? :: s.rt.log[j].call != CloseConn
  }

  /** Nothing stands in the operation's way: accepted, its connection open, nobody else starting, nothing cancelled. */
  ghost predicate OnCourse(s: Sys, p: nat) {
    && !s.rt.closed && (s.op.mode.Notified? ==> HasGrant(s.rt, s.op) && StayedOpen(s.rt, s.op))
    && StartedAt(s, p) && Harmless(s.rt) && Undisturbed(s.op, s.rt.futures)
  }

  // --- staying on course ---------------------------------------------------------------------------

  /** Since an accepted start the connection has been open. */
  lemma {:induction false} OpenSince(watch: seq<Field>, log: Log, p: nat, q: nat)
    requires Truthful(DeviceSemantics(watch), log) && p < q <= |log|
    requires log[p].Ran? && log[p].call.StartRun? && log[p].outcome == Returned(Accepted(true))
    requires forall j | p <= j < q && log[j].Ran? :: log[j].call != CloseConn
    ensures DeviceAt(watch, log, q).open
    decreases q
  {
    hide *;
    DeviceSound(watch, log, q - 1);
    DeviceStep(watch, log, q - 1);
    if q == p + 1 {
      AcceptedMeans(watch, log, p, log[p].call.requestId);
      AcceptsOpen(watch, DeviceAt(watch, log, p), log[p].call.requestId);
    } else {
      OpenSince(watch, log, p, q - 1);
      EntryOpens(watch, DeviceAt(watch, log, q - 1), log[q - 1]);
    }
  }

  lemma AcceptsOpen(watch: seq<Field>, d: Device, requestId: nat)
    requires Exec(watch, d, StartRun(requestId)).1 == Returned(Accepted(true))
    ensures Exec(watch, d, StartRun(requestId)).0.open
  {
  }

  lemma EntryOpens(watch: seq<Field>, d: Device, e: Entry<Job, Val, Event>)
    requires DeviceInv(d) && d.open && (e.Ran? ==> e.call != CloseConn)
    ensures match e case Ran(_, job, _) => Exec(watch, d, job).0.open case Env(ev) => React(d, ev).open
  {
    match e
    case Ran(_, job, _) => ExecOpen(watch, d, job);
    case Env(_) =>
  }

  /** The future of the start, once settled, holds the acceptance the log holds. */
  lemma AcceptanceHeld(watch: seq<Field>, s: Sys, p: nat)
    requires SysInv(watch, s) && StartedAt(s, p)
    requires s.op.start < |s.rt.futures| && s.rt.futures[s.op.start].Done?
    ensures s.rt.futures[s.op.start] == Done(Returned(Accepted(true)))
  {
    var p' := FutureHoldsOwnResult(DeviceSemantics(watch), s.rt, s.op.start);
    assert s.rt.fate[s.op.start] == Executed(p) && s.rt.fate[s.op.start] == Executed(p');
  }

  /** The future of a status read, once settled, holds a status: the connection has been open since the registration. */
  lemma ReadHeld(watch: seq<Field>, s: Sys, p: nat)
    requires SysInv(watch, s) && StartedAt(s, p)
    requires s.op.wait.AwaitRead? && s.op.wait.read < |s.rt.futures| && s.rt.futures[s.op.wait.read].Done?
    ensures s.rt.futures[s.op.wait.read].outcome.Returned? && s.rt.futures[s.op.wait.read].outcome.value.Read?
  {
    var i := s.op.wait.read;
    var q := FutureHoldsOwnResult(DeviceSemantics(watch), s.rt, i);
    assert s.rt.log[p].id < i && p < q;
    assert s.rt.log[q].call == ReadStatus;
    OpenSince(watch, s.rt.log, p, q);
  }

  // each kind of move

  lemma RuntimeOnCourse(watch: seq<Field>, s: Sys, p: nat, l: Label<Job, Event>)
    requires SysInv(watch, s) && OnCourse(s, p) && Works(s.rt, l)
    ensures OnCourse(s.(rt := Next(DeviceSemantics(watch), s.rt, l)), p)
  {
    WorksHarmlessly(watch, s, l);
    CourseFutures(watch, s, l);
    hide SysInv, Next, HasGrant, StayedOpen, StartedAt, Harmless, Undisturbed, Works;
    CourseLog(s, p, Next(DeviceSemantics(watch), s.rt, l));
  }

  lemma WorksHarmlessly(watch: seq<Field>, s: Sys, l: Label<Job, Event>)
    requires SysInv(watch, s) && Harmless(s.rt) && Works(s.rt, l)
    ensures var rt := Next(DeviceSemantics(watch), s.rt, l);
            && Harmless(rt) && rt.closed == s.rt.closed && |s.rt.fate| <= |rt.fate| && s.rt.log <= rt.log
            && (forall i | 0 <= i < |s.rt.fate| && !s.rt.fate[i].Open? :: rt.fate[i] == s.rt.fate[i])
            && (forall j | |s.rt.log| <= j < |rt.log| :: !IsStart(rt.log[j]) && (rt.log[j].Ran? ==> rt.log[j].call != CloseConn))
  {
    InHandFacts(watch, s.rt);
    FatesStay(watch, s.rt, l);
    if l.Execute? {
      ExecuteAdvances(watch, s.rt);
    } else {
      WorksQuietly(watch, s, l);
    }
    hide Inv, DeviceInv, HandleInv, WakeInv, CallsInv, FuturesInv, DeviceSemantics;
  }

  /** What a step that adds at most one harmless entry to the log keeps. */
  lemma CourseLog(s: Sys, p: nat, rt: Rt)
    requires StartedAt(s, p) && |s.rt.fate| <= |rt.fate| && s.rt.log <= rt.log
    requires forall i | 0 <= i < |s.rt.fate| && !s.rt.fate[i].Open? :: rt.fate[i] == s.rt.fate[i]
    requires forall j | |s.rt.log| <= j < |rt.log| :: !IsStart(rt.log[j]) && (rt.log[j].Ran? ==> rt.log[j].call != CloseConn)
    ensures StartedAt(s.(rt := rt), p)
    ensures HasGrant(s.rt, s.op) && StayedOpen(s.rt, s.op) ==> HasGrant(rt, s.op) && StayedOpen(rt, s.op)
  {
  }

  /** No working step cancels a future the operation awaits. */
  lemma CourseFutures(watch: seq<Field>, s: Sys, l: Label<Job, Event>)
    requires SysInv(watch, s) && Undisturbed(s.op, s.rt.futures) && Works(s.rt, l)
    ensures Undisturbed(s.op, Next(DeviceSemantics(watch), s.rt, l).futures)
  {
    hide DeviceInv, HandleInv, WakeInv, Inv, Next, DeviceSemantics;
    InHandFacts(watch, s.rt);
    if s.op.wait.AwaitRegister? { RuntimeKeepsFutures(watch, s.rt, l, s.op.register); }
    if s.op.wait.AwaitRegister? || s.op.wait.AwaitAccept? { RuntimeKeepsFutures(watch, s.rt, l, s.op.start); }
    if s.op.wait.AwaitRead? { RuntimeKeepsFutures(watch, s.rt, l, s.op.wait.read); }
  }

  lemma ArrivalOnCourse(watch: seq<Field>, s: Sys, p: nat, h: nat)
    requires SysInv(watch, s) && OnCourse(s, p) && Advances(s, DeliverNotification(h))
    ensures OnCourse(Step(watch, s, DeliverNotification(h)), p)
  {
    NotificationsArrive(watch, s, h);
    hide SysInv, Step, HasGrant, StayedOpen, StartedAt, Undisturbed, Granted;
    CourseLog(s, p, Step(watch, s, DeliverNotification(h)).rt);
  }

  /** The operation's own submissions: a status read, or the deletion. */
  lemma CalledOnCourse(s: Sys, p: nat, rt: Rt, op: Op, job: Job)
    requires StartedAt(s, p) && Harmless(s.rt)
    requires Called(s.rt, rt, job) && !job.StartRun? && job != CloseConn
    requires op.mode == s.op.mode && op.register == s.op.register && op.start == s.op.start && op.requestId == s.op.requestId
    requires !op.wait.NotInvoked?
    ensures StartedAt(s.(rt := rt, op := op), p) && Harmless(rt)
    ensures HasGrant(s.rt, s.op) && StayedOpen(s.rt, s.op) ==> HasGrant(rt, op) && StayedOpen(rt, op)
  {
  }

  lemma WakeOnCourse(watch: seq<Field>, s: Sys, p: nat)
    requires SysInv(watch, s) && OnCourse(s, p) && Advances(s, Wake)
    ensures OnCourse(Step(watch, s, Wake), p)
  {
    hide SysInv, Step, HasGrant, StayedOpen, Harmless;
    WakeReads(watch, s);
    FatesCount(watch, s);
    var t := Step(watch, s, Wake);
    CalledOnCourse(s, p, t.rt, t.op, ReadStatus);
    assert NotCancelled(t.rt.futures, |s.rt.calls|);
    assert t.rt.closed == s.rt.closed && t.op.wait == AwaitRead(|s.rt.calls|);
  }

  lemma LeavingOnCourse(s: Sys, p: nat, t: Sys, result: StepChainProtocol.Result)
    requires OnCourse(s, p) && Leaves(s, t, result) && (result.Success? || result.Failure?)
    ensures OnCourse(t, p)
  {
    if s.op.mode.Poll? {
      StageOnCourse(s, p, t.op);
    } else {
      CalledOnCourse(s, p, t.rt, t.op, Unregister(s.op.handles));
    }
    hide HasGrant, StayedOpen, StartedAt, Harmless;
  }

  lemma ResumeOnCourse(watch: seq<Field>, s: Sys, p: nat)
    requires SysInv(watch, s) && OnCourse(s, p) && Advances(s, Resume)
    ensures OnCourse(Step(watch, s, Resume), p)
  {
    match s.op.wait
    case AwaitRegister => RegistrationOnCourse(watch, s, p);
    case AwaitAccept => AnswerOnCourse(watch, s, p);
    case AwaitRead(_) => StatusOnCourse(watch, s, p);
    case AwaitDelete(_) => StageOnCourse(s, p, Step(watch, s, Resume).op);
    case _ =>
  }

  lemma StageOnCourse(s: Sys, p: nat, op: Op)
    requires OnCourse(s, p) && op.mode == s.op.mode && op.register == s.op.register && op.start == s.op.start
    requires op.requestId == s.op.requestId && !op.wait.NotInvoked? && Undisturbed(op, s.rt.futures)
    ensures OnCourse(s.(op := op), p)
  {
  }

  lemma RegistrationOnCourse(watch: seq<Field>, s: Sys, p: nat)
    requires SysInv(watch, s) && OnCourse(s, p) && Advances(s, Resume) && s.op.wait.AwaitRegister?
    ensures OnCourse(Step(watch, s, Resume), p)
  {
    GrantIsTold(watch, s);
    RegistrationHeard(watch, s);
    hide SysInv, Step, HasGrant, StayedOpen, StartedAt, Harmless;
    assert s.rt.futures[s.op.register] == Done(Returned(Registered(Granted(s.rt, s.op))));
    StageOnCourse(s, p, Step(watch, s, Resume).op);
  }

  lemma AnswerOnCourse(watch: seq<Field>, s: Sys, p: nat)
    requires SysInv(watch, s) && OnCourse(s, p) && Advances(s, Resume) && s.op.wait.AwaitAccept?
    ensures OnCourse(Step(watch, s, Resume), p)
  {
    hide SysInv, Step, HasGrant, StayedOpen, Harmless;
    AcceptanceHeld(watch, s, p);
    AnswerHeard(watch, s);
    FatesCount(watch, s);
    var t := Step(watch, s, Resume);
    AnswerStays(watch, s);
    CalledOnCourse(s, p, t.rt, t.op, ReadStatus);
    assert NotCancelled(t.rt.futures, |s.rt.calls|);
  }

  lemma AnswerStays(watch: seq<Field>, s: Sys)
    requires s.op.wait.AwaitAccept?
    ensures Step(watch, s, Resume).posted == s.posted && Step(watch, s, Resume).events == s.events
  {
  }

  lemma StatusOnCourse(watch: seq<Field>, s: Sys, p: nat)
    requires SysInv(watch, s) && OnCourse(s, p) && Advances(s, Resume) && s.op.wait.AwaitRead?
    ensures OnCourse(Step(watch, s, Resume), p)
  {
    ReadHeld(watch, s, p);
    StatusHeard(watch, s);
    hide SysInv, Step, HasGrant, StayedOpen, StartedAt, Harmless;
    var i, t := s.op.wait.read, Step(watch, s, Resume);
    var st := s.rt.futures[i].outcome.value.status;
    assert s.rt.futures[i] == Done(Returned(Read(st)));
    if st.requestId != s.op.requestId || (!st.error && !st.done) {
      StageOnCourse(s, p, t.op);
    } else if st.error {
      LeavingOnCourse(s, p, t, Failure(i, st));
    } else {
      LeavingOnCourse(s, p, t, Success(i, st));
    }
  }

  /** Every move that is left keeps the operation on course. */
  lemma AdvanceOnCourse(watch: seq<Field>, s: Sys, p: nat, m: Move)
    requires SysInv(watch, s) && OnCourse(s, p) && Advances(s, m)
    ensures OnCourse(Step(watch, s, m), p)
  {
    match m
    case Runtime(l) => RuntimeOnCourse(watch, s, p, l);
    case DeliverNotification(h) => ArrivalOnCourse(watch, s, p, h);
    case EnqueueEvent => QueueingOnCourse(watch, s, p);
    case Resume => ResumeOnCourse(watch, s, p);
    case Wake => WakeOnCourse(watch, s, p);
  }

  lemma QueueingOnCourse(watch: seq<Field>, s: Sys, p: nat)
    requires OnCourse(s, p)
    ensures OnCourse(Step(watch, s, EnqueueEvent), p)
  {
    hide HasGrant, StayedOpen, StartedAt, Harmless, Undisturbed;
    assert StartedAt(Step(watch, s, EnqueueEvent), p) by { QueueingKeepsLog(s, p); }
  }

  lemma QueueingKeepsLog(s: Sys, p: nat)
    requires StartedAt(s, p)
    ensures StartedAt(DoEnqueue(s), p)
  {
  }

  lemma {:induction false} RunOnCourse(watch: seq<Field>, s: Sys, p: nat, ms: seq<Move>)
    requires SysInv(watch, s) && OnCourse(s, p) && AllAdvance(watch, s, ms)
    ensures OnCourse(Run(watch, s, ms), p) && s.rt.log <= Run(watch, s, ms).rt.log
    decreases |ms|
  {
    if ms != [] {
      var front := ms[..|ms| - 1];
      RunOnCourse(watch, s, p, front);
      RunKeeps(watch, s, front);
      AdvanceOnCourse(watch, Run(watch, s, front), p, ms[|ms| - 1]);
      LogGrows(watch, Run(watch, s, front), ms[|ms| - 1]);
    }
  }

  lemma LogGrows(watch: seq<Field>, s: Sys, m: Move)
    requires SysInv(watch, s) && Advances(s, m)
    ensures s.rt.log <= Step(watch, s, m).rt.log
  {
    hide DeviceInv, CallsInv, FuturesInv, HandleInv, WakeInv, StatusVerdict;
    match m
    case Runtime(l) => RuntimeLowers(watch, s, l); FatesStay(watch, s.rt, l);
    case DeliverNotification(h) => NotificationsArrive(watch, s, h);
    case _ =>
  }

  // --- the whole ----------------------------------------------------------------------------------

  /** The run number `k` has ended, as the device has it. */
  ghost predicate HasEnded(d: Device, k: nat) {
    k < |d.site.runs| && d.site.runs[k].ending.Some?
  }

  /** Where the log goes on, ended runs are still there as they were. */
  lemma EndedStays(watch: seq<Field>, s: Sys, t: Sys, k: nat)
    requires SysInv(watch, s) && SysInv(watch, t) && s.rt.log <= t.rt.log && HasEnded(s.rt.conn, k)
    ensures HasEnded(t.rt.conn, k) && t.rt.conn.site.runs[k] == s.rt.conn.site.runs[k]
  {
    LogOf(watch, s);
    LogOf(watch, t);
    assert t.rt.log[..|s.rt.log|] == s.rt.log[..|s.rt.log|];
    RunsExtend(watch, t.rt.log, |s.rt.log|, |t.rt.log|);
  }

  /** An operation on course that has decided reports how its own run ended. */
  lemma ReportsOwnRun(watch: seq<Field>, mode: Mode, requestId: nat, s: Sys, p: nat)
    requires Reached(watch, mode, requestId, s) && OnCourse(s, p) && s.op.wait.Over?
    ensures OwnResult(watch, s, p, s.op.wait.result)
  {
    ReachedInv(watch, mode, requestId, s);
    ModeKept(watch, mode, requestId, s);
    DecidedRead(watch, s);
    AcceptanceHeld(watch, s, p);
    LogOf(watch, s);
    var log, n := s.rt.log, |s.rt.log|;
    var p', q, k, m := StepChainSound(watch, mode, requestId, s);
    SamePosition(watch, s, p, p');
    hide SysInv, Reached, DeviceAt, Truthful, HasGrant, StayedOpen, Harmless, NoStarts, EndsInTime, EndsAsForced;
    LogMoves(watch, log, p, n, requestId);
  }

  /** The result is that of the run the operation's own start began at log position `p`. */
  ghost predicate OwnResult(watch: seq<Field>, s: Sys, p: nat, result: StepChainProtocol.Result) {
    && p < |s.rt.log|
    && var runs, k := s.rt.conn.site.runs, |DeviceAt(watch, s.rt.log, p).site.runs|;
       && HasEnded(s.rt.conn, k) && |runs| == k + 1 && runs[k].id == s.op.requestId
       && (result.Success? <==> runs[k].ending.value.DoneOk?) && (result.Failure? <==> runs[k].ending.value.FailedWith?)
  }

  lemma SamePosition(watch: seq<Field>, s: Sys, p: nat, q: nat)
    requires SysInv(watch, s) && p < |s.rt.log| && q < |s.rt.log| && s.rt.log[p].Ran? && s.rt.log[q].Ran?
    requires s.rt.log[p].id == s.rt.log[q].id
    ensures p == q
  {
    assert s.rt.fate[s.rt.log[p].id] == Executed(p);
  }

  lemma OwnRunEnded(watch: seq<Field>, s: Sys, p: nat)
    requires SysInv(watch, s) && StartedAt(s, p) && EndedOrDue(watch, s, p)
    ensures HasEnded(s.rt.conn, |DeviceAt(watch, s.rt.log, p).site.runs|)
  {
    LogOf(watch, s);
    hide SysInv, DeviceAt, Truthful, NoStarts;
    if PositiveTicks(s.rt.log, p + 1, |s.rt.log|) >= 14009 {
      RunEndsInLog(watch, s.rt.log, p, |s.rt.log|, s.op.requestId);
    }
  }

  /** The own run has ended, or has had its cycles. */
  ghost predicate EndedOrDue(watch: seq<Field>, s: Sys, p: nat) {
    && p < |s.rt.log|
    && (HasEnded(s.rt.conn, |DeviceAt(watch, s.rt.log, p).site.runs|) || PositiveTicks(s.rt.log, p + 1, |s.rt.log|) >= 14009)
  }

  lemma SamePast(watch: seq<Field>, a: Log, b: Log, p: nat)
    requires a <= b && p <= |a|
    ensures DeviceAt(watch, a, p) == DeviceAt(watch, b, p)
  {
    assert a[..p] == b[..p];
  }

  lemma ReachedFurther(watch: seq<Field>, mode: Mode, requestId: nat, s: Sys, ms: seq<Move>)
    requires Reached(watch, mode, requestId, s)
    ensures Reached(watch, mode, requestId, Run(watch, s, ms))
  {
    var before :| s == Run(watch, Init(watch, mode, requestId), before);
    RunConcat(watch, Init(watch, mode, requestId), before, ms);
  }

  /** What holds at the end of a sequence of moves that are left, from a state on course whose own run has ended. */
  lemma Onward(watch: seq<Field>, mode: Mode, requestId: nat, s: Sys, p: nat, ms: seq<Move>)
    requires Reached(watch, mode, requestId, s) && OnCourse(s, p) && EndedOrDue(watch, s, p) && AllAdvance(watch, s, ms)
    ensures var t := Run(watch, s, ms);
            && Reached(watch, mode, requestId, t) && OnCourse(t, p) && EndedOrDue(watch, t, p) && s.rt.log <= t.rt.log
            && t.op.mode == mode && s.op.requestId == t.op.requestId == requestId
            && HasEnded(s.rt.conn, |DeviceAt(watch, s.rt.log, p).site.runs|)
  {
    ReachedInv(watch, mode, requestId, s);
    ReachedFurther(watch, mode, requestId, s, ms);
    RunKeeps(watch, s, ms);
    RunOnCourse(watch, s, p, ms);
    OwnRunEnded(watch, s, p);
    var t := Run(watch, s, ms);
    EndedStays(watch, s, t, |DeviceAt(watch, s.rt.log, p).site.runs|);
    SamePast(watch, s.rt.log, t.rt.log, p);
    ModeKept(watch, mode, requestId, s);
    ModeKept(watch, mode, requestId, t);
  }

  /**
   Progress of the notification backend, joined to the end. Take any reached state of an operation on course
   whose own run has ended. The moves that are left to the worker, the loop, the notifications and the
   operation, in whatever order they are made, lead to a state in which none is left; there the operation is
   over, and has reported how its own run ended.
   */
  lemma OperationSettles(watch: seq<Field>, requestId: nat, s: Sys, p: nat, ms: seq<Move>)
    requires Reached(watch, Notified, requestId, s) && OnCourse(s, p) && EndedOrDue(watch, s, p) && CoversTest(watch)
    requires AllAdvance(watch, s, ms) && forall m: Move :: !Goes(Run(watch, s, ms), m)
    ensures var t := Run(watch, s, ms); t.op.wait.Over? && OwnResult(watch, t, p, t.op.wait.result)
  {
    var t := Run(watch, s, ms);
    Onward(watch, Notified, requestId, s, p, ms);
    hide Reached, AllAdvance, Run, DeviceAt, HasGrant, NoStarts, Harmless, Advances, Undisturbed;
    assert forall m: Move :: !Advances(t, m) by {
      forall m: Move ensures !Advances(t, m) { assert !Goes(t, m); }
    }
    OperationFinishes(watch, requestId, t, p);
    ReportsOwnRun(watch, Notified, requestId, t, p);
  }

  /** Between two polls only the read numbered `i` is awaited or slept on. */
  ghost predicate OnePoll(op: Op, i: nat) {
    op.mode.Poll? && (op.wait == AwaitRead(i) || (op.wait.Idle? && op.wait.read == i) || op.wait.Over?)
  }

  lemma {:induction false} OnePollRun(watch: seq<Field>, s: Sys, i: nat, ms: seq<Move>)
    requires OnePoll(s.op, i) && AllAdvance(watch, s, ms)
    ensures OnePoll(Run(watch, s, ms).op, i)
    decreases |ms|
  {
    hide StatusVerdict;
    if ms != [] {
      OnePollRun(watch, s, i, ms[..|ms| - 1]);
      OnePollStep(watch, Run(watch, s, ms[..|ms| - 1]), i, ms[|ms| - 1]);
    }
  }

  lemma OnePollStep(watch: seq<Field>, s: Sys, i: nat, m: Move)
    requires OnePoll(s.op, i) && Goes(s, m)
    ensures OnePoll(Step(watch, s, m).op, i)
  {
    hide StatusVerdict;
  }

  /** A read submitted after the own run has ended cannot leave the question open. */
  lemma LateReadDecides(watch: seq<Field>, s: Sys, t: Sys, p: nat, i: nat, st: Status)
    requires SysInv(watch, s) && SysInv(watch, t) && StartedAt(s, p) && StartedAt(t, p) && s.rt.log <= t.rt.log
    requires s.op.requestId == t.op.requestId
    requires HasEnded(s.rt.conn, |DeviceAt(watch, s.rt.log, p).site.runs|)
    requires |s.rt.calls| <= i < |t.rt.futures| && t.rt.futures[i] == Done(Returned(Read(st))) && t.rt.calls[i] == ReadStatus
    ensures !StatusVerdict(st, t.op.requestId).StillWaiting?
  {
    var q := FutureHoldsOwnResult(DeviceSemantics(watch), t.rt, i);
    ReadIsLate(watch, s, t, i, q);
    LogOf(watch, s);
    LogOf(watch, t);
    SamePast(watch, s.rt.log, t.rt.log, p);
    SamePast(watch, s.rt.log, t.rt.log, |s.rt.log|);
    hide SysInv, DeviceAt, Truthful, StatusVerdict;
    RunsExtend(watch, t.rt.log, |s.rt.log|, q);
    ReadAfterEndDecides(watch, t.rt.log, p, q, t.op.requestId, st);
  }

  /** A call submitted later runs later. */
  lemma ReadIsLate(watch: seq<Field>, s: Sys, t: Sys, i: nat, q: nat)
    requires SysInv(watch, s) && s.rt.log <= t.rt.log && q < |t.rt.log| && t.rt.log[q].Ran? && t.rt.log[q].id == i >= |s.rt.calls|
    ensures q >= |s.rt.log|
  {
    assert forall j | 0 <= j < |s.rt.log| && s.rt.log[j].Ran? :: s.rt.log[j].id < |s.rt.calls|;
  }

  /**
   Progress of the polling backend: take any reached state in which an operation on course sleeps and its own
   run has ended. The poll its interval wakes it to is the last one: once the moves that are left have been
   made, in whatever order, the operation is over, and has reported how its own run ended.
   */
  lemma PollSettles(watch: seq<Field>, requestId: nat, s: Sys, p: nat, ms: seq<Move>)
    requires Reached(watch, Mode.Poll, requestId, s) && OnCourse(s, p) && EndedOrDue(watch, s, p) && s.op.wait.Idle?
    requires AllAdvance(watch, Step(watch, s, Wake), ms) && forall m: Move :: !Goes(Run(watch, Step(watch, s, Wake), ms), m)
    ensures var t := Run(watch, Step(watch, s, Wake), ms); t.op.wait.Over? && OwnResult(watch, t, p, t.op.wait.result)
  {
    var u, i := Step(watch, s, Wake), |s.rt.calls|;
    var t := Run(watch, u, ms);
    Woken(watch, requestId, s, p);
    Onward(watch, Mode.Poll, requestId, u, p, ms);
    OnePollRun(watch, u, i, ms);
    ReachedInv(watch, Mode.Poll, requestId, s);
    ReachedInv(watch, Mode.Poll, requestId, t);
    OwnRunEnded(watch, s, p);
    DrySettled(watch, t);
    if t.op.wait.Idle? {
      LateReadDecides(watch, s, t, p, i, t.op.wait.seen);
      assert false;
    }
    ReportsOwnRun(watch, Mode.Poll, requestId, t, p);
  }

  lemma DrySettled(watch: seq<Field>, s: Sys)
    requires SysInv(watch, s) && !s.op.wait.NotInvoked? && forall m: Move :: !Goes(s, m)
    ensures s.op.wait.Idle? || s.op.wait.Over?
  {
    assert !Goes(s, Runtime(Get)) && !Goes(s, Runtime(Check)) && !Goes(s, Runtime(Execute));
    assert !Goes(s, Runtime(Post)) && !Goes(s, Runtime(Deliver)) && !Goes(s, Resume);
    AllSettledWhenDry(watch, s);
    hide Inv, DeviceInv, HandleInv, WakeInv;
  }

  lemma AllSettledWhenDry(watch: seq<Field>, s: Sys)
    requires SysInv(watch, s) && s.rt.callbacks == [] && (s.rt.worker.Waiting? ==> s.rt.queue == [])
    requires s.rt.worker.Waiting? || s.rt.worker.Exited?
    ensures |s.rt.futures| == |s.rt.calls| && forall i | 0 <= i < |s.rt.futures| :: !s.rt.futures[i].Pending?
  {
    FatesCount(watch, s);
    QuietMeansSettled(DeviceSemantics(watch), s.rt);
  }

  /** The operation woken: it stands at a new read, on course as before. */
  lemma Woken(watch: seq<Field>, requestId: nat, s: Sys, p: nat)
    requires Reached(watch, Mode.Poll, requestId, s) && OnCourse(s, p) && EndedOrDue(watch, s, p) && s.op.wait.Idle?
    ensures var u := Step(watch, s, Wake);
            && Reached(watch, Mode.Poll, requestId, u) && OnCourse(u, p) && EndedOrDue(watch, u, p)
            && OnePoll(u.op, |s.rt.calls|) && u.rt.log == s.rt.log && u.op.requestId == s.op.requestId
  {
    ReachedInv(watch, Mode.Poll, requestId, s);
    ModeKept(watch, Mode.Poll, requestId, s);
    WakeReads(watch, s);
    WakeOnCourse(watch, s, p);
    RunOne(watch, s, Wake);
    ReachedFurther(watch, Mode.Poll, requestId, s, [Wake]);
    hide SysInv, Step, Reached, OnCourse, DeviceAt;
  }
}
