/**
 A step-chain operation running on the serialized runtime against the device, with either completion
 backend, under every interleaving with PLC cycles, other clients, other calls on the same connection,
 cancellation, timeouts and shutdown.
 */
module StepChainProtocol {
  import opened Wrappers
  import opened SerialRuntime
  import opened StepChainPlc
  import opened StepChainStatus
  import opened StepChainDevice

  type Rt = State<Device, Job, Val, Event>

  datatype Mode = Poll | Notified

  /** How an operation's `done` future ends; `read` names the status read that decided it. */
  datatype Result =
    | Success(read: nat, status: Status)
    | Failure(read: nat, status: Status)
    | Rejected | TimedOut | OpCancelled | Broken

  /** What the operation's task is waiting for. `Idle` is a poll's sleep or `event_queue.get()`. */
  datatype Wait =
    | NotInvoked
    | AwaitRegister
    | AwaitAccept
    | AwaitRead(read: nat)
    | Idle(read: nat, seen: Status)
    | AwaitDelete(result: Result)
    | Over(result: Result)

  datatype Op = Op(
    mode: Mode, requestId: nat, register: nat, start: nat, registered: bool, handles: Handles,
    deletion: Option<nat>, wait: Wait)

  /** `posted`: enqueue callbacks handed to the event loop; `events`: items in the bounded event queue. */
  datatype Sys = Sys(rt: Rt, op: Op, posted: nat, events: nat)

  const EVENT_QUEUE_SIZE: nat := 64

  datatype Move =
    | Runtime(step: Label<Job, Event>)
    | Invoke
    | DeliverNotification(handle: nat)
    | EnqueueEvent
    | Resume
    | Wake
    | Timeout
    | CancelTask

  function Init(watch: seq<Field>, mode: Mode, requestId: nat): Sys {
    Sys(Start(DeviceSemantics(watch)), Op(mode, requestId, 0, 0, false, [], None, NotInvoked), 0, 0)
  }

  // --- the moves of the operation ----------------------------------------------------------------

  function DoInvoke(s: Sys): Sys {
    if !s.op.wait.NotInvoked? || s.rt.closed then s else
    var n := |s.rt.calls|;
    match s.op.mode
    case Poll =>
      s.(rt := SubmitCall(s.rt, StartRun(s.op.requestId)), op := s.op.(start := n, wait := AwaitAccept))
    case Notified =>
      s.(rt := SubmitCall(SubmitCall(s.rt, Register), StartRun(s.op.requestId)),
         op := s.op.(register := n, start := n + 1, wait := AwaitRegister))
  }

  /** Leave the waiting loop; in notify mode the `finally` block submits the deletion first. */
  function Exit(s: Sys, result: Result): Sys {
    if s.op.mode.Poll? || s.rt.closed then s.(op := s.op.(wait := Over(result)))
    else s.(rt := SubmitCall(s.rt, Unregister(s.op.handles)),
            op := s.op.(deletion := Some(|s.rt.calls|), wait := AwaitDelete(result)))
  }

  function SubmitRead(s: Sys): Sys {
    if s.rt.closed then Exit(s, Broken)
    else s.(rt := SubmitCall(s.rt, ReadStatus), op := s.op.(wait := AwaitRead(|s.rt.calls|)))
  }

  /** The future the waiting coroutine awaits, when it awaits one. */
  function Awaited(op: Op): Option<nat> {
    match op.wait
    case AwaitRegister => Some(op.register)
    case AwaitAccept => Some(op.start)
    case AwaitRead(i) => Some(i)
    case AwaitDelete(_) => op.deletion
    case _ => None
  }

  function AfterRegister(s: Sys, f: Future<Val>): Sys {
    if f.Done? && f.outcome.Returned? && f.outcome.value.Registered?
    then s.(op := s.op.(registered := true, handles := f.outcome.value.handles, wait := AwaitAccept))
    else s.(op := s.op.(wait := Over(if f.Cancelled? then OpCancelled else Broken)))
  }

  function AfterAccept(s: Sys, f: Future<Val>): Sys {
    if f.Cancelled? then Exit(s, OpCancelled)
    else if f.Done? && f.outcome.Returned? then
      if f.outcome.value == Accepted(false) then Exit(s, Rejected) else SubmitRead(s)
    else Exit(s, Broken)
  }

  function AfterRead(s: Sys, read: nat, f: Future<Val>): Sys {
    if f.Cancelled? then Exit(s, OpCancelled)
    else if f.Done? && f.outcome.Returned? && f.outcome.value.Read? then
      var status := f.outcome.value.status;
      match StatusVerdict(status, s.op.requestId)
      case Completed => Exit(s, Success(read, status))
      case StepFailed(_) => Exit(s, Failure(read, status))
      case StillWaiting => s.(op := s.op.(wait := Idle(read, status)))
    else Exit(s, Broken)
  }

  function DoResume(s: Sys): Sys {
    var at := Awaited(s.op);
    if at.None? || at.value >= |s.rt.futures| || s.rt.futures[at.value].Pending? then s else
    var f := s.rt.futures[at.value];
    match s.op.wait
    case AwaitRegister => AfterRegister(s, f)
    case AwaitAccept => AfterAccept(s, f)
    case AwaitRead(i) => AfterRead(s, i, f)
    case AwaitDelete(result) => s.(op := s.op.(wait := Over(result)))
    case _ => s
  }

  /** The poll's sleep is over, or the event queue has an item: read the status again. */
  function DoWake(s: Sys): Sys {
    if !s.op.wait.Idle? then s
    else match s.op.mode
      case Poll => SubmitRead(s)
      case Notified => if s.events > 0 then SubmitRead(s.(events := s.events - 1)) else s
  }

  /** Cancelling the coroutine cancels the future it awaits; from inside the `try` it leaves by `Exit`. */
  function DoCancel(s: Sys): Sys {
    var at := Awaited(s.op);
    var rt := if at.Some? then CancelCall(s.rt, at.value) else s.rt;
    match s.op.wait
    case NotInvoked => s
    case Over(_) => s
    case AwaitRegister => s.(rt := rt, op := s.op.(wait := Over(OpCancelled)))
    case AwaitDelete(_) => s.(rt := rt, op := s.op.(wait := Over(OpCancelled)))
    case _ => Exit(s.(rt := rt), OpCancelled)
  }

  predicate IsHandle(hs: Handles, h: nat) {
    exists k :: 0 <= k < |hs| && hs[k].0 == h
  }

  /** The handles the device has given this operation, whether or not it has heard of them yet. */
  function Granted(rt: Rt, op: Op): Handles {
    if op.wait.NotInvoked? || op.mode.Poll? || op.register >= |rt.fate| || !rt.fate[op.register].Executed? then []
    else var p := rt.fate[op.register].at;
      if p < |rt.log| && rt.log[p].Ran? && rt.log[p].outcome.Returned? && rt.log[p].outcome.value.Registered?
      then rt.log[p].outcome.value.handles else []
  }

  function DoTimeout(s: Sys): Sys {
    if s.op.wait.Idle? then Exit(s, TimedOut) else s
  }

  /** A notification reaches the client's callback, which posts one enqueue to the event loop. */
  function DoDeliver(watch: seq<Field>, s: Sys, h: nat): Sys {
    if IsHandle(Granted(s.rt, s.op), h) && h in s.rt.conn.pending
    then s.(rt := Next(DeviceSemantics(watch), s.rt, Outside(Notify(h))), posted := s.posted + 1) else s
  }

  /** `put_nowait` on the bounded queue; when it is full the event is dropped. */
  function DoEnqueue(s: Sys): Sys {
    if s.posted > 0
    then s.(posted := s.posted - 1, events := if s.events < EVENT_QUEUE_SIZE then s.events + 1 else s.events) else s
  }

  /**
   What others may do: anything, except cancel futures only this operation holds, delete handles that
   are not theirs or do not exist yet, or take this operation's notifications for their own.
   */
  ghost predicate Fair(s: Sys, l: Label<Job, Event>) {
    match l
    case Cancel(i) =>
      && s.op.wait != AwaitRead(i)
      && (s.op.mode.Notified? && !s.op.wait.NotInvoked? ==> i != s.op.register && Some(i) != s.op.deletion)
    case Submit(Unregister(gs)) => Apart(Granted(s.rt, s.op), gs) && Below(gs, s.rt.conn.nextHandle)
    case Outside(Notify(h)) => !IsHandle(Granted(s.rt, s.op), h)
    case _ => true
  }

  ghost function Step(watch: seq<Field>, s: Sys, m: Move): Sys {
    match m
    case Runtime(l) => if Fair(s, l) then s.(rt := Next(DeviceSemantics(watch), s.rt, l)) else s
    case Invoke => DoInvoke(s)
    case DeliverNotification(h) => DoDeliver(watch, s, h)
    case EnqueueEvent => DoEnqueue(s)
    case Resume => DoResume(s)
    case Wake => DoWake(s)
    case Timeout => DoTimeout(s)
    case CancelTask => DoCancel(s)
  }

  ghost function Run(watch: seq<Field>, s: Sys, ms: seq<Move>): Sys
    decreases |ms|
  {
    if ms == [] then s else Step(watch, Run(watch, s, ms[..|ms| - 1]), ms[|ms| - 1])
  }

  // --- the invariant -----------------------------------------------------------------------------

  /** The watched fields include every field the completion test looks at. */
  ghost predicate CoversTest(watch: seq<Field>) {
    RequestIdF in watch && DoneF in watch && ErrorF in watch
  }

  ghost predicate InTry(op: Op) {
    op.wait.AwaitAccept? || op.wait.AwaitRead? || op.wait.Idle?
  }

  /** The result the operation has decided on, if any. */
  function Decided(op: Op): Option<Result> {
    match op.wait
    case AwaitDelete(r) => Some(r)
    case Over(r) => Some(r)
    case _ => None
  }

  /** The status read the operation is at, if any. */
  function CurrentRead(op: Op): Option<nat> {
    match op.wait
    case AwaitRead(i) => Some(i)
    case Idle(i, _) => Some(i)
    case AwaitDelete(Success(i, _)) => Some(i)
    case AwaitDelete(Failure(i, _)) => Some(i)
    case Over(Success(i, _)) => Some(i)
    case Over(Failure(i, _)) => Some(i)
    case _ => None
  }

  /** The calls the operation has submitted, in order: register, start, then reads, then the deletion. */
  ghost predicate CallsInv(op: Op, calls: seq<Job>) {
    && (op.wait.NotInvoked? ==> !op.registered && op.deletion.None?)
    && (!op.wait.NotInvoked? ==> op.start < |calls| && calls[op.start] == StartRun(op.requestId))
    && (op.mode.Poll? ==> !op.registered && op.deletion.None? && !op.wait.AwaitRegister? && !op.wait.AwaitDelete?)
    && (op.mode.Notified? && !op.wait.NotInvoked? ==> op.register < op.start && calls[op.register] == Register)
    && (op.mode.Notified? && (InTry(op) || op.wait.AwaitDelete? || op.deletion.Some?) ==> op.registered)
    && (op.wait.AwaitRegister? ==> !op.registered)
    && (InTry(op) || op.wait.AwaitRegister? ==> op.deletion.None?)
    && (op.wait.AwaitDelete? ==> op.deletion.Some?)
    && (CurrentRead(op).Some? ==>
          op.start < CurrentRead(op).value < |calls| && calls[CurrentRead(op).value] == ReadStatus)
    && (op.deletion.Some? ==>
          op.start < op.deletion.value < |calls| && calls[op.deletion.value] == Unregister(op.handles))
  }

  /** The futures behind what the operation knows. */
  ghost predicate FuturesInv(op: Op, futures: seq<Future<Val>>) {
    && (op.registered ==>
          op.register < |futures| && futures[op.register] == Done(Returned(Registered(op.handles))))
    && (CurrentRead(op).Some? ==>
          op.start < |futures| && futures[op.start].Done? && futures[op.start].outcome.Returned?
          && futures[op.start].outcome.value != Accepted(false))
    && (op.wait.Idle? ==>
          op.wait.read < |futures| && futures[op.wait.read] == Done(Returned(Read(op.wait.seen)))
          && StatusVerdict(op.wait.seen, op.requestId).StillWaiting?)
    && (Decided(op).Some? ==> ResultInv(Decided(op).value, op.requestId, futures))
  }

  ghost predicate ResultInv(r: Result, requestId: nat, futures: seq<Future<Val>>) {
    && (r.Success? ==> r.read < |futures| && futures[r.read] == Done(Returned(Read(r.status)))
                       && StatusVerdict(r.status, requestId).Completed?)
    && (r.Failure? ==> r.read < |futures| && futures[r.read] == Done(Returned(Read(r.status)))
                       && StatusVerdict(r.status, requestId).StepFailed?)
  }

  /** The log position at which the registration call ran. */
  function GrantAt(rt: Rt, op: Op): nat {
    if op.register < |rt.fate| && rt.fate[op.register].Executed? then rt.fate[op.register].at else 0
  }

  /** The connection has not been closed since the operation registered its notifications. */
  ghost predicate StayedOpen(rt: Rt, op: Op) {
    forall p | GrantAt(rt, op) <= p < |rt.log| && rt.log[p].Ran? :: rt.log[p].call != CloseConn
  }

  predicate HasGrant(rt: Rt, op: Op) {
    && op.mode.Notified? && !op.wait.NotInvoked?
    && op.register < |rt.fate| && rt.fate[op.register].Executed?
    && rt.fate[op.register].at < |rt.log| && rt.log[rt.fate[op.register].at].Ran?
    && rt.log[rt.fate[op.register].at].outcome.Returned?
    && rt.log[rt.fate[op.register].at].outcome.value.Registered?
  }

  predicate DeletionRan(rt: Rt, op: Op) {
    op.deletion.Some? && op.deletion.value < |rt.fate| && rt.fate[op.deletion.value].Executed?
  }

  ghost predicate ForeignDeletions(calls: seq<Job>, op: Op, hs: Handles) {
    forall i | 0 <= i < |calls| && calls[i].Unregister? && Some(i) != op.deletion :: Apart(hs, calls[i].handles)
  }

  ghost predicate DeletionsBelow(calls: seq<Job>, n: nat) {
    forall i | 0 <= i < |calls| && calls[i].Unregister? :: Below(calls[i].handles, n)
  }

  ghost predicate HandleInv(watch: seq<Field>, op: Op, rt: Rt) {
    && DeletionsBelow(rt.calls, rt.conn.nextHandle)
    && (HasGrant(rt, op) ==>
          var hs := Granted(rt, op);
          && Below(hs, rt.conn.nextHandle) && DistinctHandles(hs) && |hs| == |watch|
          && ForeignDeletions(rt.calls, op, hs)
          && (StayedOpen(rt, op) ==> rt.conn.open)
          && (StayedOpen(rt, op) ==>
                if DeletionRan(rt, op) then Gone(rt.conn, hs) else Watching(rt.conn, hs, watch)))
  }

  ghost predicate WakeUpComing(s: Sys) {
    Due(s.rt.conn.pending, Granted(s.rt, s.op)) || s.posted > 0 || s.events > 0
  }

  /** The outcome of call `i` was reading status `st`. */
  ghost predicate HasRead(rt: Rt, i: nat, st: Status) {
    Produced(rt.fate, rt.log, i, Returned(Read(st)))
  }

  /** No lost wake-up: a watched change since the last status read has a wake-up on its way. */
  ghost predicate WakeInv(watch: seq<Field>, s: Sys) {
    s.op.mode.Notified? && StayedOpen(s.rt, s.op) ==>
      && (s.op.wait.Idle? ==> SameSeen(watch, s.op.wait.seen, s.rt.conn.site.plc.status) || WakeUpComing(s))
      && (s.op.wait.AwaitRead? ==>
            forall st | HasRead(s.rt, s.op.wait.read, st) ::
              SameSeen(watch, st, s.rt.conn.site.plc.status) || WakeUpComing(s))
  }

  ghost predicate SysInv(watch: seq<Field>, s: Sys) {
    && Inv(DeviceSemantics(watch), s.rt)
    && DeviceInv(s.rt.conn)
    && CallsInv(s.op, s.rt.calls)
    && FuturesInv(s.op, s.rt.futures)
    && HandleInv(watch, s.op, s.rt)
    && WakeInv(watch, s)
    && s.events <= EVENT_QUEUE_SIZE
  }

  lemma InitInv(watch: seq<Field>, mode: Mode, requestId: nat)
    ensures SysInv(watch, Init(watch, mode, requestId))
  {
  }

  // --- steps of the runtime that neither run a call nor touch the device --------------------------

  ghost predicate Quiet(a: Rt, b: Rt) {
    && a.conn == b.conn && a.log == b.log
    && |a.calls| <= |b.calls| && b.calls[..|a.calls|] == a.calls
    && |a.futures| == |a.calls| == |a.fate| && |b.futures| == |b.calls| == |b.fate|
    && (forall i | 0 <= i < |a.futures| && !a.futures[i].Pending? :: b.futures[i] == a.futures[i])
    && (forall i | 0 <= i < |a.fate| && (a.fate[i].Executed? || b.fate[i].Executed?) :: b.fate[i] == a.fate[i])
    && (forall i | |a.fate| <= i < |b.fate| :: b.fate[i].Open?)
  }

  /** The calls `b` has and `a` has not delete only handles that exist and are foreign. */
  ghost predicate NewDeletionsForeign(a: Rt, b: Rt, op: Op) {
    forall i | |a.calls| <= i < |b.calls| && b.calls[i].Unregister? && Some(i) != op.deletion ::
      Apart(Granted(a, op), b.calls[i].handles) && Below(b.calls[i].handles, a.conn.nextHandle)
  }

  /** The call in the worker's hand has not run, and results on their way belong to calls. */
  lemma InHandFacts(watch: seq<Field>, rt: Rt)
    requires Inv(DeviceSemantics(watch), rt)
    ensures |rt.futures| == |rt.calls| == |rt.fate|
    ensures rt.worker.Holding? ==> rt.worker.id < |rt.fate| && rt.fate[rt.worker.id].Open?
  {
    hide After, Truthful, LogInv, CallbackInv, FutureInv, CloseInv, DeviceSemantics;
  }

  lemma QuietLabels(watch: seq<Field>, rt: Rt, l: Label<Job, Event>)
    requires Inv(DeviceSemantics(watch), rt) && !l.Execute? && !l.Outside?
    ensures Quiet(rt, Next(DeviceSemantics(watch), rt, l))
  {
    hide Inv, DeviceSemantics;
    InHandFacts(watch, rt);
  }

  lemma QuietGrant(a: Rt, b: Rt, op: Op)
    requires Quiet(a, b) && CallsInv(op, a.calls)
    ensures Granted(b, op) == Granted(a, op) && HasGrant(b, op) == HasGrant(a, op)
    ensures DeletionRan(b, op) == DeletionRan(a, op)
    ensures HasGrant(a, op) ==> (StayedOpen(b, op) <==> StayedOpen(a, op))
  {
  }

  /** What the operation knows survives a quiet step. */
  lemma QuietKnowledge(a: Rt, b: Rt, op: Op)
    requires Quiet(a, b) && CallsInv(op, a.calls) && FuturesInv(op, a.futures)
    ensures CallsInv(op, b.calls) && FuturesInv(op, b.futures)
  {
    assert forall i | 0 <= i < |a.calls| :: b.calls[i] == a.calls[i];
  }

  /** So do its handles, even when the operation itself submits the deletion. */
  lemma QuietHandles(watch: seq<Field>, a: Rt, b: Rt, op: Op, op': Op)
    requires Quiet(a, b) && CallsInv(op, a.calls) && HandleInv(watch, op, a)
    requires op'.mode == op.mode && op'.register == op.register && op'.wait.NotInvoked? == op.wait.NotInvoked?
    requires op'.deletion == op.deletion
             || (op.deletion.None? && op'.deletion.Some? && |a.calls| <= op'.deletion.value < |b.calls|
                 && HasGrant(a, op) && b.calls[op'.deletion.value] == Unregister(Granted(a, op)))
    requires NewDeletionsForeign(a, b, op')
    ensures HandleInv(watch, op', b)
    ensures Granted(b, op') == Granted(a, op)
  {
    assert forall i | 0 <= i < |a.calls| :: b.calls[i] == a.calls[i];
  }

  lemma QuietWake(watch: seq<Field>, s: Sys, rt: Rt)
    requires Quiet(s.rt, rt) && CallsInv(s.op, s.rt.calls) && WakeInv(watch, s)
    ensures WakeInv(watch, s.(rt := rt))
  {
    QuietGrant(s.rt, rt, s.op);
    if s.op.wait.AwaitRead? {
      var i := s.op.wait.read;
      assert forall st | HasRead(rt, i, st) :: HasRead(s.rt, i, st);
    }
  }

  lemma QuietKeeps(watch: seq<Field>, s: Sys, rt: Rt)
    requires SysInv(watch, s) && Quiet(s.rt, rt) && Inv(DeviceSemantics(watch), rt)
    requires NewDeletionsForeign(s.rt, rt, s.op)
    ensures SysInv(watch, s.(rt := rt))
  {
    QuietKnowledge(s.rt, rt, s.op);
    QuietHandles(watch, s.rt, rt, s.op, s.op);
    QuietWake(watch, s, rt);
  }

  // --- steps that run a call or touch the device ---------------------------------------------------

  /** The device and the log have moved on by one entry; fates changed at most at `ran`. */
  ghost predicate Advanced(a: Rt, b: Rt, ran: Option<nat>) {
    && b.calls == a.calls && b.futures == a.futures
    && |a.futures| == |a.calls| == |a.fate| == |b.fate|
    && |b.log| == |a.log| + 1 && b.log[..|a.log|] == a.log
    && (forall i | 0 <= i < |a.fate| && ran != Some(i) :: b.fate[i] == a.fate[i])
    && (ran.Some? ==> ran.value < |a.fate| && a.fate[ran.value].Open? && b.fate[ran.value] == Executed(|a.log|)
                      && b.log[|a.log|].Ran? && b.log[|a.log|].call == a.calls[ran.value])
  }

  /** Every executed call lies inside the log. */
  ghost predicate FatesInLog(rt: Rt) {
    forall i | 0 <= i < |rt.fate| && rt.fate[i].Executed? :: rt.fate[i].at < |rt.log|
  }

  lemma OpenBefore(a: Rt, b: Rt, op: Op, ran: Option<nat>)
    requires Advanced(a, b, ran) && FatesInLog(a) && HasGrant(a, op) && StayedOpen(b, op)
    ensures StayedOpen(a, op) && (ran.Some? ==> a.calls[ran.value] != CloseConn)
  {
    assert forall p | 0 <= p < |a.log| :: b.log[p] == a.log[p];
  }

  lemma AdvanceGrant(a: Rt, b: Rt, op: Op, ran: Option<nat>)
    requires Advanced(a, b, ran) && FatesInLog(a) && CallsInv(op, a.calls)
    requires op.mode.Poll? || op.wait.NotInvoked? || ran != Some(op.register)
    ensures Granted(b, op) == Granted(a, op) && HasGrant(b, op) == HasGrant(a, op)
  {
    assert forall p | 0 <= p < |a.log| :: b.log[p] == a.log[p];
  }

  /** A step that announces changes keeps the wake-up promise, except for the read it may itself perform. */
  lemma AdvanceWake(watch: seq<Field>, s: Sys, rt: Rt, posted: nat, ran: Option<nat>)
    requires Advanced(s.rt, rt, ran) && FatesInLog(s.rt) && CallsInv(s.op, s.rt.calls) && WakeInv(watch, s)
    requires posted >= s.posted
    requires s.op.mode.Notified? && StayedOpen(rt, s.op) && (s.op.wait.Idle? || s.op.wait.AwaitRead?) ==>
               && HasGrant(s.rt, s.op) && HasGrant(rt, s.op) && Granted(rt, s.op) == Granted(s.rt, s.op)
               && (posted > s.posted || Announces(watch, Granted(s.rt, s.op), s.rt.conn, rt.conn))
    requires ran.Some? && CurrentRead(s.op) == ran ==>
               forall st | HasRead(rt, ran.value, st) :: st == rt.conn.site.plc.status
    ensures WakeInv(watch, s.(rt := rt, posted := posted))
  {
    if s.op.mode.Notified? && StayedOpen(rt, s.op) {
      if s.op.wait.Idle? || s.op.wait.AwaitRead? { OpenBefore(s.rt, rt, s.op, ran); }
      var t := s.(rt := rt, posted := posted);
      if s.op.wait.Idle? || s.op.wait.AwaitRead? {
        assert WakeUpComing(s) ==> WakeUpComing(t);
        assert SameSeen(watch, s.rt.conn.site.plc.status, rt.conn.site.plc.status) || WakeUpComing(t);
      }
      if s.op.wait.AwaitRead? && ran != Some(s.op.wait.read) {
        assert forall p | 0 <= p < |s.rt.log| :: rt.log[p] == s.rt.log[p];
        assert forall st | HasRead(rt, s.op.wait.read, st) :: HasRead(s.rt, s.op.wait.read, st);
      }
    }
  }

  lemma FatesBounded(watch: seq<Field>, rt: Rt)
    requires Inv(DeviceSemantics(watch), rt)
    ensures FatesInLog(rt)
  {
  }

  /** Once registration has been heard of, the handles known are the handles granted. */
  lemma RegisteredMeansGranted(watch: seq<Field>, s: Sys)
    requires SysInv(watch, s) && s.op.registered
    ensures HasGrant(s.rt, s.op) && Granted(s.rt, s.op) == s.op.handles
  {
    assert Produced(s.rt.fate, s.rt.log, s.op.register, Returned(Registered(s.op.handles)));
  }

  /** Running the registration call grants fresh handles that nothing else refers to. */
  lemma GrantKeeps(watch: seq<Field>, a: Rt, b: Rt, op: Op)
    requires DeviceInv(a.conn) && CallsInv(op, a.calls) && HandleInv(watch, op, a)
    requires op.mode.Notified? && !op.wait.NotInvoked? && Advanced(a, b, Some(op.register)) && op.deletion.None?
    requires (b.conn, b.log[|a.log|].outcome) == Exec(watch, a.conn, Register)
    ensures HandleInv(watch, op, b)
  {
    hide Inv, DeviceSemantics;
    RegisterAllFresh(a.conn, watch);
    if a.conn.open {
      HandlesFrom(a.conn.nextHandle, Granted(b, op));
    }
  }

  /** Running the operation's own deletion removes its handles everywhere. */
  lemma DeletionKeeps(watch: seq<Field>, a: Rt, b: Rt, op: Op)
    requires DeviceInv(a.conn) && CallsInv(op, a.calls) && HandleInv(watch, op, a) && FatesInLog(a)
    requires op.deletion.Some? && Advanced(a, b, op.deletion) && HasGrant(a, op) && Granted(a, op) == op.handles
    requires b.conn == Exec(watch, a.conn, Unregister(op.handles)).0
    ensures HandleInv(watch, op, b)
  {
    AdvanceGrant(a, b, op, op.deletion);
    UnregisterNext(a.conn, op.handles);
    if StayedOpen(b, op) {
      OpenBefore(a, b, op, op.deletion);
      UnregisterGone(watch, a.conn, op.handles);
    }
  }

  lemma UnregisterNext(d: Device, hs: Handles)
    requires DeviceInv(d)
    ensures UnregisterAll(d, hs).0.nextHandle == d.nextHandle && UnregisterAll(d, hs).0.open == d.open
  {
    UnregisterInv(d, hs);
  }

  /** Any other call leaves the operation's handles as they are. */
  lemma OtherCallKeeps(watch: seq<Field>, a: Rt, b: Rt, op: Op, i: nat)
    requires DeviceInv(a.conn) && CallsInv(op, a.calls) && HandleInv(watch, op, a) && FatesInLog(a)
    requires Advanced(a, b, Some(i)) && (op.mode.Notified? && !op.wait.NotInvoked? ==> i != op.register)
    requires Some(i) != op.deletion
    requires b.conn == Exec(watch, a.conn, a.calls[i]).0
    ensures HandleInv(watch, op, b) && Granted(b, op) == Granted(a, op) && HasGrant(b, op) == HasGrant(a, op)
    ensures HasGrant(a, op) && StayedOpen(b, op) && !DeletionRan(a, op) ==>
              Announces(watch, Granted(a, op), a.conn, b.conn)
  {
    AdvanceGrant(a, b, op, Some(i));
    ExecKeeps(watch, a.conn, a.calls[i]);
    if HasGrant(a, op) && StayedOpen(b, op) {
      OpenBefore(a, b, op, Some(i));
      if DeletionRan(a, op) {
        GoneStays(watch, Granted(a, op), a.conn, a.calls[i]);
        ExecOpen(watch, a.conn, a.calls[i]);
      } else {
        ExecAnnounces(watch, Granted(a, op), a.conn, a.calls[i]);
      }
    }
  }

  lemma ExecOpen(watch: seq<Field>, d: Device, job: Job)
    requires DeviceInv(d) && d.open && job != CloseConn
    ensures Exec(watch, d, job).0.open
  {
    match job
    case Register => RegisterAllFresh(d, watch);
    case Unregister(gs) => UnregisterInv(d, gs);
    case _ =>
  }

  lemma ExecuteAdvances(watch: seq<Field>, rt: Rt)
    requires Inv(DeviceSemantics(watch), rt) && rt.worker.Running?
    ensures var b := WorkerExecute(DeviceSemantics(watch), rt);
            && rt.worker.id < |rt.calls|
            && Advanced(rt, b, Some(rt.worker.id))
            && (b.conn, b.log[|rt.log|].outcome) == Exec(watch, rt.conn, rt.calls[rt.worker.id])
  {
  }

  lemma ExecuteHandles(watch: seq<Field>, s: Sys)
    requires SysInv(watch, s) && s.rt.worker.Running?
    ensures HandleInv(watch, s.op, WorkerExecute(DeviceSemantics(watch), s.rt))
  {
    var b := WorkerExecute(DeviceSemantics(watch), s.rt);
    var i := s.rt.worker.id;
    ExecuteAdvances(watch, s.rt);
    FatesBounded(watch, s.rt);
    if s.op.registered { RegisteredMeansGranted(watch, s); }
    if s.op.mode.Notified? && !s.op.wait.NotInvoked? && i == s.op.register {
      GrantKeeps(watch, s.rt, b, s.op);
    } else if s.op.deletion == Some(i) {
      DeletionKeeps(watch, s.rt, b, s.op);
    } else {
      OtherCallKeeps(watch, s.rt, b, s.op, i);
    }
  }

  lemma ExecuteWake(watch: seq<Field>, s: Sys)
    requires SysInv(watch, s) && s.rt.worker.Running?
    ensures WakeInv(watch, s.(rt := WorkerExecute(DeviceSemantics(watch), s.rt)))
  {
    hide Inv, DeviceInv, DeviceSemantics;
    var b := WorkerExecute(DeviceSemantics(watch), s.rt);
    var i := s.rt.worker.id;
    ExecuteAdvances(watch, s.rt);
    FatesBounded(watch, s.rt);
    if s.op.mode.Notified? && (s.op.wait.Idle? || s.op.wait.AwaitRead?) {
      RegisteredMeansGranted(watch, s);
      OtherCallKeeps(watch, s.rt, b, s.op, i);
    }
    AdvanceWake(watch, s, b, s.posted, Some(i));
  }

  lemma ExecuteSys(watch: seq<Field>, s: Sys)
    requires SysInv(watch, s) && s.rt.worker.Running?
    ensures SysInv(watch, s.(rt := WorkerExecute(DeviceSemantics(watch), s.rt)))
  {
    hide Inv, DeviceInv, DeviceSemantics;
    var sem := DeviceSemantics(watch);
    ExecuteAdvances(watch, s.rt);
    ExecKeeps(watch, s.rt.conn, s.rt.calls[s.rt.worker.id]);
    ExecuteKeeps(sem, s.rt);
    ExecuteHandles(watch, s);
    ExecuteWake(watch, s);
  }

  // --- what happens at the device by itself --------------------------------------------------------

  lemma OutsideAdvances(watch: seq<Field>, rt: Rt, e: Event)
    requires Inv(DeviceSemantics(watch), rt)
    ensures var b := Next(DeviceSemantics(watch), rt, Outside(e));
            Advanced(rt, b, None) && b.conn == React(rt.conn, e)
  {
  }

  lemma OutsideHandles(watch: seq<Field>, s: Sys, e: Event)
    requires SysInv(watch, s)
    ensures HandleInv(watch, s.op, Next(DeviceSemantics(watch), s.rt, Outside(e)))
  {
    hide Inv, DeviceSemantics;
    var b := Next(DeviceSemantics(watch), s.rt, Outside(e));
    OutsideAdvances(watch, s.rt, e);
    FatesBounded(watch, s.rt);
    AdvanceGrant(s.rt, b, s.op, None);
    ReactKeeps(s.rt.conn, e);
    assert b.conn.live == s.rt.conn.live && b.conn.store == s.rt.conn.store && b.conn.symbols == s.rt.conn.symbols;
    if HasGrant(s.rt, s.op) && StayedOpen(b, s.op) { OpenBefore(s.rt, b, s.op, None); }
  }

  /** An event at the device, which is one of this operation's notifications exactly when `posted` grows. */
  lemma OutsideSys(watch: seq<Field>, s: Sys, e: Event, posted: nat)
    requires SysInv(watch, s) && posted >= s.posted
    requires posted > s.posted || (e.Notify? ==> !IsHandle(Granted(s.rt, s.op), e.handle))
    ensures SysInv(watch, s.(rt := Next(DeviceSemantics(watch), s.rt, Outside(e)), posted := posted))
  {
    hide Inv, DeviceInv, DeviceSemantics;
    var sem := DeviceSemantics(watch);
    var b := Next(sem, s.rt, Outside(e));
    OutsideAdvances(watch, s.rt, e);
    FatesBounded(watch, s.rt);
    ReactKeeps(s.rt.conn, e);
    OutsideKeeps(sem, s.rt, e);
    OutsideHandles(watch, s, e);
    AdvanceGrant(s.rt, b, s.op, None);
    if s.op.mode.Notified? && (s.op.wait.Idle? || s.op.wait.AwaitRead?) {
      RegisteredMeansGranted(watch, s);
      if StayedOpen(b, s.op) && posted == s.posted {
        OpenBefore(s.rt, b, s.op, None);
        ReactAnnounces(watch, Granted(s.rt, s.op), s.rt.conn, e);
      }
    }
    AdvanceWake(watch, s, b, posted, None);
  }

  // --- the operation's own moves -------------------------------------------------------------------

  lemma SubmitQuiet(watch: seq<Field>, rt: Rt, job: Job)
    requires Inv(DeviceSemantics(watch), rt)
    ensures Quiet(rt, SubmitCall(rt, job)) && Inv(DeviceSemantics(watch), SubmitCall(rt, job))
  {
    SubmitKeeps(DeviceSemantics(watch), rt, job);
  }

  /** Leaving the loop keeps what the operation knows. */
  lemma ExitKnowledge(s: Sys, result: Result)
    requires InTry(s.op) && CallsInv(s.op, s.rt.calls) && FuturesInv(s.op, s.rt.futures) && Quiet(s.rt, Exit(s, result).rt)
    requires ResultInv(result, s.op.requestId, s.rt.futures)
    requires result.Success? || result.Failure? ==> s.op.wait == AwaitRead(result.read)
    ensures CallsInv(Exit(s, result).op, Exit(s, result).rt.calls)
    ensures FuturesInv(Exit(s, result).op, Exit(s, result).rt.futures)
  {
    hide Inv, DeviceSemantics;
    QuietKnowledge(s.rt, Exit(s, result).rt, s.op);
  }

  lemma ExitHandles(watch: seq<Field>, s: Sys, result: Result)
    requires InTry(s.op) && CallsInv(s.op, s.rt.calls) && HandleInv(watch, s.op, s.rt) && Quiet(s.rt, Exit(s, result).rt)
    requires s.op.mode.Notified? ==> HasGrant(s.rt, s.op) && Granted(s.rt, s.op) == s.op.handles
    ensures HandleInv(watch, Exit(s, result).op, Exit(s, result).rt)
  {
    QuietHandles(watch, s.rt, Exit(s, result).rt, s.op, Exit(s, result).op);
  }

  lemma QuietRefl(watch: seq<Field>, rt: Rt)
    requires Inv(DeviceSemantics(watch), rt)
    ensures Quiet(rt, rt)
  {
  }

  lemma ExitKeeps(watch: seq<Field>, s: Sys, result: Result)
    requires SysInv(watch, s) && InTry(s.op)
    requires ResultInv(result, s.op.requestId, s.rt.futures)
    requires result.Success? || result.Failure? ==> s.op.wait == AwaitRead(result.read)
    ensures SysInv(watch, Exit(s, result))
  {
    hide Inv, DeviceInv, DeviceSemantics, HandleInv;
    QuietRefl(watch, s.rt);
    SubmitQuiet(watch, s.rt, Unregister(s.op.handles));
    if s.op.mode.Notified? { RegisteredMeansGranted(watch, s); }
    ExitKnowledge(s, result);
    ExitHandles(watch, s, result);
  }

  ghost predicate StartAccepted(op: Op, futures: seq<Future<Val>>) {
    op.start < |futures| && futures[op.start].Done? && futures[op.start].outcome.Returned?
    && futures[op.start].outcome.value != Accepted(false)
  }

  lemma ReadKnowledge(op: Op, a: Rt, b: Rt)
    requires InTry(op) && CallsInv(op, a.calls) && FuturesInv(op, a.futures) && StartAccepted(op, a.futures)
    requires Quiet(a, b) && b.calls == a.calls + [ReadStatus]
    ensures CallsInv(op.(wait := AwaitRead(|a.calls|)), b.calls) && FuturesInv(op.(wait := AwaitRead(|a.calls|)), b.futures)
  {
    QuietKnowledge(a, b, op);
  }

  /** Reading the status once more: the wake-up spent may be the last one, but a read is now due. */
  lemma SubmitReadKeeps(watch: seq<Field>, s: Sys, events: nat)
    requires SysInv(watch, s) && InTry(s.op) && events <= s.events && StartAccepted(s.op, s.rt.futures)
    requires !s.rt.closed
    ensures SysInv(watch, SubmitRead(s.(events := events)))
  {
    hide Inv, DeviceInv, DeviceSemantics;
    var t := SubmitRead(s.(events := events));
    SubmitQuiet(watch, s.rt, ReadStatus);
    ReadKnowledge(s.op, s.rt, t.rt);
    QuietHandles(watch, s.rt, t.rt, s.op, t.op);
    assert t.rt.fate[|s.rt.calls|].Open?;
  }

  lemma NextReadKeeps(watch: seq<Field>, s: Sys, events: nat)
    requires SysInv(watch, s) && InTry(s.op) && events <= s.events && StartAccepted(s.op, s.rt.futures)
    ensures SysInv(watch, SubmitRead(s.(events := events)))
  {
    if s.rt.closed {
      ExitKeeps(watch, s, Broken);
    } else {
      SubmitReadKeeps(watch, s, events);
    }
  }

  lemma InvokeKeeps(watch: seq<Field>, s: Sys)
    requires SysInv(watch, s) && s.op.wait.NotInvoked? && !s.rt.closed
    ensures SysInv(watch, DoInvoke(s))
  {
    hide Inv, DeviceInv, DeviceSemantics;
    var t := DoInvoke(s);
    SubmitQuiet(watch, s.rt, Register);
    SubmitQuiet(watch, SubmitCall(s.rt, Register), StartRun(s.op.requestId));
    SubmitQuiet(watch, s.rt, StartRun(s.op.requestId));
    assert s.op.mode.Notified? ==> t.rt.fate[t.op.register].Open?;
    assert forall i | 0 <= i < |s.rt.calls| :: t.rt.calls[i] == s.rt.calls[i];
  }

  lemma ReadHappened(watch: seq<Field>, rt: Rt, i: nat, status: Status)
    requires Inv(DeviceSemantics(watch), rt) && i < |rt.futures| && rt.futures[i] == Done(Returned(Read(status)))
    ensures HasRead(rt, i, status)
  {
    hide After, Truthful, LogInv, CallbackInv, CloseInv, DeviceSemantics;
  }

  /** A read that leaves the question open: the snapshot kept is the one the read returned. */
  lemma IdleKeeps(watch: seq<Field>, s: Sys, i: nat, status: Status)
    requires SysInv(watch, s) && s.op.wait == AwaitRead(i) && i < |s.rt.futures|
    requires s.rt.futures[i] == Done(Returned(Read(status))) && StatusVerdict(status, s.op.requestId).StillWaiting?
    ensures SysInv(watch, s.(op := s.op.(wait := Idle(i, status))))
  {
    hide Inv, DeviceInv, DeviceSemantics;
    ReadHappened(watch, s.rt, i, status);
    QuietRefl(watch, s.rt);
    QuietHandles(watch, s.rt, s.rt, s.op, s.op.(wait := Idle(i, status)));
  }

  lemma AfterReadKeeps(watch: seq<Field>, s: Sys)
    requires SysInv(watch, s) && s.op.wait.AwaitRead? && s.op.wait.read < |s.rt.futures|
    requires !s.rt.futures[s.op.wait.read].Pending?
    ensures SysInv(watch, AfterRead(s, s.op.wait.read, s.rt.futures[s.op.wait.read]))
  {
    hide Inv, DeviceInv, DeviceSemantics;
    var i := s.op.wait.read;
    var f := s.rt.futures[i];
    if f.Done? && f.outcome.Returned? && f.outcome.value.Read? {
      var status := f.outcome.value.status;
      match StatusVerdict(status, s.op.requestId)
      case Completed => ExitKeeps(watch, s, Success(i, status));
      case StepFailed(_) => ExitKeeps(watch, s, Failure(i, status));
      case StillWaiting => IdleKeeps(watch, s, i, status);
    } else {
      ExitKeeps(watch, s, if f.Cancelled? then OpCancelled else Broken);
    }
  }

  lemma AfterAcceptKeeps(watch: seq<Field>, s: Sys)
    requires SysInv(watch, s) && s.op.wait.AwaitAccept? && s.op.start < |s.rt.futures|
    requires !s.rt.futures[s.op.start].Pending?
    ensures SysInv(watch, AfterAccept(s, s.rt.futures[s.op.start]))
  {
    hide Inv, DeviceInv, DeviceSemantics;
    var f := s.rt.futures[s.op.start];
    if f.Done? && f.outcome.Returned? {
      if f.outcome.value == Accepted(false) {
        ExitKeeps(watch, s, Rejected);
      } else {
        NextReadKeeps(watch, s, s.events);
      }
    } else {
      ExitKeeps(watch, s, if f.Cancelled? then OpCancelled else Broken);
    }
  }

  /** A change of the operation that leaves the runtime alone and makes no promise about wake-ups. */
  lemma OpOnly(watch: seq<Field>, s: Sys, op: Op)
    requires SysInv(watch, s)
    requires op.mode == s.op.mode && op.register == s.op.register && op.deletion == s.op.deletion
    requires op.wait.NotInvoked? == s.op.wait.NotInvoked? && !op.wait.Idle? && !op.wait.AwaitRead?
    requires CallsInv(op, s.rt.calls) && FuturesInv(op, s.rt.futures)
    ensures SysInv(watch, s.(op := op))
  {
    hide Inv, DeviceInv, DeviceSemantics, HandleInv;
    QuietRefl(watch, s.rt);
    QuietHandles(watch, s.rt, s.rt, s.op, op);
  }

  lemma AfterRegisterKeeps(watch: seq<Field>, s: Sys, f: Future<Val>)
    requires SysInv(watch, s) && s.op.wait.AwaitRegister?
    requires s.op.register < |s.rt.futures| && f == s.rt.futures[s.op.register] && !f.Pending?
    ensures SysInv(watch, AfterRegister(s, f))
  {
    hide Inv, DeviceInv, DeviceSemantics;
    OpOnly(watch, s, AfterRegister(s, f).op);
  }

  lemma AfterDeleteKeeps(watch: seq<Field>, s: Sys, result: Result)
    requires SysInv(watch, s) && s.op.wait.AwaitDelete?
    requires result == s.op.wait.result || result == OpCancelled
    ensures SysInv(watch, s.(op := s.op.(wait := Over(result))))
  {
    hide Inv, DeviceInv, DeviceSemantics;
    OpOnly(watch, s, s.op.(wait := Over(result)));
  }

  lemma ResumeSys(watch: seq<Field>, s: Sys)
    requires SysInv(watch, s)
    ensures SysInv(watch, DoResume(s))
  {
    hide Inv, DeviceInv, DeviceSemantics;
    var at := Awaited(s.op);
    if at.Some? && at.value < |s.rt.futures| && !s.rt.futures[at.value].Pending? {
      match s.op.wait
      case AwaitRegister => AfterRegisterKeeps(watch, s, s.rt.futures[at.value]);
      case AwaitAccept => AfterAcceptKeeps(watch, s);
      case AwaitRead(i) => AfterReadKeeps(watch, s);
      case AwaitDelete(result) => AfterDeleteKeeps(watch, s, result);
      case _ =>
    }
  }

  lemma CancelQuiet(watch: seq<Field>, s: Sys, i: nat)
    requires SysInv(watch, s)
    ensures SysInv(watch, s.(rt := CancelCall(s.rt, i)))
  {
    hide Inv, DeviceInv, DeviceSemantics;
    CancelKeeps(DeviceSemantics(watch), s.rt, i);
    QuietLabels(watch, s.rt, Cancel(i));
    QuietKeeps(watch, s, CancelCall(s.rt, i));
  }

  lemma CancelRegisterKeeps(watch: seq<Field>, s: Sys)
    requires SysInv(watch, s) && s.op.wait.AwaitRegister?
    ensures SysInv(watch, s.(op := s.op.(wait := Over(OpCancelled))))
  {
    OpOnly(watch, s, s.op.(wait := Over(OpCancelled)));
  }

  lemma CancelSys(watch: seq<Field>, s: Sys)
    requires SysInv(watch, s)
    ensures SysInv(watch, DoCancel(s))
  {
    hide Inv, DeviceInv, DeviceSemantics;
    var at := Awaited(s.op);
    if at.Some? { CancelQuiet(watch, s, at.value); }
    var t := if at.Some? then s.(rt := CancelCall(s.rt, at.value)) else s;
    match s.op.wait
    case NotInvoked =>
    case Over(_) =>
    case AwaitRegister => CancelRegisterKeeps(watch, t);
    case AwaitDelete(_) => AfterDeleteKeeps(watch, t, OpCancelled);
    case _ => ExitKeeps(watch, t, OpCancelled);
  }

  lemma QuietSys(watch: seq<Field>, s: Sys, l: Label<Job, Event>)
    requires SysInv(watch, s) && Fair(s, l) && !l.Execute? && !l.Outside?
    ensures SysInv(watch, s.(rt := Next(DeviceSemantics(watch), s.rt, l)))
  {
    InvNext(DeviceSemantics(watch), s.rt, l);
    QuietLabels(watch, s.rt, l);
    NewCallsAreForeign(watch, s, l);
    QuietKeeps(watch, s, Next(DeviceSemantics(watch), s.rt, l));
  }

  lemma RuntimeSys(watch: seq<Field>, s: Sys, l: Label<Job, Event>)
    requires SysInv(watch, s) && Fair(s, l)
    ensures SysInv(watch, s.(rt := Next(DeviceSemantics(watch), s.rt, l)))
  {
    hide Inv, DeviceInv, DeviceSemantics;
    match l
    case Execute => if s.rt.worker.Running? { ExecuteSys(watch, s); }
    case Outside(e) => OutsideSys(watch, s, e, s.posted);
    case _ => QuietSys(watch, s, l);
  }

  lemma NewCallsAreForeign(watch: seq<Field>, s: Sys, l: Label<Job, Event>)
    requires Fair(s, l) && !l.Execute? && !l.Outside?
    ensures NewDeletionsForeign(s.rt, Next(DeviceSemantics(watch), s.rt, l), s.op)
  {
  }

  lemma WakeSys(watch: seq<Field>, s: Sys)
    requires SysInv(watch, s)
    ensures SysInv(watch, DoWake(s))
  {
    hide Inv, DeviceInv, CallsInv, HandleInv, WakeInv, SubmitRead;
    if s.op.wait.Idle? {
      if s.op.mode.Poll? { NextReadKeeps(watch, s, s.events); }
      else if s.events > 0 { NextReadKeeps(watch, s, s.events - 1); }
    }
  }

  lemma EnqueueSys(watch: seq<Field>, s: Sys)
    requires SysInv(watch, s)
    ensures SysInv(watch, DoEnqueue(s))
  {
  }

  lemma DeliverSys(watch: seq<Field>, s: Sys, h: nat)
    requires SysInv(watch, s)
    ensures SysInv(watch, DoDeliver(watch, s, h))
  {
    if IsHandle(Granted(s.rt, s.op), h) && h in s.rt.conn.pending {
      OutsideSys(watch, s, Notify(h), s.posted + 1);
    }
  }

  lemma TimeoutSys(watch: seq<Field>, s: Sys)
    requires SysInv(watch, s)
    ensures SysInv(watch, DoTimeout(s))
  {
    if s.op.wait.Idle? { ExitKeeps(watch, s, TimedOut); }
  }

  lemma InvokeSys(watch: seq<Field>, s: Sys)
    requires SysInv(watch, s)
    ensures SysInv(watch, DoInvoke(s))
  {
    if s.op.wait.NotInvoked? && !s.rt.closed { InvokeKeeps(watch, s); }
  }

  /** Every move of every interleaving keeps the invariant. */
  lemma StepKeeps(watch: seq<Field>, s: Sys, m: Move)
    requires SysInv(watch, s)
    ensures SysInv(watch, Step(watch, s, m))
  {
    hide Inv, DeviceInv, DeviceSemantics;
    match m
    case Runtime(l) => if Fair(s, l) { RuntimeSys(watch, s, l); }
    case Invoke => InvokeSys(watch, s);
    case DeliverNotification(h) => DeliverSys(watch, s, h);
    case EnqueueEvent => EnqueueSys(watch, s);
    case Resume => ResumeSys(watch, s);
    case Wake => WakeSys(watch, s);
    case Timeout => TimeoutSys(watch, s);
    case CancelTask => CancelSys(watch, s);
  }

  lemma {:induction false} RunKeeps(watch: seq<Field>, s: Sys, ms: seq<Move>)
    requires SysInv(watch, s)
    ensures SysInv(watch, Run(watch, s, ms))
    decreases |ms|
  {
    if ms != [] {
      RunKeeps(watch, s, ms[..|ms| - 1]);
      StepKeeps(watch, Run(watch, s, ms[..|ms| - 1]), ms[|ms| - 1]);
    }
  }
}
