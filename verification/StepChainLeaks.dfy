/**
 Whether an operation's notifications are given back in the end: exactly when its deletion runs, which
 cancelling its task at the wrong moment prevents.
 */
module StepChainLeaks {
  import opened Wrappers
  import opened SerialRuntime
  import opened SerialTheorems
  import opened StepChainStatus
  import opened StepChainDevice
  import opened StepChainProtocol
  import opened StepChainTheorems
  import opened StepChainProgress
  import opened StepChainSchedules

  // --- exactly when the notifications are given back -----------------------------------------------

  /** The operation was granted notifications, has decided, and nothing is left to happen on a connection still open. */
  ghost predicate Settled(s: Sys) {
    && HasGrant(s.rt, s.op) && StayedOpen(s.rt, s.op) && !s.rt.closed && Decided(s.op).Some?
    && forall m: Move :: !Advances(s, m)
  }

  /** A call that is settled has run or was skipped, and was skipped only because its future was cancelled. */
  lemma SettledFate(watch: seq<Field>, s: Sys, i: nat)
    requires SysInv(watch, s) && i < |s.rt.futures| && forall m: Move :: !Advances(s, m)
    ensures i < |s.rt.fate| && (s.rt.fate[i].Executed? || (s.rt.fate[i].Skipped? && s.rt.futures[i].Cancelled?))
  {
    hide DeviceInv, CallsInv, FuturesInv, HandleInv, WakeInv;
    assert !Advances(s, Runtime(Get)) && !Advances(s, Runtime(Check)) && !Advances(s, Runtime(Execute));
    assert !Advances(s, Runtime(Post)) && !Advances(s, Runtime(Deliver));
    QuietMeansSettled(DeviceSemantics(watch), s.rt);
  }

  /**
   Conservation, exactly. In every reached state in which nothing is left to happen, an operation that was
   granted notifications and has decided has given them back if and only if it heard of them and its
   deletion ran. Otherwise all of them are still registered: either the task was cancelled before it heard
   of them, or the deletion's future was cancelled and the worker skipped it.
   */
  lemma GivenBackExactly(watch: seq<Field>, requestId: nat, s: Sys)
    requires Reached(watch, Notified, requestId, s) && watch != [] && Settled(s)
    ensures var hs := Granted(s.rt, s.op);
            && |hs| == |watch|
            && (Gone(s.rt.conn, hs) <==> s.op.registered && DeletionRan(s.rt, s.op))
            && (!Gone(s.rt.conn, hs) ==> Watching(s.rt.conn, hs, watch))
    ensures s.op.registered ==>
              && s.op.deletion.Some? && s.op.deletion.value < |s.rt.calls| == |s.rt.fate| == |s.rt.futures|
              && s.rt.calls[s.op.deletion.value] == Unregister(Granted(s.rt, s.op))
              && (!DeletionRan(s.rt, s.op) ==>
                    s.rt.fate[s.op.deletion.value].Skipped? && s.rt.futures[s.op.deletion.value].Cancelled?)
    ensures !s.op.registered ==> s.op.deletion.None?
  {
    ReachedInv(watch, Notified, requestId, s);
    ModeKept(watch, Notified, requestId, s);
    WatchingIsNotGone(s.rt.conn, Granted(s.rt, s.op), watch);
    if s.op.registered {
      RegisteredMeansGranted(watch, s);
      DeletionSubmittedOnce(watch, requestId, s);
      SettledFate(watch, s, s.op.deletion.value);
    }
  }

  lemma WatchingIsNotGone(d: Device, hs: Handles, watch: seq<Field>)
    requires watch != []
    ensures !(|hs| == |watch| && Watching(d, hs, watch) && Gone(d, hs))
  {
    if |hs| == |watch| && Watching(d, hs, watch) {
      assert hs[0].0 in d.live;
    }
  }

  // --- the condition a caller controls -------------------------------------------------------------

  /** The task is cancelled while it awaits the registration or the deletion. */
  predicate Hasty(s: Sys, m: Move) {
    m.CancelTask? && (s.op.wait.AwaitRegister? || s.op.wait.AwaitDelete?)
  }

  ghost predicate NeverHasty(watch: seq<Field>, s: Sys, ms: seq<Move>)
    decreases |ms|
  {
    ms == [] || (NeverHasty(watch, s, ms[..|ms| - 1]) && !Hasty(Run(watch, s, ms[..|ms| - 1]), ms[|ms| - 1]))
  }

  ghost predicate NotCancelled(futures: seq<Future<Val>>, i: nat) {
    i < |futures| && !futures[i].Cancelled?
  }

  /** Neither the registration nor the deletion has been cancelled, and an operation without handles was given none. */
  ghost predicate Uncancelled(op: Op, futures: seq<Future<Val>>) {
    && (op.deletion.Some? ==> NotCancelled(futures, op.deletion.value))
    && (op.mode.Notified? && op.wait.AwaitRegister? ==> NotCancelled(futures, op.register))
    && (op.mode.Notified? && op.wait.Over? && !op.registered ==>
          op.register < |futures| && futures[op.register].Done?
          && !(futures[op.register].outcome.Returned? && futures[op.register].outcome.value.Registered?))
  }

  /** The runtime cancels only the future it is told to, and the close call's. */
  lemma RuntimeKeepsFutures(watch: seq<Field>, rt: Rt, l: Label<Job, Event>, i: nat)
    requires Inv(DeviceSemantics(watch), rt) && i < |rt.futures| && rt.calls[i] != CloseConn && l != Cancel(i)
    ensures var t := Next(DeviceSemantics(watch), rt, l);
            && (NotCancelled(rt.futures, i) ==> NotCancelled(t.futures, i))
            && (rt.futures[i].Done? ==> i < |t.futures| && t.futures[i] == rt.futures[i])
  {
    hide After, Truthful, LogInv, CallbackInv, FutureInv;
  }

  lemma RuntimeUncancelled(watch: seq<Field>, s: Sys, l: Label<Job, Event>)
    requires SysInv(watch, s) && Fair(s, l) && Uncancelled(s.op, s.rt.futures)
    ensures Uncancelled(s.op, Next(DeviceSemantics(watch), s.rt, l).futures)
  {
    hide Inv, DeviceInv, HandleInv, WakeInv, Next;
    InHandFacts(watch, s.rt);
    if s.op.deletion.Some? { RuntimeKeepsFutures(watch, s.rt, l, s.op.deletion.value); }
    if s.op.mode.Notified? && !s.op.wait.NotInvoked? { RuntimeKeepsFutures(watch, s.rt, l, s.op.register); }
  }

  /** The operation's own moves keep it as well, cancelling in the loop included. */
  lemma OwnMovesUncancelled(s: Sys)
    requires CallsInv(s.op, s.rt.calls) && |s.rt.futures| == |s.rt.calls| && Uncancelled(s.op, s.rt.futures)
    ensures Uncancelled(DoInvoke(s).op, DoInvoke(s).rt.futures)
    ensures Uncancelled(DoTimeout(s).op, DoTimeout(s).rt.futures)
    ensures Uncancelled(DoWake(s).op, DoWake(s).rt.futures)
  {
  }

  lemma ResumeUncancelled(s: Sys)
    requires CallsInv(s.op, s.rt.calls) && |s.rt.futures| == |s.rt.calls| && Uncancelled(s.op, s.rt.futures)
    ensures Uncancelled(DoResume(s).op, DoResume(s).rt.futures)
  {
    hide StatusVerdict;
  }

  lemma CancelUncancelled(s: Sys)
    requires CallsInv(s.op, s.rt.calls) && |s.rt.futures| == |s.rt.calls| && Uncancelled(s.op, s.rt.futures)
    requires !s.op.wait.AwaitRegister? && !s.op.wait.AwaitDelete?
    ensures Uncancelled(DoCancel(s).op, DoCancel(s).rt.futures)
  {
  }

  lemma StepUncancelled(watch: seq<Field>, s: Sys, m: Move)
    requires SysInv(watch, s) && Uncancelled(s.op, s.rt.futures) && !Hasty(s, m)
    ensures Uncancelled(Step(watch, s, m).op, Step(watch, s, m).rt.futures)
  {
    hide Uncancelled, Inv, DeviceInv, HandleInv, WakeInv, FuturesInv, DoInvoke, DoTimeout, DoWake, DoResume, DoCancel, DoDeliver,
      CallsInv, Fair, Next;
    InHandFacts(watch, s.rt);
    match m
    case Runtime(l) => if Fair(s, l) { RuntimeStepUncancelled(watch, s, l); }
    case DeliverNotification(h) => NotifiedUncancelled(watch, s, h);
    case EnqueueEvent =>
    case Invoke => OwnMovesUncancelled(s);
    case Resume => ResumeUncancelled(s);
    case Wake => OwnMovesUncancelled(s);
    case Timeout => OwnMovesUncancelled(s);
    case CancelTask => CancelUncancelled(s);
  }

  lemma RuntimeStepUncancelled(watch: seq<Field>, s: Sys, l: Label<Job, Event>)
    requires SysInv(watch, s) && Uncancelled(s.op, s.rt.futures) && Fair(s, l)
    ensures Uncancelled(Step(watch, s, Runtime(l)).op, Step(watch, s, Runtime(l)).rt.futures)
  {
    RuntimeUncancelled(watch, s, l);
    hide Uncancelled, SysInv, Next;
  }

  lemma NotifiedUncancelled(watch: seq<Field>, s: Sys, h: nat)
    requires Uncancelled(s.op, s.rt.futures)
    ensures Uncancelled(DoDeliver(watch, s, h).op, DoDeliver(watch, s, h).rt.futures)
  {
    hide Uncancelled, Granted;
  }

  lemma {:induction false} RunUncancelled(watch: seq<Field>, s: Sys, ms: seq<Move>)
    requires SysInv(watch, s) && Uncancelled(s.op, s.rt.futures) && NeverHasty(watch, s, ms)
    ensures Uncancelled(Run(watch, s, ms).op, Run(watch, s, ms).rt.futures)
    decreases |ms|
  {
    hide SysInv, Uncancelled, Step;
    if ms != [] {
      var front := ms[..|ms| - 1];
      RunUncancelled(watch, s, front);
      RunKeeps(watch, s, front);
      StepUncancelled(watch, Run(watch, s, front), ms[|ms| - 1]);
    }
  }

  /**
   Hence every run on which the task is never cancelled while it awaits the registration or the deletion
   gives every notification back, on whatever exit.
   */
  lemma PatientGivesBack(watch: seq<Field>, requestId: nat, ms: seq<Move>)
    requires var s := Init(watch, Notified, requestId); NeverHasty(watch, s, ms) && Settled(Run(watch, s, ms)) && watch != []
    ensures var t := Run(watch, Init(watch, Notified, requestId), ms); Gone(t.rt.conn, Granted(t.rt, t.op))
  {
    var s := Init(watch, Notified, requestId);
    var t := Run(watch, s, ms);
    InitInv(watch, Notified, requestId);
    RunUncancelled(watch, s, ms);
    GivenBackExactly(watch, requestId, t);
    RunKeeps(watch, s, ms);
    ModeKept(watch, Notified, requestId, t);
    NothingLeftMeansSettled(watch, t);
    if !t.op.registered {
      assert t.op.wait.Over?;
      GrantIsTold(watch, t);
    }
  }

  /** What a settled registration future holds is what the device granted. */
  lemma GrantIsTold(watch: seq<Field>, s: Sys)
    requires SysInv(watch, s) && HasGrant(s.rt, s.op) && s.op.register < |s.rt.futures| && s.rt.futures[s.op.register].Done?
    ensures s.rt.futures[s.op.register].outcome == Returned(Registered(Granted(s.rt, s.op)))
  {
    assert Produced(s.rt.fate, s.rt.log, s.op.register, s.rt.futures[s.op.register].outcome);
  }

  // --- a leak stays --------------------------------------------------------------------------------

  /** The operation is over and no deletion of its handles is left to run. */
  ghost predicate Leaked(s: Sys) {
    && s.op.mode.Notified? && HasGrant(s.rt, s.op) && s.op.wait.Over?
    && (s.op.deletion.Some? ==> s.op.deletion.value < |s.rt.fate| && s.rt.fate[s.op.deletion.value].Skipped?)
  }

  /** What has become of a call stays so, and so does what is in the log. */
  lemma FatesStay(watch: seq<Field>, rt: Rt, l: Label<Job, Event>)
    requires Inv(DeviceSemantics(watch), rt)
    ensures var t := Next(DeviceSemantics(watch), rt, l);
            && |rt.fate| <= |t.fate| && rt.log <= t.log
            && forall i | 0 <= i < |rt.fate| && !rt.fate[i].Open? :: t.fate[i] == rt.fate[i]
  {
    InHandFacts(watch, rt);
    if l.Execute? && rt.worker.Running? { ExecuteAdvances(watch, rt); }
    hide Inv, DeviceSemantics;
  }

  lemma LeakedLater(s: Sys, rt: Rt)
    requires Leaked(s) && |s.rt.fate| <= |rt.fate| && s.rt.log <= rt.log
    requires forall i | 0 <= i < |s.rt.fate| && !s.rt.fate[i].Open? :: rt.fate[i] == s.rt.fate[i]
    ensures Leaked(s.(rt := rt))
  {
  }

  lemma LeakedStep(watch: seq<Field>, s: Sys, m: Move)
    requires SysInv(watch, s) && Leaked(s)
    ensures Step(watch, s, m).op == s.op && Leaked(Step(watch, s, m))
  {
    hide Inv, DeviceInv, CallsInv, HandleInv, WakeInv, FuturesInv, Next;
    match m
    case Runtime(l) =>
      FatesStay(watch, s.rt, l);
      LeakedLater(s, Next(DeviceSemantics(watch), s.rt, l));
    case DeliverNotification(h) =>
      FatesStay(watch, s.rt, Outside(Notify(h)));
      LeakedLater(s, Next(DeviceSemantics(watch), s.rt, Outside(Notify(h))));
    case _ =>
  }

  /** Nothing that happens later gives the notifications back while the connection stays open. */
  lemma {:induction false} LeakStays(watch: seq<Field>, s: Sys, ms: seq<Move>)
    requires SysInv(watch, s) && Leaked(s)
    ensures var t := Run(watch, s, ms);
            && t.op == s.op && Leaked(t) && SysInv(watch, t)
            && (StayedOpen(t.rt, t.op) ==> Watching(t.rt.conn, Granted(t.rt, t.op), watch))
    decreases |ms|
  {
    hide Inv, DeviceInv, WakeInv, FuturesInv, Step;
    if ms != [] {
      LeakStays(watch, s, ms[..|ms| - 1]);
      LeakedStep(watch, Run(watch, s, ms[..|ms| - 1]), ms[|ms| - 1]);
    }
    RunKeeps(watch, s, ms);
  }

  // --- it happens ----------------------------------------------------------------------------------

  /** Open the connection, invoke, and serve the registration. */
  const REGISTERING: seq<Move> := [Runtime(Submit(OpenConn))] + SERVE + [Invoke] + SERVE

  function GrantedFirst(watch: seq<Field>): (Device, Handles) {
    RegisterAll(INITIAL.(open := true), watch)
  }

  /** The registration is done; the operation has not heard of it, and its start call is still queued. */
  function Registering(watch: seq<Field>, requestId: nat): Sys {
    var (d, hs) := GrantedFirst(watch);
    Sys(State([OpenConn, Register, StartRun(requestId)], [Done(Returned(Nothing)), Done(Returned(Registered(hs))), Pending],
              [Call(2)], Waiting, [], false, NotCalled, d, 2, [Executed(0), Executed(1), Open],
              [Ran(0, OpenConn, Returned(Nothing)), Ran(1, Register, Returned(Registered(hs)))]),
        Op(Notified, requestId, 1, 2, false, [], None, AwaitRegister), 0, 0)
  }

  lemma OpeningRuns(watch: seq<Field>, requestId: nat)
    ensures Run(watch, Init(watch, Notified, requestId), [Runtime(Submit(OpenConn))] + SERVE) ==
            Sys(State([OpenConn], [Done(Returned(Nothing))], [], Waiting, [], false, NotCalled, INITIAL.(open := true), 1,
                      [Executed(0)], [Ran(0, OpenConn, Returned(Nothing))]),
                Op(Notified, requestId, 0, 0, false, [], None, NotInvoked), 0, 0)
  {
    hide RegisterAll, SERVE;
    var origin, open := Init(watch, Notified, requestId), [Runtime(Submit(OpenConn))];
    RunThen(watch, origin, [], Runtime(Submit(OpenConn)));
    assert [] + [Runtime(Submit(OpenConn))] == open;
    ServeRuns(watch, origin, open, Run(watch, origin, open), 0);
  }

  lemma RegisteringRuns(watch: seq<Field>, requestId: nat)
    ensures Run(watch, Init(watch, Notified, requestId), REGISTERING) == Registering(watch, requestId)
  {
    hide RegisterAll, SERVE;
    var origin, ms := Init(watch, Notified, requestId), [Runtime(Submit(OpenConn))] + SERVE;
    OpeningRuns(watch, requestId);
    RunThen(watch, origin, ms, Invoke);
    hide Run, Init;
    ServeRuns(watch, origin, ms + [Invoke], Run(watch, origin, ms + [Invoke]), 1);
  }

  /** A registered operation that is over, on an idle runtime, with its start call skipped. */
  function Leak(watch: seq<Field>, requestId: nat, registered: bool): Sys {
    var (d, hs) := GrantedFirst(watch);
    var s := Registering(watch, requestId);
    if registered then
      s.(rt := s.rt.(calls := s.rt.calls + [Unregister(hs)], futures := [s.rt.futures[0], s.rt.futures[1], Cancelled, Cancelled],
                     queue := [], taken := 4, fate := [Executed(0), Executed(1), Skipped, Skipped]),
         op := s.op.(registered := true, handles := hs, deletion := Some(3), wait := Over(OpCancelled)))
    else
      s.(rt := s.rt.(futures := [s.rt.futures[0], s.rt.futures[1], Cancelled], queue := [], taken := 3,
                     fate := [Executed(0), Executed(1), Skipped]),
         op := s.op.(wait := Over(OpCancelled)))
  }

  function DeletionHandedOver(watch: seq<Field>, requestId: nat): Sys {
    DoCancel(DoCancel(DoResume(Registering(watch, requestId))))
  }

  function RegistrationHandedOver(watch: seq<Field>, requestId: nat): Sys {
    var s := DoCancel(Registering(watch, requestId));
    s.(rt := CancelCall(s.rt, 2))
  }

  lemma DeletionSkipped(watch: seq<Field>, requestId: nat)
    ensures var s := DeletionHandedOver(watch, requestId);
            s.(rt := WorkerCheck(WorkerGet(WorkerCheck(WorkerGet(s.rt))))) == Leak(watch, requestId, true)
  {
    hide GrantedFirst;
    var s, hs := Registering(watch, requestId), GrantedFirst(watch).1;
    var c := DeletionHandedOver(watch, requestId);
    assert c.op == Op(Notified, requestId, 1, 2, true, hs, Some(3), Over(OpCancelled));
    assert c.rt.queue == [Call(2), Call(3)] && c.rt.futures == [s.rt.futures[0], s.rt.futures[1], Cancelled, Cancelled];
    var d := WorkerCheck(WorkerGet(c.rt));
    assert d.queue == [Call(3)] && d.fate == [Executed(0), Executed(1), Skipped, Open];
  }

  lemma RegistrationSkipped(watch: seq<Field>, requestId: nat)
    ensures var s := RegistrationHandedOver(watch, requestId);
            s.(rt := WorkerCheck(WorkerGet(s.rt))) == Leak(watch, requestId, false)
  {
    hide GrantedFirst;
    var s, c := Registering(watch, requestId), RegistrationHandedOver(watch, requestId);
    assert c.rt.queue == [Call(2)] && c.rt.futures == [s.rt.futures[0], s.rt.futures[1], Cancelled];
  }

  /** Cancelled in the loop, and once more while it awaits the deletion. */
  lemma DeletionCancelled(watch: seq<Field>, requestId: nat)
    ensures Reached(watch, Notified, requestId, Leak(watch, requestId, true))
  {
    RegisteringRuns(watch, requestId);
    DeletionSkipped(watch, requestId);
    hide Registering, Leak, DoCancel, DoResume, REGISTERING, WorkerGet, WorkerCheck;
    var origin, ms := Init(watch, Notified, requestId), REGISTERING + [Resume] + [CancelTask] + [CancelTask];
    RunThen(watch, origin, REGISTERING, Resume);
    RunThen(watch, origin, REGISTERING + [Resume], CancelTask);
    RunThen(watch, origin, REGISTERING + [Resume] + [CancelTask], CancelTask);
    assert Run(watch, origin, ms) == DeletionHandedOver(watch, requestId);
    hide Run, Step, DeletionHandedOver;
    TakeRuns(watch, origin, ms);
    TakeRuns(watch, origin, ms + [Runtime(Get)] + [Runtime(Check)]);
  }

  /** Cancelled while it awaits the registration that the worker has already run, and the start call with it. */
  lemma RegistrationCancelled(watch: seq<Field>, requestId: nat)
    ensures Reached(watch, Notified, requestId, Leak(watch, requestId, false))
  {
    RegisteringRuns(watch, requestId);
    RegistrationSkipped(watch, requestId);
    var origin, ms := Init(watch, Notified, requestId), REGISTERING + [CancelTask];
    RunThen(watch, origin, REGISTERING, CancelTask);
    RunThen(watch, origin, ms, Runtime(Cancel(2)));
    assert Fair(DoCancel(Registering(watch, requestId)), Cancel(2));
    assert Run(watch, origin, ms + [Runtime(Cancel(2))]) == RegistrationHandedOver(watch, requestId);
    hide Registering, Leak, DoCancel, REGISTERING, WorkerGet, WorkerCheck, Run, Step, RegistrationHandedOver;
    TakeRuns(watch, origin, ms + [Runtime(Cancel(2))]);
  }

  /** In either state nothing is left to happen. */
  lemma LeakIsSettled(watch: seq<Field>, requestId: nat, registered: bool)
    ensures var s := Leak(watch, requestId, registered);
            Settled(s) && Leaked(s) && s.op.registered == registered && s.op.wait == Over(OpCancelled)
  {
    var s, d := Leak(watch, requestId, registered), INITIAL.(open := true);
    assert DeviceInv(d);
    RegisterAllFresh(d, watch);
    hide GrantedFirst, DeviceInv;
    assert s.rt.conn.pending == multiset{};
    forall m: Move ensures !Advances(s, m) {
    }
  }

  /**
   Both are reached on an open connection that was never closed: a cancelled operation whose notifications
   are all still registered, with nothing left to happen, and for good.
   */
  lemma NotificationsLeak(watch: seq<Field>, requestId: nat, registered: bool) returns (s: Sys)
    requires watch != []
    ensures Reached(watch, Notified, requestId, s) && Settled(s) && s.op.registered == registered
    ensures s.op.wait == Over(OpCancelled) && Watching(s.rt.conn, Granted(s.rt, s.op), watch)
    ensures forall ms: seq<Move> :: var t := Run(watch, s, ms);
              t.op == s.op && (StayedOpen(t.rt, t.op) ==> Watching(t.rt.conn, Granted(t.rt, t.op), watch))
  {
    s := Leak(watch, requestId, registered);
    LeakIsSettled(watch, requestId, registered);
    if registered { DeletionCancelled(watch, requestId); } else { RegistrationCancelled(watch, requestId); }
    ReachedInv(watch, Notified, requestId, s);
    hide Leak, Reached, SysInv, Settled, Leaked, Watching;
    forall ms: seq<Move>
      ensures var t := Run(watch, s, ms);
              t.op == s.op && (StayedOpen(t.rt, t.op) ==> Watching(t.rt.conn, Granted(t.rt, t.op), watch))
    {
      LeakStays(watch, s, ms);
    }
    LeakStays(watch, s, []);
  }
}
