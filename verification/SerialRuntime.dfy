/**
 The serialized runtime of `AsyncConnection`: one FIFO queue, one worker thread, futures that are
 resolved by callbacks posted to the event loop, cancellation, and the two phases of `aclose`.

 A state is changed by labelled steps. Every step is atomic; a run is any sequence of labels, and a
 label that is not enabled changes nothing, so "for all label sequences" covers all interleavings.
 `Submit` and the first half of `aclose` are single steps because both run without an `await` on the
 one event-loop thread.
 */
module SerialRuntime {

  /** What running a wrapped call hands back. */
  datatype Outcome<V> = Returned(value: V) | Raised(error: string)

  /** An item of the worker's queue; a call is named by its submission index. */
  datatype Item = Call(id: nat) | Shutdown

  datatype Future<V> = Pending | Cancelled | Done(outcome: Outcome<V>)

  /** Where the worker thread is inside its loop. */
  datatype Worker<V> =
    | Waiting
    | Holding(id: nat)
    | Running(id: nat)
    | Finished(id: nat, outcome: Outcome<V>)
    | Exited

  /** A result handed to the event loop with `call_soon_threadsafe`. */
  datatype Callback<V> = Callback(id: nat, outcome: Outcome<V>)

  /** How far the `aclose` call that closed the connection has come. */
  datatype Phase = NotCalled | AwaitClose | Joining | AllDone | Abandoned

  /** What happened to the device state, in order: calls run by the worker, and outside events. */
  datatype Entry<K, V, E> = Ran(id: nat, call: K, outcome: Outcome<V>) | Env(event: E)

  /** What became of a submitted call. */
  datatype Fate = Open | Executed(at: nat) | Skipped

  /** The meaning of calls and outside events on the synchronous connection's state. */
  datatype Semantics<!C, !K, !V, !E> = Semantics(
    init: C, run: (C, K) -> (C, Outcome<V>), env: (C, E) -> C, close: K)

  datatype State<C, K, V, E> = State(
    calls: seq<K>,
    futures: seq<Future<V>>,
    queue: seq<Item>,
    worker: Worker<V>,
    callbacks: seq<Callback<V>>,
    closed: bool,
    phase: Phase,
    conn: C,
    // history
    taken: nat,
    fate: seq<Fate>,
    log: seq<Entry<K, V, E>>)

  datatype Label<K, E> =
    | Submit(call: K)
    | Cancel(id: nat)
    | Get
    | Check
    | Execute
    | Post
    | Deliver
    | AcloseBegin
    | AcloseResume
    | AcloseJoined
    | AcloseCancelled
    | Outside(event: E)

  function Start<C, K, V, E>(sem: Semantics<C, K, V, E>): State<C, K, V, E> {
    State([], [], [], Waiting, [], false, NotCalled, sem.init, 0, [], [])
  }

  // --- steps -------------------------------------------------------------------------------------

  function Enqueue<C, K, V, E>(s: State<C, K, V, E>, call: K): State<C, K, V, E> {
    s.(calls := s.calls + [call], futures := s.futures + [Pending], fate := s.fate + [Open],
       queue := s.queue + [Call(|s.calls|)])
  }

  /** The future awaited by `aclose`; no caller holds it. */
  predicate IsCloseFuture<C, K, V, E>(s: State<C, K, V, E>, id: nat) {
    s.closed && id + 1 == |s.calls|
  }

  function SubmitCall<C, K, V, E>(s: State<C, K, V, E>, call: K): State<C, K, V, E> {
    if s.closed then s else Enqueue(s, call)
  }

  predicate InRange<C, K, V, E>(s: State<C, K, V, E>, id: nat) {
    id < |s.calls| == |s.futures| == |s.fate|
  }

  function SetIfPending<V>(futures: seq<Future<V>>, id: nat, f: Future<V>): seq<Future<V>>
    requires id < |futures|
  {
    if futures[id].Pending? then futures[id := f] else futures
  }

  function CancelCall<C, K, V, E>(s: State<C, K, V, E>, id: nat): State<C, K, V, E> {
    if InRange(s, id) && !IsCloseFuture(s, id)
    then s.(futures := SetIfPending(s.futures, id, Cancelled)) else s
  }

  function WorkerGet<C, K, V, E>(s: State<C, K, V, E>): State<C, K, V, E> {
    if s.worker.Waiting? && s.queue != [] then
      match s.queue[0]
      case Shutdown => s.(queue := s.queue[1..], worker := Exited)
      case Call(id) => s.(queue := s.queue[1..], worker := Holding(id), taken := s.taken + 1)
    else s
  }

  function WorkerCheck<C, K, V, E>(s: State<C, K, V, E>): State<C, K, V, E> {
    if s.worker.Holding? && InRange(s, s.worker.id) then
      var id := s.worker.id;
      if s.futures[id].Cancelled? then s.(worker := Waiting, fate := s.fate[id := Skipped])
      else s.(worker := Running(id))
    else s
  }

  function WorkerExecute<C, K, V, E>(sem: Semantics<C, K, V, E>, s: State<C, K, V, E>): State<C, K, V, E> {
    if s.worker.Running? && InRange(s, s.worker.id) then
      var id := s.worker.id;
      var (c, o) := sem.run(s.conn, s.calls[id]);
      s.(conn := c, worker := Finished(id, o), fate := s.fate[id := Executed(|s.log|)],
         log := s.log + [Ran(id, s.calls[id], o)])
    else s
  }

  function WorkerPost<C, K, V, E>(s: State<C, K, V, E>): State<C, K, V, E> {
    if s.worker.Finished? then
      s.(worker := Waiting, callbacks := s.callbacks + [Callback(s.worker.id, s.worker.outcome)])
    else s
  }

  function LoopDeliver<C, K, V, E>(s: State<C, K, V, E>): State<C, K, V, E> {
    if s.callbacks != [] && InRange(s, s.callbacks[0].id) then
      var cb := s.callbacks[0];
      s.(callbacks := s.callbacks[1..], futures := SetIfPending(s.futures, cb.id, Done(cb.outcome)))
    else s
  }

  function CloseBegin<C, K, V, E>(sem: Semantics<C, K, V, E>, s: State<C, K, V, E>): State<C, K, V, E> {
    if s.closed then s else Enqueue(s, sem.close).(closed := true, phase := AwaitClose)
  }

  predicate CloseResolved<C, K, V, E>(s: State<C, K, V, E>) {
    s.phase.AwaitClose? && s.calls != [] && InRange(s, |s.calls| - 1) && s.futures[|s.calls| - 1].Done?
  }

  /** `await close_future` returns or raises; only on return is the shutdown signal sent. */
  function CloseResume<C, K, V, E>(s: State<C, K, V, E>): State<C, K, V, E> {
    if CloseResolved(s) then
      if s.futures[|s.calls| - 1].outcome.Returned?
      then s.(queue := s.queue + [Shutdown], phase := Joining)
      else s.(phase := Abandoned)
    else s
  }

  function CloseJoined<C, K, V, E>(s: State<C, K, V, E>): State<C, K, V, E> {
    if s.phase.Joining? && s.worker.Exited? then s.(phase := AllDone) else s
  }

  /** The task running `aclose` is cancelled while it awaits the close future or the join. */
  function CloseCancelled<C, K, V, E>(s: State<C, K, V, E>): State<C, K, V, E> {
    if s.phase.AwaitClose? && s.calls != [] && InRange(s, |s.calls| - 1) then
      s.(phase := Abandoned, futures := SetIfPending(s.futures, |s.calls| - 1, Cancelled))
    else if s.phase.Joining? then s.(phase := Abandoned)
    else s
  }

  function Next<C, K, V, E>(sem: Semantics<C, K, V, E>, s: State<C, K, V, E>, l: Label<K, E>): State<C, K, V, E> {
    match l
    case Submit(call) => SubmitCall(s, call)
    case Cancel(id) => CancelCall(s, id)
    case Get => WorkerGet(s)
    case Check => WorkerCheck(s)
    case Execute => WorkerExecute(sem, s)
    case Post => WorkerPost(s)
    case Deliver => LoopDeliver(s)
    case AcloseBegin => CloseBegin(sem, s)
    case AcloseResume => CloseResume(s)
    case AcloseJoined => CloseJoined(s)
    case AcloseCancelled => CloseCancelled(s)
    case Outside(e) => s.(conn := sem.env(s.conn, e), log := s.log + [Env(e)])
  }

  function Play<C, K, V, E>(sem: Semantics<C, K, V, E>, s: State<C, K, V, E>, ls: seq<Label<K, E>>): State<C, K, V, E>
    decreases |ls|
  {
    if ls == [] then s else Next(sem, Play(sem, s, ls[..|ls| - 1]), ls[|ls| - 1])
  }

  // --- the sequential reference ------------------------------------------------------------------

  /** The connection state after a log: each entry applied to the state the earlier ones left. */
  function After<C, K, V, E>(sem: Semantics<C, K, V, E>, log: seq<Entry<K, V, E>>): C
    decreases |log|
  {
    if log == [] then sem.init else
    var c := After(sem, log[..|log| - 1]);
    match log[|log| - 1]
    case Ran(_, call, _) => sem.run(c, call).0
    case Env(e) => sem.env(c, e)
  }

  /** Every run call got the outcome of applying it to the state left by everything before it. */
  ghost predicate Truthful<C, K, V, E>(sem: Semantics<C, K, V, E>, log: seq<Entry<K, V, E>>) {
    forall p | 0 <= p < |log| && log[p].Ran? :: log[p].outcome == sem.run(After(sem, log[..p]), log[p].call).1
  }

  lemma AfterSnoc<C, K, V, E>(sem: Semantics<C, K, V, E>, log: seq<Entry<K, V, E>>, e: Entry<K, V, E>)
    ensures After(sem, log + [e]) == match e case Ran(_, call, _) => sem.run(After(sem, log), call).0
                                             case Env(ev) => sem.env(After(sem, log), ev)
  {
    assert (log + [e])[..|log|] == log;
  }

  lemma TruthfulSnoc<C, K, V, E>(sem: Semantics<C, K, V, E>, log: seq<Entry<K, V, E>>, e: Entry<K, V, E>)
    requires Truthful(sem, log)
    requires e.Ran? ==> e.outcome == sem.run(After(sem, log), e.call).1
    ensures Truthful(sem, log + [e])
  {
    var more := log + [e];
    forall p | 0 <= p < |more| && more[p].Ran?
      ensures more[p].outcome == sem.run(After(sem, more[..p]), more[p].call).1
    {
      if p < |log| {
        assert more[..p] == log[..p];
      } else {
        assert more[..p] == log;
      }
    }
  }

  // --- the invariant -----------------------------------------------------------------------------

  function Backlog(from: nat, to: nat): seq<Item>
    requires from <= to
  {
    seq(to - from, i requires 0 <= i => Call(from + i))
  }

  /** The shutdown signal has been put on the queue. */
  predicate SignalSent<C, K, V, E>(s: State<C, K, V, E>) {
    s.worker.Exited? || (s.queue != [] && s.queue[|s.queue| - 1].Shutdown?)
  }

  ghost predicate Shape<C, K, V, E>(s: State<C, K, V, E>) {
    && |s.futures| == |s.calls| == |s.fate|
    && s.taken <= |s.calls|
    && (s.queue == Backlog(s.taken, |s.calls|)
        || (s.taken == |s.calls| && s.queue == [Shutdown] && s.worker.Waiting?))
    && (s.worker.Exited? ==> s.queue == [])
  }

  /** The call the worker has in hand and has not run. */
  predicate InHand<V>(worker: Worker<V>, id: nat) {
    (worker.Holding? || worker.Running?) && worker.id == id
  }

  /** Taken calls are settled except the one in hand; it is the last one taken. */
  ghost predicate FateInv<V>(worker: Worker<V>, taken: nat, fate: seq<Fate>, futures: seq<Future<V>>)
    requires taken <= |fate| == |futures|
  {
    && (worker.Holding? || worker.Running? || worker.Finished? ==> worker.id + 1 == taken)
    && (forall i | 0 <= i < |fate| :: fate[i].Open? <==> taken <= i || InHand(worker, i))
    && (forall i | 0 <= i < |fate| :: fate[i].Skipped? ==> futures[i].Cancelled?)
  }

  /** The log and the calls' fates describe each other, and calls ran in submission order. */
  ghost predicate LogInv<K, V, E>(calls: seq<K>, fate: seq<Fate>, log: seq<Entry<K, V, E>>)
    requires |calls| == |fate|
  {
    && (forall i | 0 <= i < |fate| && fate[i].Executed? ::
          fate[i].at < |log| && log[fate[i].at].Ran? && log[fate[i].at].id == i)
    && (forall p | 0 <= p < |log| && log[p].Ran? ::
          log[p].id < |fate| && fate[log[p].id] == Executed(p) && log[p].call == calls[log[p].id])
    && (forall p, q | 0 <= p < q < |log| && log[p].Ran? && log[q].Ran? :: log[p].id < log[q].id)
  }

  /** Call `i` has run and `o` is what it produced. */
  ghost predicate Produced<K, V, E>(fate: seq<Fate>, log: seq<Entry<K, V, E>>, i: nat, o: Outcome<V>) {
    && i < |fate| && fate[i].Executed? && fate[i].at < |log|
    && log[fate[i].at].Ran? && log[fate[i].at].outcome == o
  }

  /** Results on their way to the event loop: in submission order, each the call's own. */
  ghost predicate CallbackInv<K, V, E>(
    worker: Worker<V>, callbacks: seq<Callback<V>>, fate: seq<Fate>, log: seq<Entry<K, V, E>>)
  {
    && (worker.Finished? ==> Produced(fate, log, worker.id, worker.outcome))
    && (forall c | 0 <= c < |callbacks| :: Produced(fate, log, callbacks[c].id, callbacks[c].outcome))
    && (forall c, d | 0 <= c < d < |callbacks| :: callbacks[c].id < callbacks[d].id)
  }

  /** Nothing still on its way is at or before call `i`. */
  ghost predicate Delivered<V>(worker: Worker<V>, callbacks: seq<Callback<V>>, i: nat) {
    && (worker.Finished? ==> i < worker.id)
    && (forall c | 0 <= c < |callbacks| :: i < callbacks[c].id)
  }

  ghost predicate OnItsWay<V>(worker: Worker<V>, callbacks: seq<Callback<V>>, i: nat) {
    (worker.Finished? && worker.id == i) || exists c :: 0 <= c < |callbacks| && callbacks[c].id == i
  }

  /** A resolved future holds its own call's outcome; a run call's result is never lost on the way. */
  ghost predicate FutureInv<K, V, E>(
    worker: Worker<V>, callbacks: seq<Callback<V>>, futures: seq<Future<V>>, fate: seq<Fate>,
    log: seq<Entry<K, V, E>>)
    requires |futures| == |fate|
  {
    && (forall i | 0 <= i < |futures| && futures[i].Done? ::
          Produced(fate, log, i, futures[i].outcome) && Delivered(worker, callbacks, i))
    && (forall i | 0 <= i < |futures| && futures[i].Pending? && fate[i].Executed? :: OnItsWay(worker, callbacks, i))
    && (worker.Finished? ==> forall c | 0 <= c < |callbacks| :: callbacks[c].id < worker.id)
  }

  ghost predicate CloseInv<C, K, V, E>(sem: Semantics<C, K, V, E>, s: State<C, K, V, E>)
    requires Shape(s)
  {
    && (s.closed <==> !s.phase.NotCalled?)
    && (s.closed ==> s.calls != [] && s.calls[|s.calls| - 1] == sem.close)
    && (s.phase.AwaitClose? ==> !SignalSent(s) && !s.futures[|s.calls| - 1].Cancelled?)
    && (s.phase.Joining? || s.phase.AllDone? ==> SignalSent(s) && s.futures[|s.calls| - 1].Done?)
    && (s.phase.AllDone? ==> s.worker.Exited?)
    && (SignalSent(s) ==> s.closed && s.taken == |s.calls| && s.callbacks == []
                          && (s.worker.Waiting? || s.worker.Exited?))
  }

  ghost predicate Inv<C, K, V, E>(sem: Semantics<C, K, V, E>, s: State<C, K, V, E>) {
    && Shape(s)
    && FateInv(s.worker, s.taken, s.fate, s.futures)
    && LogInv(s.calls, s.fate, s.log)
    && CallbackInv(s.worker, s.callbacks, s.fate, s.log)
    && FutureInv(s.worker, s.callbacks, s.futures, s.fate, s.log)
    && CloseInv(sem, s)
    && s.conn == After(sem, s.log)
    && Truthful(sem, s.log)
  }

  lemma InvStart<C, K, V, E>(sem: Semantics<C, K, V, E>)
    ensures Inv(sem, Start(sem))
  {
  }

  lemma BacklogPop(from: nat, to: nat)
    requires from < to
    ensures Backlog(from, to)[0] == Call(from) && Backlog(from, to)[1..] == Backlog(from + 1, to)
  {
  }

  lemma BacklogPush(from: nat, to: nat)
    requires from <= to
    ensures Backlog(from, to) + [Call(to)] == Backlog(from, to + 1)
  {
  }

  lemma EnqueueKeeps<C, K, V, E>(sem: Semantics<C, K, V, E>, s: State<C, K, V, E>, call: K)
    requires Inv(sem, s) && !s.closed
    ensures Inv(sem, Enqueue(s, call)) && !SignalSent(Enqueue(s, call))
  {
    hide After, Truthful;
    BacklogPush(s.taken, |s.calls|);
    var t := Enqueue(s, call);
    assert forall i, o | Produced(s.fate, s.log, i, o) :: Produced(t.fate, t.log, i, o);
  }

  lemma GetKeeps<C, K, V, E>(sem: Semantics<C, K, V, E>, s: State<C, K, V, E>)
    requires Inv(sem, s)
    ensures Inv(sem, WorkerGet(s))
  {
    hide After, Truthful;
    if s.worker.Waiting? && s.queue != [] {
      if s.queue == Backlog(s.taken, |s.calls|) {
        BacklogPop(s.taken, |s.calls|);
      }
    }
  }

  lemma CheckKeeps<C, K, V, E>(sem: Semantics<C, K, V, E>, s: State<C, K, V, E>)
    requires Inv(sem, s)
    ensures Inv(sem, WorkerCheck(s))
  {
    hide After, Truthful;
    if s.worker.Holding? && s.futures[s.worker.id].Cancelled? {
      SkipFate(s.calls, s.fate, s.log, s.worker.id);
    }
  }

  lemma SkipFate<K, V, E>(calls: seq<K>, fate: seq<Fate>, log: seq<Entry<K, V, E>>, id: nat)
    requires |calls| == |fate| && LogInv(calls, fate, log)
    requires id < |fate| && fate[id].Open?
    ensures LogInv(calls, fate[id := Skipped], log)
    ensures forall i, x: Outcome<V> | Produced(fate, log, i, x) :: Produced(fate[id := Skipped], log, i, x)
  {
  }

  lemma LogSnoc<K, V, E>(calls: seq<K>, fate: seq<Fate>, log: seq<Entry<K, V, E>>, id: nat, o: Outcome<V>)
    requires |calls| == |fate| && LogInv(calls, fate, log)
    requires id < |fate| && fate[id].Open?
    requires forall i | id < i < |fate| :: fate[i].Open?
    ensures LogInv(calls, fate[id := Executed(|log|)], log + [Ran(id, calls[id], o)])
    ensures Produced(fate[id := Executed(|log|)], log + [Ran(id, calls[id], o)], id, o)
    ensures forall i, x | Produced(fate, log, i, x) ::
              i != id && Produced(fate[id := Executed(|log|)], log + [Ran(id, calls[id], o)], i, x)
  {
  }

  lemma ExecuteKeeps<C, K, V, E>(sem: Semantics<C, K, V, E>, s: State<C, K, V, E>)
    requires Inv(sem, s)
    ensures Inv(sem, WorkerExecute(sem, s))
  {
    hide After, Truthful;
    if s.worker.Running? {
      var id := s.worker.id;
      var o := sem.run(s.conn, s.calls[id]).1;
      LogSnoc(s.calls, s.fate, s.log, id, o);
      AfterSnoc(sem, s.log, Ran(id, s.calls[id], o));
      TruthfulSnoc(sem, s.log, Ran(id, s.calls[id], o));
    }
  }

  lemma PostKeeps<C, K, V, E>(sem: Semantics<C, K, V, E>, s: State<C, K, V, E>)
    requires Inv(sem, s)
    ensures Inv(sem, WorkerPost(s))
  {
    hide After, Truthful;
    if s.worker.Finished? {
      var t := WorkerPost(s);
      assert t.callbacks[|s.callbacks|].id == s.worker.id;
      assert forall c | 0 <= c < |s.callbacks| :: t.callbacks[c] == s.callbacks[c];
      assert forall i | OnItsWay(s.worker, s.callbacks, i) :: OnItsWay(t.worker, t.callbacks, i);
    }
  }

  lemma DeliverFutures<K, V, E>(
    worker: Worker<V>, callbacks: seq<Callback<V>>, futures: seq<Future<V>>, fate: seq<Fate>, log: seq<Entry<K, V, E>>)
    requires callbacks != [] && |futures| == |fate|
    requires CallbackInv(worker, callbacks, fate, log) && FutureInv(worker, callbacks, futures, fate, log)
    ensures callbacks[0].id < |futures|
    ensures FutureInv(worker, callbacks[1..], SetIfPending(futures, callbacks[0].id, Done(callbacks[0].outcome)), fate, log)
  {
    var head := callbacks[0].id;
    assert Produced(fate, log, head, callbacks[0].outcome);
    forall i | OnItsWay(worker, callbacks, i) && i != head
      ensures OnItsWay(worker, callbacks[1..], i)
    {
      if !(worker.Finished? && worker.id == i) {
        var c :| 0 <= c < |callbacks| && callbacks[c].id == i;
        assert callbacks[1..][c - 1].id == i;
      }
    }
    assert Delivered(worker, callbacks[1..], head);
  }

  lemma DeliverKeeps<C, K, V, E>(sem: Semantics<C, K, V, E>, s: State<C, K, V, E>)
    requires Inv(sem, s)
    ensures Inv(sem, LoopDeliver(s))
  {
    hide After, Truthful;
    if s.callbacks != [] {
      DeliverFutures(s.worker, s.callbacks, s.futures, s.fate, s.log);
    }
  }

  lemma OutsideKeeps<C, K, V, E>(sem: Semantics<C, K, V, E>, s: State<C, K, V, E>, e: E)
    requires Inv(sem, s)
    ensures Inv(sem, Next(sem, s, Outside(e)))
  {
    hide After, Truthful;
    AfterSnoc(sem, s.log, Env(e));
    TruthfulSnoc(sem, s.log, Env(e));
    OutsideLog(s.calls, s.fate, s.log, e);
  }

  lemma OutsideLog<K, V, E>(calls: seq<K>, fate: seq<Fate>, log: seq<Entry<K, V, E>>, e: E)
    requires |calls| == |fate| && LogInv(calls, fate, log)
    ensures LogInv(calls, fate, log + [Env(e)])
    ensures forall i, x: Outcome<V> | Produced(fate, log, i, x) :: Produced(fate, log + [Env(e)], i, x)
  {
  }

  lemma HeadInRange<K, V, E>(
    worker: Worker<V>, callbacks: seq<Callback<V>>, fate: seq<Fate>, log: seq<Entry<K, V, E>>)
    requires callbacks != [] && CallbackInv(worker, callbacks, fate, log)
    ensures callbacks[0].id < |fate|
  {
    assert Produced(fate, log, callbacks[0].id, callbacks[0].outcome);
  }

  /** When the close future is resolved, everything before it has run or been skipped, and been delivered. */
  lemma CloseResolvedMeansDrained<C, K, V, E>(sem: Semantics<C, K, V, E>, s: State<C, K, V, E>)
    requires Inv(sem, s) && CloseResolved(s)
    ensures s.taken == |s.calls| && s.queue == [] && s.worker.Waiting? && s.callbacks == []
  {
    var last := |s.calls| - 1;
    assert Produced(s.fate, s.log, last, s.futures[last].outcome);
    assert Delivered(s.worker, s.callbacks, last);
    if s.callbacks != [] {
      HeadInRange(s.worker, s.callbacks, s.fate, s.log);
    }
  }

  lemma ResumeKeeps<C, K, V, E>(sem: Semantics<C, K, V, E>, s: State<C, K, V, E>)
    requires Inv(sem, s)
    ensures Inv(sem, CloseResume(s))
  {
    hide After, Truthful;
    if CloseResolved(s) {
      CloseResolvedMeansDrained(sem, s);
    }
  }

  lemma CancelKeeps<C, K, V, E>(sem: Semantics<C, K, V, E>, s: State<C, K, V, E>, id: nat)
    requires Inv(sem, s)
    ensures Inv(sem, CancelCall(s, id))
  {
    hide After, Truthful;
  }

  lemma CloseCancelledKeeps<C, K, V, E>(sem: Semantics<C, K, V, E>, s: State<C, K, V, E>)
    requires Inv(sem, s)
    ensures Inv(sem, CloseCancelled(s))
  {
    hide After, Truthful;
  }

  lemma SubmitKeeps<C, K, V, E>(sem: Semantics<C, K, V, E>, s: State<C, K, V, E>, call: K)
    requires Inv(sem, s)
    ensures Inv(sem, SubmitCall(s, call))
  {
    if !s.closed { EnqueueKeeps(sem, s, call); }
  }

  lemma CloseBeginKeeps<C, K, V, E>(sem: Semantics<C, K, V, E>, s: State<C, K, V, E>)
    requires Inv(sem, s)
    ensures Inv(sem, CloseBegin(sem, s))
  {
    if !s.closed { EnqueueKeeps(sem, s, sem.close); }
  }

  /** Every step of every interleaving keeps the invariant. */
  lemma InvNext<C, K, V, E>(sem: Semantics<C, K, V, E>, s: State<C, K, V, E>, l: Label<K, E>)
    requires Inv(sem, s)
    ensures Inv(sem, Next(sem, s, l))
  {
    match l
    case Submit(call) => SubmitKeeps(sem, s, call);
    case Cancel(id) => CancelKeeps(sem, s, id);
    case Get => GetKeeps(sem, s);
    case Check => CheckKeeps(sem, s);
    case Execute => ExecuteKeeps(sem, s);
    case Post => PostKeeps(sem, s);
    case Deliver => DeliverKeeps(sem, s);
    case AcloseBegin => CloseBeginKeeps(sem, s);
    case AcloseResume => ResumeKeeps(sem, s);
    case AcloseJoined =>
    case AcloseCancelled => CloseCancelledKeeps(sem, s);
    case Outside(e) => OutsideKeeps(sem, s, e);
  }

  lemma {:induction false} InvPlay<C, K, V, E>(sem: Semantics<C, K, V, E>, s: State<C, K, V, E>, ls: seq<Label<K, E>>)
    requires Inv(sem, s)
    ensures Inv(sem, Play(sem, s, ls))
    decreases |ls|
  {
    if ls != [] {
      InvPlay(sem, s, ls[..|ls| - 1]);
      InvNext(sem, Play(sem, s, ls[..|ls| - 1]), ls[|ls| - 1]);
    }
  }
}
