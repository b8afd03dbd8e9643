/**
 `AsyncConnection` as an object: its fields are updated in place by the event-loop methods and by the
 worker's loop. Every method is proved to be the runtime step (or steps) of the same name, so what is
 proved about runs in `SerialTheorems` holds of the object. Cancelling a future is the caller's step, by
 the event loop's own means.
 */
module AsyncConnections {
  import opened Wrappers
  import opened SerialRuntime

  const REQUEST_ID_MODULUS: nat := 0x1_0000_0000

  class AsyncConnection<C, K, V, E> {
    const sem: Semantics<C, K, V, E>
    var calls: seq<K>
    var futures: seq<Future<V>>
    var queue: seq<Item>
    var worker: Worker<V>
    var callbacks: seq<Callback<V>>
    var closed: bool
    var phase: Phase
    var conn: C
    var requestIdCounter: nat
    ghost var taken: nat
    ghost var fate: seq<Fate>
    ghost var log: seq<Entry<K, V, E>>

    ghost function View(): State<C, K, V, E>
      reads this
    {
      State(calls, futures, queue, worker, callbacks, closed, phase, conn, taken, fate, log)
    }

    ghost predicate Valid()
      reads this
    {
      Inv(sem, View())
    }

    constructor (sem: Semantics<C, K, V, E>)
      ensures Valid() && this.sem == sem && View() == Start(sem) && requestIdCounter == 1
    {
      this.sem := sem;
      calls, futures, queue, callbacks := [], [], [], [];
      worker, closed, phase, conn := Waiting, false, NotCalled, sem.init;
      requestIdCounter := 1;
      taken, fate, log := 0, [], [];
      new;
      InvStart(sem);
    }

    /** Queue a call and hand out its future, or raise when the connection is closed. */
    method Submit(call: K) returns (r: Result<nat>)
      requires Valid()
      modifies this
      ensures Valid() && View() == SubmitCall(old(View()), call)
      ensures requestIdCounter == old(requestIdCounter)
      ensures r == if old(closed) then Err(RuntimeError) else Ok(old(|calls|))
      ensures old(closed) ==> View() == old(View())
      ensures !old(closed) ==>
                && calls == old(calls) + [call] && futures == old(futures) + [Pending] && queue == old(queue) + [Call(old(|calls|))]
                && worker == old(worker) && callbacks == old(callbacks) && conn == old(conn) && closed == old(closed)
    {
      hide FateInv, LogInv, CallbackInv, FutureInv, CloseInv, After, Truthful;
      SubmitKeeps(sem, View(), call);
      if closed {
        return Err(RuntimeError);
      }
      r := Ok(|futures|);
      queue := queue + [Call(|calls|)];
      futures := futures + [Pending];
      calls := calls + [call];
      fate := fate + [Open];
    }

    /** Ids count up from 1 and wrap at 32 bits. */
    method NextRequestId() returns (id: nat)
      requires Valid()
      modifies this`requestIdCounter
      ensures Valid() && View() == old(View())
      ensures requestIdCounter == old(requestIdCounter) + 1
      ensures id == RequestIdAt(old(requestIdCounter))
    {
      id := requestIdCounter % REQUEST_ID_MODULUS;
      requestIdCounter := requestIdCounter + 1;
    }

    /**
     The worker's loop from one blocking `get` to the next: it ends when the queue is empty or the
     shutdown signal has been read. Each call found is run unless its future was cancelled.
     */
    method WorkerMain() returns (ghost schedule: seq<Label<K, E>>)
      requires Valid() && worker.Waiting?
      modifies this
      ensures Valid() && View() == Play(sem, old(View()), schedule)
      ensures requestIdCounter == old(requestIdCounter)
      ensures forall k | 0 <= k < |schedule| :: schedule[k] in {Get, Check, Execute, Post}
      ensures queue == [] && (worker.Waiting? || worker.Exited?) && calls == old(calls) && futures == old(futures)
      ensures |fate| == |futures| && forall i | 0 <= i < old(taken) :: fate[i] == old(fate)[i]
      ensures forall i | old(taken) <= i < |fate| ::
                if futures[i].Cancelled? then fate[i].Skipped? else fate[i].Executed?
    {
      hide Serve, LogInv, CallbackInv, FutureInv, CloseInv, After, Truthful;
      schedule := [];
      while worker.Waiting? && queue != []
        invariant Valid() && View() == Play(sem, old(View()), schedule)
        invariant requestIdCounter == old(requestIdCounter)
        invariant worker.Waiting? || (worker.Exited? && queue == [])
        invariant calls == old(calls) && futures == old(futures) && old(taken) <= taken
        invariant forall k | 0 <= k < |schedule| :: schedule[k] in {Get, Check, Execute, Post}
        invariant forall i | 0 <= i < old(taken) :: fate[i] == old(fate)[i]
        invariant forall i | old(taken) <= i < taken ::
                    if futures[i].Cancelled? then fate[i].Skipped? else fate[i].Executed?
        decreases |queue|
      {
        schedule := ServePlays(sem, old(View()), schedule);
        ServeKeeps(sem, View());
        ServeSettles(sem, View());
        ServeOne();
      }
    }

    /** One round of the worker's loop: get, test for shutdown and cancellation, run, post. */
    method ServeOne()
      requires Valid() && worker.Waiting? && queue != []
      modifies this`queue, this`worker, this`taken, this`conn, this`fate, this`log, this`callbacks
      ensures View() == Serve(sem, old(View()))
    {
      Take();
      if worker.Holding? {
        TestCancelled();
        if worker.Running? {
          RunAndPost();
        }
      }
    }

    method Take()
      requires Valid() && worker.Waiting? && queue != []
      modifies this`queue, this`worker, this`taken
      ensures Valid() && View() == WorkerGet(old(View())) && queue == old(queue)[1..]
      ensures worker.Holding? || worker.Exited?
      ensures worker.Holding? ==> worker.id == old(taken) && taken == old(taken) + 1 && worker.id < |fate| == |futures|
      ensures worker.Exited? ==> queue == [] && taken == old(taken)
    {
      hide LogInv, CallbackInv, FutureInv, CloseInv, After, Truthful;
      GetKeeps(sem, View());
      if queue[0].Call? { BacklogPop(taken, |calls|); }
      var item := queue[0];
      queue := queue[1..];
      match item
      case Shutdown => worker := Exited;
      case Call(id) => worker, taken := Holding(id), taken + 1;
    }

    method TestCancelled()
      requires Valid() && worker.Holding?
      modifies this`worker, this`fate
      ensures Valid() && View() == WorkerCheck(old(View()))
      ensures old(worker).id < |futures| == |fate|
      ensures if futures[old(worker).id].Cancelled?
              then worker.Waiting? && fate == old(fate)[old(worker).id := Skipped]
              else worker == Running(old(worker).id) && fate == old(fate)
    {
      CheckKeeps(sem, View());
      var id := worker.id;
      if futures[id].Cancelled? {
        worker, fate := Waiting, fate[id := Skipped];
      } else {
        worker := Running(id);
      }
    }

    method RunAndPost()
      requires Valid() && worker.Running?
      modifies this`conn, this`worker, this`fate, this`log, this`callbacks
      ensures Valid() && View() == WorkerPost(WorkerExecute(sem, old(View())))
      ensures worker.Waiting? && old(worker).id < |fate| == old(|fate|)
      ensures fate == old(fate)[old(worker).id := fate[old(worker).id]] && fate[old(worker).id].Executed?
    {
      hide LogInv, CallbackInv, FutureInv, CloseInv, After, Truthful;
      ExecuteKeeps(sem, View());
      PostKeeps(sem, WorkerExecute(sem, View()));
      var id := worker.id;
      var (c, outcome) := sem.run(conn, calls[id]);
      conn, fate, log := c, fate[id := Executed(|log|)], log + [Ran(id, calls[id], outcome)];
      worker, callbacks := Waiting, callbacks + [Callback(id, outcome)];
    }

    /** The event loop runs the oldest posted `_set_*_if_pending` callback. */
    method RunCallback()
      requires Valid() && callbacks != []
      modifies this
      ensures Valid() && View() == LoopDeliver(old(View()))
      ensures requestIdCounter == old(requestIdCounter)
    {
      hide LogInv, CloseInv, After, Truthful;
      DeliverKeeps(sem, View());
      var cb := callbacks[0];
      assert Produced(fate, log, cb.id, cb.outcome);
      callbacks := callbacks[1..];
      if futures[cb.id].Pending? {
        futures := futures[cb.id := Done(cb.outcome)];
      }
    }

    /** `aclose` up to its first `await`; true when there is something to wait for. */
    method AcloseFirstHalf() returns (waits: bool)
      requires Valid()
      modifies this
      ensures Valid() && View() == CloseBegin(sem, old(View()))
      ensures requestIdCounter == old(requestIdCounter) && waits == !old(closed)
      ensures old(closed) ==> View() == old(View())
      ensures !old(closed) ==>
                && closed && phase.AwaitClose?
                && calls == old(calls) + [sem.close] && futures == old(futures) + [Pending]
                && queue == old(queue) + [Call(old(|calls|))]
                && worker == old(worker) && callbacks == old(callbacks) && conn == old(conn)
    {
      hide Inv;
      CloseBeginKeeps(sem, View());
      if closed {
        return false;
      }
      closed := true;
      phase := AwaitClose;
      queue := queue + [Call(|calls|)];
      futures := futures + [Pending];
      calls := calls + [sem.close];
      fate := fate + [Open];
      waits := true;
    }

    /** `aclose` after its close future is resolved: send the shutdown signal, or raise. */
    method AcloseSecondHalf() returns (r: Result<()>)
      requires Valid() && CloseResolved(View())
      modifies this
      ensures Valid() && View() == CloseResume(old(View()))
      ensures requestIdCounter == old(requestIdCounter)
      ensures r.Ok? <==> SignalSent(View())
      ensures r.Ok? ==> queue == [Shutdown] && worker.Waiting? && taken == |calls|
    {
      hide LogInv, CallbackInv, FutureInv, After, Truthful;
      ResumeKeeps(sem, View());
      CloseResolvedMeansDrained(sem, View());
      if futures[|futures| - 1].outcome.Raised? {
        phase := Abandoned;
        return Err(RuntimeError);
      }
      queue := queue + [Shutdown];
      phase := Joining;
      r := Ok(());
    }
  }

  /** One round of the worker's loop, as one function of the state. */
  function Serve<C, K, V, E>(sem: Semantics<C, K, V, E>, s: State<C, K, V, E>): State<C, K, V, E> {
    var got := WorkerGet(s);
    if !got.worker.Holding? then got else
    var checked := WorkerCheck(got);
    if checked.worker.Running? then WorkerPost(WorkerExecute(sem, checked)) else checked
  }

  /** A round settles the fate of one more call, by whether its future was cancelled. */
  lemma ServeSettles<C, K, V, E>(sem: Semantics<C, K, V, E>, s: State<C, K, V, E>)
    requires Shape(s) && s.worker.Waiting? && s.queue != []
    ensures var t := Serve(sem, s);
            && t.queue == s.queue[1..] && |t.fate| == |s.fate|
            && (t.worker.Exited? ==> t.fate == s.fate && t.taken == s.taken && t.queue == [])
            && (!t.worker.Exited? ==> t.worker.Waiting? && t.taken == s.taken + 1 && ServedFate(s, t))
  {
    if s.queue == Backlog(s.taken, |s.calls|) { BacklogPop(s.taken, |s.calls|); }
  }

  lemma ServeKeeps<C, K, V, E>(sem: Semantics<C, K, V, E>, s: State<C, K, V, E>)
    requires Inv(sem, s)
    ensures Inv(sem, Serve(sem, s))
  {
    hide Inv, WorkerGet, WorkerCheck, WorkerExecute, WorkerPost;
    GetKeeps(sem, s);
    CheckKeeps(sem, WorkerGet(s));
    ExecuteKeeps(sem, WorkerCheck(WorkerGet(s)));
    PostKeeps(sem, WorkerExecute(sem, WorkerCheck(WorkerGet(s))));
  }

  ghost predicate ServedFate<C, K, V, E>(s: State<C, K, V, E>, t: State<C, K, V, E>) {
    && s.taken < |s.fate| == |t.fate| == |s.futures|
    && t.fate == s.fate[s.taken := t.fate[s.taken]]
    && (if s.futures[s.taken].Cancelled? then t.fate[s.taken].Skipped? else t.fate[s.taken].Executed?)
  }

  lemma PlayOne<C, K, V, E>(sem: Semantics<C, K, V, E>, origin: State<C, K, V, E>, before: seq<Label<K, E>>, l: Label<K, E>)
    ensures Play(sem, origin, before + [l]) == Next(sem, Play(sem, origin, before), l)
  {
    assert (before + [l])[..|before|] == before;
  }

  /** A round of the loop is a schedule of worker steps. */
  lemma ServePlays<C, K, V, E>(sem: Semantics<C, K, V, E>, origin: State<C, K, V, E>, before: seq<Label<K, E>>)
    returns (after: seq<Label<K, E>>)
    ensures Play(sem, origin, after) == Serve(sem, Play(sem, origin, before))
    ensures before <= after && forall k | |before| <= k < |after| :: after[k] in {Get, Check, Execute, Post}
  {
    var s := Play(sem, origin, before);
    PlayOne(sem, origin, before, Get);
    after := before + [Get];
    if WorkerGet(s).worker.Holding? {
      PlayOne(sem, origin, after, Check);
      after := after + [Check];
      if WorkerCheck(WorkerGet(s)).worker.Running? {
        PlayOne(sem, origin, after, Execute);
        PlayOne(sem, origin, after + [Execute], Post);
        after := after + [Execute] + [Post];
      }
    }
  }

  function RequestIdAt(count: nat): nat {
    count % REQUEST_ID_MODULUS
  }

  /** Below 2^32 an id is the counter itself, and at 2^32 it starts again from 0. */
  lemma IdsCount(count: nat)
    ensures count < 4294967296 ==> RequestIdAt(count) == count
    ensures 4294967296 <= count < 8589934592 ==> RequestIdAt(count) == count - 4294967296
  {
  }

  /** Two automatic ids collide exactly when a whole turn of the 32-bit counter lies between them. */
  lemma RequestIdsCollide(i: nat, j: nat)
    requires i <= j
    ensures RequestIdAt(i) == RequestIdAt(j) <==> (j - i) % REQUEST_ID_MODULUS == 0
    ensures RequestIdAt(i) < REQUEST_ID_MODULUS
  {
    var m := REQUEST_ID_MODULUS;
    assert j - i == m * (j / m - i / m) + (j % m - i % m);
  }
}
