/**
 What every run of the serialized runtime guarantees: sequential execution in submission order,
 single assignment of futures, and a shutdown that drains the queue.
 */
module SerialTheorems {
  import opened Wrappers
  import opened SerialRuntime

  /** A state some run reaches. */
  ghost predicate Reachable<C(!new), K(!new), V(!new), E(!new)>(sem: Semantics<C, K, V, E>, s: State<C, K, V, E>) {
    exists ls :: s == Play(sem, Start(sem), ls)
  }

  lemma ReachableInv<C(!new), K(!new), V(!new), E(!new)>(sem: Semantics<C, K, V, E>, s: State<C, K, V, E>)
    requires Reachable(sem, s)
    ensures Inv(sem, s)
  {
    var ls :| s == Play(sem, Start(sem), ls);
    InvStart(sem);
    InvPlay(sem, Start(sem), ls);
  }

  // --- serialization -----------------------------------------------------------------------------

  /** The submission indices of the calls that ran, in the order they ran. */
  function RanIds<K, V, E>(log: seq<Entry<K, V, E>>): seq<nat>
    decreases |log|
  {
    if log == [] then [] else
    var ids := RanIds(log[..|log| - 1]);
    if log[|log| - 1].Ran? then ids + [log[|log| - 1].id] else ids
  }

  /** The submission indices below `n` whose call was run: the submission sequence with the rest deleted. */
  function Kept(fate: seq<Fate>, n: nat): seq<nat>
    requires n <= |fate|
  {
    if n == 0 then [] else Kept(fate, n - 1) + (if fate[n - 1].Executed? then [n - 1] else [])
  }

  function Pick<K>(calls: seq<K>, ids: seq<nat>): seq<K>
    requires forall k | 0 <= k < |ids| :: ids[k] < |calls|
  {
    seq(|ids|, k requires 0 <= k < |ids| => calls[ids[k]])
  }

  /** Sequential execution: a left fold of the calls over the connection state. */
  function Fold<C, K, V, E>(sem: Semantics<C, K, V, E>, calls: seq<K>): C
    decreases |calls|
  {
    if calls == [] then sem.init else sem.run(Fold(sem, calls[..|calls| - 1]), calls[|calls| - 1]).0
  }

  lemma {:induction false} KeptBelow(fate: seq<Fate>, n: nat)
    requires n <= |fate|
    ensures forall k | 0 <= k < |Kept(fate, n)| :: Kept(fate, n)[k] < n && fate[Kept(fate, n)[k]].Executed?
    ensures forall i | 0 <= i < n && fate[i].Executed? :: i in Kept(fate, n)
  {
    if n > 0 {
      KeptBelow(fate, n - 1);
    }
  }

  /** Calls not run between `m` and `n` leave no trace. */
  lemma {:induction false} KeptGap(fate: seq<Fate>, m: nat, n: nat)
    requires m <= n <= |fate|
    requires forall i | m <= i < n :: !fate[i].Executed?
    ensures Kept(fate, n) == Kept(fate, m)
  {
    if m < n {
      KeptGap(fate, m, n - 1);
    }
  }

  /** Below `n` ran exactly the calls the log holds before position `p`. */
  ghost predicate Split<K, V, E>(fate: seq<Fate>, log: seq<Entry<K, V, E>>, p: nat, n: nat) {
    forall i | 0 <= i < |fate| && fate[i].Executed? :: i < n <==> fate[i].at < p
  }

  lemma SplitBack<K, V, E>(calls: seq<K>, fate: seq<Fate>, log: seq<Entry<K, V, E>>, p: nat, n: nat)
    requires |calls| == |fate| && LogInv(calls, fate, log) && Split(fate, log, p, n)
    requires 0 < p <= |log| && n <= |fate| && log[p - 1].Ran?
    ensures var id := log[p - 1].id;
            id < n && fate[id].Executed? && Split(fate, log, p - 1, id)
            && forall i | id < i < n :: !fate[i].Executed?
  {
    var id := log[p - 1].id;
    assert fate[id] == Executed(p - 1);
    assert forall i | 0 <= i < |fate| && fate[i].Executed? :: log[fate[i].at].Ran? && log[fate[i].at].id == i;
  }

  lemma {:induction false} RanIdsAreKept<K, V, E>(calls: seq<K>, fate: seq<Fate>, log: seq<Entry<K, V, E>>, p: nat, n: nat)
    requires |calls| == |fate| && LogInv(calls, fate, log) && Split(fate, log, p, n)
    requires p <= |log| && n <= |fate|
    ensures RanIds(log[..p]) == Kept(fate, n)
    decreases p
  {
    if p == 0 {
      KeptGap(fate, 0, n);
    } else {
      assert log[..p][..p - 1] == log[..p - 1];
      if log[p - 1].Ran? {
        SplitBack(calls, fate, log, p, n);
        KeptGap(fate, log[p - 1].id + 1, n);
        RanIdsAreKept(calls, fate, log, p - 1, log[p - 1].id);
      } else {
        assert Split(fate, log, p - 1, n) by {
          assert forall i | 0 <= i < |fate| && fate[i].Executed? :: log[fate[i].at].Ran?;
        }
        RanIdsAreKept(calls, fate, log, p - 1, n);
      }
    }
  }

  ghost predicate NoOutside<K, V, E>(log: seq<Entry<K, V, E>>) {
    forall p | 0 <= p < |log| :: log[p].Ran?
  }

  lemma {:induction false} AfterIsFold<C, K, V, E>(sem: Semantics<C, K, V, E>, calls: seq<K>, log: seq<Entry<K, V, E>>)
    requires NoOutside(log)
    requires forall p | 0 <= p < |log| && log[p].Ran? :: log[p].id < |calls| && log[p].call == calls[log[p].id]
    ensures forall k | 0 <= k < |RanIds(log)| :: RanIds(log)[k] < |calls|
    ensures After(sem, log) == Fold(sem, Pick(calls, RanIds(log)))
    decreases |log|
  {
    if log != [] {
      var front := log[..|log| - 1];
      AfterIsFold(sem, calls, front);
      var picked := Pick(calls, RanIds(log));
      assert picked[..|picked| - 1] == Pick(calls, RanIds(front));
    }
  }

  /**
   Serialization refines sequential execution. In every reachable state the calls already run are
   the submission sequence minus the ones not run, in submission order; a taken call that did not
   run was cancelled or is the one in the worker's hand; and the connection state is the left fold of
   those calls (when nothing else touched the device).
   */
  lemma SerialExecution<C(!new), K(!new), V(!new), E(!new)>(sem: Semantics<C, K, V, E>, s: State<C, K, V, E>)
    requires Reachable(sem, s)
    ensures |s.fate| == |s.calls| == |s.futures| && s.taken <= |s.calls|
    ensures RanIds(s.log) == Kept(s.fate, |s.fate|)
    ensures forall i | 0 <= i < s.taken ::
              s.fate[i].Executed? || s.futures[i].Cancelled? || InHand(s.worker, i)
    ensures forall i | s.taken <= i < |s.calls| :: s.fate[i].Open?
    ensures forall k | 0 <= k < |Kept(s.fate, |s.fate|)| :: Kept(s.fate, |s.fate|)[k] < |s.calls|
    ensures NoOutside(s.log) ==> s.conn == Fold(sem, Pick(s.calls, Kept(s.fate, |s.fate|)))
  {
    ReachableInv(sem, s);
    RanIdsAreKept(s.calls, s.fate, s.log, |s.log|, |s.fate|);
    assert s.log[..|s.log|] == s.log;
    KeptBelow(s.fate, |s.fate|);
    if NoOutside(s.log) {
      AfterIsFold(sem, s.calls, s.log);
    }
  }

  /** A call that is cancelled before the worker looks at it never runs, whatever happens next. */
  lemma {:induction false} CancelledNeverRuns<C, K, V, E>(
    sem: Semantics<C, K, V, E>, s: State<C, K, V, E>, ls: seq<Label<K, E>>, i: nat)
    requires Inv(sem, s) && i < |s.calls| && s.futures[i].Cancelled?
    requires s.taken <= i || s.worker == Holding(i)
    ensures Inv(sem, Play(sem, s, ls)) && i < |Play(sem, s, ls).fate| && !Play(sem, s, ls).fate[i].Executed?
    ensures var t := Play(sem, s, ls);
            t.futures[i].Cancelled? && t.worker != Running(i) && (t.taken <= i || t.worker == Holding(i) || t.fate[i].Skipped?)
    decreases |ls|
  {
    if ls != [] {
      var front := ls[..|ls| - 1];
      CancelledNeverRuns(sem, s, front, i);
      var t := Play(sem, s, front);
      InvNext(sem, t, ls[|ls| - 1]);
      NeverRunsStep(sem, t, ls[|ls| - 1], i);
    }
  }

  lemma NeverRunsStep<C, K, V, E>(sem: Semantics<C, K, V, E>, s: State<C, K, V, E>, l: Label<K, E>, i: nat)
    requires Shape(s) && FateInv(s.worker, s.taken, s.fate, s.futures)
    requires i < |s.calls| && s.futures[i].Cancelled? && s.worker != Running(i)
    requires s.taken <= i || s.worker == Holding(i) || s.fate[i].Skipped?
    ensures var t := Next(sem, s, l);
            i < |t.fate| && i < |t.futures| && !t.fate[i].Executed? && t.futures[i].Cancelled? && t.worker != Running(i)
            && (t.taken <= i || t.worker == Holding(i) || t.fate[i].Skipped?)
  {
    hide After;
    if l.Get? && s.queue != [] && s.queue != [Shutdown] {
      BacklogPop(s.taken, |s.calls|);
    }
  }

  // --- futures -----------------------------------------------------------------------------------

  lemma SettledStep<C, K, V, E>(sem: Semantics<C, K, V, E>, s: State<C, K, V, E>, l: Label<K, E>, i: nat)
    requires i < |s.futures| && !s.futures[i].Pending?
    ensures i < |Next(sem, s, l).futures| && Next(sem, s, l).futures[i] == s.futures[i]
  {
  }

  /** A future leaves pending at most once: once settled it is the same for the rest of every run. */
  lemma {:induction false} FutureSettlesOnce<C, K, V, E>(
    sem: Semantics<C, K, V, E>, s: State<C, K, V, E>, ls: seq<Label<K, E>>, i: nat)
    requires i < |s.futures| && !s.futures[i].Pending?
    ensures i < |Play(sem, s, ls).futures| && Play(sem, s, ls).futures[i] == s.futures[i]
    decreases |ls|
  {
    if ls != [] {
      FutureSettlesOnce(sem, s, ls[..|ls| - 1], i);
      SettledStep(sem, Play(sem, s, ls[..|ls| - 1]), ls[|ls| - 1], i);
    }
  }

  /**
   A resolved future holds the outcome of its own call, applied to the state left by everything that
   ran before it; of two resolved futures the earlier submission ran first.
   */
  lemma FutureHoldsOwnResult<C, K, V, E>(sem: Semantics<C, K, V, E>, s: State<C, K, V, E>, i: nat) returns (p: nat)
    requires Inv(sem, s) && i < |s.futures| && s.futures[i].Done?
    ensures p < |s.log| && i < |s.calls| && s.log[p] == Ran(i, s.calls[i], s.futures[i].outcome)
    ensures s.futures[i].outcome == sem.run(After(sem, s.log[..p]), s.calls[i]).1
    ensures forall q | 0 <= q < |s.log| && s.log[q].Ran? :: s.log[q].id < i <==> q < p
  {
    assert Produced(s.fate, s.log, i, s.futures[i].outcome);
    p := s.fate[i].at;
  }

  /** Delivering a result changes no future but its own, and not that one if it was cancelled. */
  lemma DeliveryIsLocal<C, K, V, E>(sem: Semantics<C, K, V, E>, s: State<C, K, V, E>, i: nat)
    requires Inv(sem, s) && s.callbacks != [] && i < |s.futures|
    requires i != s.callbacks[0].id || s.futures[i].Cancelled?
    ensures LoopDeliver(s).futures[i] == s.futures[i]
    ensures |LoopDeliver(s).callbacks| + 1 == |s.callbacks|
  {
    assert Produced(s.fate, s.log, s.callbacks[0].id, s.callbacks[0].outcome);
  }

  /** When nothing is queued, in hand or on its way, no future is left pending. */
  lemma QuietMeansSettled<C, K, V, E>(sem: Semantics<C, K, V, E>, s: State<C, K, V, E>)
    requires Inv(sem, s) && s.queue == [] && s.callbacks == [] && (s.worker.Waiting? || s.worker.Exited?)
    ensures forall i | 0 <= i < |s.futures| ::
              s.futures[i].Cancelled? || (s.futures[i].Done? && s.fate[i].Executed?)
  {
    assert |Backlog(s.taken, |s.calls|)| == |s.calls| - s.taken;
    forall i | 0 <= i < |s.futures|
      ensures s.futures[i].Cancelled? || (s.futures[i].Done? && s.fate[i].Executed?)
    {
      assert s.fate[i].Executed? || s.fate[i].Skipped?;
      assert !OnItsWay(s.worker, s.callbacks, i);
      if s.futures[i].Done? { assert Produced(s.fate, s.log, i, s.futures[i].outcome); }
    }
  }

  // --- shutdown ----------------------------------------------------------------------------------

  /** When `aclose` returns, every call's future is settled, the queue is empty and the worker is gone. */
  lemma AcloseDrains<C(!new), K(!new), V(!new), E(!new)>(sem: Semantics<C, K, V, E>, s: State<C, K, V, E>)
    requires Reachable(sem, s) && s.phase.AllDone?
    ensures s.queue == [] && s.worker.Exited? && s.callbacks == [] && |s.fate| == |s.futures| == |s.calls|
    ensures forall i | 0 <= i < |s.futures| ::
              s.futures[i].Cancelled? || (s.futures[i].Done? && s.fate[i].Executed?)
    ensures s.calls != [] && s.calls[|s.calls| - 1] == sem.close && s.fate[|s.calls| - 1].Executed?
  {
    ReachableInv(sem, s);
    QuietMeansSettled(sem, s);
    assert Produced(s.fate, s.log, |s.calls| - 1, s.futures[|s.calls| - 1].outcome);
  }

  /** Once closed is set, no later step of any run adds a call: nothing gets behind the close call. */
  lemma {:induction false} NothingBehindClose<C, K, V, E>(
    sem: Semantics<C, K, V, E>, s: State<C, K, V, E>, ls: seq<Label<K, E>>)
    requires s.closed
    ensures Play(sem, s, ls).closed && Play(sem, s, ls).calls == s.calls
    decreases |ls|
  {
    if ls != [] {
      NothingBehindClose(sem, s, ls[..|ls| - 1]);
    }
  }

  /** The steps of the worker, the event loop and `aclose` itself that change the state. */
  predicate Works<C, K, V, E>(s: State<C, K, V, E>, l: Label<K, E>) {
    match l
    case Get => s.worker.Waiting? && s.queue != []
    case Check => s.worker.Holding?
    case Execute => s.worker.Running?
    case Post => s.worker.Finished?
    case Deliver => s.callbacks != []
    case AcloseResume => CloseResolved(s)
    case AcloseJoined => s.phase.Joining? && s.worker.Exited?
    case _ => false
  }

  function WorkerWork<V>(w: Worker<V>): nat {
    match w case Holding(_) => 4 case Running(_) => 3 case Finished(_, _) => 2 case _ => 0
  }

  function PhaseWork(p: Phase): nat {
    match p case AwaitClose => 7 case Joining => 1 case _ => 0
  }

  /** Work left: what is ahead of the shutdown signal, and the phases of `aclose`. */
  function WorkLeft<C, K, V, E>(s: State<C, K, V, E>): nat {
    5 * |s.queue| + WorkerWork(s.worker) + |s.callbacks| + PhaseWork(s.phase)
  }

  /** Every working step uses up work, and on a closed connection no other step adds any. */
  lemma WorkDecreases<C, K, V, E>(sem: Semantics<C, K, V, E>, s: State<C, K, V, E>, l: Label<K, E>)
    requires Inv(sem, s)
    ensures Works(s, l) ==> WorkLeft(Next(sem, s, l)) < WorkLeft(s)
    ensures s.closed ==> WorkLeft(Next(sem, s, l)) <= WorkLeft(s)
  {
    hide After, Truthful, LogInv, FutureInv, CloseInv;
    if l.Deliver? && s.callbacks != [] {
      assert Produced(s.fate, s.log, s.callbacks[0].id, s.callbacks[0].outcome);
    }
  }

  /** How many of the labels are working steps when they are played. */
  function Worked<C, K, V, E>(sem: Semantics<C, K, V, E>, s: State<C, K, V, E>, ls: seq<Label<K, E>>): nat
    decreases |ls|
  {
    if ls == [] then 0 else
    Worked(sem, s, ls[..|ls| - 1]) + (if Works(Play(sem, s, ls[..|ls| - 1]), ls[|ls| - 1]) then 1 else 0)
  }

  /** However the steps are interleaved, a closed connection works at most `WorkLeft` more steps. */
  lemma {:induction false} DrainIsBounded<C, K, V, E>(
    sem: Semantics<C, K, V, E>, s: State<C, K, V, E>, ls: seq<Label<K, E>>)
    requires Inv(sem, s) && s.closed
    ensures WorkLeft(Play(sem, s, ls)) + Worked(sem, s, ls) <= WorkLeft(s)
    decreases |ls|
  {
    if ls != [] {
      var front := ls[..|ls| - 1];
      DrainIsBounded(sem, s, front);
      InvPlay(sem, s, front);
      NothingBehindClose(sem, s, front);
      WorkDecreases(sem, Play(sem, s, front), ls[|ls| - 1]);
    }
  }

  /** A step that works, when one exists. */
  function Turn<C, K, V, E>(s: State<C, K, V, E>): Label<K, E> {
    if s.callbacks != [] then Deliver
    else match s.worker
      case Holding(_) => Check
      case Running(_) => Execute
      case Finished(_, _) => Post
      case Exited => AcloseJoined
      case Waiting => if s.queue != [] then Get else AcloseResume
  }

  /** The shutdown never gets stuck: while `aclose` is waiting, some step can work. */
  lemma NeverStuck<C, K, V, E>(sem: Semantics<C, K, V, E>, s: State<C, K, V, E>)
    requires Inv(sem, s) && (s.phase.AwaitClose? || s.phase.Joining?)
    ensures Works(s, Turn(s))
  {
    if s.callbacks == [] && s.worker.Waiting? && s.queue == [] {
      QuietMeansSettled(sem, s);
    }
  }

  /** Hence every run in which no working step is left ends with `aclose` returned or given up. */
  lemma AcloseFinishes<C, K, V, E>(sem: Semantics<C, K, V, E>, s: State<C, K, V, E>, ls: seq<Label<K, E>>)
    requires Inv(sem, s) && s.closed
    requires forall l: Label<K, E> :: !Works(Play(sem, s, ls), l)
    ensures Play(sem, s, ls).phase.AllDone? || Play(sem, s, ls).phase.Abandoned?
    ensures Worked(sem, s, ls) <= WorkLeft(s)
  {
    InvPlay(sem, s, ls);
    DrainIsBounded(sem, s, ls);
    NothingBehindClose(sem, s, ls);
    var t := Play(sem, s, ls);
    if t.phase.AwaitClose? || t.phase.Joining? {
      NeverStuck(sem, t);
    }
  }

  ghost predicate CloseRaised<C, K, V, E>(s: State<C, K, V, E>) {
    s.calls != [] && |s.futures| == |s.calls| && s.futures[|s.calls| - 1].Done?
    && s.futures[|s.calls| - 1].outcome.Raised?
  }

  /** `aclose` gives up only if its task is cancelled or the connection's `close` raises. */
  lemma {:induction false} GivesUpOnlyOnRaise<C, K, V, E>(
    sem: Semantics<C, K, V, E>, s: State<C, K, V, E>, ls: seq<Label<K, E>>)
    requires Inv(sem, s) && s.closed && (s.phase.Abandoned? ==> CloseRaised(s))
    requires forall k | 0 <= k < |ls| :: !ls[k].AcloseCancelled?
    ensures Play(sem, s, ls).phase.Abandoned? ==> CloseRaised(Play(sem, s, ls))
    decreases |ls|
  {
    if ls != [] {
      var front := ls[..|ls| - 1];
      GivesUpOnlyOnRaise(sem, s, front);
      NothingBehindClose(sem, s, front);
      InvPlay(sem, s, front);
      GiveUpStep(sem, Play(sem, s, front), ls[|ls| - 1]);
    }
  }

  lemma GiveUpStep<C, K, V, E>(sem: Semantics<C, K, V, E>, s: State<C, K, V, E>, l: Label<K, E>)
    requires s.closed && |s.futures| == |s.calls| && (s.phase.Abandoned? ==> CloseRaised(s)) && !l.AcloseCancelled?
    ensures Next(sem, s, l).phase.Abandoned? ==> CloseRaised(Next(sem, s, l))
  {
  }

  // --- what each step does -----------------------------------------------------------------------

  /** Submitting to an open connection queues the call last with a pending future; nothing else changes. */
  lemma SubmitQueues<C, K, V, E>(sem: Semantics<C, K, V, E>, s: State<C, K, V, E>, call: K)
    requires Inv(sem, s)
    ensures var t := Next(sem, s, Submit(call));
            && (s.closed ==> t == s)
            && (!s.closed ==>
                  && t.calls == s.calls + [call] && t.futures == s.futures + [Pending] && t.queue == s.queue + [Call(|s.calls|)]
                  && t.fate == s.fate + [Open] && t.worker == s.worker && t.callbacks == s.callbacks && t.conn == s.conn
                  && t.closed == s.closed && t.phase == s.phase && t.taken == s.taken && t.log == s.log)
  {
  }

  /** Cancelling settles a pending future as cancelled, whatever the worker is doing; nothing else changes. */
  lemma CancelSettles<C, K, V, E>(sem: Semantics<C, K, V, E>, s: State<C, K, V, E>, i: nat)
    requires Inv(sem, s) && i < |s.futures| && !(s.closed && i == |s.futures| - 1)
    ensures var t := Next(sem, s, Cancel(i));
            && t.futures[i] == (if s.futures[i].Pending? then Cancelled else s.futures[i])
            && t == s.(futures := s.futures[i := t.futures[i]])
  {
    assert s.futures == s.futures[i := s.futures[i]];
  }

  /** A free worker takes the head of the queue: the next call, or the shutdown signal, at which it exits. */
  lemma GetTakesTheNext<C, K, V, E>(sem: Semantics<C, K, V, E>, s: State<C, K, V, E>)
    requires Inv(sem, s) && s.worker.Waiting? && s.queue != []
    ensures var t := Next(sem, s, Get);
            && t.queue == s.queue[1..] && t == s.(queue := t.queue, worker := t.worker, taken := t.taken)
            && (s.queue[0].Call? ==> s.queue[0].id == s.taken && t.worker == Holding(s.taken) && t.taken == s.taken + 1)
            && (s.queue[0].Shutdown? ==> t.worker.Exited? && t.queue == [] && t.taken == s.taken)
  {
    if s.queue == Backlog(s.taken, |s.calls|) { BacklogPop(s.taken, |s.calls|); }
  }

  /** The call in hand is skipped if its future is cancelled, and run on the connection otherwise; its result is handed over. */
  lemma CallInHandIsServed<C, K, V, E>(sem: Semantics<C, K, V, E>, s: State<C, K, V, E>)
    requires Inv(sem, s) && s.worker.Holding?
    ensures s.worker.id < |s.calls| == |s.futures| == |s.fate|
    ensures var i, t := s.worker.id, Next(sem, s, Check);
            if s.futures[i].Cancelled? then t == s.(worker := Waiting, fate := s.fate[i := Skipped])
            else && t == s.(worker := Running(i))
                 && var u, o := Next(sem, t, Execute), sem.run(s.conn, s.calls[i]).1;
                    && u == s.(worker := Finished(i, o), conn := sem.run(s.conn, s.calls[i]).0,
                               fate := s.fate[i := Executed(|s.log|)], log := s.log + [Ran(i, s.calls[i], o)])
                    && Next(sem, u, Post) == u.(worker := Waiting, callbacks := s.callbacks + [Callback(i, o)])
  {
    hide After, Truthful, LogInv, CallbackInv, FutureInv, CloseInv;
  }

  /** A delivered result settles its own future if that is still pending, and is dropped otherwise. */
  lemma DeliverySettles<C, K, V, E>(sem: Semantics<C, K, V, E>, s: State<C, K, V, E>)
    requires Inv(sem, s) && s.callbacks != []
    ensures s.callbacks[0].id < |s.futures|
    ensures var cb, t := s.callbacks[0], Next(sem, s, Deliver);
            && t.futures[cb.id] == (if s.futures[cb.id].Pending? then Done(cb.outcome) else s.futures[cb.id])
            && t == s.(callbacks := s.callbacks[1..], futures := s.futures[cb.id := t.futures[cb.id]])
  {
    HeadInRange(s.worker, s.callbacks, s.fate, s.log);
    assert s.futures == s.futures[s.callbacks[0].id := s.futures[s.callbacks[0].id]];
  }

  /** `aclose` on an open connection closes it, whatever the worker is doing, with the close call queued last. */
  lemma AcloseCloses<C, K, V, E>(sem: Semantics<C, K, V, E>, s: State<C, K, V, E>)
    requires Inv(sem, s) && !s.closed
    ensures var t := Next(sem, s, AcloseBegin);
            && t.closed && t.phase.AwaitClose?
            && t.calls == s.calls + [sem.close] && t.futures == s.futures + [Pending] && t.queue == s.queue + [Call(|s.calls|)]
            && t.fate == s.fate + [Open] && t.worker == s.worker && t.callbacks == s.callbacks && t.conn == s.conn
            && t.taken == s.taken && t.log == s.log
  {
  }

  /** A returned close sends the shutdown signal, a raising one does not; the worker gone, `aclose` returns. */
  lemma AcloseGoesOn<C, K, V, E>(sem: Semantics<C, K, V, E>, s: State<C, K, V, E>)
    requires Inv(sem, s)
    ensures s.phase.AwaitClose? ==> s.calls != [] && |s.futures| == |s.calls|
    ensures s.phase.AwaitClose? && s.futures[|s.calls| - 1].Done? ==>
              Next(sem, s, AcloseResume) ==
              if s.futures[|s.calls| - 1].outcome.Returned? then s.(queue := [Shutdown], phase := Joining)
              else s.(phase := Abandoned)
    ensures s.phase.Joining? && s.worker.Exited? ==> Next(sem, s, AcloseJoined) == s.(phase := AllDone)
  {
    if CloseResolved(s) { CloseResolvedMeansDrained(sem, s); }
  }

  /** Cancelling the task that closes gives up, and cancels the close call's future if it is still pending. */
  lemma AcloseGivesUp<C, K, V, E>(sem: Semantics<C, K, V, E>, s: State<C, K, V, E>)
    requires Inv(sem, s)
    ensures s.phase.AwaitClose? ==> s.calls != [] && |s.futures| == |s.calls|
    ensures var t := Next(sem, s, AcloseCancelled);
            && (s.phase.AwaitClose? ==>
                  t.phase.Abandoned? && !t.futures[|s.calls| - 1].Pending?
                  && t == s.(phase := Abandoned,
                             futures := if s.futures[|s.calls| - 1].Pending? then s.futures[|s.calls| - 1 := Cancelled] else s.futures))
            && (s.phase.Joining? ==> t == s.(phase := Abandoned))
            && (!s.phase.AwaitClose? && !s.phase.Joining? ==> t == s)
  {
  }

  /** What happens at the device by itself goes to the connection state and the log, and nowhere else. */
  lemma OutsideHappens<C, K, V, E>(sem: Semantics<C, K, V, E>, s: State<C, K, V, E>, e: E)
    ensures Next(sem, s, Outside(e)) == s.(conn := sem.env(s.conn, e), log := s.log + [Env(e)])
  {
  }

  /** From an `aclose` on, every run is closed. */
  lemma {:induction false} ClosedFromThenOn<C, K, V, E>(sem: Semantics<C, K, V, E>, s: State<C, K, V, E>, ls: seq<Label<K, E>>)
    requires Inv(sem, s) && AcloseBegin in ls
    ensures Play(sem, s, ls).closed
    decreases |ls|
  {
    var front, l := ls[..|ls| - 1], ls[|ls| - 1];
    InvPlay(sem, s, front);
    var t := Play(sem, s, front);
    if l.AcloseBegin? {
      if !t.closed { AcloseCloses(sem, t); }
    } else {
      assert ls == front + [l];
      ClosedFromThenOn(sem, s, front);
      NothingBehindClose(sem, t, [l]);
      assert [l][..0] == [] && Play(sem, t, [l]) == Next(sem, t, l);
    }
  }

  /** Hence every run with an `aclose` in it, played until no working step is left, ends with that returned or given up. */
  lemma EveryAcloseFinishes<C, K, V, E>(sem: Semantics<C, K, V, E>, s: State<C, K, V, E>, ls: seq<Label<K, E>>)
    requires Inv(sem, s) && AcloseBegin in ls
    requires forall l: Label<K, E> :: !Works(Play(sem, s, ls), l)
    ensures Play(sem, s, ls).phase.AllDone? || Play(sem, s, ls).phase.Abandoned?
  {
    var t := Play(sem, s, ls);
    ClosedFromThenOn(sem, s, ls);
    InvPlay(sem, s, ls);
    assert Play(sem, t, []) == t;
    AcloseFinishes(sem, t, []);
  }

  // --- two limits of the code --------------------------------------------------------------------

  predicate AllSettled<V>(futures: seq<Future<V>>) {
    forall i | 0 <= i < |futures| :: !futures[i].Pending?
  }

  /** The last call whose future is not cancelled. */
  function LastUncancelled<V>(futures: seq<Future<V>>): (r: Option<nat>)
    ensures r.Some? ==> r.value < |futures| && !futures[r.value].Cancelled?
    ensures forall i | 0 <= i < |futures| && (r.Some? ==> r.value < i) :: futures[i].Cancelled?
  {
    if futures == [] then None
    else if !futures[|futures| - 1].Cancelled? then Some(|futures| - 1)
    else LastUncancelled(futures[..|futures| - 1])
  }

  /** In every reachable state all futures are settled if and only if the last one not cancelled is resolved. */
  lemma SettledExactly<C, K, V, E>(sem: Semantics<C, K, V, E>, s: State<C, K, V, E>)
    requires Inv(sem, s)
    ensures AllSettled(s.futures) <==>
            (LastUncancelled(s.futures).Some? ==> s.futures[LastUncancelled(s.futures).value].Done?)
  {
    var l := LastUncancelled(s.futures);
    if l.Some? && s.futures[l.value].Done? {
      assert Produced(s.fate, s.log, l.value, s.futures[l.value].outcome) && Delivered(s.worker, s.callbacks, l.value);
      assert forall i | 0 <= i < l.value :: s.fate[i].Executed? || s.fate[i].Skipped?;
      assert forall i | 0 <= i < l.value :: !OnItsWay(s.worker, s.callbacks, i);
    }
  }

  /**
   What a second `aclose` may rely on: it changes nothing, and when it returns all futures are settled if
   and only if the close call's future is resolved. The one exception is an `aclose` that was given up
   by cancelling that future: then the last call not cancelled decides.
   */
  lemma SecondAcloseExactly<C, K, V, E>(sem: Semantics<C, K, V, E>, s: State<C, K, V, E>)
    requires Inv(sem, s) && s.closed
    ensures Next(sem, s, AcloseBegin) == s && s.calls != [] && |s.futures| == |s.calls|
    ensures s.futures[|s.calls| - 1].Cancelled? ==> s.phase.Abandoned?
    ensures var close := s.futures[|s.calls| - 1];
            if close.Cancelled?
            then AllSettled(s.futures) <==>
                   (LastUncancelled(s.futures).Some? ==> s.futures[LastUncancelled(s.futures).value].Done?)
            else AllSettled(s.futures) <==> close.Done?
  {
    SettledExactly(sem, s);
  }

  /**
   A second `aclose` returns at once, whether or not the first one has drained the queue: here a
   submitted call is still pending when it returns.
   */
  lemma SecondAcloseReturnsUndrained<C, K, V, E>(sem: Semantics<C, K, V, E>, call: K)
    ensures var s := Play(sem, Start(sem), [Submit(call), AcloseBegin]);
            Next(sem, s, AcloseBegin) == s && s.queue == [Call(0), Call(1)] && s.futures == [Pending, Pending]
  {
    var ls: seq<Label<K, E>> := [Submit(call), AcloseBegin];
    assert ls[..1][..0] == [] && ls[..1] == [Submit(call)];
    assert Play(sem, Start(sem), ls[..1]) == Enqueue(Start(sem), call);
  }

  /** A call put on the queue behind the shutdown signal. */
  ghost predicate Stranded<C, K, V, E>(s: State<C, K, V, E>, id: nat) {
    && id < |s.futures| && !s.futures[id].Done?
    && (s.worker.Waiting? || s.worker.Exited?) && s.callbacks == []
    && (s.worker.Waiting? ==> s.queue != [] && s.queue[0].Shutdown?)
  }

  lemma StrandedStep<C, K, V, E>(sem: Semantics<C, K, V, E>, s: State<C, K, V, E>, l: Label<K, E>, id: nat)
    requires Stranded(s, id)
    ensures Stranded(Next(sem, s, l), id)
  {
  }

  /**
   Why `_submit` must be atomic with the first half of `aclose`: had a second thread passed the
   closed check early and put its call after the shutdown signal, its future would never resolve.
   */
  lemma {:induction false} LatePutNeverResolves<C, K, V, E>(
    sem: Semantics<C, K, V, E>, s: State<C, K, V, E>, call: K, ls: seq<Label<K, E>>)
    requires Inv(sem, s) && s.phase.Joining?
    ensures var t := Play(sem, Enqueue(s, call), ls);
            |s.calls| < |t.futures| && !t.futures[|s.calls|].Done? && Stranded(t, |s.calls|)
    decreases |ls|
  {
    if ls != [] {
      LatePutNeverResolves(sem, s, call, ls[..|ls| - 1]);
      StrandedStep(sem, Play(sem, Enqueue(s, call), ls[..|ls| - 1]), ls[|ls| - 1], |s.calls|);
    }
  }
}
