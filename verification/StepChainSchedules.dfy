/** Schedules played one move after the other, for the lemmas that show a state is reached. */
module StepChainSchedules {
  import opened SerialRuntime
  import opened StepChainDevice
  import opened StepChainProtocol

  lemma RunThen(watch: seq<Field>, s: Sys, ms: seq<Move>, m: Move)
    ensures Run(watch, s, ms + [m]) == Step(watch, Run(watch, s, ms), m)
  {
    assert (ms + [m])[..|ms|] == ms;
  }

  /** The steps that take one queued call through the worker and its result through the event loop. */
  const SERVE: seq<Move> := [Runtime(Get), Runtime(Check), Runtime(Execute), Runtime(Post), Runtime(Deliver)]

  /** Call `n` is next in the queue and the worker is free. */
  ghost predicate Ready(rt: Rt, n: nat) {
    && rt.worker.Waiting? && rt.callbacks == [] && rt.queue != [] && rt.queue[0] == Call(n)
    && n < |rt.calls| == |rt.futures| == |rt.fate| && rt.futures[n].Pending?
  }

  function Served(watch: seq<Field>, rt: Rt, n: nat): Rt
    requires n < |rt.calls| == |rt.futures| == |rt.fate| && rt.queue != []
  {
    var (c, o) := Exec(watch, rt.conn, rt.calls[n]);
    rt.(queue := rt.queue[1..], taken := rt.taken + 1, conn := c, futures := rt.futures[n := Done(o)],
        fate := rt.fate[n := Executed(|rt.log|)], log := rt.log + [Ran(n, rt.calls[n], o)])
  }

  lemma ServeSteps(watch: seq<Field>, rt: Rt, n: nat)
    requires Ready(rt, n)
    ensures var sem := DeviceSemantics(watch);
            LoopDeliver(WorkerPost(WorkerExecute(sem, WorkerCheck(WorkerGet(rt))))) == Served(watch, rt, n)
  {
    hide Exec;
  }

  lemma RuntimeRuns(watch: seq<Field>, origin: Sys, ms: seq<Move>, l: Label<Job, Event>)
    requires l in {Get, Check, Execute, Post, Deliver}
    ensures var s := Run(watch, origin, ms);
            Run(watch, origin, ms + [Runtime(l)]) == s.(rt := Next(DeviceSemantics(watch), s.rt, l))
  {
    RunThen(watch, origin, ms, Runtime(l));
    hide Run, Next;
  }

  lemma TakeRuns(watch: seq<Field>, origin: Sys, ms: seq<Move>)
    ensures var s := Run(watch, origin, ms);
            Run(watch, origin, ms + [Runtime(Get)] + [Runtime(Check)]) == s.(rt := WorkerCheck(WorkerGet(s.rt)))
  {
    hide Run;
    RuntimeRuns(watch, origin, ms, Get);
    RuntimeRuns(watch, origin, ms + [Runtime(Get)], Check);
  }

  lemma ServeRuns(watch: seq<Field>, origin: Sys, ms: seq<Move>, s: Sys, n: nat)
    requires s == Run(watch, origin, ms) && Ready(s.rt, n)
    ensures Run(watch, origin, ms + SERVE) == s.(rt := Served(watch, s.rt, n))
  {
    ServeSteps(watch, s.rt, n);
    hide Run, Ready, Served, LoopDeliver, WorkerPost, WorkerExecute, WorkerCheck, WorkerGet, Exec, Start;
    var (a, b, c, d) := (ms + [Runtime(Get)], ms + [Runtime(Get), Runtime(Check)],
                         ms + [Runtime(Get), Runtime(Check), Runtime(Execute)],
                         ms + [Runtime(Get), Runtime(Check), Runtime(Execute), Runtime(Post)]);
    assert b == a + [Runtime(Check)] && c == b + [Runtime(Execute)] && d == c + [Runtime(Post)];
    assert ms + SERVE == d + [Runtime(Deliver)];
    RuntimeRuns(watch, origin, ms, Get);
    RuntimeRuns(watch, origin, a, Check);
    RuntimeRuns(watch, origin, b, Execute);
    RuntimeRuns(watch, origin, c, Post);
    RuntimeRuns(watch, origin, d, Deliver);
  }

  ghost predicate Idling(rt: Rt) {
    && rt.worker.Waiting? && rt.callbacks == [] && rt.queue == [] && |rt.calls| == |rt.futures| == |rt.fate| && !rt.closed
  }
}
