/**
 The PLC side of a step chain: the function block `FB_TestStepChain`, its cyclic body, its start and
 abort methods, and a record of the runs it has performed.
 */
module StepChainPlc {
  import opened Wrappers

  datatype Status = Status(
    requestId: nat, busy: bool, done: bool, error: bool, errorCode: int, step: nat, stepName: string)

  /** An on-delay timer: running since the call that saw its input rise. Times are in milliseconds. */
  datatype Ton = Ton(input: bool, elapsed: nat)

  function Ticked(t: Ton, input: bool, preset: nat, dt: nat): Ton {
    if !input then Ton(false, 0)
    else if !t.input then Ton(true, 0)
    else Ton(true, if t.elapsed + dt < preset then t.elapsed + dt else preset)
  }

  predicate Elapsed(t: Ton, preset: nat) {
    t.input && preset <= t.elapsed
  }

  const PREPARE: nat := 2000
  const LOAD: nat := 2000
  const PROCESS: nat := 3000
  const FINALIZE: nat := 1000

  datatype Plc = Plc(
    status: Status, busy: bool, step: nat, simulateError: bool,
    prepare: Ton, load: Ton, process: Ton, finalize: Ton)

  const IDLE := Plc(Status(0, false, false, false, 0, 0, ""), false, 0, false,
                    Ton(false, 0), Ton(false, 0), Ton(false, 0), Ton(false, 0))

  /** One call of the function block's body, `dt` milliseconds after the previous one. */
  function Cycle(p: Plc, dt: nat): Plc {
    var q := p.(prepare := Ticked(p.prepare, p.step == 10, PREPARE, dt),
                load := Ticked(p.load, p.step == 20, LOAD, dt),
                process := Ticked(p.process, p.step == 30, PROCESS, dt),
                finalize := Ticked(p.finalize, p.step == 40, FINALIZE, dt),
                status := p.status.(step := p.step, busy := p.busy));
    if !q.busy then q
    else if q.step == 10 then
      q.(status := q.status.(stepName := "Prepare"), step := if Elapsed(q.prepare, PREPARE) then 20 else 10)
    else if q.step == 20 then
      q.(status := q.status.(stepName := "Load"), step := if Elapsed(q.load, LOAD) then 30 else 20)
    else if q.step == 30 then
      if q.simulateError then
        q.(busy := false, step := 901,
           status := Status(q.status.requestId, false, false, true, 9001, 901, "Error"))
      else q.(status := q.status.(stepName := "Process"), step := if Elapsed(q.process, PROCESS) then 40 else 30)
    else if q.step == 40 then
      if Elapsed(q.finalize, FINALIZE) then
        q.(busy := false, step := 100,
           status := Status(q.status.requestId, false, true, false, 0, 100, "Done"))
      else q.(status := q.status.(stepName := "Finalize"))
    else q
  }

  function StartChain(p: Plc, requestId: nat, forceError: bool): (Plc, bool) {
    if p.busy then (p, false)
    else (p.(busy := true, step := 10, simulateError := forceError,
             status := Status(requestId, true, false, false, 0, 10, "Prepare")), true)
  }

  function AbortChain(p: Plc): (Plc, bool) {
    if !p.busy then (p, false)
    else (p.(busy := false, step := 900,
             status := Status(p.status.requestId, false, false, true, -2, 900, "Aborted")), true)
  }

  // --- the runs the block has performed ----------------------------------------------------------

  datatype Ending = DoneOk | FailedWith(code: int)

  datatype RunRecord = RunRecord(id: nat, ending: Option<Ending>)

  /** The block together with the record of its runs, oldest first. */
  datatype Site = Site(plc: Plc, runs: seq<RunRecord>)

  /** How a run ended, by the internal step in which the block stopped being busy. */
  function EndingAt(step: nat): Ending {
    if step == 100 then DoneOk else if step == 901 then FailedWith(9001) else FailedWith(-2)
  }

  /** Close the last record when the block has stopped being busy. */
  function Recorded(before: Plc, after: Plc, runs: seq<RunRecord>): seq<RunRecord> {
    if before.busy && !after.busy && runs != []
    then runs[|runs| - 1 := RunRecord(runs[|runs| - 1].id, Some(EndingAt(after.step)))] else runs
  }

  function SiteCycle(s: Site, dt: nat): Site {
    var p := Cycle(s.plc, dt);
    Site(p, Recorded(s.plc, p, s.runs))
  }

  function SiteStart(s: Site, requestId: nat, forceError: bool): (Site, bool) {
    var (p, accepted) := StartChain(s.plc, requestId, forceError);
    (Site(p, if accepted then s.runs + [RunRecord(requestId, None)] else s.runs), accepted)
  }

  function SiteAbort(s: Site): (Site, bool) {
    var (p, aborted) := AbortChain(s.plc);
    (Site(p, Recorded(s.plc, p, s.runs)), aborted)
  }

  // --- what every step keeps ---------------------------------------------------------------------

  /** The step codes, the busy flag and the published status always agree. */
  ghost predicate PlcInv(p: Plc) {
    && (p.busy <==> p.step in {10, 20, 30, 40})
    && (!p.busy ==> p.step in {0, 100, 900, 901})
    && p.status.busy == p.busy
    && (p.status.done <==> p.step == 100)
    && (p.status.error <==> p.step in {900, 901})
    && p.status.errorCode == (if p.step == 900 then -2 else if p.step == 901 then 9001 else 0)
  }

  ghost predicate SiteInv(s: Site) {
    && PlcInv(s.plc)
    && (s.runs == [] ==> s.plc.step == 0)
    && (s.runs != [] ==>
          var last := s.runs[|s.runs| - 1];
          s.plc.status.requestId == last.id && s.plc.step != 0
          && last.ending == if s.plc.busy then None else Some(EndingAt(s.plc.step)))
    && (forall k | 0 <= k < |s.runs| - 1 :: s.runs[k].ending.Some?)
  }

  /** Runs are only ever added, keep their id, and end at most once. */
  ghost predicate Extends(older: seq<RunRecord>, newer: seq<RunRecord>) {
    && |older| <= |newer|
    && forall k | 0 <= k < |older| ::
         newer[k].id == older[k].id && (older[k].ending.Some? ==> newer[k] == older[k])
  }

  lemma SiteStepsKeep(s: Site, dt: nat, requestId: nat, forceError: bool)
    requires SiteInv(s)
    ensures SiteInv(SiteCycle(s, dt)) && Extends(s.runs, SiteCycle(s, dt).runs)
    ensures SiteInv(SiteStart(s, requestId, forceError).0) && Extends(s.runs, SiteStart(s, requestId, forceError).0.runs)
    ensures SiteInv(SiteAbort(s).0) && Extends(s.runs, SiteAbort(s).0.runs)
  {
  }

  // --- progress ----------------------------------------------------------------------------------

  /** How many working steps lie ahead, and the ticks the current one still needs. */
  function Rank(p: Plc): nat {
    if p.step == 10 then 4 else if p.step == 20 then 3 else if p.step == 30 then 2 else if p.step == 40 then 1 else 0
  }

  function Remaining(t: Ton, preset: nat): nat {
    if !t.input then preset + 1 else if t.elapsed < preset then preset - t.elapsed else 0
  }

  function TicksLeft(p: Plc): nat {
    if p.step == 10 then Remaining(p.prepare, PREPARE)
    else if p.step == 20 then Remaining(p.load, LOAD)
    else if p.step == 30 then Remaining(p.process, PROCESS)
    else if p.step == 40 then Remaining(p.finalize, FINALIZE)
    else 0
  }

  /** Each cycle of a busy block goes down in (steps ahead, ticks left), lexicographically. */
  lemma CycleProgress(p: Plc, dt: nat)
    requires PlcInv(p) && p.busy && dt > 0
    ensures var q := Cycle(p, dt);
            Rank(q) < Rank(p) || (Rank(q) == Rank(p) && TicksLeft(q) < TicksLeft(p))
  {
  }

  /** The same as one number: no step needs more than 3001 ticks. */
  function CyclesLeft(p: Plc): nat {
    3002 * Rank(p) + (if p.busy then TicksLeft(p) else 0)
  }

  function Cycles(p: Plc, dts: seq<nat>): Plc
    decreases |dts|
  {
    if dts == [] then p else Cycle(Cycles(p, dts[..|dts| - 1]), dts[|dts| - 1])
  }

  ghost predicate Ticking(dts: seq<nat>) {
    forall k | 0 <= k < |dts| :: dts[k] > 0
  }

  /**
   Left alone, a started run ends: after at most `CyclesLeft` cycles the block is no longer busy, it
   has kept the request id, and it has succeeded exactly when no error was forced before step 40.
   */
  lemma {:induction false} RunEnds(p: Plc, dts: seq<nat>)
    requires PlcInv(p) && p.busy && Ticking(dts)
    ensures var q := Cycles(p, dts);
            && PlcInv(q) && q.status.requestId == p.status.requestId && q.simulateError == p.simulateError
            && (|dts| >= CyclesLeft(p) ==> !q.busy)
            && (q.busy ==> CyclesLeft(q) + |dts| <= CyclesLeft(p))
            && (p.step == 40 && q.busy ==> q.step == 40)
            && (!q.busy ==> q.step == if p.simulateError && p.step != 40 then 901 else 100)
            && (p.simulateError && p.step != 40 && q.busy ==> q.step != 40)
    decreases |dts|
  {
    if dts != [] {
      var front := dts[..|dts| - 1];
      RunEnds(p, front);
      if Cycles(p, front).busy {
        CycleProgress(Cycles(p, front), dts[|dts| - 1]);
      }
    }
  }

  /** From an accepted start: within 14009 cycles the run is over, done if and only if no error was forced. */
  lemma StartedRunEnds(p: Plc, requestId: nat, forceError: bool, dts: seq<nat>)
    requires PlcInv(p) && !p.busy && Ticking(dts) && |dts| >= 14009
    ensures var q := Cycles(StartChain(p, requestId, forceError).0, dts);
            && !q.busy && q.status.requestId == requestId && q.status.done == !forceError
            && q.status.error == forceError && q.status.errorCode == (if forceError then 9001 else 0)
  {
    RunEnds(StartChain(p, requestId, forceError).0, dts);
  }

  function Sum(dts: seq<nat>): nat {
    if dts == [] then 0 else Sum(dts[..|dts| - 1]) + dts[|dts| - 1]
  }

  function Owed(t: Ton, preset: nat): nat {
    if !t.input then preset else if t.elapsed < preset then preset - t.elapsed else 0
  }

  /** The milliseconds a busy block still needs to succeed. */
  function Needed(p: Plc): nat {
    if p.step == 10 then Owed(p.prepare, PREPARE) + LOAD + PROCESS + FINALIZE
    else if p.step == 20 then Owed(p.load, LOAD) + PROCESS + FINALIZE
    else if p.step == 30 then Owed(p.process, PROCESS) + FINALIZE
    else if p.step == 40 then Owed(p.finalize, FINALIZE)
    else 0
  }

  lemma CycleNeeds(p: Plc, dt: nat)
    requires PlcInv(p) && p.busy
    ensures var q := Cycle(p, dt); q.step != 901 ==> Needed(q) + dt >= Needed(p)
  {
  }

  /** No step is skipped or cut short: a run that succeeds has taken at least the time its steps need. */
  lemma {:induction false} RunTakesItsTime(p: Plc, dts: seq<nat>)
    requires PlcInv(p) && p.busy && Cycles(p, dts).step != 901
    ensures PlcInv(Cycles(p, dts)) && Needed(Cycles(p, dts)) + Sum(dts) >= Needed(p)
    ensures Cycles(p, dts).status.done ==> Sum(dts) >= Needed(p)
    decreases |dts|
  {
    if dts != [] {
      var front := Cycles(p, dts[..|dts| - 1]);
      RunTakesItsTime(p, dts[..|dts| - 1]);
      if front.busy {
        CycleNeeds(front, dts[|dts| - 1]);
      }
    }
  }

  /** A started run takes eight seconds, or six if the first timer is still running from an aborted one. */
  lemma StartedRunTakesItsTime(p: Plc, requestId: nat, forceError: bool, dts: seq<nat>)
    requires PlcInv(p) && !p.busy
    requires Cycles(StartChain(p, requestId, forceError).0, dts).status.done
    ensures Sum(dts) >= if p.prepare.input then 6000 else 8000
  {
    var q := StartChain(p, requestId, forceError).0;
    DoneIsNotError(q, dts);
    RunTakesItsTime(q, dts);
  }

  lemma {:induction false} DoneIsNotError(p: Plc, dts: seq<nat>)
    requires PlcInv(p)
    ensures PlcInv(Cycles(p, dts))
    decreases |dts|
  {
    if dts != [] {
      DoneIsNotError(p, dts[..|dts| - 1]);
    }
  }

  // --- no step takes longer than its timer ---------------------------------------------------------

  /** The timer of the step the block is in. */
  function OwnTimer(p: Plc): Ton {
    if p.step == 10 then p.prepare else if p.step == 20 then p.load else if p.step == 30 then p.process else p.finalize
  }

  /** Prepare takes two seconds, Load two, Process three and Finalize one. */
  function Preset(step: nat): nat {
    if step == 10 then 2000 else if step == 20 then 2000 else if step == 30 then 3000 else 1000
  }

  /** The first call of the body in a step starts its timer, whatever the time since the last one, and stays in the step. */
  lemma FirstCallStarts(p: Plc, dt: nat)
    requires PlcInv(p) && p.busy && !OwnTimer(p).input && !(p.step == 30 && p.simulateError)
    ensures var q := Cycle(p, dt); q.step == p.step && q.busy && OwnTimer(q) == Ton(true, 0)
  {
  }

  /** With the timer running the block leaves the step exactly when the time has come, and its next timer starts anew. */
  lemma LeavesOnTime(p: Plc, dt: nat)
    requires PlcInv(p) && p.busy && OwnTimer(p).input && !(p.step == 30 && p.simulateError)
    ensures var q := Cycle(p, dt);
            && PlcInv(q) && q.simulateError == p.simulateError
            && (OwnTimer(p).elapsed + dt < Preset(p.step) ==>
                  q.step == p.step && q.busy && OwnTimer(q) == Ton(true, OwnTimer(p).elapsed + dt))
            && (OwnTimer(p).elapsed + dt >= Preset(p.step) ==>
                  q.step == (if p.step == 40 then 100 else p.step + 10) && q.busy == (p.step != 40)
                  && (q.busy ==> !OwnTimer(q).input))
  {
  }

  /** So a step lasts exactly as long as its preset: it is left with the call in which the time since its timer's start has come. */
  lemma {:induction false} StepLasts(p: Plc, dts: seq<nat>)
    requires PlcInv(p) && p.busy && OwnTimer(p) == Ton(true, 0) && !(p.step == 30 && p.simulateError)
    ensures Cycles(p, dts).step == p.step <==> Sum(dts) < Preset(p.step)
    ensures var q := Cycles(p, dts);
            Sum(dts) < Preset(p.step) ==>
              && PlcInv(q) && q.busy && q.simulateError == p.simulateError && OwnTimer(q) == Ton(true, Sum(dts))
    decreases |dts|
  {
    if dts != [] {
      var front, dt := dts[..|dts| - 1], dts[|dts| - 1];
      StepLasts(p, front);
      var q := Cycles(p, front);
      if Sum(front) < Preset(p.step) {
        LeavesOnTime(q, dt);
      } else {
        StepsOnly(p, front);
        StepsOnly(q, [dt]);
      }
    }
  }

  lemma {:induction false} StepsOnly(p: Plc, dts: seq<nat>)
    requires PlcInv(p)
    ensures PlcInv(Cycles(p, dts)) && Rank(Cycles(p, dts)) <= Rank(p)
    decreases |dts|
  {
    if dts != [] {
      StepsOnly(p, dts[..|dts| - 1]);
    }
  }

  /** The milliseconds a busy block may still take when its body is called at least every `longest` of them. */
  function Allowed(p: Plc, longest: nat): nat {
    (if OwnTimer(p).input then Owed(OwnTimer(p), Preset(p.step)) else Preset(p.step) + longest) + longest
    + (if p.step == 10 then 6000 + 6 * longest else if p.step == 20 then 4000 + 4 * longest
       else if p.step == 30 then 1000 + 2 * longest else 0)
  }

  lemma CycleSpends(p: Plc, dt: nat, longest: nat)
    requires PlcInv(p) && p.busy && dt <= longest
    ensures var q := Cycle(p, dt); q.busy ==> Allowed(q, longest) + dt <= Allowed(p, longest)
  {
    if !(p.step == 30 && p.simulateError) {
      if OwnTimer(p).input { LeavesOnTime(p, dt); } else { FirstCallStarts(p, dt); }
    }
  }

  /** An undisturbed run is over when its time is spent. */
  lemma {:induction false} RunEndsInTime(p: Plc, dts: seq<nat>, longest: nat)
    requires PlcInv(p) && p.busy && forall k | 0 <= k < |dts| :: dts[k] <= longest
    ensures var q := Cycles(p, dts);
            && PlcInv(q) && (q.busy ==> Allowed(q, longest) + Sum(dts) <= Allowed(p, longest))
            && (Sum(dts) >= Allowed(p, longest) && longest > 0 ==> !q.busy)
    decreases |dts|
  {
    if dts != [] {
      var front := dts[..|dts| - 1];
      RunEndsInTime(p, front, longest);
      if Cycles(p, front).busy {
        CycleSpends(Cycles(p, front), dts[|dts| - 1], longest);
      }
    }
  }

  /**
   A started run is over after eight seconds and two calls of its body a step: one that starts the timer and
   one that finds it elapsed.
   */
  lemma StartedRunEndsInTime(p: Plc, requestId: nat, forceError: bool, dts: seq<nat>, longest: nat)
    requires PlcInv(p) && !p.busy && forall k | 0 <= k < |dts| :: dts[k] <= longest
    requires longest > 0 && Sum(dts) >= 8000 + 8 * longest
    ensures !Cycles(StartChain(p, requestId, forceError).0, dts).busy
  {
    RunEndsInTime(StartChain(p, requestId, forceError).0, dts, longest);
  }

  /** A cycle leaves only the timer of the step it found running; every other one is back at its start. */
  lemma OtherTimersReset(p: Plc, dt: nat)
    requires PlcInv(p)
    ensures var q := Cycle(p, dt);
            && (p.step != 10 ==> q.prepare == Ton(false, 0)) && (p.step != 20 ==> q.load == Ton(false, 0))
            && (p.step != 30 ==> q.process == Ton(false, 0)) && (p.step != 40 ==> q.finalize == Ton(false, 0))
            && (!p.busy ==> !q.busy && q.step == p.step && q.status.done == p.status.done && q.status.error == p.status.error)
  {
  }

  /** So with one idle cycle before its start, whatever was aborted before, a run that succeeds has taken eight seconds. */
  lemma RestedRunTakesEight(p: Plc, dt: nat, requestId: nat, forceError: bool, dts: seq<nat>)
    requires PlcInv(p) && !p.busy
    requires Cycles(StartChain(Cycle(p, dt), requestId, forceError).0, dts).status.done
    ensures Sum(dts) >= 8000
  {
    OtherTimersReset(p, dt);
    StartedRunTakesItsTime(Cycle(p, dt), requestId, forceError, dts);
  }

  /** A forced error ends the run with the first call of the body in step 30, whatever its timers say. */
  lemma ForcedErrorEndsAtOnce(p: Plc, dt: nat)
    requires PlcInv(p) && p.step == 30 && p.simulateError
    ensures var q := Cycle(p, dt);
            && !q.busy && q.step == 901
            && q.status == Status(p.status.requestId, false, false, true, 9001, 901, "Error")
  {
  }

  function NameOf(step: nat): string {
    if step == 10 then "Prepare" else if step == 20 then "Load" else if step == 30 then "Process"
    else if step == 40 then "Finalize" else if step == 100 then "Done" else if step == 900 then "Aborted"
    else if step == 901 then "Error" else ""
  }

  /** The published step name is that of the published step, and an idle block publishes its own step. */
  ghost predicate StepNamed(p: Plc) {
    p.status.stepName == NameOf(p.status.step) && (!p.busy ==> p.status.step == p.step)
  }

  lemma StepNamesKeep(p: Plc, dt: nat, requestId: nat, forceError: bool)
    requires PlcInv(p) && StepNamed(p)
    ensures StepNamed(Cycle(p, dt)) && StepNamed(StartChain(p, requestId, forceError).0) && StepNamed(AbortChain(p).0)
    ensures Cycle(p, dt).busy ==> Cycle(p, dt).status.step == p.step
  {
  }

  // --- the function block as an object -----------------------------------------------------------

  class FbTestStepChain {
    var stStepStatus: Status
    var xBusy: bool
    var udiInternalStep: nat
    var xSimulateError: bool
    var tonPrepare: Ton
    var tonLoad: Ton
    var tonProcess: Ton
    var tonFinalize: Ton

    ghost function View(): Plc
      reads this
    {
      Plc(stStepStatus, xBusy, udiInternalStep, xSimulateError, tonPrepare, tonLoad, tonProcess, tonFinalize)
    }

    constructor ()
      ensures View() == IDLE && PlcInv(View())
    {
      stStepStatus := Status(0, false, false, false, 0, 0, "");
      xBusy, udiInternalStep, xSimulateError := false, 0, false;
      tonPrepare, tonLoad, tonProcess, tonFinalize := Ton(false, 0), Ton(false, 0), Ton(false, 0), Ton(false, 0);
    }

    /** The cyclic body. */
    method Body(dt: nat)
      requires PlcInv(View())
      modifies this
      ensures View() == Cycle(old(View()), dt) && PlcInv(View())
      ensures stStepStatus.requestId == old(stStepStatus.requestId)
    {
      tonPrepare := Ticked(tonPrepare, udiInternalStep == 10, PREPARE, dt);
      tonLoad := Ticked(tonLoad, udiInternalStep == 20, LOAD, dt);
      tonProcess := Ticked(tonProcess, udiInternalStep == 30, PROCESS, dt);
      tonFinalize := Ticked(tonFinalize, udiInternalStep == 40, FINALIZE, dt);
      stStepStatus := stStepStatus.(step := udiInternalStep);
      stStepStatus := stStepStatus.(busy := xBusy);
      if !xBusy {
        return;
      }
      if udiInternalStep == 10 {
        stStepStatus := stStepStatus.(stepName := "Prepare");
        if Elapsed(tonPrepare, PREPARE) { udiInternalStep := 20; }
      } else if udiInternalStep == 20 {
        stStepStatus := stStepStatus.(stepName := "Load");
        if Elapsed(tonLoad, LOAD) { udiInternalStep := 30; }
      } else if udiInternalStep == 30 {
        stStepStatus := stStepStatus.(stepName := "Process");
        if xSimulateError {
          xBusy := false;
          udiInternalStep := 901;
          stStepStatus := stStepStatus.(busy := false, done := false, error := true);
          stStepStatus := stStepStatus.(errorCode := 9001, step := udiInternalStep, stepName := "Error");
          return;
        }
        if Elapsed(tonProcess, PROCESS) { udiInternalStep := 40; }
      } else if udiInternalStep == 40 {
        stStepStatus := stStepStatus.(stepName := "Finalize");
        if Elapsed(tonFinalize, FINALIZE) {
          xBusy := false;
          udiInternalStep := 100;
          stStepStatus := stStepStatus.(busy := false, done := true, error := false);
          stStepStatus := stStepStatus.(errorCode := 0, step := udiInternalStep, stepName := "Done");
          return;
        }
      }
    }

    method StartStepChain(udiRequestId: nat, xStepChainForceError: bool) returns (accepted: bool)
      requires PlcInv(View())
      modifies this
      ensures (View(), accepted) == StartChain(old(View()), udiRequestId, xStepChainForceError) && PlcInv(View())
      ensures accepted <==> old(View().step !in {10, 20, 30, 40})
      ensures accepted ==> xBusy && udiInternalStep == 10 && xSimulateError == xStepChainForceError
                           && stStepStatus == Status(udiRequestId, true, false, false, 0, 10, "Prepare")
      ensures !accepted ==> View() == old(View())
    {
      if xBusy {
        return false;
      }
      xBusy := true;
      udiInternalStep := 10;
      xSimulateError := xStepChainForceError;
      stStepStatus := Status(udiRequestId, true, false, false, 0, udiInternalStep, "Prepare");
      return true;
    }

    method AbortStepChain() returns (aborted: bool)
      requires PlcInv(View())
      modifies this
      ensures (View(), aborted) == AbortChain(old(View())) && PlcInv(View())
      ensures aborted <==> old(View().step in {10, 20, 30, 40})
      ensures aborted ==> stStepStatus.error && stStepStatus.errorCode == -2 && udiInternalStep == 900 && !xBusy
      ensures !aborted ==> View() == old(View())
    {
      if !xBusy {
        return false;
      }
      xBusy := false;
      udiInternalStep := 900;
      stStepStatus := stStepStatus.(busy := false, done := false, error := true);
      stStepStatus := stStepStatus.(errorCode := -2, step := udiInternalStep, stepName := "Aborted");
      return true;
    }
  }
}
