/** The polling loop `_wait_until_done`, against the statuses and clock readings it will meet. */
module StepChainPoll {
  import opened Wrappers
  import opened StepChainPlc
  import opened StepChainStatus

  datatype PollEnd =
    | Returned(status: Status)
    | StepError(status: Status)
    | Refused
    | TimedOut
    | ReadRaised
    | TraceEnded   // the given statuses ran out while the loop was still waiting

  function RoundUp(q: real): nat
    requires q > 0.0
  {
    if q == q.Floor as real then q.Floor else q.Floor + 1
  }

  /** A duration counted in intervals, rounded up. */
  function IntervalsFor(duration: real, interval: real): nat
    requires duration > 0.0 && interval > 0.0
  {
    QuotientPositive(duration, interval);
    RoundUp(duration / interval)
  }

  lemma QuotientPositive(a: real, b: real)
    requires a > 0.0 && b > 0.0
    ensures a / b > 0.0
  {
  }

  lemma QuotientBelow(a: real, b: real, c: real)
    requires b > 0.0
    ensures a / b <= c <==> a <= c * b
  {
    var q := a / b;
    assert q * b == a;
    if q <= c {
      assert (c - q) * b >= 0.0;
    } else {
      assert (q - c) * b > 0.0;
    }
  }

  /** It is the least number of intervals that reaches the duration. */
  lemma IntervalsForIsLeast(duration: real, interval: real, k: nat)
    requires duration > 0.0 && interval > 0.0
    ensures IntervalsFor(duration, interval) as real * interval >= duration
    ensures k as real * interval >= duration <==> IntervalsFor(duration, interval) <= k
  {
    QuotientPositive(duration, interval);
    var q := duration / interval;
    assert RoundUp(q) as real >= q && (RoundUp(q) <= k <==> q <= k as real);
    QuotientBelow(duration, interval, RoundUp(q) as real);
    QuotientBelow(duration, interval, k as real);
  }

  /** Reading number `i` leaves the question open. */
  ghost predicate Open(snaps: seq<Option<Status>>, requestId: nat, i: nat) {
    i < |snaps| && snaps[i].Some? && StatusVerdict(snaps[i].value, requestId).StillWaiting?
  }

  /** Read `i` was over before the deadline, if there is one. */
  ghost predicate InTime(clock: seq<real>, timeout: Option<real>, i: nat) {
    i + 1 < |clock| && (timeout.Some? ==> clock[i + 1] < clock[0] + timeout.value)
  }

  ghost predicate PacedAt(clock: seq<real>, interval: real, i: nat) {
    i + 1 < |clock| && clock[i + 1] >= clock[0] + i as real * interval
  }

  /** Each sleep lasts at least the poll interval: the test after read `i` is `i` intervals on. */
  ghost predicate Paced(clock: seq<real>, interval: real) {
    forall i: nat | i + 1 < |clock| :: PacedAt(clock, interval, i)
  }

  /**
   `accepted` is the start call's value when it was a BOOL. `snaps[i]` is what status read `i` returns
   (None: it raises), `clock[0]` the clock before the loop and `clock[i + 1]` the clock after read `i`.
   */
  method WaitUntilDone(
    requestId: nat, accepted: Option<bool>, snaps: seq<Option<Status>>, clock: seq<real>, timeout: Option<real>)
    returns (end: PollEnd, count: nat)
    requires |clock| == |snaps| + 1
    ensures count <= |snaps|
    ensures end.Refused? <==> accepted == Some(false)
    ensures end.Refused? ==> count == 0
    ensures !end.Refused? && !end.TraceEnded? ==>
              count > 0 && forall i | 0 <= i < count - 1 ::
                Open(snaps, requestId, i) && InTime(clock, timeout, i)
    ensures end.Returned? ==> snaps[count - 1] == Some(end.status) && StatusVerdict(end.status, requestId).Completed?
    ensures end.StepError? ==> snaps[count - 1] == Some(end.status) && StatusVerdict(end.status, requestId).StepFailed?
    ensures end.ReadRaised? ==> snaps[count - 1].None?
    ensures end.TimedOut? ==> timeout.Some? && Open(snaps, requestId, count - 1) && clock[count] >= clock[0] + timeout.value
    ensures end.TraceEnded? ==> count == |snaps| && forall i | 0 <= i < count ::
                Open(snaps, requestId, i) && InTime(clock, timeout, i)
  {
    if accepted == Some(false) {
      return Refused, 0;
    }
    count := 0;
    while count < |snaps|
      invariant count <= |snaps|
      invariant forall i | 0 <= i < count ::
                  Open(snaps, requestId, i) && InTime(clock, timeout, i)
    {
      count := count + 1;
      if snaps[count - 1].None? {
        return ReadRaised, count;
      }
      var status := snaps[count - 1].value;
      match StatusVerdict(status, requestId) {
        case Completed => return Returned(status), count;
        case StepFailed(_) => return StepError(status), count;
        case StillWaiting =>
      }
      if timeout.Some? && clock[count] >= clock[0] + timeout.value {
        return TimedOut, count;
      }
    }
    end := TraceEnded;
  }

  /** With a timeout, the loop reads the status at most ceil(timeout / interval) + 1 times, and then ends. */
  lemma PollBound(requestId: nat, snaps: seq<Option<Status>>, clock: seq<real>, timeout: real, interval: real, waited: nat)
    requires |clock| == |snaps| + 1 && timeout > 0.0 && interval > 0.0 && Paced(clock, interval) && waited <= |snaps|
    requires forall i | 0 <= i < waited :: InTime(clock, Some(timeout), i)
    ensures waited <= IntervalsFor(timeout, interval)
  {
    if waited > 0 {
      assert InTime(clock, Some(timeout), waited - 1) && PacedAt(clock, interval, waited - 1);
      IntervalsForIsLeast(timeout, interval, waited - 1);
    }
  }

  /** The same, of the loop itself. */
  method WaitWithTimeout(
    requestId: nat, accepted: Option<bool>, snaps: seq<Option<Status>>, clock: seq<real>, timeout: real, interval: real)
    returns (end: PollEnd, count: nat)
    requires |clock| == |snaps| + 1 && timeout > 0.0 && interval > 0.0 && Paced(clock, interval)
    ensures count <= IntervalsFor(timeout, interval) + 1
    ensures |snaps| > IntervalsFor(timeout, interval) ==> !end.TraceEnded?
  {
    end, count := WaitUntilDone(requestId, accepted, snaps, clock, Some(timeout));
    if end.TraceEnded? {
      PollBound(requestId, snaps, clock, timeout, interval, count);
    } else if !end.Refused? {
      PollBound(requestId, snaps, clock, timeout, interval, count - 1);
    }
  }
}
