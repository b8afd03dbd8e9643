/**
 The device as one connection sees it: the function block, the registered notifications, the
 callbacks stored for them, and the notifications sent but not yet delivered.
 */
module StepChainDevice {
  import opened SerialRuntime
  import opened Wrappers
  import opened StepChainPlc

  /** The status fields a client may watch. */
  datatype Field = RequestIdF | BusyF | DoneF | ErrorF | ErrorCodeF | StepF | StepNameF

  predicate Differs(a: Status, b: Status, f: Field) {
    match f
    case RequestIdF => a.requestId != b.requestId
    case BusyF => a.busy != b.busy
    case DoneF => a.done != b.done
    case ErrorF => a.error != b.error
    case ErrorCodeF => a.errorCode != b.errorCode
    case StepF => a.step != b.step
    case StepNameF => a.stepName != b.stepName
  }

  /** A notification handle and the symbol handle it was registered through. */
  type Handles = seq<(nat, nat)>

  datatype Device = Device(
    site: Site, forceError: bool, open: bool,
    live: map<nat, Field>,       // notifications registered at the device
    symbols: set<nat>,           // symbol handles not yet released
    store: set<nat>,             // keys of the client's callback store
    nextHandle: nat,
    pending: multiset<nat>)      // notifications sent and not delivered

  /** The calls this model tells apart; `ForceError` stands for a write that steers the block. */
  datatype Job =
    | OpenConn | CloseConn
    | Register
    | Unregister(handles: Handles)
    | StartRun(requestId: nat)
    | AbortRun
    | ReadStatus
    | ForceError(force: bool)

  datatype Val = Nothing | Registered(handles: Handles) | Accepted(b: bool) | Read(status: Status)

  /** What happens at the device without this connection's worker. */
  datatype Event =
    | Tick(dt: nat)
    | RivalStart(requestId: nat)
    | RivalAbort
    | RivalForceError(force: bool)
    | Sample(handle: nat)
    | Notify(handle: nat)

  /** The notifications a change of status sends: one for each that watches a changed field. */
  function Touched(live: map<nat, Field>, a: Status, b: Status): set<nat> {
    set h | h in live && Differs(a, b, live[h])
  }

  function Moved(d: Device, site: Site): Device {
    d.(site := site, pending := d.pending + multiset(Touched(d.live, d.site.plc.status, site.plc.status)))
  }

  /** One symbol handle and the notification registered through it. */
  function OneMore(e: Device, field: Field): Device {
    var symbol, note := e.nextHandle, e.nextHandle + 1;
    e.(live := e.live[note := field], symbols := e.symbols + {symbol}, store := e.store + {note},
       nextHandle := e.nextHandle + 2)
  }

  /** `_register_notification_handles`: one notification per watched symbol, in order. */
  function RegisterAll(d: Device, watch: seq<Field>): (Device, Handles)
    decreases |watch|
  {
    if watch == [] then (d, []) else
    var (e, hs) := RegisterAll(d, watch[..|watch| - 1]);
    (OneMore(e, watch[|watch| - 1]), hs + [(e.nextHandle + 1, e.nextHandle)])
  }

  /** `_del_notifications`: each in order; a handle missing from the callback store raises KeyError. */
  function UnregisterAll(d: Device, hs: Handles): (Device, Outcome<Val>)
    decreases |hs|
  {
    if hs == [] then (d, Returned(Nothing)) else
    var (note, symbol) := hs[0];
    var e := d.(live := d.live - {note});
    if note !in d.store then (e, Raised("KeyError")) else
    UnregisterAll(e.(store := e.store - {note}, symbols := e.symbols - {symbol}), hs[1..])
  }

  function Exec(watch: seq<Field>, d: Device, job: Job): (Device, Outcome<Val>) {
    match job
    case OpenConn => (d.(open := true), Returned(Nothing))
    case CloseConn => (d.(open := false, live := map[]), Returned(Nothing))
    case Register =>
      if !d.open then (d, Raised("not open")) else
      var (e, hs) := RegisterAll(d, watch);
      (e, Returned(Registered(hs)))
    case Unregister(hs) => if !d.open then (d, Returned(Nothing)) else UnregisterAll(d, hs)
    case StartRun(id) =>
      if !d.open then (d, Returned(Nothing)) else
      var (site, ok) := SiteStart(d.site, id, d.forceError);
      (Moved(d, site), Returned(Accepted(ok)))
    case AbortRun =>
      if !d.open then (d, Returned(Nothing)) else
      var (site, ok) := SiteAbort(d.site);
      (Moved(d, site), Returned(Accepted(ok)))
    case ReadStatus =>
      if !d.open then (d, Raised("not open")) else (d, Returned(Read(d.site.plc.status)))
    case ForceError(b) => if d.open then (d.(forceError := b), Returned(Nothing)) else (d, Returned(Nothing))
  }

  function React(d: Device, e: Event): Device {
    match e
    case Tick(dt) => Moved(d, SiteCycle(d.site, dt))
    case RivalStart(id) => Moved(d, SiteStart(d.site, id, d.forceError).0)
    case RivalAbort => Moved(d, SiteAbort(d.site).0)
    case RivalForceError(b) => d.(forceError := b)
    case Sample(h) => if h in d.live then d.(pending := d.pending + multiset{h}) else d
    case Notify(h) => d.(pending := d.pending - multiset{h})
  }

  const INITIAL := Device(Site(IDLE, []), false, false, map[], {}, {}, 0, multiset{})

  function DeviceSemantics(watch: seq<Field>): Semantics<Device, Job, Val, Event> {
    Semantics(INITIAL, (d: Device, j: Job) => Exec(watch, d, j), (d: Device, e: Event) => React(d, e), CloseConn)
  }

  // --- what calls and events do --------------------------------------------------------------------

  /** The fields are the status: two statuses none of whose fields differ are equal, and the sum read's watch list can tell any two apart. */
  lemma FieldsAreTheStatus(a: Status, b: Status)
    ensures (forall f: Field :: !Differs(a, b, f)) <==> a == b
  {
    if a != b {
      assert Differs(a, b, RequestIdF) || Differs(a, b, BusyF) || Differs(a, b, DoneF) || Differs(a, b, ErrorF)
             || Differs(a, b, ErrorCodeF) || Differs(a, b, StepF) || Differs(a, b, StepNameF);
    }
  }

  /** From `d` to `e` the block came to `site`, each notification on a changed field was sent once more, and nothing else changed. */
  ghost predicate Came(d: Device, e: Device, site: Site) {
    && e == d.(site := site, pending := e.pending)
    && forall h: nat ::
         e.pending[h] == d.pending[h] + (if h in d.live && Differs(d.site.plc.status, site.plc.status, d.live[h]) then 1 else 0)
  }

  lemma MovedCame(d: Device, site: Site)
    ensures Came(d, Moved(d, site), site)
  {
  }

  /** Every call on an open connection, in its own terms. */
  lemma OpenCalls(watch: seq<Field>, d: Device, job: Job)
    requires d.open
    ensures var (e, o) := Exec(watch, d, job);
            match job
            case OpenConn => e == d && o == Returned(Nothing)
            case CloseConn => !e.open && e.live == map[] && e == d.(open := false, live := map[]) && o == Returned(Nothing)
            case ReadStatus => e == d && o == Returned(Read(d.site.plc.status))
            case ForceError(b) => e == d.(forceError := b) && o == Returned(Nothing)
            case StartRun(id) =>
              if d.site.plc.busy then Came(d, e, d.site) && o == Returned(Accepted(false))
              else Came(d, e, e.site) && o == Returned(Accepted(true)) && e.site.plc.busy && e.site.plc.step == 10
                   && e.site.plc.simulateError == d.forceError && e.site.runs == d.site.runs + [RunRecord(id, None)]
                   && e.site.plc.status == Status(id, true, false, false, 0, 10, "Prepare")
            case AbortRun =>
              if !d.site.plc.busy then Came(d, e, d.site) && o == Returned(Accepted(false))
              else Came(d, e, e.site) && o == Returned(Accepted(true)) && !e.site.plc.busy && e.site.plc.step == 900
                   && e.site.plc.status == Status(d.site.plc.status.requestId, false, false, true, -2, 900, "Aborted")
            case Register => o.Returned? && o.value.Registered? && |o.value.handles| == |watch| && e.site == d.site
            case Unregister(hs) => e.site == d.site && (o.Raised? <==> o != Returned(Nothing))
  {
    hide Moved, Came;
    match job
    case StartRun(id) => MovedCame(d, SiteStart(d.site, id, d.forceError).0);
    case AbortRun => MovedCame(d, SiteAbort(d.site).0);
    case Register => RegistersEach(d, watch);
    case Unregister(hs) => UnregisterKeepsSite(d, hs);
    case _ =>
  }

  lemma {:induction false} RegistersEach(d: Device, watch: seq<Field>)
    ensures |RegisterAll(d, watch).1| == |watch| && RegisterAll(d, watch).0.site == d.site
    decreases |watch|
  {
    if watch != [] { RegistersEach(d, watch[..|watch| - 1]); }
  }

  lemma {:induction false} UnregisterKeepsSite(d: Device, hs: Handles)
    ensures var (e, o) := UnregisterAll(d, hs); e.site == d.site && (o.Raised? <==> o != Returned(Nothing))
    decreases |hs|
  {
    if hs != [] && hs[0].0 in d.store {
      UnregisterKeepsSite(
        d.(live := d.live - {hs[0].0}, store := d.store - {hs[0].0}, symbols := d.symbols - {hs[0].1}), hs[1..]);
    }
  }

  /** A call on a connection that is not open reaches no device: reads and registrations raise, the rest return None. */
  lemma ClosedCalls(watch: seq<Field>, d: Device, job: Job)
    requires !d.open
    ensures var (e, o) := Exec(watch, d, job);
            && e == d.(open := job.OpenConn?, live := if job.CloseConn? then map[] else d.live)
            && (o.Raised? <==> job.Register? || job.ReadStatus?) && (!o.Raised? ==> o == Returned(Nothing))
  {
  }

  /** Every event, in its own terms. */
  lemma Events(d: Device, event: Event)
    ensures var e := React(d, event);
            match event
            case Tick(dt) => Came(d, e, SiteCycle(d.site, dt))
            case RivalStart(id) => Came(d, e, SiteStart(d.site, id, d.forceError).0)
            case RivalAbort => Came(d, e, SiteAbort(d.site).0)
            case RivalForceError(b) => e == d.(forceError := b)
            case Sample(h) => e == d.(pending := e.pending)
                              && forall k :: e.pending[k] == d.pending[k] + (if k == h && h in d.live then 1 else 0)
            case Notify(h) => e == d.(pending := e.pending)
                              && forall k :: e.pending[k] == d.pending[k] - (if k == h && h in d.pending then 1 else 0)
  {
    match event
    case Tick(dt) => MovedCame(d, SiteCycle(d.site, dt));
    case RivalStart(id) => MovedCame(d, SiteStart(d.site, id, d.forceError).0);
    case RivalAbort => MovedCame(d, SiteAbort(d.site).0);
    case _ =>
  }

  /** Deleting stops with a KeyError at the first handle the callback store does not hold, those before it deleted. */
  lemma {:induction false} UnregisterStops(d: Device, hs: Handles, k: nat)
    requires DistinctHandles(hs) && k < |hs| && Notes(hs[..k]) <= d.store && hs[k].0 !in d.store
    ensures var (e, o) := UnregisterAll(d, hs);
            && o == Raised("KeyError") && e.live == d.live - Notes(hs[..k + 1]) && e.store == d.store - Notes(hs[..k])
            && e.symbols == d.symbols - Symbols(hs[..k])
    decreases |hs|
  {
    var (note, symbol) := hs[0];
    assert hs[..k + 1][0] == hs[0];
    if k > 0 {
      NotesCons(hs[..k]);
      NotesCons(hs[..k + 1]);
      assert hs[..k][1..] == hs[1..][..k - 1] && hs[..k + 1][1..] == hs[1..][..k];
      assert note !in Notes(hs[1..][..k - 1]);
      UnregisterStops(d.(live := d.live - {note}, store := d.store - {note}, symbols := d.symbols - {symbol}), hs[1..], k - 1);
    } else {
      assert hs[..0] == [] && hs[..1] == [hs[0]];
    }
  }

  lemma NotesCons(hs: Handles)
    requires hs != []
    ensures Notes(hs) == {hs[0].0} + Notes(hs[1..]) && Symbols(hs) == {hs[0].1} + Symbols(hs[1..])
  {
    var rest := hs[1..];
    assert forall k | 0 <= k < |rest| :: rest[k] == hs[k + 1];
    forall h | h in Notes(hs) ensures h in {hs[0].0} + Notes(rest) {
      var k :| 0 <= k < |hs| && hs[k].0 == h;
      if k > 0 { assert rest[k - 1].0 == h; }
    }
    forall h | h in Symbols(hs) ensures h in {hs[0].1} + Symbols(rest) {
      var k :| 0 <= k < |hs| && hs[k].1 == h;
      if k > 0 { assert rest[k - 1].1 == h; }
    }
  }

  // --- what one step of the device does to a group of handles -------------------------------------

  ghost predicate DeviceInv(d: Device) {
    && SiteInv(d.site)
    && (forall h | h in d.live :: h < d.nextHandle)
    && (forall h | h in d.store :: h < d.nextHandle)
    && (forall h | h in d.symbols :: h < d.nextHandle)
  }

  /** The handles are registered, and together they watch every field of `watch`. */
  ghost predicate Watching(d: Device, hs: Handles, watch: seq<Field>) {
    && |hs| == |watch|
    && forall k | 0 <= k < |hs| ::
         hs[k].0 in d.live && d.live[hs[k].0] == watch[k] && hs[k].0 in d.store && hs[k].1 in d.symbols
  }

  /** A notification of one of the handles is still to be delivered. */
  ghost predicate Due(pending: multiset<nat>, hs: Handles) {
    exists k :: 0 <= k < |hs| && hs[k].0 in pending
  }

  /** No handle of one list is a handle of the other. */
  ghost predicate Apart(hs: Handles, gs: Handles) {
    forall k, j | 0 <= k < |hs| && 0 <= j < |gs| :: hs[k].0 != gs[j].0 && hs[k].1 != gs[j].1
  }

  ghost predicate Below(hs: Handles, n: nat) {
    forall k | 0 <= k < |hs| :: hs[k].0 < n && hs[k].1 < n
  }

  /** The watched part of two statuses agrees. */
  ghost predicate SameSeen(watch: seq<Field>, a: Status, b: Status) {
    forall k | 0 <= k < |watch| :: !Differs(a, b, watch[k])
  }

  /** A step that leaves the registered handles registered, and announces every watched change. */
  ghost predicate Announces(watch: seq<Field>, hs: Handles, d: Device, e: Device) {
    && Watching(e, hs, watch)
    && (d.open ==> e.open)
    && (Due(d.pending, hs) ==> Due(e.pending, hs))
    && (SameSeen(watch, d.site.plc.status, e.site.plc.status) || Due(e.pending, hs))
  }

  lemma MovedAnnounces(watch: seq<Field>, hs: Handles, d: Device, site: Site)
    requires Watching(d, hs, watch)
    ensures Announces(watch, hs, d, Moved(d, site))
  {
    var e := Moved(d, site);
    if Due(d.pending, hs) {
      var k :| 0 <= k < |hs| && hs[k].0 in d.pending;
      assert hs[k].0 in e.pending;
    }
    if !SameSeen(watch, d.site.plc.status, site.plc.status) {
      var k :| 0 <= k < |watch| && Differs(d.site.plc.status, site.plc.status, watch[k]);
      assert hs[k].0 in Touched(d.live, d.site.plc.status, site.plc.status);
      assert hs[k].0 in e.pending;
    }
  }

  /** From `d` to `e` one new handle pair was registered per watched symbol, and nothing else changed. */
  ghost predicate RegisteredFresh(d: Device, e: Device, hs: Handles, watch: seq<Field>) {
    && DeviceInv(e) && Watching(e, hs, watch) && e.site == d.site && e.pending == d.pending && e.open == d.open
    && Below(hs, e.nextHandle) && e.nextHandle == d.nextHandle + 2 * |watch|
    && (forall k | 0 <= k < |hs| :: hs[k].0 == d.nextHandle + 2 * k + 1 && hs[k].1 == d.nextHandle + 2 * k)
    && (forall h | h in e.live :: h in d.live || h >= d.nextHandle)
    && (forall h | h in d.live :: h in e.live && e.live[h] == d.live[h])
    && (forall h | h in e.store :: h in d.store || h >= d.nextHandle) && d.store <= e.store
    && (forall h | h in e.symbols :: h in d.symbols || h >= d.nextHandle) && d.symbols <= e.symbols
  }

  lemma OneMoreRegistered(d: Device, e: Device, hs: Handles, watch: seq<Field>)
    requires DeviceInv(d) && watch != [] && RegisteredFresh(d, e, hs, watch[..|watch| - 1])
    ensures RegisteredFresh(d, OneMore(e, watch[|watch| - 1]), hs + [(e.nextHandle + 1, e.nextHandle)], watch)
  {
    hide SiteInv;
  }

  lemma {:induction false} RegisterAllFresh(d: Device, watch: seq<Field>)
    requires DeviceInv(d)
    ensures RegisteredFresh(d, RegisterAll(d, watch).0, RegisterAll(d, watch).1, watch)
    decreases |watch|
  {
    if watch == [] {
      assert RegisteredFresh(d, d, [], []);
    } else {
      hide RegisteredFresh;
      RegisterAllFresh(d, watch[..|watch| - 1]);
      RegisterAllSnoc(d, watch);
      hide RegisterAll;
      OneMoreRegistered(d, RegisterAll(d, watch[..|watch| - 1]).0, RegisterAll(d, watch[..|watch| - 1]).1, watch);
    }
  }

  lemma RegisterAllSnoc(d: Device, watch: seq<Field>)
    requires watch != []
    ensures var (e, hs) := RegisterAll(d, watch[..|watch| - 1]);
            RegisterAll(d, watch) == (OneMore(e, watch[|watch| - 1]), hs + [(e.nextHandle + 1, e.nextHandle)])
  {
  }

  /** Handles of another registration survive a deletion. */
  lemma {:induction false} UnregisterApart(watch: seq<Field>, hs: Handles, d: Device, gs: Handles)
    requires DeviceInv(d) && Watching(d, hs, watch) && Apart(hs, gs)
    ensures var e := UnregisterAll(d, gs).0;
            DeviceInv(e) && Watching(e, hs, watch) && e.site == d.site && e.pending == d.pending
            && e.open == d.open && e.nextHandle == d.nextHandle
    decreases |gs|
  {
    if gs != [] {
      var (note, symbol) := gs[0];
      assert forall k | 0 <= k < |hs| :: hs[k].0 != gs[0].0 && hs[k].1 != gs[0].1;
      var e := d.(live := d.live - {note});
      if note in d.store {
        var f := e.(store := e.store - {note}, symbols := e.symbols - {symbol});
        assert Apart(hs, gs[1..]) by {
          assert forall j | 0 <= j < |gs| - 1 :: gs[1..][j] == gs[j + 1];
        }
        UnregisterApart(watch, hs, f, gs[1..]);
      }
    }
  }

  lemma {:induction false} UnregisterInv(d: Device, gs: Handles)
    requires DeviceInv(d)
    ensures var e := UnregisterAll(d, gs).0;
            DeviceInv(e) && e.site == d.site && e.pending == d.pending && e.open == d.open && e.nextHandle == d.nextHandle
    decreases |gs|
  {
    if gs != [] {
      var (note, symbol) := gs[0];
      var e := d.(live := d.live - {note});
      if note in d.store {
        UnregisterInv(e.(store := e.store - {note}, symbols := e.symbols - {symbol}), gs[1..]);
      }
    }
  }

  function Notes(hs: Handles): set<nat> {
    set k | 0 <= k < |hs| :: hs[k].0
  }

  function Symbols(hs: Handles): set<nat> {
    set k | 0 <= k < |hs| :: hs[k].1
  }

  ghost predicate DistinctHandles(hs: Handles) {
    forall k, j | 0 <= k < j < |hs| :: hs[k].0 != hs[j].0 && hs[k].1 != hs[j].1
  }

  /** Deleting registered handles removes exactly them, from all three tables. */
  lemma {:induction false} UnregisterExact(d: Device, hs: Handles)
    requires DistinctHandles(hs) && Notes(hs) <= d.store
    ensures var (e, o) := UnregisterAll(d, hs);
            && o == Returned(Nothing) && e.live == d.live - Notes(hs) && e.store == d.store - Notes(hs)
            && e.symbols == d.symbols - Symbols(hs)
    decreases |hs|
  {
    if hs != [] {
      var (note, symbol) := hs[0];
      var rest := hs[1..];
      NotesCons(hs);
      assert hs[0].0 in Notes(hs);
      assert note !in Notes(rest);
      UnregisterExact(d.(live := d.live - {note}, store := d.store - {note}, symbols := d.symbols - {symbol}), rest);
    }
  }

  /** Registering and then deleting what was registered restores all three tables. */
  lemma RegisterThenUnregister(d: Device, watch: seq<Field>)
    requires DeviceInv(d)
    ensures var (e, hs) := RegisterAll(d, watch);
            var (f, o) := UnregisterAll(e, hs);
            o == Returned(Nothing) && f.live == d.live && f.store == d.store && f.symbols == d.symbols
  {
    hide RegisterAll, UnregisterAll;
    RegisterAllExact(d, watch);
    var (e, hs) := RegisterAll(d, watch);
    assert DistinctHandles(hs) && Notes(hs) !! d.live.Keys && Notes(hs) !! d.store && Symbols(hs) !! d.symbols by {
      RegisterAllFresh(d, watch);
      HandlesFrom(d.nextHandle, hs);
    }
    UnregisterExact(e, hs);
  }

  /** Consecutively numbered handles are distinct and none is below the first. */
  lemma HandlesFrom(n: nat, hs: Handles)
    requires forall k | 0 <= k < |hs| :: hs[k].0 == n + 2 * k + 1 && hs[k].1 == n + 2 * k
    ensures DistinctHandles(hs)
    ensures forall h | h in Notes(hs) || h in Symbols(hs) :: h >= n
  {
  }

  lemma {:induction false} RegisterAllExact(d: Device, watch: seq<Field>)
    ensures var (e, hs) := RegisterAll(d, watch);
            (forall h | h in e.live :: h in Notes(hs) || (h in d.live && e.live[h] == d.live[h]))
            && d.live.Keys <= e.live.Keys && e.store == d.store + Notes(hs) && e.symbols == d.symbols + Symbols(hs)
    decreases |watch|
  {
    if watch != [] {
      RegisterAllExact(d, watch[..|watch| - 1]);
      var (e, hs) := RegisterAll(d, watch);
      var front := hs[..|hs| - 1];
      var last := hs[|hs| - 1];
      assert hs == front + [last];
      assert Notes(hs) == Notes(front) + {last.0} by {
        assert forall k | 0 <= k < |front| :: hs[k] == front[k];
      }
      assert Symbols(hs) == Symbols(front) + {last.1} by {
        assert forall k | 0 <= k < |front| :: hs[k] == front[k];
      }
    }
  }

  // --- every step --------------------------------------------------------------------------------

  lemma ExecKeeps(watch: seq<Field>, d: Device, job: Job)
    requires DeviceInv(d)
    ensures var e := Exec(watch, d, job).0;
            DeviceInv(e) && Extends(d.site.runs, e.site.runs) && d.nextHandle <= e.nextHandle
  {
    hide SiteStart, SiteAbort, SiteInv;
    SiteStepsKeep(d.site, 0, if job.StartRun? then job.requestId else 0, d.forceError);
    match job
    case Register => RegisterAllFresh(d, watch);
    case Unregister(gs) => UnregisterInv(d, gs);
    case _ =>
  }

  lemma ReactKeeps(d: Device, e: Event)
    requires DeviceInv(d)
    ensures DeviceInv(React(d, e)) && Extends(d.site.runs, React(d, e).site.runs) && React(d, e).nextHandle == d.nextHandle
    ensures React(d, e).open == d.open
  {
    hide SiteCycle, SiteStart, SiteAbort, SiteInv;
    SiteStepsKeep(d.site, if e.Tick? then e.dt else 0, if e.RivalStart? then e.requestId else 0, d.forceError);
  }

  lemma ExecAnnounces(watch: seq<Field>, hs: Handles, d: Device, job: Job)
    requires DeviceInv(d) && Watching(d, hs, watch) && Below(hs, d.nextHandle)
    requires job.Unregister? ==> Apart(hs, job.handles)
    requires job != CloseConn
    ensures Announces(watch, hs, d, Exec(watch, d, job).0)
  {
    hide SiteStart, SiteAbort;
    match job
    case Register => RegisterAllFresh(d, watch);
    case Unregister(gs) => UnregisterApart(watch, hs, d, gs);
    case StartRun(id) => MovedAnnounces(watch, hs, d, SiteStart(d.site, id, d.forceError).0);
    case AbortRun => MovedAnnounces(watch, hs, d, SiteAbort(d.site).0);
    case _ =>
  }

  lemma ReactAnnounces(watch: seq<Field>, hs: Handles, d: Device, e: Event)
    requires Watching(d, hs, watch)
    requires e.Notify? ==> forall k | 0 <= k < |hs| :: hs[k].0 != e.handle
    ensures Announces(watch, hs, d, React(d, e))
  {
    assert SameSeen(watch, d.site.plc.status, d.site.plc.status);
    hide SiteCycle, SiteStart, SiteAbort, Touched, SameSeen;
    match e
    case Tick(dt) => MovedAnnounces(watch, hs, d, SiteCycle(d.site, dt));
    case RivalStart(id) => MovedAnnounces(watch, hs, d, SiteStart(d.site, id, d.forceError).0);
    case RivalAbort => MovedAnnounces(watch, hs, d, SiteAbort(d.site).0);
    case Sample(_) | Notify(_) =>
      if Due(d.pending, hs) {
        var k :| 0 <= k < |hs| && hs[k].0 in d.pending;
        assert hs[k].0 in React(d, e).pending;
      }
    case _ =>
  }

  /** None of the handles is left in any of the three tables. */
  ghost predicate Gone(d: Device, hs: Handles) {
    forall k | 0 <= k < |hs| :: hs[k].0 !in d.live && hs[k].0 !in d.store && hs[k].1 !in d.symbols
  }

  /** Deleting the registered handles leaves none of them. */
  lemma UnregisterGone(watch: seq<Field>, d: Device, hs: Handles)
    requires Watching(d, hs, watch) && DistinctHandles(hs) && d.open
    ensures Gone(Exec(watch, d, Unregister(hs)).0, hs) && Exec(watch, d, Unregister(hs)).1 == Returned(Nothing)
  {
    UnregisterExact(d, hs);
  }

  lemma {:induction false} UnregisterOnlyRemoves(d: Device, gs: Handles)
    ensures var e := UnregisterAll(d, gs).0;
            e.live.Keys <= d.live.Keys && e.store <= d.store && e.symbols <= d.symbols
    decreases |gs|
  {
    if gs != [] && gs[0].0 in d.store {
      UnregisterOnlyRemoves(
        d.(live := d.live - {gs[0].0}, store := d.store - {gs[0].0}, symbols := d.symbols - {gs[0].1}), gs[1..]);
    }
  }

  /** Handles are never handed out twice: what is gone stays gone. */
  lemma GoneStays(watch: seq<Field>, hs: Handles, d: Device, job: Job)
    requires DeviceInv(d) && Gone(d, hs) && Below(hs, d.nextHandle)
    ensures Gone(Exec(watch, d, job).0, hs)
  {
    match job
    case Register => RegisterAllFresh(d, watch);
    case Unregister(gs) => UnregisterOnlyRemoves(d, gs);
    case _ =>
  }
}
