/**
 What the step-chain client makes of one status read: the watched symbols, the completion test, and
 the request id it looks for.
 */
module StepChainStatus {
  import opened Wrappers
  import opened Numerals
  import opened StepChainPlc

  /** A value of the dictionary a sum read returns. A failed sub-read puts its error text there. */
  datatype PyValue = BoolV(b: bool) | IntV(i: int) | StrV(s: string)

  /** The value that marks a status flag as set. */
  datatype Expected = ExpectBool(b: bool) | ExpectInt(i: int)

  /** The resolved configuration; optional fields may be switched off. */
  datatype Config = Config(
    root: string, requestIdField: string, busyField: Option<string>, doneField: string, doneValue: Expected,
    errorField: string, errorValue: Expected, errorCodeField: Option<string>, stepField: Option<string>,
    stepNameField: Option<string>)

  const DEFAULT := Config(
    "GVL.fbStepChain.stStepStatus", "udiRequestId", Some("xBusy"), "xDone", ExpectBool(true), "xError",
    ExpectBool(true), Some("diErrorCode"), Some("udiStep"), Some("sStepName"))

  function Symbol(cfg: Config, field: string): string {
    cfg.root + "." + field
  }

  function AppendNew(symbols: seq<string>, symbol: string): seq<string> {
    if symbol in symbols then symbols else symbols + [symbol]
  }

  function AppendField(cfg: Config, symbols: seq<string>, field: Option<string>): seq<string> {
    if field.Some? && field.value != "" then AppendNew(symbols, Symbol(cfg, field.value)) else symbols
  }

  /** The symbols of a status read, in reading order. */
  function SymbolsForRead(cfg: Config): seq<string> {
    var symbols := [Symbol(cfg, cfg.requestIdField), Symbol(cfg, cfg.doneField)];
    var symbols := AppendField(cfg, symbols, cfg.busyField);
    var symbols := AppendNew(symbols, Symbol(cfg, cfg.errorField));
    var symbols := AppendField(cfg, symbols, cfg.errorCodeField);
    var symbols := AppendField(cfg, symbols, cfg.stepField);
    AppendField(cfg, symbols, cfg.stepNameField)
  }

  ghost predicate Distinct(symbols: seq<string>) {
    forall i, j | 0 <= i < j < |symbols| :: symbols[i] != symbols[j]
  }

  lemma AppendKeeps(cfg: Config, symbols: seq<string>, field: Option<string>)
    ensures var r := AppendField(cfg, symbols, field);
            && (Distinct(symbols) ==> Distinct(r)) && symbols <= r && |r| <= |symbols| + 1
            && (field.Some? && field.value != "" ==> Symbol(cfg, field.value) in r)
  {
  }

  /**
   Every symbol the completion test looks at is read, one call's limit is never reached, and no symbol is
   read twice if and only if the request id and the done flag are different fields.
   */
  lemma ReadCoversTest(cfg: Config)
    ensures var symbols := SymbolsForRead(cfg);
            && Symbol(cfg, cfg.requestIdField) in symbols && Symbol(cfg, cfg.doneField) in symbols
            && Symbol(cfg, cfg.errorField) in symbols
            && (cfg.errorCodeField.Some? && cfg.errorCodeField.value != "" ==>
                  Symbol(cfg, cfg.errorCodeField.value) in symbols)
            && |symbols| <= 7
            && (Distinct(symbols) <==> Symbol(cfg, cfg.requestIdField) != Symbol(cfg, cfg.doneField))
  {
    var s0 := [Symbol(cfg, cfg.requestIdField), Symbol(cfg, cfg.doneField)];
    AppendKeeps(cfg, s0, cfg.busyField);
    var s1 := AppendField(cfg, s0, cfg.busyField);
    var s2 := AppendNew(s1, Symbol(cfg, cfg.errorField));
    AppendKeeps(cfg, s2, cfg.errorCodeField);
    var s3 := AppendField(cfg, s2, cfg.errorCodeField);
    AppendKeeps(cfg, s3, cfg.stepField);
    AppendKeeps(cfg, AppendField(cfg, s3, cfg.stepField), cfg.stepNameField);
    hide Symbol, AppendField;
    var symbols := SymbolsForRead(cfg);
    assert s0 <= s1 <= s2 <= s3 <= symbols;
    assert symbols[0] == s0[0] && symbols[1] == s0[1];
    PrefixHas(s2, symbols, Symbol(cfg, cfg.errorField));
    if cfg.errorCodeField.Some? && cfg.errorCodeField.value != "" {
      PrefixHas(s3, symbols, Symbol(cfg, cfg.errorCodeField.value));
    }
  }

  lemma PrefixHas(a: seq<string>, b: seq<string>, s: string)
    requires a <= b && s in a
    ensures s in b
  {
    var i :| 0 <= i < |a| && a[i] == s;
    assert b[i] == s;
  }

  /** A status read asks for the configured symbols and no others. */
  lemma ReadsTheConfigured(cfg: Config, symbol: string)
    ensures symbol in SymbolsForRead(cfg) <==>
            || symbol in {Symbol(cfg, cfg.requestIdField), Symbol(cfg, cfg.doneField), Symbol(cfg, cfg.errorField)}
            || exists field | field in {cfg.busyField, cfg.errorCodeField, cfg.stepField, cfg.stepNameField} ::
                 field.Some? && field.value != "" && symbol == cfg.root + "." + field.value
  {
    var s0 := [Symbol(cfg, cfg.requestIdField), Symbol(cfg, cfg.doneField)];
    var s1 := AppendField(cfg, s0, cfg.busyField);
    var s2 := AppendNew(s1, Symbol(cfg, cfg.errorField));
    var s3 := AppendField(cfg, s2, cfg.errorCodeField);
    var s4 := AppendField(cfg, s3, cfg.stepField);
    assert SymbolsForRead(cfg) == AppendField(cfg, s4, cfg.stepNameField);
    Appended(cfg, s0, cfg.busyField, symbol);
    Appended(cfg, s2, cfg.errorCodeField, symbol);
    Appended(cfg, s3, cfg.stepField, symbol);
    Appended(cfg, s4, cfg.stepNameField, symbol);
    hide AppendField, SymbolsForRead, Symbol;
  }

  /** The seven symbols of the default configuration, in reading order. */
  lemma DefaultReads()
    ensures SymbolsForRead(DEFAULT) ==
            [Symbol(DEFAULT, "udiRequestId"), Symbol(DEFAULT, "xDone"), Symbol(DEFAULT, "xBusy"),
             Symbol(DEFAULT, "xError"), Symbol(DEFAULT, "diErrorCode"), Symbol(DEFAULT, "udiStep"),
             Symbol(DEFAULT, "sStepName")]
  {
    DefaultSymbolsDiffer();
    hide Symbol;
  }

  lemma Appended(cfg: Config, symbols: seq<string>, field: Option<string>, symbol: string)
    ensures symbol in AppendField(cfg, symbols, field) <==>
            symbol in symbols || (field.Some? && field.value != "" && symbol == cfg.root + "." + field.value)
  {
  }

  // --- coercion and matching ---------------------------------------------------------------------

  /** `_coerce_int`: None for a missing value and for text that is not a number. */
  function CoerceInt(v: Option<PyValue>): Option<int> {
    match v
    case None => None
    case Some(BoolV(b)) => Some(if b then 1 else 0)
    case Some(IntV(i)) => Some(i)
    case Some(StrV(s)) => ParseInt(s)
  }

  predicate Truthy(v: Option<PyValue>) {
    match v
    case None => false
    case Some(BoolV(b)) => b
    case Some(IntV(i)) => i != 0
    case Some(StrV(s)) => s != ""
  }

  /** `_matches`. */
  predicate Matches(v: Option<PyValue>, expected: Expected) {
    match expected
    case ExpectBool(b) => Truthy(v) == b
    case ExpectInt(i) => CoerceInt(v) == Some(i)
  }

  /** A flag matches a truth value by Python's truth of it, and a number when it is that number, also as a text. */
  lemma MatchesMeans(b: bool, i: int, flag: bool, n: nat, m: int, text: string)
    ensures !Matches(None, ExpectInt(i)) && (Matches(None, ExpectBool(b)) <==> !b)
    ensures Matches(Some(BoolV(flag)), ExpectBool(b)) <==> flag == b
    ensures Matches(Some(BoolV(flag)), ExpectInt(i)) <==> (if flag then i == 1 else i == 0)
    ensures Matches(Some(IntV(m)), ExpectBool(b)) <==> (if b then m != 0 else m == 0)
    ensures Matches(Some(IntV(m)), ExpectInt(i)) <==> m == i
    ensures Matches(Some(StrV(text)), ExpectBool(b)) <==> (if b then |text| > 0 else |text| == 0)
    ensures Matches(Some(StrV(Printed(n))), ExpectInt(i)) <==> i == n
    ensures Matches(Some(StrV("-" + Printed(n))), ExpectInt(i)) <==> i == 0 - n
  {
    PrintedIsRead(n);
    NegatedIsRead(Printed(n));
    hide DigitsValue, Printed, ParseInt;
  }

  function Lookup(values: map<string, PyValue>, symbol: string): Option<PyValue> {
    if symbol in values then Some(values[symbol]) else None
  }

  datatype Verdict = StillWaiting | Completed | StepFailed(code: Option<PyValue>)

  /** `_is_completed`: a wrong request id means waiting; error is tested before done. */
  function IsCompleted(cfg: Config, values: map<string, PyValue>, requestId: int): Verdict {
    if CoerceInt(Lookup(values, Symbol(cfg, cfg.requestIdField))) != Some(requestId) then StillWaiting
    else if Matches(Lookup(values, Symbol(cfg, cfg.errorField)), cfg.errorValue) then
      StepFailed(if cfg.errorCodeField.Some? && cfg.errorCodeField.value != ""
                 then Lookup(values, Symbol(cfg, cfg.errorCodeField.value)) else None)
    else if Matches(Lookup(values, Symbol(cfg, cfg.doneField)), cfg.doneValue) then Completed
    else StillWaiting
  }

  // --- the test against the PLC's status ---------------------------------------------------------

  /** What the status itself says about a request. */
  function StatusVerdict(status: Status, requestId: nat): Verdict {
    if status.requestId != requestId then StillWaiting
    else if status.error then StepFailed(Some(IntV(status.errorCode)))
    else if status.done then Completed
    else StillWaiting
  }

  /** The dictionary a sum read of the default symbols returns when no sub-read fails. */
  function Snapshot(status: Status): map<string, PyValue> {
    map[Symbol(DEFAULT, "udiRequestId") := IntV(status.requestId),
        Symbol(DEFAULT, "xDone") := BoolV(status.done),
        Symbol(DEFAULT, "xBusy") := BoolV(status.busy),
        Symbol(DEFAULT, "xError") := BoolV(status.error),
        Symbol(DEFAULT, "diErrorCode") := IntV(status.errorCode),
        Symbol(DEFAULT, "udiStep") := IntV(status.step),
        Symbol(DEFAULT, "sStepName") := StrV(status.stepName)]
  }

  lemma DefaultSymbolsDiffer()
    ensures Symbol(DEFAULT, "udiRequestId") != Symbol(DEFAULT, "xDone")
    ensures Symbol(DEFAULT, "udiRequestId") != Symbol(DEFAULT, "xBusy")
    ensures Symbol(DEFAULT, "udiRequestId") != Symbol(DEFAULT, "xError")
    ensures Symbol(DEFAULT, "udiRequestId") != Symbol(DEFAULT, "diErrorCode")
    ensures Symbol(DEFAULT, "udiRequestId") != Symbol(DEFAULT, "udiStep")
    ensures Symbol(DEFAULT, "udiRequestId") != Symbol(DEFAULT, "sStepName")
    ensures Symbol(DEFAULT, "xDone") != Symbol(DEFAULT, "xBusy")
    ensures Symbol(DEFAULT, "xDone") != Symbol(DEFAULT, "xError")
    ensures Symbol(DEFAULT, "xDone") != Symbol(DEFAULT, "diErrorCode")
    ensures Symbol(DEFAULT, "xDone") != Symbol(DEFAULT, "udiStep")
    ensures Symbol(DEFAULT, "xDone") != Symbol(DEFAULT, "sStepName")
    ensures Symbol(DEFAULT, "xError") != Symbol(DEFAULT, "xBusy")
    ensures Symbol(DEFAULT, "xError") != Symbol(DEFAULT, "diErrorCode")
    ensures Symbol(DEFAULT, "xError") != Symbol(DEFAULT, "udiStep")
    ensures Symbol(DEFAULT, "xError") != Symbol(DEFAULT, "sStepName")
    ensures Symbol(DEFAULT, "diErrorCode") != Symbol(DEFAULT, "udiStep")
    ensures Symbol(DEFAULT, "diErrorCode") != Symbol(DEFAULT, "sStepName")
    ensures Symbol(DEFAULT, "xBusy") != Symbol(DEFAULT, "diErrorCode")
    ensures Symbol(DEFAULT, "xBusy") != Symbol(DEFAULT, "udiStep")
    ensures Symbol(DEFAULT, "xBusy") != Symbol(DEFAULT, "sStepName")
    ensures Symbol(DEFAULT, "udiStep") != Symbol(DEFAULT, "sStepName")
  {
    var n := |DEFAULT.root| + 1;
    assert forall f: string, k: nat | k < |f| :: Symbol(DEFAULT, f)[n + k] == f[k];
    assert Symbol(DEFAULT, "udiRequestId")[n..] == "udiRequestId";
    assert Symbol(DEFAULT, "xDone")[n..] == "xDone";
    assert Symbol(DEFAULT, "xBusy")[n..] == "xBusy";
    assert Symbol(DEFAULT, "xError")[n..] == "xError";
    assert Symbol(DEFAULT, "diErrorCode")[n..] == "diErrorCode";
    assert Symbol(DEFAULT, "udiStep")[n..] == "udiStep";
    assert Symbol(DEFAULT, "sStepName")[n..] == "sStepName";
  }

  // --- any configuration ---------------------------------------------------------------------------

  /** The value that is configured to mark a flag as set. */
  function AsValue(expected: Expected): PyValue {
    match expected case ExpectBool(b) => BoolV(b) case ExpectInt(i) => IntV(i)
  }

  /** A BOOL for a flag configured by a truth value, an integer for one configured by a number. */
  predicate HasType(v: PyValue, expected: Expected) {
    match expected case ExpectBool(_) => v.BoolV? case ExpectInt(_) => v.IntV?
  }

  /** The dictionary shows this request id and these flags under the configured symbols. */
  predicate Shows(cfg: Config, values: map<string, PyValue>, id: int, done: PyValue, error: PyValue) {
    && Lookup(values, Symbol(cfg, cfg.requestIdField)) == Some(IntV(id))
    && Lookup(values, Symbol(cfg, cfg.doneField)) == Some(done) && HasType(done, cfg.doneValue)
    && Lookup(values, Symbol(cfg, cfg.errorField)) == Some(error) && HasType(error, cfg.errorValue)
  }

  /** What a status of this id and these flags says about a request. */
  function Saying(cfg: Config, values: map<string, PyValue>, id: int, done: PyValue, error: PyValue, requestId: int): Verdict {
    if id != requestId then StillWaiting
    else if error == AsValue(cfg.errorValue) then
      StepFailed(if cfg.errorCodeField.Some? && cfg.errorCodeField.value != ""
                 then Lookup(values, Symbol(cfg, cfg.errorCodeField.value)) else None)
    else if done == AsValue(cfg.doneValue) then Completed
    else StillWaiting
  }

  /**
   For every configuration: with every sub-read good, the completion test takes a flag as set exactly
   when it holds the configured value, and says what id and flags say.
   */
  lemma TestReadsStatus(
    cfg: Config, values: map<string, PyValue>, id: int, done: PyValue, error: PyValue, requestId: int)
    requires Shows(cfg, values, id, done, error)
    ensures IsCompleted(cfg, values, requestId) == Saying(cfg, values, id, done, error, requestId)
  {
  }

  /** With the default configuration that is the verdict on the function block's status. */
  lemma DefaultTestIsVerdict(status: Status, requestId: nat)
    ensures Shows(DEFAULT, Snapshot(status), status.requestId, BoolV(status.done), BoolV(status.error))
    ensures IsCompleted(DEFAULT, Snapshot(status), requestId) == StatusVerdict(status, requestId)
  {
    DefaultSymbolsDiffer();
    hide Symbol;
    TestReadsStatus(DEFAULT, Snapshot(status), status.requestId, BoolV(status.done), BoolV(status.error), requestId);
  }

  // --- failed sub-reads ----------------------------------------------------------------------------

  /** The same read when the sub-reads of some symbols fail: their values are error texts. */
  function WithErrors(values: map<string, PyValue>, texts: map<string, string>): map<string, PyValue> {
    map s | s in values :: if s in texts then StrV(texts[s]) else values[s]
  }

  /** Error texts are never empty and never read as a number. */
  ghost predicate ErrorText(s: string) {
    s != "" && CoerceInt(Some(StrV(s))).None?
  }

  /** An error text passes for a set flag exactly when the flag is configured as true. */
  predicate TextPasses(expected: Expected) {
    expected == ExpectBool(true)
  }

  lemma TextMatches(text: string, expected: Expected)
    requires ErrorText(text)
    ensures Matches(Some(StrV(text)), expected) <==> TextPasses(expected)
  {
  }

  predicate SameVerdict(a: Verdict, b: Verdict) {
    a == b || (a.StepFailed? && b.StepFailed?)
  }

  /**
   For every configuration: when sub-reads fail, the completion test still tells the truth exactly if the
   request id's read failed only where the truth is "waiting", and, for this request, the error flag's read
   failed only where its text passes for what the flag holds, and so the done flag's on a run without
   error. With flags configured as true that means: only on runs that really failed or ended.
   */
  lemma TestUnderFailedReads(
    cfg: Config, values: map<string, PyValue>, id: int, done: PyValue, error: PyValue, texts: map<string, string>,
    requestId: int)
    requires Shows(cfg, values, id, done, error) && forall s | s in texts :: ErrorText(texts[s])
    ensures var truth := Saying(cfg, values, id, done, error, requestId);
            SameVerdict(IsCompleted(cfg, WithErrors(values, texts), requestId), truth)
            <==> (if Symbol(cfg, cfg.requestIdField) in texts then truth.StillWaiting?
                  else id != requestId
                       || ((Symbol(cfg, cfg.errorField) in texts ==>
                              (TextPasses(cfg.errorValue) <==> error == AsValue(cfg.errorValue)))
                           && (Symbol(cfg, cfg.doneField) in texts && error != AsValue(cfg.errorValue) ==>
                                 (TextPasses(cfg.doneValue) <==> done == AsValue(cfg.doneValue)))))
  {
    hide Symbol, ErrorText;
    var err, fin := Symbol(cfg, cfg.errorField), Symbol(cfg, cfg.doneField);
    if err in texts { TextMatches(texts[err], cfg.errorValue); }
    if fin in texts { TextMatches(texts[fin], cfg.doneValue); }
    if Symbol(cfg, cfg.requestIdField) in texts { TextIsNoNumber(texts[Symbol(cfg, cfg.requestIdField)]); }
  }

  lemma TextIsNoNumber(text: string)
    requires ErrorText(text)
    ensures CoerceInt(Some(StrV(text))) == None
  {
  }

  /** A running step chain is reported as completed when only the read of a done flag configured as true fails. */
  lemma FailedReadPassesForDone(
    cfg: Config, values: map<string, PyValue>, id: int, done: PyValue, error: PyValue, text: string)
    requires Shows(cfg, values, id, done, error) && ErrorText(text) && TextPasses(cfg.doneValue)
    requires done != AsValue(cfg.doneValue) && error != AsValue(cfg.errorValue)
    requires Symbol(cfg, cfg.doneField) !in {Symbol(cfg, cfg.requestIdField), Symbol(cfg, cfg.errorField)}
    ensures IsCompleted(cfg, WithErrors(values, map[Symbol(cfg, cfg.doneField) := text]), id) == Completed
    ensures Saying(cfg, values, id, done, error, id) == StillWaiting
  {
    hide Symbol;
  }

  // --- the request id ----------------------------------------------------------------------------

  function IndexOf(names: seq<string>, name: string): (i: nat)
    requires name in names
    ensures i < |names| && names[i] == name && name !in names[..i]
  {
    if names[0] == name then 0 else
    assert name in names[1..];
    var i := IndexOf(names[1..], name) + 1;
    assert names[..i] == [names[0]] + names[1..][..i - 1];
    i
  }

  /**
   `_resolve_request_id`: the id the client will wait for and the positional arguments to send;
   `drawn` is the next id of the connection's counter, used when the caller gives none.
   */
  function ResolveRequestId(argNames: seq<string>, requestArg: string, args: seq<int>, kwargs: map<string, int>, drawn: int)
    : Result<(int, seq<int>)>
  {
    if kwargs.Keys - {requestArg} != {} || requestArg !in argNames then Err(TypeError)
    else
      var at := IndexOf(argNames, requestArg);
      if requestArg in kwargs then
        if at != |args| then Err(TypeError) else Ok((kwargs[requestArg], args + [kwargs[requestArg]]))
      else if at < |args| then Ok((args[at], args))
      else if at != |args| then Err(TypeError)
      else Ok((drawn, args + [drawn]))
  }

  /** A method without the request-id argument is refused. */
  lemma NoRequestArgument(argNames: seq<string>, requestArg: string, args: seq<int>, kwargs: map<string, int>, drawn: int)
    requires requestArg !in argNames
    ensures ResolveRequestId(argNames, requestArg, args, kwargs, drawn) == Err(TypeError)
  {
  }

  /**
   The id waited for is the argument the PLC receives in the request-id position; the rest is untouched. It
   is the one the caller gives, by name or position, and else the next of the connection's counter.
   */
  lemma WaitsForTheIdItSends(argNames: seq<string>, requestArg: string, args: seq<int>, kwargs: map<string, int>, drawn: int)
    requires requestArg in argNames
    ensures var at := IndexOf(argNames, requestArg);
            var r := ResolveRequestId(argNames, requestArg, args, kwargs, drawn);
            && (r.Ok? ==> at < |r.value.1| && r.value.1[at] == r.value.0 && args <= r.value.1 && |r.value.1| <= |args| + 1)
            && (r.Ok? && requestArg in kwargs ==> r.value == (kwargs[requestArg], args + [kwargs[requestArg]]) && |args| == at)
            && (r.Ok? && requestArg !in kwargs && at < |args| ==> r.value == (args[at], args))
            && (r.Ok? && requestArg !in kwargs && at == |args| ==> r.value == (drawn, args + [drawn]))
            && (r.Err? ==> r.error == TypeError)
            && (r.Ok? <==> kwargs.Keys <= {requestArg} && (|args| == at || (at < |args| && requestArg !in kwargs)))
  {
  }
}
