/** Chunking, the symbol cache over whole runs of calls, and structures whose sub-read failed. */
module ConnectionTheorems {
  import opened Wrappers
  import opened Bytes
  import opened StructureCodec
  import opened AdvancedHandlers
  import opened SumCommands
  import opened SumTexts
  import opened SumLayout
  import opened SumCalls
  import opened SumTheorems
  import opened Connections

  // --- slices --------------------------------------------------------------------------------------

  function Flatten<T>(ss: seq<seq<T>>): seq<T> {
    if ss == [] then [] else ss[0] + Flatten(ss[1..])
  }

  /** The slices are the list cut up: in order, nothing lost or repeated, none empty, and none longer than `k`; only the last may be shorter. */
  lemma {:induction false} SlicesPartition<T>(s: seq<T>, k: nat)
    requires k > 0
    ensures Flatten(Slices(s, k)) == s
    ensures forall j | 0 <= j < |Slices(s, k)| :: 0 < |Slices(s, k)[j]| <= k
    ensures forall j | 0 <= j < |Slices(s, k)| - 1 :: |Slices(s, k)[j]| == k
    decreases |s|
  {
    if |s| > k {
      SlicesPartition(s[k..], k);
      var rest := Slices(s[k..], k);
      assert Slices(s, k) == [s[..k]] + rest && s == s[..k] + s[k..];
      assert rest != [];
    } else if s != [] {
      assert Slices(s, k) == [s] && [s][1..] == [];
      assert Flatten(Slices(s, k)) == s + [];
    }
  }

  // --- chunked reads -------------------------------------------------------------------------------

  /** A target that reserves for every sub-request the window it asked for. */
  predicate Steady(target: Target, cols: seq<Column>) {
    match target
    case TestServer(data) => Matching(data, cols)
    case Device(serve) => forall k | 0 <= k < |cols| :: |serve(cols[k].entry.AsRequest()).window| == cols[k].entry.size
  }

  function AnswerTo(target: Target, col: Column): Answer {
    match target
    case TestServer(data) =>
      var a := col.entry.AsRequest().Address();
      Answer(0, if a in data then data[a] else [])
    case Device(serve) => serve(col.entry.AsRequest())
  }

  function AnswersTo(target: Target, cols: seq<Column>): seq<Answer> {
    seq(|cols|, k requires 0 <= k < |cols| => AnswerTo(target, cols[k]))
  }

  /** A name stands for one variable. */
  predicate NamesOneVariable(cols: seq<Column>) {
    forall i, j | 0 <= i < j < |cols| && cols[i].name == cols[j].name :: cols[i] == cols[j]
  }

  lemma TargetGathers(codes: map<nat, string>, target: Target, cols: seq<Column>)
    requires Steady(target, cols) && NoneBorrows(cols)
    ensures TargetRead(codes, target, cols) == Gathered(codes, cols, AnswersTo(target, cols), map[])
  {
    hide NoneBorrows, OwnWindows, Gathered, SumRead, ParsedRead, Response;
    match target
    case TestServer(data) =>
      SumReadGathers(codes, data, cols);
      assert StoredAnswers(data, cols) == AnswersTo(target, cols);
    case Device(serve) =>
      NoneBorrowsReads(cols, AnswersTo(target, cols));
      ResponseWindows(codes, cols, AnswersTo(target, cols));
      assert AnswersTo(target, cols) == seq(|cols|, k requires 0 <= k < |cols| => serve(cols[k].entry.AsRequest()));
  }

  function DefOf(defs: Defs, name: string): Option<seq<Item>> {
    if defs == [] then None else if defs[0].0 == name then Some(defs[0].1) else DefOf(defs[1..], name)
  }

  predicate DistinctDefs(defs: Defs) {
    forall i, j | 0 <= i < j < |defs| :: defs[i].0 != defs[j].0
  }

  /** A result taken through the name's definition, if it has one. */
  function Through(defs: Defs, name: string, v: SumValue): Result<SumValue> {
    match DefOf(defs, name) case None => Ok(v) case Some(def) => Structured(def, v)
  }

  /** What one column yields, whatever else is read with it. */
  function Yield(codes: map<nat, string>, target: Target, defs: Defs, col: Column): Result<SumValue> {
    var v :- OwnResult(codes, col, AnswerTo(target, col));
    Through(defs, col.name, v)
  }

  lemma {:induction false} DefOfIn(defs: Defs, name: string)
    ensures DefOf(defs, name).Some? <==> name in DefNames(defs)
  {
    if defs != [] {
      DefOfIn(defs[1..], name);
      if name in DefNames(defs) && defs[0].0 != name {
        var k :| 0 <= k < |defs| && defs[k].0 == name;
        assert defs[1..][k - 1].0 == name;
      }
      assert forall k | 0 <= k < |defs| - 1 :: defs[1..][k] == defs[k + 1];
    }
  }

  /** Post-processing takes each name through its own definition, and raises exactly when one of them does. */
  lemma {:induction false} PostProcessedAt(defs: Defs, r: map<string, SumValue>)
    requires DistinctDefs(defs)
    ensures var p := PostProcessed(defs, r);
            && (p.Ok? <==> forall n | n in r :: Through(defs, n, r[n]).Ok?)
            && (p.Ok? ==> p.value.Keys == r.Keys && forall n | n in r :: Ok(p.value[n]) == Through(defs, n, r[n]))
    decreases |defs|
  {
    hide Structured;
    if defs != [] {
      var (name, def) := defs[0];
      assert DistinctDefs(defs[1..]) by {
        assert forall k | 0 <= k < |defs| - 1 :: defs[1..][k] == defs[k + 1];
      }
      DefOfIn(defs[1..], name);
      assert forall k | 0 <= k < |defs| - 1 :: defs[1..][k].0 != name;
      assert DefOf(defs[1..], name) == None;
      if name !in r {
        PostProcessedAt(defs[1..], r);
        assert forall n | n in r :: Through(defs[1..], n, r[n]) == Through(defs, n, r[n]);
      } else {
        var v := Structured(def, r[name]);
        assert Through(defs, name, r[name]) == v;
        if v.Ok? {
          var r' := r[name := v.value];
          PostProcessedAt(defs[1..], r');
          assert forall n | n in r && n != name :: Through(defs[1..], n, r'[n]) == Through(defs, n, r[n]);
        }
      }
    }
  }

  /** The result that reading the columns one by one would give. */
  ghost predicate Yields(
    codes: map<nat, string>, target: Target, defs: Defs, cols: seq<Column>, r: Result<map<string, SumValue>>)
  {
    && (r.Ok? <==> forall k | 0 <= k < |cols| :: Yield(codes, target, defs, cols[k]).Ok?)
    && (r.Ok? ==>
          && r.value.Keys == NameSet(cols)
          && forall k | 0 <= k < |cols| ::
               cols[k].name in r.value && Ok(r.value[cols[k].name]) == Yield(codes, target, defs, cols[k]))
  }

  lemma TargetReadValues(codes: map<nat, string>, target: Target, cols: seq<Column>)
    requires Steady(target, cols) && NoneBorrows(cols) && NamesOneVariable(cols)
    ensures var r := TargetRead(codes, target, cols);
            && (r.Ok? <==> forall k | 0 <= k < |cols| :: OwnResult(codes, cols[k], AnswerTo(target, cols[k])).Ok?)
            && (r.Ok? ==>
                  && r.value.Keys == NameSet(cols)
                  && forall k | 0 <= k < |cols| ::
                       cols[k].name in r.value && Ok(r.value[cols[k].name]) == OwnResult(codes, cols[k], AnswerTo(target, cols[k])))
  {
    hide NoneBorrows, OwnResult, TargetRead, Gathered, Steady, AnswerTo;
    var answers := AnswersTo(target, cols);
    TargetGathers(codes, target, cols);
    GatheredKeys(codes, cols, answers, map[]);
    var r := TargetRead(codes, target, cols);
    if r.Ok? {
      forall k | 0 <= k < |cols|
        ensures cols[k].name in r.value && Ok(r.value[cols[k].name]) == OwnResult(codes, cols[k], AnswerTo(target, cols[k]))
      {
        GatheredValue(codes, cols, answers, map[], k);
      }
    }
  }

  /** One call gives every column what it would give alone. */
  lemma OneCallYields(codes: map<nat, string>, target: Target, cols: seq<Column>, defs: Defs)
    requires Steady(target, cols) && NoneBorrows(cols) && NamesOneVariable(cols) && DistinctDefs(defs)
    ensures Yields(codes, target, defs, cols, ReadOnce(codes, target, cols, defs))
  {
    hide NoneBorrows, OwnResult, TargetRead, Steady, AnswerTo, Through, PostProcessed;
    TargetReadValues(codes, target, cols);
    var r := TargetRead(codes, target, cols);
    if r.Ok? {
      PostProcessedAt(defs, r.value);
      forall k | 0 <= k < |cols|
        ensures Through(defs, cols[k].name, r.value[cols[k].name]) == Yield(codes, target, defs, cols[k])
      {
      }
      forall n | n in r.value
        ensures exists k :: 0 <= k < |cols| && cols[k].name == n
      {
        assert n in NameSet(cols);
      }
    }
  }

  lemma NameSetConcat(a: seq<Column>, b: seq<Column>)
    ensures NameSet(a + b) == NameSet(a) + NameSet(b)
  {
    forall n | n in NameSet(a) + NameSet(b) ensures n in NameSet(a + b) {
      if n in NameSet(a) {
        var k :| 0 <= k < |a| && a[k].name == n;
        assert (a + b)[k].name == n;
      } else {
        var k :| 0 <= k < |b| && b[k].name == n;
        assert (a + b)[|a| + k].name == n;
      }
    }
  }

  /** The results of two parts merged are the result of the whole. */
  lemma YieldsConcat(
    codes: map<nat, string>, target: Target, defs: Defs, a: seq<Column>, b: seq<Column>,
    r: map<string, SumValue>, s: map<string, SumValue>)
    requires NamesOneVariable(a + b)
    requires Yields(codes, target, defs, a, Ok(r)) && Yields(codes, target, defs, b, Ok(s))
    ensures Yields(codes, target, defs, a + b, Ok(r + s))
  {
    hide Yield;
    NameSetConcat(a, b);
    var c := a + b;
    forall k | 0 <= k < |c|
      ensures c[k].name in r + s && Ok((r + s)[c[k].name]) == Yield(codes, target, defs, c[k])
    {
      if k < |a| {
        assert a[k] == c[k];
        if a[k].name in s {
          assert a[k].name in NameSet(b);
          var j :| 0 <= j < |b| && b[j].name == a[k].name;
          assert c[|a| + j] == b[j];
        }
      } else {
        assert c[k] == b[k - |a|];
        assert b[k - |a|].name in s;
      }
    }
  }

  lemma {:induction false} BorrowsPart(cols: seq<Column>, n: nat)
    requires n <= |cols| && NoneBorrows(cols)
    ensures NoneBorrows(cols[..n]) && NoneBorrows(cols[n..]) && TotalSize(cols[..n]) <= TotalSize(cols)
    decreases n
  {
    if n == 0 {
      assert cols[0..] == cols;
    } else {
      BorrowsPart(cols[1..], n - 1);
      assert cols[..n][1..] == cols[1..][..n - 1] && cols[1..][n - 1..] == cols[n..];
    }
  }

  lemma PartsOf(target: Target, cols: seq<Column>, n: nat)
    requires n <= |cols| && Steady(target, cols) && NoneBorrows(cols) && NamesOneVariable(cols)
    ensures Steady(target, cols[..n]) && NoneBorrows(cols[..n]) && NamesOneVariable(cols[..n])
    ensures Steady(target, cols[n..]) && NoneBorrows(cols[n..]) && NamesOneVariable(cols[n..])
  {
    hide NoneBorrows;
    BorrowsPart(cols, n);
    var b := cols[n..];
    assert forall i | 0 <= i < |b| :: b[i] == cols[n + i];
  }

  lemma {:induction false} ChunksYield(
    codes: map<nat, string>, target: Target, before: seq<Column>, cols: seq<Column>, k: nat, defs: Defs,
    acc: map<string, SumValue>)
    requires k > 0 && Steady(target, cols) && NoneBorrows(cols) && DistinctDefs(defs)
    requires NamesOneVariable(cols) && NamesOneVariable(before + cols) && Yields(codes, target, defs, before, Ok(acc))
    ensures Yields(codes, target, defs, before + cols, ReadChunks(codes, target, cols, k, defs, acc))
    decreases |cols|
  {
    hide NoneBorrows, Steady, Yield, ReadOnce, Yields, NamesOneVariable;
    if cols == [] {
      assert before + [] == before;
    } else {
      var n := if |cols| <= k then |cols| else k;
      var a, b := cols[..n], cols[n..];
      PartsOf(target, cols, n);
      OneCallYields(codes, target, a, defs);
      var r := ReadOnce(codes, target, a, defs);
      assert before + cols == (before + a) + b;
      if r.Ok? {
        PrefixNames(before + a, b);
        YieldsConcat(codes, target, defs, before, a, acc, r.value);
        ChunksYield(codes, target, before + a, b, k, defs, acc + r.value);
      } else {
        YieldsErr(codes, target, defs, before, a, b, r.error);
      }
    }
  }

  lemma PrefixNames(a: seq<Column>, b: seq<Column>)
    requires NamesOneVariable(a + b)
    ensures NamesOneVariable(a)
  {
    assert forall i | 0 <= i < |a| :: (a + b)[i] == a[i];
  }

  /** A part that raises makes the whole raise. */
  lemma YieldsErr(
    codes: map<nat, string>, target: Target, defs: Defs, before: seq<Column>, a: seq<Column>, b: seq<Column>, e: Error)
    requires Yields(codes, target, defs, a, Err(e))
    ensures Yields(codes, target, defs, (before + a) + b, Err(e))
  {
    hide Yield;
    var c := (before + a) + b;
    var k :| 0 <= k < |a| && !Yield(codes, target, defs, a[k]).Ok?;
    assert c[|before| + k] == a[k];
  }

  /** Both raise, or both return the same. */
  predicate SameOutcome(a: Result<map<string, SumValue>>, b: Result<map<string, SumValue>>) {
    (a.Err? && b.Err?) || a == b
  }

  lemma YieldsUnique(
    codes: map<nat, string>, target: Target, defs: Defs, cols: seq<Column>, r: Result<map<string, SumValue>>,
    s: Result<map<string, SumValue>>)
    requires Yields(codes, target, defs, cols, r) && Yields(codes, target, defs, cols, s)
    ensures SameOutcome(r, s)
  {
    hide Yield;
    if r.Ok? {
      forall n | n in r.value ensures r.value[n] == s.value[n] {
        assert n in NameSet(cols);
        var k :| 0 <= k < |cols| && cols[k].name == n;
      }
      assert r.value == s.value;
    }
  }

  /**
   Chunking refines the one-shot call: for every list in which no entry can borrow and every chunk size of
   at least one, the chunked read returns what a single call returns on an unchanged target, or raises
   when the single call does.
   */
  lemma ChunkedReadAgrees(codes: map<nat, string>, target: Target, cols: seq<Column>, k: int, defs: Defs)
    requires k >= 1 && Steady(target, cols) && NoneBorrows(cols) && NamesOneVariable(cols) && DistinctDefs(defs)
    ensures SameOutcome(ReadList(codes, target, cols, k, defs), ReadOnce(codes, target, cols, defs))
  {
    hide NoneBorrows, Steady, Yields, NamesOneVariable, ReadOnce;
    if |cols| > k {
      assert [] + cols == cols;
      NothingYields(codes, target, defs);
      ChunksYield(codes, target, [], cols, k, defs, map[]);
      OneCallYields(codes, target, cols, defs);
      YieldsUnique(codes, target, defs, cols, ReadList(codes, target, cols, k, defs), ReadOnce(codes, target, cols, defs));
    }
  }

  lemma NothingYields(codes: map<nat, string>, target: Target, defs: Defs)
    ensures Yields(codes, target, defs, [], Ok(map[]))
  {
  }

  /** The columns of a list of names satisfy what chunking asks of names, even with repetitions. */
  lemma ColumnsAreConsistent(names: seq<string>, symbols: map<string, SymbolEntry>, structured: set<string>)
    requires AllIn(names, symbols)
    ensures NamesOneVariable(Columns(names, symbols, structured))
  {
  }

  /** A chunk size below one reads nothing of a non-empty list: zero raises, a negative one returns an empty result. */
  lemma NoChunksWithoutSize(
    codes: map<nat, string>, target: Target, data: Store, cols: seq<Column>, vs: seq<SumValue>, k: int, defs: Defs)
    requires k < 1 && cols != [] && |vs| == |cols|
    ensures ReadList(codes, target, cols, k, defs) == if k == 0 then Err(ValueError) else Ok(map[])
    ensures WriteList(codes, data, cols, vs, k) == (data, if k == 0 then Err(ValueError) else Ok(map[]))
  {
  }

  /**
   Why entries must not be narrow: one smaller than its scalar type, read on its own, always raises,
   because the response ends before the scalar does.
   */
  lemma NarrowAloneRaises(codes: map<nat, string>, target: Target, col: Column, defs: Defs)
    requires Steady(target, [col]) && Narrow(col.entry, col.structured) && AnswerTo(target, col).word == 0
    ensures ReadOnce(codes, target, [col], defs).Err?
  {
    hide ShapeOf, Steady, Response, LE, AnswersTo;
    var a := AnswerTo(target, col);
    AnswersAlone(target, col);
    AloneIsParsed(codes, target, col);
    SteadyAlone(target, col);
    OneAnswer(a);
    var b := Response([a]);
    assert [col][1..] == [] && TotalSize([col]) == col.entry.size;
    assert Landed(b, 4 + col.entry.size) == b;
    WordReads([], 0, a.window, 0);
    assert b == [] + LE(0, 4) + a.window;
  }

  lemma AnswersAlone(target: Target, col: Column)
    ensures AnswersTo(target, [col]) == [AnswerTo(target, col)]
  {
  }

  lemma SteadyAlone(target: Target, col: Column)
    requires Steady(target, [col])
    ensures |AnswerTo(target, col).window| == col.entry.size
  {
    assert [col][0] == col;
  }

  lemma OneAnswer(a: Answer)
    ensures Response([a]) == LE(a.word, 4) + a.window
  {
    assert [a][1..] == [];
    assert Words([a]) == LE(a.word, 4) + [] && Windows([a]) == a.window + [];
  }

  lemma AloneIsParsed(codes: map<nat, string>, target: Target, col: Column)
    requires Steady(target, [col])
    ensures TargetRead(codes, target, [col]) == ParsedRead(codes, [col], Response(AnswersTo(target, [col])))
  {
    hide ParsedRead, Response, HandledRead, SumCommands.Headers;
    var cols := [col];
    match target
    case TestServer(data) =>
      RespondsStored(data, cols);
      assert StoredAnswers(data, cols) == AnswersTo(target, cols);
    case Device(serve) =>
      assert AnswersTo(target, cols) == seq(1, k requires 0 <= k < 1 => serve(cols[k].entry.AsRequest()));
  }

  // --- exactly when chunking agrees ----------------------------------------------------------------

  /** Every sub-request fails with a known code, or is a borrower that is answered. */
  predicate Legible(codes: map<nat, string>, cols: seq<Column>, answers: seq<Answer>)
    requires |answers| == |cols|
  {
    cols == []
    || ((if answers[0].word == 0 then Borrows(cols[0], TotalSize(cols)) else answers[0].word as nat in codes)
        && Legible(codes, cols[1..], answers[1..]))
  }

  /** Then one call returns: the borrower finds the bytes it needs behind its window. */
  lemma {:induction false} LegibleReturns(
    codes: map<nat, string>, cols: seq<Column>, answers: seq<Answer>, i: nat, words: seq<byte>, windows: seq<byte>,
    acc: map<string, SumValue>)
    requires Answers(cols, answers) && Legible(codes, cols, answers) && |words| == 4 * i
    ensures Results(codes, cols, i, words + Words(answers) + windows + Windows(answers),
                    |words + Words(answers) + windows|, acc).Ok?
    decreases |cols|
  {
    hide Borrows, NameResult, ErrorWord, LE;
    if cols != [] {
      var a := answers[0];
      WindowsTile(cols, answers);
      var b, at := words + Words(answers) + windows + Windows(answers), |words + Words(answers) + windows|;
      FirstAnswer(words, windows, answers);
      var words', windows' := words + LE(a.word, 4), windows + a.window;
      WordReads(words, a.word, Words(answers[1..]) + windows + Windows(answers), i);
      LegibleReads(codes, cols[0], a.word, b, at);
      var v := NameResult(codes, cols[0].entry, cols[0].structured, a.word, b, at).value;
      LegibleReturns(codes, cols[1..], answers[1..], i + 1, words', windows', acc[cols[0].name := v]);
    }
  }

  lemma LegibleReads(codes: map<nat, string>, col: Column, word: u32, b: seq<byte>, at: nat)
    requires at <= |b| && (if word == 0 then Borrows(col, |b| - at) else word as nat in codes)
    ensures NameResult(codes, col.entry, col.structured, word, b, at).Ok?
  {
    if word == 0 {
      StarvedReads(col.entry, col.structured, b, at);
    }
  }

  /** A device that serves one request and fails all others with the same code. */
  function Serving(request: Request, code: u32): Request -> Answer {
    r => Answer(if r == request then 0 else code, Zeros(r.size))
  }

  /** Whoever asks this request borrows. */
  predicate AskerBorrows(cols: seq<Column>, request: Request) {
    cols == []
    || ((cols[0].entry.AsRequest() == request ==> Borrows(cols[0], TotalSize(cols))) && AskerBorrows(cols[1..], request))
  }

  lemma {:induction false} ServingIsLegible(codes: map<nat, string>, cols: seq<Column>, request: Request, code: u32)
    requires code != 0 && code as nat in codes && AskerBorrows(cols, request)
    ensures Legible(codes, cols, AnswersTo(Device(Serving(request, code)), cols))
  {
    hide Borrows;
    if cols != [] {
      var target := Device(Serving(request, code));
      ServingIsLegible(codes, cols[1..], request, code);
      assert AnswersTo(target, cols)[1..] == AnswersTo(target, cols[1..]);
    }
  }

  predicate DistinctRequests(cols: seq<Column>) {
    forall i, j | 0 <= i < j < |cols| :: cols[i].entry.AsRequest() != cols[j].entry.AsRequest()
  }

  lemma {:induction false} OnlyOneAsks(cols: seq<Column>, request: Request, i: nat)
    requires i < |cols| && Borrows(cols[i], TotalSize(cols[i..]))
    requires forall j | 0 <= j < |cols| && j != i :: cols[j].entry.AsRequest() != request
    ensures AskerBorrows(cols, request)
    decreases |cols|
  {
    hide Borrows;
    var rest := cols[1..];
    assert forall j | 0 <= j < |rest| :: rest[j] == cols[j + 1];
    if i > 0 {
      assert rest[i - 1..] == cols[i..];
      OnlyOneAsks(rest, request, i - 1);
    } else {
      assert cols[0..] == cols;
      NobodyAsks(rest, request);
    }
  }

  lemma {:induction false} NobodyAsks(cols: seq<Column>, request: Request)
    requires forall j | 0 <= j < |cols| :: cols[j].entry.AsRequest() != request
    ensures AskerBorrows(cols, request)
  {
    hide Borrows;
    if cols != [] {
      NobodyAsks(cols[1..], request);
    }
  }

  /** Reading one name a call raises as soon as one of the names alone does. */
  lemma {:induction false} OneByOneRaises(
    codes: map<nat, string>, target: Target, cols: seq<Column>, i: nat, defs: Defs, acc: map<string, SumValue>)
    requires i < |cols| && ReadOnce(codes, target, [cols[i]], defs).Err?
    ensures ReadChunks(codes, target, cols, 1, defs, acc).Err?
    decreases |cols|
  {
    hide ReadOnce;
    assert cols[..1] == [cols[0]];
    var first := ReadOnce(codes, target, cols[..1], defs);
    if i > 0 && first.Ok? {
      assert cols[1..][i - 1] == cols[i];
      OneByOneRaises(codes, target, cols[1..], i - 1, defs, acc + first.value);
    }
  }

  /**
   Every list with a borrower has a device on which the chunked read and the single call part ways: it
   fails all sub-requests but the borrower's. At once, the borrower is read with its neighbours' bytes;
   one name a call, it raises.
   */
  lemma BorrowingBreaksChunking(codes: map<nat, string>, cols: seq<Column>, i: nat, code: u32)
    requires i < |cols| && Borrows(cols[i], TotalSize(cols[i..])) && DistinctRequests(cols)
    requires code != 0 && code as nat in codes
    ensures var target := Device(Serving(cols[i].entry.AsRequest(), code));
            && Steady(target, cols)
            && ReadOnce(codes, target, cols, []).Ok?
            && ReadList(codes, target, cols, 1, []).Err?
  {
    var request := cols[i].entry.AsRequest();
    var target := Device(Serving(request, code));
    var answers := AnswersTo(target, cols);
    OnlyOneAsks(cols, request, i);
    ServingIsLegible(codes, cols, request, code);
    BorrowerHasCompany(cols, i);
    hide Borrows, Results, ReadOnce, Legible, AskerBorrows;
    OneCallReturns(codes, target, cols);
    NarrowAlone(cols, i);
    NarrowAloneRaises(codes, target, cols[i], []);
    OneByOneRaises(codes, target, cols, i, [], map[]);
  }

  lemma NarrowAlone(cols: seq<Column>, i: nat)
    requires i < |cols| && Borrows(cols[i], TotalSize(cols[i..]))
    ensures Narrow(cols[i].entry, cols[i].structured)
  {
  }

  lemma OneCallReturns(codes: map<nat, string>, target: Target, cols: seq<Column>)
    requires target.Device? && Steady(target, cols) && Legible(codes, cols, AnswersTo(target, cols))
    ensures ReadOnce(codes, target, cols, []).Ok?
  {
    hide Legible, Results, Words, Windows;
    var answers := AnswersTo(target, cols);
    assert answers == seq(|cols|, k requires 0 <= k < |cols| => target.serve(cols[k].entry.AsRequest()));
    WindowsTile(cols, answers);
    LegibleReturns(codes, cols, answers, 0, [], [], map[]);
    assert [] + Words(answers) + [] == Words(answers);
    assert Landed(Response(answers), 4 * |cols| + TotalSize(cols)) == Response(answers);
  }

  lemma BorrowerHasCompany(cols: seq<Column>, i: nat)
    requires i < |cols| && Borrows(cols[i], TotalSize(cols[i..]))
    ensures |cols| > 1
  {
    assert cols[i..][1..] == cols[i + 1..];
    assert TotalSize(cols[i..]) == cols[i].entry.size + TotalSize(cols[i + 1..]);
  }

  lemma {:induction false} SomeBorrower(cols: seq<Column>) returns (i: nat)
    requires !NoneBorrows(cols)
    ensures i < |cols| && Borrows(cols[i], TotalSize(cols[i..]))
  {
    hide Borrows;
    if Borrows(cols[0], TotalSize(cols)) {
      i := 0;
      assert cols[0..] == cols;
    } else {
      var j := SomeBorrower(cols[1..]);
      i := j + 1;
      assert cols[1..][j..] == cols[j + 1..];
    }
  }

  /** On every steady target the chunked read and the single call agree, whatever the chunk size. */
  ghost predicate ChunkingAgrees(codes: map<nat, string>, cols: seq<Column>) {
    forall target: Target, k: int | k >= 1 && Steady(target, cols) ::
      SameOutcome(ReadList(codes, target, cols, k, []), ReadOnce(codes, target, cols, []))
  }

  /**
   Exactly when chunking agrees, for every list of distinct requests: if and only if no entry smaller than
   its scalar type has enough bytes behind it in the list to borrow from. That can be read off the symbol
   entries before the call.
   */
  lemma ChunkedReadExactly(codes: map<nat, string>, cols: seq<Column>, code: u32)
    requires DistinctRequests(cols) && NamesOneVariable(cols) && code != 0 && code as nat in codes
    ensures ChunkingAgrees(codes, cols) <==> NoneBorrows(cols)
  {
    hide NoneBorrows, Steady, ReadList, ReadOnce, Borrows, NamesOneVariable, DistinctRequests;
    if NoneBorrows(cols) {
      forall target: Target, k: int | k >= 1 && Steady(target, cols)
        ensures SameOutcome(ReadList(codes, target, cols, k, []), ReadOnce(codes, target, cols, []))
      {
        ChunkedReadAgrees(codes, target, cols, k, []);
      }
    } else {
      var i := SomeBorrower(cols);
      BorrowingBreaksChunking(codes, cols, i, code);
    }
  }

  // --- chunked writes ------------------------------------------------------------------------------

  lemma {:induction false} RequestsConcat(cols: seq<Column>, n: nat)
    requires n <= |cols|
    ensures RequestsOf(cols) == RequestsOf(cols[..n]) + RequestsOf(cols[n..])
    decreases n
  {
    if n == 0 {
      assert cols[0..] == cols;
    } else {
      var rest := cols[1..];
      RequestsConcat(rest, n - 1);
      assert cols[..n][1..] == rest[..n - 1] && rest[n - 1..] == cols[n..] && cols[..n][0] == cols[0];
      var first := [cols[0].entry.AsRequest()];
      assert first + (RequestsOf(rest[..n - 1]) + RequestsOf(cols[n..])) == (first + RequestsOf(rest[..n - 1])) + RequestsOf(cols[n..]);
    }
  }

  lemma {:induction false} ImagesConcat(cols: seq<Column>, vs: seq<SumValue>, n: nat)
    requires AllPlace(cols, vs) && n <= |cols|
    ensures AllPlace(cols[..n], vs[..n]) && AllPlace(cols[n..], vs[n..])
    ensures Images(cols, vs) == Images(cols[..n], vs[..n]) + Images(cols[n..], vs[n..])
    decreases n
  {
    hide Places, Image;
    if n == 0 {
      assert cols[0..] == cols && vs[0..] == vs;
    } else {
      var cols', vs' := cols[1..], vs[1..];
      ImagesConcat(cols', vs', n - 1);
      assert cols[..n][1..] == cols'[..n - 1] && vs[..n][1..] == vs'[..n - 1];
      assert cols'[n - 1..] == cols[n..] && vs'[n - 1..] == vs[n..];
      assert Images(cols[..n], vs[..n]) == ImageAt(cols, vs, 0) + Images(cols'[..n - 1], vs'[..n - 1]);
    }
  }

  lemma {:induction false} AllWrittenConcat(codes: map<nat, string>, a: seq<string>, b: seq<string>, acc: map<string, string>)
    requires 0 in codes
    ensures AllWritten(codes, a + b, acc) == AllWritten(codes, b, AllWritten(codes, a, acc))
    decreases |a|
  {
    if a == [] {
      assert a + b == b;
    } else {
      assert (a + b)[1..] == a[1..] + b;
      AllWrittenConcat(codes, a[1..], b, acc[a[0] := codes[0]]);
    }
  }

  lemma {:induction false} AllWrittenUnion(codes: map<nat, string>, names: seq<string>, acc: map<string, string>)
    requires 0 in codes
    ensures AllWritten(codes, names, acc) == acc + AllWritten(codes, names, map[])
    decreases |names|
  {
    if names != [] {
      var one: map<string, string> := map[][names[0] := codes[0]];
      AllWrittenUnion(codes, names[1..], acc[names[0] := codes[0]]);
      AllWrittenUnion(codes, names[1..], one);
      assert acc[names[0] := codes[0]] == acc + one;
    }
  }

  /** What the chunks of a write leave behind is what one write would, from any point on. */
  lemma {:induction false} ChunksWrite(
    codes: map<nat, string>, data: Store, cols: seq<Column>, vs: seq<SumValue>, k: nat, acc: map<string, string>)
    requires k > 0 && 0 in codes && AllPlace(cols, vs)
    ensures var (after, error) := Written(data, RequestsOf(cols), Images(cols, vs));
            WriteChunks(codes, data, cols, vs, k, acc) ==
            (after, if error.Some? then Err(error.value) else Ok(AllWritten(codes, NamesOf(cols), acc)))
    decreases |cols|
  {
    hide Places, Image, SumWrite, Written, AllWritten;
    if cols == [] {
      NothingWritten(codes, data, cols, acc);
    } else {
      var n := if |cols| <= k then |cols| else k;
      var a, b := cols[..n], cols[n..];
      RequestsConcat(cols, n);
      assert NamesOf(cols) == NamesOf(a) + NamesOf(b);
      ImagesConcat(cols, vs, n);
      VariablesWrite(a, vs[..n], [], TotalSize(a));
      ColumnsAsk(a);
      WrittenConcat(data, RequestsOf(a), RequestsOf(b), Images(a, vs[..n]), Images(b, vs[n..]));
      SumWriteIs(codes, data, a, vs[..n]);
      var (after, error) := Written(data, RequestsOf(a), Images(a, vs[..n]));
      if error.None? {
        var part := AllWritten(codes, NamesOf(a), map[]);
        AllWrittenUnion(codes, NamesOf(a), acc);
        AllWrittenConcat(codes, NamesOf(a), NamesOf(b), acc);
        ChunksWrite(codes, after, b, vs[n..], k, acc + part);
      }
    }
  }

  lemma NothingWritten(codes: map<nat, string>, data: Store, cols: seq<Column>, acc: map<string, string>)
    requires 0 in codes && cols == []
    ensures Written(data, RequestsOf(cols), []) == (data, None) && AllWritten(codes, NamesOf(cols), acc) == acc
  {
  }

  /**
   The chunked write leaves the same final store and returns the same statuses as a single call, for
   every chunk size of at least one; when an address is unknown both raise with the same writes done.
   */
  lemma ChunkedWriteAgrees(
    codes: map<nat, string>, data: Store, cols: seq<Column>, vs: seq<SumValue>, k: int)
    requires k >= 1 && 0 in codes && AllPlace(cols, vs)
    ensures WriteList(codes, data, cols, vs, k) == SumWrite(codes, data, cols, vs)
  {
    hide Places, Image, SumWrite, Written, AllWritten;
    if |cols| > k {
      ChunksWrite(codes, data, cols, vs, k, map[]);
      SumWriteIs(codes, data, cols, vs);
    }
  }

  // --- values the writer refuses -------------------------------------------------------------------

  /** What the writer raises for a value of the wrong type, count or range, whatever the buffer holds. */
  function Refusal(entry: SymbolEntry, structured: bool, v: SumValue): Option<Error> {
    match ShapeOf(entry, structured)
    case RawShape => if v.Raw? then None else Some(TypeError)
    case NoShape => Some(KeyError)
    case TextShape(_) => if v.Plain? && v.v.TextV? then None else Some(TypeError)
    case TextsShape(_, _) =>
      if !v.Plain? then Some(TypeError)
      else if Elements(v.v).Err? then Some(Elements(v.v).error)
      else if exists k :: 0 <= k < |Elements(v.v).value| && !Elements(v.v).value[k].TextV? then Some(TypeError)
      else None
    case ScalarsShape(t, n) =>
      if !v.Plain? then Some(TypeError)
      else if Elements(v.v).Err? then Some(Elements(v.v).error)
      else if |Elements(v.v).value| != n then Some(StructError)
      else if PackAll(t, Elements(v.v).value).Err? then Some(PackAll(t, Elements(v.v).value).error)
      else None
    case ScalarShape(t) =>
      if !v.Plain? then Some(TypeError)
      else if PackAll(t, [v.v]).Err? then Some(PackAll(t, [v.v]).error)
      else None
  }

  lemma {:induction false} NonTextRaises(wide: bool, b: seq<byte>, at: int, elementSize: int, vs: seq<Value>, k: nat)
    requires k < |vs| && !vs[k].TextV?
    ensures WriteTexts(wide, b, at, elementSize, vs) == Err(TypeError)
    decreases |vs|
  {
    var c := WriteText(wide, b, at, vs[0]);
    if c.Ok? {
      NonTextRaises(wide, c.value, at + elementSize, elementSize, vs[1..], k - 1);
    }
  }

  lemma RefusedRaises(entry: SymbolEntry, structured: bool, v: SumValue, b: seq<byte>, at: nat)
    requires Refusal(entry, structured, v).Some?
    ensures WriteVar(entry, structured, b, at, v) == Err(Refusal(entry, structured, v).value)
  {
    hide GetNumOfChars, TypeOf, WriteTexts, Splice, PackAll;
    match ShapeOf(entry, structured)
    case TextsShape(wide, el) =>
      if v.Plain? && Elements(v.v).Ok? {
        var k :| 0 <= k < |Elements(v.v).value| && !Elements(v.v).value[k].TextV?;
        NonTextRaises(wide, b, at, el, Elements(v.v).value, k);
      }
    case _ =>
  }

  lemma {:induction false} AllAreTexts(vs: seq<Value>)
    requires AllTexts(vs)
    ensures forall k | 0 <= k < |vs| :: vs[k].TextV?
  {
    if vs != [] {
      AllAreTexts(vs[1..]);
      assert forall k | 0 < k < |vs| :: vs[k] == vs[1..][k - 1];
    }
  }

  lemma PlacedIsTaken(entry: SymbolEntry, structured: bool, v: SumValue)
    requires Places(entry, structured, v)
    ensures Refusal(entry, structured, v).None?
  {
    hide GetNumOfChars, TypeOf, PlaceTexts, Encoded, Pack, PackAll;
    match ShapeOf(entry, structured)
    case TextsShape(wide, el) =>
      PlacedAreTexts(wide, v.v.vs, Stride(el), entry.size);
      AllAreTexts(v.v.vs);
    case ScalarShape(t) => OneScalar(t, v.v);
    case _ =>
  }

  function RefusalAt(cols: seq<Column>, vs: seq<SumValue>, k: nat): Option<Error>
    requires k < |cols| == |vs|
  {
    Refusal(cols[k].entry, cols[k].structured, vs[k])
  }

  /** Every value either can be placed or is refused. */
  predicate PlacedOrRefused(cols: seq<Column>, vs: seq<SumValue>) {
    |vs| == |cols| &&
    forall k | 0 <= k < |cols| :: Places(cols[k].entry, cols[k].structured, vs[k]) || RefusalAt(cols, vs, k).Some?
  }

  function FirstRefusal(cols: seq<Column>, vs: seq<SumValue>): Option<Error>
    requires |vs| == |cols|
  {
    if cols == [] then None
    else if RefusalAt(cols, vs, 0).Some? then RefusalAt(cols, vs, 0)
    else FirstRefusal(cols[1..], vs[1..])
  }

  lemma {:induction false} NothingRefused(cols: seq<Column>, vs: seq<SumValue>)
    requires PlacedOrRefused(cols, vs)
    ensures FirstRefusal(cols, vs).None? <==> AllPlace(cols, vs)
  {
    hide Places, Refusal;
    if cols != [] {
      NothingRefused(cols[1..], vs[1..]);
      assert forall k | 0 < k < |cols| :: cols[k] == cols[1..][k - 1] && vs[k] == vs[1..][k - 1];
      assert forall k | 0 <= k < |cols| - 1 :: cols[1..][k] == cols[k + 1] && vs[1..][k] == vs[k + 1];
      if Places(cols[0].entry, cols[0].structured, vs[0]) {
        PlacedIsTaken(cols[0].entry, cols[0].structured, vs[0]);
      }
    }
  }

  lemma {:induction false} VariablesRefused(cols: seq<Column>, vs: seq<SumValue>, before: seq<byte>, n: nat)
    requires PlacedOrRefused(cols, vs) && FirstRefusal(cols, vs).Some? && TotalSize(cols) <= n
    ensures WriteVars(cols, vs, before + Zeros(n), |before|) == Err(FirstRefusal(cols, vs).value)
    decreases |cols|
  {
    hide Places, Refusal, WriteVar, Image, GrowthOf;
    if RefusalAt(cols, vs, 0).Some? {
      RefusedRaises(cols[0].entry, cols[0].structured, vs[0], before + Zeros(n), |before|);
    } else {
      VariableWrites(cols[0].entry, cols[0].structured, vs[0], before, n);
      var a, g := ImageAt(cols, vs, 0), GrowthOf(cols[0].entry, cols[0].structured, vs[0]);
      VariablesRefused(cols[1..], vs[1..], before + a, n - cols[0].entry.size + g);
    }
  }

  /** One call with a refused value raises what the writer raised for the first, and nothing is sent. */
  lemma {:induction false} RefusedWritesNothing(codes: map<nat, string>, data: Store, cols: seq<Column>, vs: seq<SumValue>)
    requires PlacedOrRefused(cols, vs) && FirstRefusal(cols, vs).Some?
    ensures SumWrite(codes, data, cols, vs) == (data, Err(FirstRefusal(cols, vs).value))
  {
    hide PlacedOrRefused, FirstRefusal, WriteVars;
    VariablesRefused(cols, vs, Headers(cols), TotalSize(cols));
  }

  lemma {:induction false} WrittenStaysShort(data: Store, reqs: seq<Request>, payload: seq<byte>, a: Address, n: nat)
    requires a in data && |data[a]| <= n && Asking(reqs) <= n
    ensures var after := Written(data, reqs, payload).0; a in after && |after[a]| <= n
    decreases |reqs|
  {
    if reqs != [] && reqs[0].Address() in data {
      WrittenStaysShort(data[reqs[0].Address() := Take(payload, reqs[0].size)], reqs[1..], Drop(payload, reqs[0].size), a, n);
    }
  }

  /** Writing never makes a value longer than the variables written together. */
  lemma {:induction false} ChunksStayShort(
    codes: map<nat, string>, data: Store, cols: seq<Column>, vs: seq<SumValue>, acc: map<string, string>, a: Address, n: nat)
    requires 0 in codes && PlacedOrRefused(cols, vs) && a in data && |data[a]| <= n && TotalSize(cols) <= n
    ensures var after := WriteChunks(codes, data, cols, vs, 1, acc).0; a in after && |after[a]| <= n
    decreases |cols|
  {
    hide Places, Refusal, SumWrite, Written;
    if cols != [] {
      FirstStaysShort(codes, data, cols, vs, a, n);
      var (after, part) := SumWrite(codes, data, cols[..1], vs[..1]);
      if part.Ok? {
        ChunksStayShort(codes, after, cols[1..], vs[1..], acc + part.value, a, n);
      }
    }
  }

  lemma {:induction false} FirstStaysShort(codes: map<nat, string>, data: Store, cols: seq<Column>, vs: seq<SumValue>, a: Address, n: nat)
    requires 0 in codes && cols != [] && PlacedOrRefused(cols, vs) && a in data && |data[a]| <= n && TotalSize(cols) <= n
    ensures var after := SumWrite(codes, data, cols[..1], vs[..1]).0; a in after && |after[a]| <= n
  {
    hide Places, Refusal, SumWrite, Written;
    var first, value := cols[..1], vs[..1];
    assert first[0] == cols[0] && value[0] == vs[0] && first[1..] == [];
    if RefusalAt(cols, vs, 0).Some? {
      RefusedWritesNothing(codes, data, first, value);
    } else {
      SumWriteIs(codes, data, first, value);
      ColumnsAsk(first);
      WrittenStaysShort(data, RequestsOf(first), Images(first, value), a, n);
    }
  }

  /**
   A refused value behind a placed one: at once nothing is written; one name a call, the first variable is
   overwritten before the refusal.
   */
  lemma {:induction false} RefusalBreaksChunking(codes: map<nat, string>, data: Store, cols: seq<Column>, vs: seq<SumValue>)
    requires 0 in codes && PlacedOrRefused(cols, vs) && FirstRefusal(cols, vs).Some? && RefusalAt(cols, vs, 0).None?
    requires var a := cols[0].entry.AsRequest().Address(); a in data && |data[a]| > TotalSize(cols)
    ensures SumWrite(codes, data, cols, vs) == (data, Err(FirstRefusal(cols, vs).value))
    ensures var a := cols[0].entry.AsRequest().Address();
            var after := WriteList(codes, data, cols, vs, 1).0;
            a in after && |after[a]| <= TotalSize(cols) && after != data
  {
    hide Places, Refusal, SumWrite, Written;
    RefusedWritesNothing(codes, data, cols, vs);
    var a, first, value := cols[0].entry.AsRequest().Address(), cols[..1], vs[..1];
    assert |cols| > 1 by { assert cols[1..] == [] || |cols| > 1; }
    SumWriteIs(codes, data, first, value);
    VariablesWrite(first, value, [], TotalSize(first));
    WrittenAt(data, first, Images(first, value));
    var (after, part) := SumWrite(codes, data, first, value);
    ChunksStayShort(codes, after, cols[1..], vs[1..], map[] + part.value, a, TotalSize(cols));
  }

  /** For every store and chunk size the chunked write is the single call. */
  ghost predicate WritingAgrees(codes: map<nat, string>, cols: seq<Column>, vs: seq<SumValue>)
    requires |vs| == |cols|
  {
    forall data: Store, k: int | k >= 1 ::
      WriteList(codes, data, cols, vs, k) == SumWrite(codes, data, cols, vs)
  }

  /**
   Exactly when the chunked write is the single call, for all stores and chunk sizes and every list whose
   values are placed or refused: when no value is refused, or the very first one is.
   */
  lemma {:induction false} ChunkedWriteExactly(codes: map<nat, string>, cols: seq<Column>, vs: seq<SumValue>)
    requires 0 in codes && PlacedOrRefused(cols, vs)
    ensures WritingAgrees(codes, cols, vs) <==> AllPlace(cols, vs) || (cols != [] && RefusalAt(cols, vs, 0).Some?)
  {
    hide Places, Refusal, SumWrite, WriteChunks;
    NothingRefused(cols, vs);
    if AllPlace(cols, vs) {
      forall data: Store, k: int | k >= 1 ensures WriteList(codes, data, cols, vs, k) == SumWrite(codes, data, cols, vs) {
        ChunkedWriteAgrees(codes, data, cols, vs, k);
      }
    } else if RefusalAt(cols, vs, 0).Some? {
      forall data: Store, k: int | k >= 1 ensures WriteList(codes, data, cols, vs, k) == SumWrite(codes, data, cols, vs) {
        FirstRefused(codes, data, cols, vs, k);
      }
    } else {
      var data: Store := map[cols[0].entry.AsRequest().Address() := Zeros(TotalSize(cols) + 1)];
      RefusalBreaksChunking(codes, data, cols, vs);
      assert WriteList(codes, data, cols, vs, 1) != SumWrite(codes, data, cols, vs);
    }
  }

  lemma {:induction false} FirstRefused(codes: map<nat, string>, data: Store, cols: seq<Column>, vs: seq<SumValue>, k: int)
    requires k >= 1 && PlacedOrRefused(cols, vs) && cols != [] && RefusalAt(cols, vs, 0).Some?
    ensures WriteList(codes, data, cols, vs, k) == SumWrite(codes, data, cols, vs)
  {
    hide Places, Refusal, SumWrite;
    RefusedWritesNothing(codes, data, cols, vs);
    if |cols| > k {
      RefusedWritesNothing(codes, data, cols[..k], vs[..k]);
    }
  }

  /** The smallest case: two INT variables, 1 and 70000. */
  lemma {:induction false} PartialWriteExample(codes: map<nat, string>, data: Store, a: SymbolEntry, b: SymbolEntry)
    requires 0 in codes && a.dataType == b.dataType == 2 && a.size == b.size == 2 && a.AsRequest().Address() in data
    ensures var cols := [Column("a", a, false), Column("b", b, false)];
            var vs := [Plain(IntV(1)), Plain(IntV(70000))];
            && SumWrite(codes, data, cols, vs) == (data, Err(StructError))
            && WriteList(codes, data, cols, vs, 1) == (data[a.AsRequest().Address() := [1, 0]], Err(StructError))
  {
    var cols, vs := [Column("a", a, false), Column("b", b, false)], [Plain(IntV(1)), Plain(IntV(70000))];
    OneFitsInt(a);
    OverflowRefused(b);
    PlacedIsTaken(a, false, vs[0]);
    hide Places, Refusal, Image, SumWrite, Written;
    assert cols[1..] == [cols[1]] && vs[1..] == [vs[1]] && cols[..1] == [cols[0]] && vs[..1] == [vs[0]];
    RefusedWritesNothing(codes, data, cols, vs);
    WriteOneByOne(codes, data, cols[0], vs[0], cols[1], vs[1]);
  }

  lemma {:induction false} WriteOneByOne(
    codes: map<nat, string>, data: Store, a: Column, v: SumValue, b: Column, w: SumValue)
    requires 0 in codes && Places(a.entry, a.structured, v) && Refusal(b.entry, b.structured, w).Some?
    requires a.entry.AsRequest().Address() in data
    ensures WriteList(codes, data, [a, b], [v, w], 1) ==
            (data[a.entry.AsRequest().Address() := Image(a.entry, a.structured, v)], Err(Refusal(b.entry, b.structured, w).value))
  {
    hide Places, Refusal, Image, SumWrite, Written;
    var image := Image(a.entry, a.structured, v);
    var after := data[a.entry.AsRequest().Address() := image];
    assert [a, b][..1] == [a] && [v, w][..1] == [v] && [a, b][1..] == [b] && [v, w][1..] == [w];
    SumWriteIs(codes, data, [a], [v]);
    VariableWrites(a.entry, a.structured, v, [], a.entry.size);
    assert [a][1..] == [] && [v][1..] == [] && image + [] == image;
    assert Images([a], [v]) == image && RequestsOf([a]) == [a.entry.AsRequest()];
    WrittenOne(data, a.entry, image);
    var (first, statuses) := SumWrite(codes, data, [a], [v]);
    assert first == after && statuses.Ok?;
    assert [b][..1] == [b] && [w][..1] == [w];
    RefusedWritesNothing(codes, after, [b], [w]);
    assert WriteChunks(codes, after, [b], [w], 1, map[] + statuses.value) == (after, Err(Refusal(b.entry, b.structured, w).value));
  }

  lemma WrittenOne(data: Store, entry: SymbolEntry, b: seq<byte>)
    requires entry.AsRequest().Address() in data && |b| == entry.size
    ensures Written(data, [entry.AsRequest()], b) == (data[entry.AsRequest().Address() := b], None)
  {
    assert [entry.AsRequest()][1..] == [] && Take(b, entry.size) == b;
  }

  lemma OneFitsInt(entry: SymbolEntry)
    requires entry.dataType == 2 && entry.size == 2
    ensures Places(entry, false, Plain(IntV(1))) && Image(entry, false, Plain(IntV(1))) == [1, 0]
  {
    CodecTheorems.ModulusEven(S16);
    assert LE(1, 2) == [1] + LE(0, 1) && LE(0, 1) == [0];
  }

  lemma OverflowRefused(entry: SymbolEntry)
    requires entry.dataType == 2 && entry.size == 2
    ensures Refusal(entry, false, Plain(IntV(70000))) == Some(StructError)
  {
    CodecTheorems.ModulusEven(S16);
  }

  // --- the cache over runs of calls ----------------------------------------------------------------

  /** A by-name or list call, as far as the cache is concerned. */
  datatype CacheCall = CacheCall(names: seq<string>, cacheSymbolInfo: bool)

  function CacheRun(table: map<string, SymbolEntry>, cache: map<string, SymbolEntry>, calls: seq<CacheCall>)
    : map<string, SymbolEntry>
    decreases |calls|
  {
    if calls == [] then cache else
    CacheRun(table, CacheAfter(table, cache, calls[0].names, calls[0].cacheSymbolInfo), calls[1..])
  }

  /** Through any sequence of calls the cache stays a part of the symbol table and only grows. */
  lemma {:induction false} CacheCoherent(table: map<string, SymbolEntry>, cache: map<string, SymbolEntry>, calls: seq<CacheCall>)
    requires SubMap(cache, table)
    ensures SubMap(CacheRun(table, cache, calls), table) && SubMap(cache, CacheRun(table, cache, calls))
    decreases |calls|
  {
    if calls != [] {
      CacheCoherent(table, CacheAfter(table, cache, calls[0].names, calls[0].cacheSymbolInfo), calls[1..]);
    }
  }

  lemma {:induction false} AskedIsWanted(wanted: seq<string>, table: map<string, SymbolEntry>)
    ensures forall n | n in Asked(wanted, table) :: n in wanted
  {
    if wanted != [] {
      AskedIsWanted(wanted[1..], table);
    }
  }

  /** A name that was ever cached is not looked up again by any later caching call. */
  lemma NeverAskedAgain(
    table: map<string, SymbolEntry>, cache: map<string, SymbolEntry>, calls: seq<CacheCall>, names: seq<string>, n: string)
    requires SubMap(cache, table) && n in cache
    ensures n !in Asked(Wanted(names, CacheRun(table, cache, calls), true), table)
  {
    CacheCoherent(table, cache, calls);
    WantedHas(names, CacheRun(table, cache, calls), true);
    AskedIsWanted(Wanted(names, CacheRun(table, cache, calls), true), table);
  }

  // --- structures whose sub-read failed ------------------------------------------------------------

  predicate BareElem(ty: PlcType)
    decreases ty, 0
  {
    ty.NestedT? && SizeOf(ty.def).Ok? && Bare(ty.def)
  }

  /** No element of the definition is ever looked at: every member is counted zero or nested and bare itself. */
  predicate Bare(def: seq<Item>)
    decreases def, 1
  {
    def == [] || ((def[0].count == 0 || BareElem(def[0].ty)) && Bare(def[1..]))
  }

  lemma {:induction false} TextElemDecodes(ty: PlcType)
    ensures DecodeTextElem(ty).Ok? <==> BareElem(ty)
    decreases ty, 0
  {
    if ty.NestedT? {
      TextDecodes(ty.def, map[]);
    }
  }

  /** What an element does with an error text: an unknown type is named first, anything else cannot be read from a str. */
  lemma TextElementRaises(ty: PlcType)
    ensures ty.ScalarT? || ty.StringT? || ty.WStringT? ==> DecodeTextElem(ty) == Err(TypeError)
    ensures ty.Unsupported? ==> DecodeTextElem(ty) == Err(RuntimeError)
    ensures ty.NestedT? && SizeOf(ty.def).Err? ==> DecodeTextElem(ty) == Err(SizeOf(ty.def).error)
  {
  }

  lemma {:induction false} TextDecodes(def: seq<Item>, acc: map<string, Value>)
    ensures DecodeText(def, acc).Ok? <==> Bare(def)
    decreases def, 1
  {
    if def != [] {
      if def[0].count == 0 {
        TextDecodes(def[1..], acc[def[0].name := ListV([])]);
      } else {
        TextElemDecodes(def[0].ty);
        var e := DecodeTextElem(def[0].ty);
        if e.Ok? {
          TextDecodes(def[1..], acc[def[0].name := if def[0].count == 1 then e.value else ListV(seq(def[0].count, _ => e.value))]);
        }
      }
    }
  }

  /**
   When the sub-read of a structured name fails with a known code, its error text goes through the
   decoder: the whole list read raises, unless the definition has no element to look at.
   */
  lemma FailedStructureRaises(
    codes: map<nat, string>, target: Target, cols: seq<Column>, defs: Defs, k: nat, def: seq<Item>)
    requires Steady(target, cols) && NoneBorrows(cols) && NamesOneVariable(cols) && DistinctDefs(defs)
    requires k < |cols| && DefOf(defs, cols[k].name) == Some(def)
    requires AnswerTo(target, cols[k]).word != 0 && AnswerTo(target, cols[k]).word as nat in codes
    ensures Yield(codes, target, defs, cols[k]).Ok? <==> Bare(def)
    ensures !Bare(def) ==> ReadOnce(codes, target, cols, defs).Err?
  {
    hide NoneBorrows, Steady, NamesOneVariable, ReadOnce;
    OneCallYields(codes, target, cols, defs);
    TextDecodes(def, map[]);
  }
}
