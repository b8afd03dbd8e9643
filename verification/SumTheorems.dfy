/** Whole sum calls: response windows, and write-then-read through the test server. */
module SumTheorems {
  import opened Wrappers
  import opened Bytes
  import opened StructureCodec
  import opened AdvancedHandlers
  import opened SumCommands
  import opened SumLayout
  import opened SumCalls

  // --- response windows ----------------------------------------------------------------------------

  /** What a device answers to one sub-request: an error word and, failed or not, a window of the asked size. */
  datatype Answer = Answer(word: u32, window: seq<byte>)

  predicate Answers(cols: seq<Column>, answers: seq<Answer>) {
    |answers| == |cols| && forall k | 0 <= k < |cols| :: |answers[k].window| == cols[k].entry.size
  }

  function Words(answers: seq<Answer>): (r: seq<byte>)
    ensures |r| == 4 * |answers|
  {
    if answers == [] then [] else LE(answers[0].word, 4) + Words(answers[1..])
  }

  function Windows(answers: seq<Answer>): seq<byte> {
    if answers == [] then [] else answers[0].window + Windows(answers[1..])
  }

  /** All error words, then all windows. */
  function Response(answers: seq<Answer>): seq<byte> {
    Words(answers) + Windows(answers)
  }

  lemma {:induction false} WindowsTile(cols: seq<Column>, answers: seq<Answer>)
    requires Answers(cols, answers)
    ensures |Windows(answers)| == TotalSize(cols)
  {
    if cols != [] {
      WindowsTile(cols[1..], answers[1..]);
    }
  }

  /** One name's result from its own error word and its own window. */
  function OwnResult(codes: map<nat, string>, col: Column, answer: Answer): Result<SumValue> {
    NameResult(codes, col.entry, col.structured, answer.word, answer.window, 0)
  }

  /** The results put together name by name; the first exception is raised. */
  function Gathered(codes: map<nat, string>, cols: seq<Column>, answers: seq<Answer>, acc: map<string, SumValue>)
    : Result<map<string, SumValue>>
    requires |answers| == |cols|
    decreases |cols|
  {
    if cols == [] then Ok(acc) else
    var v :- OwnResult(codes, cols[0], answers[0]);
    Gathered(codes, cols[1..], answers[1..], acc[cols[0].name := v])
  }

  /** A narrow scalar with enough bytes behind its window to take the missing ones from its neighbours. */
  predicate Borrows(col: Column, left: nat) {
    Narrow(col.entry, col.structured) && left >= Width(ShapeOf(col.entry, col.structured).t)
  }

  /** No entry of the list can borrow, whatever is answered. */
  predicate NoneBorrows(cols: seq<Column>) {
    cols == [] || (!Borrows(cols[0], TotalSize(cols)) && NoneBorrows(cols[1..]))
  }

  /** None that is read does: a failed sub-request is never read. */
  predicate OwnWindows(cols: seq<Column>, answers: seq<Answer>)
    requires |answers| == |cols|
  {
    cols == [] || ((answers[0].word != 0 || !Borrows(cols[0], TotalSize(cols))) && OwnWindows(cols[1..], answers[1..]))
  }

  lemma {:induction false} NoneBorrowsReads(cols: seq<Column>, answers: seq<Answer>)
    requires |answers| == |cols| && NoneBorrows(cols)
    ensures OwnWindows(cols, answers)
  {
    hide Borrows;
    if cols != [] {
      NoneBorrowsReads(cols[1..], answers[1..]);
    }
  }

  lemma WordReads(before: seq<byte>, word: u32, rest: seq<byte>, i: nat)
    requires |before| == 4 * i
    ensures ErrorWord(before + LE(word, 4) + rest, i) == word
  {
    hide LE;
    var b := before + LE(word, 4) + rest;
    assert b[4 * i..4 * i + 4] == LE(word, 4);
    assert Pow256(4) == 0x1_0000_0000 by { assert Pow256(2) == 65536; }
    UnLEOfLE(word, 4);
  }

  lemma NameReadsOwnWindow(codes: map<nat, string>, col: Column, answer: Answer, before: seq<byte>, behind: seq<byte>)
    requires answer.word != 0 || !Borrows(col, |answer.window + behind|)
    requires |answer.window| == col.entry.size
    ensures NameResult(codes, col.entry, col.structured, answer.word, before + answer.window + behind, |before|) ==
            OwnResult(codes, col, answer)
  {
    var b := before + answer.window + behind;
    if Narrow(col.entry, col.structured) {
      StarvedReads(col.entry, col.structured, b, |before|);
      StarvedReads(col.entry, col.structured, answer.window, 0);
    } else {
      hide Narrow, ReadVar;
      WideReadsOwnWindow(col.entry, col.structured, b, |before|);
      assert Slice(b, |before|, col.entry.size) == answer.window;
    }
  }

  /** A narrow scalar reads what bytes there are, and raises when they do not suffice. */
  lemma StarvedReads(entry: SymbolEntry, structured: bool, b: seq<byte>, at: nat)
    requires Narrow(entry, structured) && at <= |b|
    ensures |b| - at < Width(ShapeOf(entry, structured).t) ==> ReadVar(entry, structured, b, at) == Err(StructError)
    ensures |b| - at >= Width(ShapeOf(entry, structured).t) ==> ReadVar(entry, structured, b, at).Ok?
  {
    hide ShapeOf;
    var t := ShapeOf(entry, structured).t;
    assert |Slice(b, at, Width(t))| == if |b| - at < Width(t) then |b| - at else Width(t);
  }

  lemma Regrouped(p: seq<byte>, w: seq<byte>, ws: seq<byte>, q: seq<byte>, x: seq<byte>, xs: seq<byte>)
    ensures p + (w + ws) + q + (x + xs) == p + w + (ws + q + (x + xs))
    ensures p + (w + ws) + q + (x + xs) == (p + (w + ws) + q) + x + xs
    ensures p + (w + ws) + q + (x + xs) == (p + w) + ws + (q + x) + xs
    ensures |p + (w + ws) + q| + |x| == |(p + w) + ws + (q + x)|
  {
  }

  /** The first answer's word, its window and what lies behind them, in a response behind other words and windows. */
  lemma FirstAnswer(words: seq<byte>, windows: seq<byte>, answers: seq<Answer>)
    requires answers != []
    ensures var (a, rest) := (answers[0], answers[1..]);
            var b := words + Words(answers) + windows + Windows(answers);
            && b == words + LE(a.word, 4) + (Words(rest) + windows + Windows(answers))
            && b == (words + Words(answers) + windows) + a.window + Windows(rest)
            && b == (words + LE(a.word, 4)) + Words(rest) + (windows + a.window) + Windows(rest)
            && |words + Words(answers) + windows| + |a.window| ==
               |(words + LE(a.word, 4)) + Words(rest) + (windows + a.window)|
  {
    hide LE;
    var a, rest := answers[0], answers[1..];
    assert Words(answers) == LE(a.word, 4) + Words(rest) && Windows(answers) == a.window + Windows(rest);
    hide Words, Windows;
    Regrouped(words, LE(a.word, 4), Words(rest), windows, a.window, Windows(rest));
  }

  lemma {:induction false} ResultsAreGathered(
    codes: map<nat, string>, cols: seq<Column>, answers: seq<Answer>, i: nat, words: seq<byte>, windows: seq<byte>,
    acc: map<string, SumValue>)
    requires Answers(cols, answers) && OwnWindows(cols, answers) && |words| == 4 * i
    ensures Results(codes, cols, i, words + Words(answers) + windows + Windows(answers),
                    |words + Words(answers) + windows|, acc) == Gathered(codes, cols, answers, acc)
    decreases |cols|
  {
    hide Borrows, NameResult, ErrorWord, OwnResult, LE;
    if cols != [] {
      WindowsTile(cols, answers);
      var a := answers[0];
      FirstAnswer(words, windows, answers);
      var words', windows' := words + LE(a.word, 4), windows + a.window;
      WordReads(words, a.word, Words(answers[1..]) + windows + Windows(answers), i);
      NameReadsOwnWindow(codes, cols[0], a, words + Words(answers) + windows, Windows(answers[1..]));
      var r := OwnResult(codes, cols[0], a);
      if r.Ok? {
        ResultsAreGathered(codes, cols[1..], answers[1..], i + 1, words', windows', acc[cols[0].name := r.value]);
      }
    }
  }

  /**
   Response windows: whichever sub-requests fail, the windows tile the data part exactly, and every
   name's result is made of its own error word and its own window, as long as no narrow scalar that is
   read can borrow from its neighbours. A failure misaligns nobody.
   */
  lemma ResponseWindows(codes: map<nat, string>, cols: seq<Column>, answers: seq<Answer>)
    requires Answers(cols, answers) && OwnWindows(cols, answers)
    ensures |Response(answers)| == 4 * |cols| + TotalSize(cols)
    ensures ParsedRead(codes, cols, Response(answers)) == Gathered(codes, cols, answers, map[])
  {
    hide OwnWindows, Results, Gathered, Words, Windows;
    WindowsTile(cols, answers);
    ResultsAreGathered(codes, cols, answers, 0, [], [], map[]);
    assert [] + Words(answers) + [] == Words(answers);
    assert Landed(Response(answers), 4 * |cols| + TotalSize(cols)) == Response(answers);
  }

  predicate DistinctColumns(cols: seq<Column>) {
    forall i, j | 0 <= i < j < |cols| :: cols[i].name != cols[j].name
  }

  /** A name asked for twice is the same variable and gets the same answer. */
  predicate Consistent(cols: seq<Column>, answers: seq<Answer>) {
    |answers| == |cols| &&
    forall i, j | 0 <= i < j < |cols| && cols[i].name == cols[j].name :: cols[i] == cols[j] && answers[i] == answers[j]
  }

  function NameSet(cols: seq<Column>): set<string> {
    set k | 0 <= k < |cols| :: cols[k].name
  }

  lemma NameSetTail(cols: seq<Column>)
    requires cols != []
    ensures NameSet(cols) == {cols[0].name} + NameSet(cols[1..])
  {
    forall n | n in NameSet(cols) ensures n in {cols[0].name} + NameSet(cols[1..]) {
      var k :| 0 <= k < |cols| && cols[k].name == n;
      if k > 0 { assert cols[1..][k - 1].name == n; }
    }
    assert forall k | 0 <= k < |cols| - 1 :: cols[1..][k] == cols[k + 1];
  }

  /** Gathering fails only when a name's own result does, adds exactly the names, and keeps what it does not overwrite. */
  lemma {:induction false} GatheredKeys(
    codes: map<nat, string>, cols: seq<Column>, answers: seq<Answer>, acc: map<string, SumValue>)
    requires |answers| == |cols|
    ensures var r := Gathered(codes, cols, answers, acc);
            && (r.Ok? <==> forall k | 0 <= k < |cols| :: OwnResult(codes, cols[k], answers[k]).Ok?)
            && (r.Ok? ==> r.value.Keys == acc.Keys + NameSet(cols))
            && (r.Ok? ==> forall n | n in acc && n !in NameSet(cols) :: r.value[n] == acc[n])
    decreases |cols|
  {
    hide OwnResult;
    if cols != [] {
      var v := OwnResult(codes, cols[0], answers[0]);
      assert forall k | 0 < k < |cols| :: cols[k] == cols[1..][k - 1] && answers[k] == answers[1..][k - 1];
      NameSetTail(cols);
      if v.Ok? {
        GatheredKeys(codes, cols[1..], answers[1..], acc[cols[0].name := v.value]);
      }
    }
  }

  /** The value gathered for a name is its own result. */
  lemma {:induction false} GatheredValue(
    codes: map<nat, string>, cols: seq<Column>, answers: seq<Answer>, acc: map<string, SumValue>, k: nat)
    requires Consistent(cols, answers) && k < |cols| && Gathered(codes, cols, answers, acc).Ok?
    ensures var m := Gathered(codes, cols, answers, acc).value;
            cols[k].name in m && Ok(m[cols[k].name]) == OwnResult(codes, cols[k], answers[k])
    decreases |cols|
  {
    hide OwnResult;
    var v := OwnResult(codes, cols[0], answers[0]);
    var acc' := acc[cols[0].name := v.value];
    if k > 0 {
      GatheredValue(codes, cols[1..], answers[1..], acc', k - 1);
    } else if cols[0].name in NameSet(cols[1..]) {
      var j :| 0 <= j < |cols| - 1 && cols[1..][j].name == cols[0].name;
      assert cols[j + 1] == cols[0] && answers[j + 1] == answers[0];
      GatheredValue(codes, cols[1..], answers[1..], acc', j);
    } else {
      GatheredKeys(codes, cols[1..], answers[1..], acc');
    }
  }

  /** Two responses that agree on one name's word and window give that name the same result, whatever happened to the others. */
  lemma {:induction false} FailureMisalignsNobody(codes: map<nat, string>, cols: seq<Column>, a: seq<Answer>, b: seq<Answer>, k: nat)
    requires Answers(cols, a) && Answers(cols, b) && OwnWindows(cols, a) && OwnWindows(cols, b)
    requires Consistent(cols, a) && Consistent(cols, b) && k < |cols| && a[k] == b[k]
    requires ParsedRead(codes, cols, Response(a)).Ok? && ParsedRead(codes, cols, Response(b)).Ok?
    ensures var name := cols[k].name;
            var r, s := ParsedRead(codes, cols, Response(a)).value, ParsedRead(codes, cols, Response(b)).value;
            && name in r && name in s && r[name] == s[name]
            && (a[k].word != 0 ==> a[k].word as nat in codes && r[name] == ErrorText(codes[a[k].word]))
  {
    hide OwnWindows, ParsedRead, Response, Gathered;
    ResponseWindows(codes, cols, a);
    ResponseWindows(codes, cols, b);
    GatheredValue(codes, cols, a, map[], k);
    GatheredValue(codes, cols, b, map[], k);
  }

  // --- the server parses what the client printed ---------------------------------------------------

  function RequestsOf(cols: seq<Column>): (r: seq<Request>)
    ensures |r| == |cols|
  {
    if cols == [] then [] else [cols[0].entry.AsRequest()] + RequestsOf(cols[1..])
  }

  lemma WireReads(r: Request, before: seq<byte>, behind: seq<byte>)
    ensures var b := before + Wire(r) + behind;
            && Word(b, |before|) == Ok(r.group) && Word(b, |before| + 4) == Ok(r.offs) && Word(b, |before| + 8) == Ok(r.size)
  {
    var b, at := before + Wire(r) + behind, |before|;
    assert b[at..at + 4] == LE(r.group, 4) && b[at + 4..at + 8] == LE(r.offs, 4) && b[at + 8..at + 12] == LE(r.size, 4);
    assert Pow256(4) == 0x1_0000_0000 by { assert Pow256(2) == 65536; }
    UnLEOfLE(r.group, 4);
    UnLEOfLE(r.offs, 4);
    UnLEOfLE(r.size, 4);
  }

  /** The server's own parser finds the requests the client wrote. */
  lemma {:induction false} RequestsRead(cols: seq<Column>, before: seq<byte>, payload: seq<byte>)
    ensures Requests(before + Headers(cols) + payload, |before|, |cols|) == Ok(RequestsOf(cols))
  {
    hide Word, Wire;
    if cols != [] {
      var r := cols[0].entry.AsRequest();
      var b := before + Headers(cols) + payload;
      assert b == before + Wire(r) + (Headers(cols[1..]) + payload);
      WireReads(r, before, Headers(cols[1..]) + payload);
      assert b == (before + Wire(r)) + Headers(cols[1..]) + payload;
      RequestsRead(cols[1..], before + Wire(r), payload);
    }
  }

  // --- writing -------------------------------------------------------------------------------------

  predicate AllFit(cols: seq<Column>, vs: seq<SumValue>) {
    |vs| == |cols| && forall k | 0 <= k < |cols| :: Fits(cols[k].entry, cols[k].structured, vs[k])
  }

  predicate AllPlace(cols: seq<Column>, vs: seq<SumValue>) {
    |vs| == |cols| && forall k | 0 <= k < |cols| :: Places(cols[k].entry, cols[k].structured, vs[k])
  }

  function ImageAt(cols: seq<Column>, vs: seq<SumValue>, k: nat): seq<byte>
    requires k < |cols| == |vs|
  {
    Image(cols[k].entry, cols[k].structured, vs[k])
  }

  function Images(cols: seq<Column>, vs: seq<SumValue>): seq<byte>
    requires |vs| == |cols|
  {
    if cols == [] then [] else ImageAt(cols, vs, 0) + Images(cols[1..], vs[1..])
  }

  function Growths(cols: seq<Column>, vs: seq<SumValue>): nat
    requires |vs| == |cols|
  {
    if cols == [] then 0 else GrowthOf(cols[0].entry, cols[0].structured, vs[0]) + Growths(cols[1..], vs[1..])
  }

  /** Each value lands at its own offset, however much the texts before it made the buffer grow. */
  lemma {:induction false} VariablesWrite(cols: seq<Column>, vs: seq<SumValue>, before: seq<byte>, n: nat)
    requires AllPlace(cols, vs) && TotalSize(cols) <= n
    ensures |Images(cols, vs)| == TotalSize(cols)
    ensures WriteVars(cols, vs, before + Zeros(n), |before|) ==
            Ok(before + Images(cols, vs) + Zeros(n - TotalSize(cols) + Growths(cols, vs)))
    decreases |cols|
  {
    hide Places, Image, WriteVar, GrowthOf;
    if cols == [] {
      assert before + [] == before;
    } else {
      VariableWrites(cols[0].entry, cols[0].structured, vs[0], before, n);
      var a := ImageAt(cols, vs, 0);
      var n' := n - cols[0].entry.size + GrowthOf(cols[0].entry, cols[0].structured, vs[0]);
      VariablesWrite(cols[1..], vs[1..], before + a, n');
      assert (before + a) + Images(cols[1..], vs[1..]) == before + Images(cols, vs);
    }
  }

  predicate Known(data: Store, cols: seq<Column>) {
    forall k | 0 <= k < |cols| :: cols[k].entry.AsRequest().Address() in data
  }

  predicate DistinctAddresses(cols: seq<Column>) {
    forall i, j | 0 <= i < j < |cols| :: cols[i].entry.AsRequest().Address() != cols[j].entry.AsRequest().Address()
  }

  predicate Addressed(cols: seq<Column>, a: Address) {
    exists k :: 0 <= k < |cols| && cols[k].entry.AsRequest().Address() == a
  }

  predicate Matching(data: Store, cols: seq<Column>) {
    forall k | 0 <= k < |cols| :: var a := cols[k].entry.AsRequest().Address();
                                  a in data && |data[a]| == cols[k].entry.size
  }

  /** Only what the columns address may differ. */
  ghost predicate OthersKept(before: Store, after: Store, cols: seq<Column>) {
    forall a | !Addressed(cols, a) :: (a in after <==> a in before) && (a in before ==> after[a] == before[a])
  }

  /** Where a column's part of the payload starts. */
  function StartOf(cols: seq<Column>, k: nat): nat
    requires k <= |cols|
  {
    TotalSize(cols[..k])
  }

  lemma StartStep(cols: seq<Column>, k: nat)
    requires 0 < k <= |cols|
    ensures StartOf(cols, k) == cols[0].entry.size + StartOf(cols[1..], k - 1)
  {
    assert cols[..k][1..] == cols[1..][..k - 1];
  }

  lemma {:induction false} StartWithin(cols: seq<Column>, k: nat)
    requires k < |cols|
    ensures StartOf(cols, k) + cols[k].entry.size <= TotalSize(cols)
    decreases k
  {
    if k > 0 {
      StartStep(cols, k);
      StartWithin(cols[1..], k - 1);
    }
  }

  /**
   The server's store after a payload of the columns: each has its own slice of the payload at its own
   address, and nothing else has changed.
   */
  lemma {:induction false} WrittenAt(data: Store, cols: seq<Column>, payload: seq<byte>)
    requires Known(data, cols) && DistinctAddresses(cols) && TotalSize(cols) <= |payload|
    ensures var (after, error) := Written(data, RequestsOf(cols), payload);
            && error == None && OthersKept(data, after, cols)
            && forall k | 0 <= k < |cols| ::
                 var a := cols[k].entry.AsRequest().Address();
                 a in after && after[a] == Slice(payload, StartOf(cols, k), cols[k].entry.size)
    decreases |cols|
  {
    if cols != [] {
      var first, size := cols[0].entry.AsRequest().Address(), cols[0].entry.size;
      var rest, data' := cols[1..], data[first := Take(payload, size)];
      assert forall k | 0 <= k < |rest| :: rest[k] == cols[k + 1];
      assert forall k | 0 < k < |cols| :: cols[k] == rest[k - 1];
      WrittenAt(data', rest, Drop(payload, size));
      assert !Addressed(rest, first);
      var after := Written(data', RequestsOf(rest), Drop(payload, size)).0;
      assert Written(data, RequestsOf(cols), payload) == (after, None);
      hide Written, RequestsOf, TotalSize, Known, DistinctAddresses;
      forall k | 0 <= k < |cols|
        ensures var a := cols[k].entry.AsRequest().Address();
                a in after && after[a] == Slice(payload, StartOf(cols, k), cols[k].entry.size)
      {
        SliceStep(cols, payload, k);
      }
      assert forall a | !Addressed(cols, a) :: a != first && !Addressed(rest, a);
    }
  }

  lemma SliceStep(cols: seq<Column>, payload: seq<byte>, k: nat)
    requires k < |cols|
    ensures Slice(payload, StartOf(cols, k), cols[k].entry.size) ==
            if k == 0 then Take(payload, cols[0].entry.size)
            else Slice(Drop(payload, cols[0].entry.size), StartOf(cols[1..], k - 1), cols[k].entry.size)
  {
    if k > 0 {
      StartStep(cols, k);
      DropDrop(payload, cols[0].entry.size, StartOf(cols[1..], k - 1));
    }
  }

  lemma Reassociate(a: seq<byte>, b: seq<byte>, c: seq<byte>)
    ensures a + b + c == a + (b + c)
  {
  }

  lemma {:induction false} ImagesAt(cols: seq<Column>, vs: seq<SumValue>, k: nat, behind: seq<byte>)
    requires AllPlace(cols, vs) && k < |cols|
    ensures Slice(Images(cols, vs) + behind, StartOf(cols, k), cols[k].entry.size) == ImageAt(cols, vs, k)
    decreases k
  {
    hide Places, Image, StartOf, Slice, Take, Drop;
    VariableWrites(cols[0].entry, cols[0].structured, vs[0], [], cols[0].entry.size);
    var a, rest := ImageAt(cols, vs, 0), Images(cols[1..], vs[1..]) + behind;
    Reassociate(a, Images(cols[1..], vs[1..]), behind);
    assert Images(cols, vs) + behind == a + rest;
    hide Images;
    TakeDropConcat(a, rest);
    SliceStep(cols, a + rest, k);
    if k > 0 {
      ImagesAt(cols[1..], vs[1..], k - 1, behind);
    }
  }

  /** The bytes a list of requests takes. */
  function Asking(reqs: seq<Request>): nat {
    if reqs == [] then 0 else reqs[0].size + Asking(reqs[1..])
  }

  /** Writing requests in two batches is writing them in one, up to the first unknown address. */
  lemma {:induction false} WrittenConcat(data: Store, a: seq<Request>, b: seq<Request>, p: seq<byte>, q: seq<byte>)
    requires |p| == Asking(a)
    ensures Written(data, a + b, p + q) ==
            match Written(data, a, p) case (d, None) => Written(d, b, q) case (d, Some(e)) => (d, Some(e))
    decreases |a|
  {
    if a == [] {
      assert a + b == b && p + q == q;
    } else {
      var n := a[0].size;
      assert (a + b)[1..] == a[1..] + b;
      assert Take(p + q, n) == Take(p, n) && Drop(p + q, n) == Drop(p, n) + q;
      if a[0].Address() in data {
        WrittenConcat(data[a[0].Address() := Take(p, n)], a[1..], b, Drop(p, n), q);
      }
    }
  }

  lemma {:induction false} ColumnsAsk(cols: seq<Column>)
    ensures Asking(RequestsOf(cols)) == TotalSize(cols)
  {
    if cols != [] {
      ColumnsAsk(cols[1..]);
    }
  }

  /** What lies behind the payload is of no account to the server. */
  lemma BehindIgnored(data: Store, cols: seq<Column>, payload: seq<byte>, behind: seq<byte>)
    requires |payload| == TotalSize(cols)
    ensures Written(data, RequestsOf(cols), payload + behind) == Written(data, RequestsOf(cols), payload)
  {
    ColumnsAsk(cols);
    WrittenConcat(data, RequestsOf(cols), [], payload, behind);
    assert RequestsOf(cols) + [] == RequestsOf(cols);
  }

  /** Every name with the text of error word 0. */
  function AllWritten(codes: map<nat, string>, names: seq<string>, acc: map<string, string>): map<string, string>
    requires 0 in codes
    decreases |names|
  {
    if names == [] then acc else AllWritten(codes, names[1..], acc[names[0] := codes[0]])
  }

  lemma ZeroWord(b: seq<byte>, i: nat)
    requires 4 * i + 4 <= |b| && forall k | 0 <= k < |b| :: b[k] == 0
    ensures ErrorWord(b, i) == 0
  {
    var w := b[4 * i..4 * i + 4];
    assert LE(0, 4) == [0, 0, 0, 0] == w;
    assert Pow256(4) > 0;
    UnLEOfLE(0, 4);
  }

  lemma {:induction false} ZeroStatuses(codes: map<nat, string>, names: seq<string>, i: nat, b: seq<byte>, acc: map<string, string>)
    requires 0 in codes && 4 * (i + |names|) <= |b| && forall k | 0 <= k < |b| :: b[k] == 0
    ensures Statuses(codes, names, i, b, acc) == Ok(AllWritten(codes, names, acc))
    decreases |names|
  {
    if names != [] {
      ZeroWord(b, i);
      ZeroStatuses(codes, names[1..], i + 1, b, acc[names[0] := codes[0]]);
    }
  }

  /** A sum write whose buffer holds the requests and a payload: what the server does with them, and the statuses. */
  lemma {:induction false} ServerTakes(codes: map<nat, string>, data: Store, cols: seq<Column>, vs: seq<SumValue>, payload: seq<byte>)
    requires 0 in codes && |vs| == |cols| && WriteBuffer(cols, vs) == Ok(Headers(cols) + payload)
    ensures var (after, error) := Written(data, RequestsOf(cols), payload);
            SumWrite(codes, data, cols, vs) ==
            (after, if error.Some? then Err(error.value) else Ok(AllWritten(codes, NamesOf(cols), map[])))
  {
    hide WriteVars, Written, Statuses, AllWritten;
    var buf := Headers(cols) + payload;
    assert [] + Headers(cols) + payload == buf;
    RequestsRead(cols, [], payload);
    assert Drop(buf, 12 * |cols|) == payload;
    ZeroStatuses(codes, NamesOf(cols), 0, Landed(Zeros(4 * |cols|), 4 * |cols|), map[]);
  }

  /** The whole buffer: the requests, every image at its place, and zeros for all that the texts took beyond what was counted. */
  lemma {:induction false} BufferIs(cols: seq<Column>, vs: seq<SumValue>)
    requires AllPlace(cols, vs)
    ensures WriteBuffer(cols, vs) == Ok(Headers(cols) + (Images(cols, vs) + Zeros(Growths(cols, vs))))
  {
    hide Places, Image, WriteVars;
    VariablesWrite(cols, vs, Headers(cols), TotalSize(cols));
    assert Headers(cols) + Images(cols, vs) + Zeros(Growths(cols, vs)) ==
           Headers(cols) + (Images(cols, vs) + Zeros(Growths(cols, vs)));
  }

  /** A sum write of values the variables have room for: what the server does with the requests and the images, and the statuses. */
  lemma {:induction false} SumWriteIs(codes: map<nat, string>, data: Store, cols: seq<Column>, vs: seq<SumValue>)
    requires 0 in codes && AllPlace(cols, vs)
    ensures var (after, error) := Written(data, RequestsOf(cols), Images(cols, vs));
            SumWrite(codes, data, cols, vs) ==
            (after, if error.Some? then Err(error.value) else Ok(AllWritten(codes, NamesOf(cols), map[])))
  {
    hide Places, Image, WriteBuffer, SumWrite, Written, AllWritten;
    BufferIs(cols, vs);
    VariablesWrite(cols, vs, [], TotalSize(cols));
    ServerTakes(codes, data, cols, vs, Images(cols, vs) + Zeros(Growths(cols, vs)));
    BehindIgnored(data, cols, Images(cols, vs), Zeros(Growths(cols, vs)));
  }

  // --- reading back --------------------------------------------------------------------------------

  /** What the test server answers: no error, and the stored value. */
  function StoredAnswers(data: Store, cols: seq<Column>): seq<Answer>
    requires Known(data, cols)
  {
    seq(|cols|, k requires 0 <= k < |cols| => Answer(0, data[cols[k].entry.AsRequest().Address()]))
  }

  lemma {:induction false} StoredWindows(data: Store, cols: seq<Column>)
    requires Known(data, cols)
    ensures Stored(data, RequestsOf(cols)) == Ok(Windows(StoredAnswers(data, cols)))
    ensures Words(StoredAnswers(data, cols)) == Zeros(4 * |cols|)
  {
    if cols != [] {
      StoredWindows(data, cols[1..]);
      assert StoredAnswers(data, cols)[1..] == StoredAnswers(data, cols[1..]);
      assert LE(0, 4) == [0, 0, 0, 0];
    }
  }

  lemma {:induction false} HeadersParse(cols: seq<Column>)
    ensures Requests(Headers(cols), 0, |cols|) == Ok(RequestsOf(cols))
  {
    hide Requests, Headers, RequestsOf;
    RequestsRead(cols, [], []);
    assert [] + Headers(cols) + [] == Headers(cols);
  }

  /** The test server's response is those answers laid out. */
  lemma {:induction false} RespondsStored(data: Store, cols: seq<Column>)
    requires Known(data, cols)
    ensures HandledRead(data, |cols|, Headers(cols)) == Ok(Response(StoredAnswers(data, cols)))
  {
    HeadersParse(cols);
    StoredWindows(data, cols);
    hide Requests, Headers, Stored, Words, Windows, RequestsOf, StoredAnswers;
  }

  /** Against the test server with matching sizes, a sum read gathers the stored values. */
  lemma {:induction false} SumReadGathers(codes: map<nat, string>, data: Store, cols: seq<Column>)
    requires Matching(data, cols) && NoneBorrows(cols)
    ensures SumRead(codes, data, cols) == Gathered(codes, cols, StoredAnswers(data, cols), map[])
  {
    hide NoneBorrows, OwnWindows, HandledRead, Headers, Response;
    RespondsStored(data, cols);
    NoneBorrowsReads(cols, StoredAnswers(data, cols));
    ResponseWindows(codes, cols, StoredAnswers(data, cols));
  }

  predicate AllGiven(cols: seq<Column>, vs: seq<SumValue>) {
    |vs| == |cols| && forall k | 0 <= k < |cols| :: Given(cols[k].entry, cols[k].structured, vs[k])
  }

  lemma {:induction false} GivenBorrowsNothing(cols: seq<Column>, vs: seq<SumValue>)
    requires AllGiven(cols, vs)
    ensures NoneBorrows(cols)
  {
    hide ShapeOf;
    if cols != [] {
      GivenBorrowsNothing(cols[1..], vs[1..]);
      assert Given(cols[0].entry, cols[0].structured, vs[0]);
    }
  }

  lemma FitsPlace(cols: seq<Column>, vs: seq<SumValue>)
    requires AllFit(cols, vs)
    ensures AllPlace(cols, vs)
  {
    hide Fits, Places;
    forall k | 0 <= k < |cols| ensures Places(cols[k].entry, cols[k].structured, vs[k]) {
      FitsPlaces(cols[k].entry, cols[k].structured, vs[k]);
    }
  }

  lemma PlaceGiven(cols: seq<Column>, vs: seq<SumValue>)
    requires AllPlace(cols, vs)
    ensures AllGiven(cols, vs)
  {
    hide Places, Given;
    forall k | 0 <= k < |cols| ensures Given(cols[k].entry, cols[k].structured, vs[k]) {
      PlacedIsGiven(cols[k].entry, cols[k].structured, vs[k]);
    }
  }

  function TextPartAt(cols: seq<Column>, vs: seq<SumValue>, k: nat): seq<byte>
    requires k < |cols| == |vs|
  {
    TextPart(cols[k].entry, cols[k].structured, vs[k])
  }

  /** The window starts with the text, as far as there is room for it. */
  predicate StartsWith(w: seq<byte>, e: seq<byte>) {
    Take(w, |e|) == Take(e, |w|)
  }

  /** However long the texts are, the buffer keeps what lies before it, and every text starts its own window. */
  lemma {:induction false} VariablesLand(cols: seq<Column>, vs: seq<SumValue>, b: seq<byte>, at: nat)
    requires AllGiven(cols, vs) && at + TotalSize(cols) <= |b|
    ensures var r := WriteVars(cols, vs, b, at);
            && r.Ok? && |r.value| >= |b| && r.value[..at] == b[..at]
            && forall k | 0 <= k < |cols| ::
                 StartsWith(Slice(r.value, at + StartOf(cols, k), cols[k].entry.size), TextPartAt(cols, vs, k))
    decreases |cols|
  {
    hide Given, WriteVar, TextPart, StartsWith, WriteVars, TotalSize, StartOf, AllGiven;
    FirstGiven(cols, vs, b, at);
    if cols != [] {
      var size, e := cols[0].entry.size, TextPartAt(cols, vs, 0);
      var c := WriteVar(cols[0].entry, cols[0].structured, b, at, vs[0]).value;
      VariablesLand(cols[1..], vs[1..], c, at + size);
      var r := WriteVars(cols[1..], vs[1..], c, at + size).value;
      KeptBefore(b, c, r, at, at + size);
      OwnStart(c, r, at, size, e);
      LandedBehind(cols, vs, r, at);
    }
  }

  lemma {:induction false} VariablesKeep(cols: seq<Column>, vs: seq<SumValue>, b: seq<byte>, at: nat)
    requires AllGiven(cols, vs) && at + TotalSize(cols) <= |b|
    ensures |vs| == |cols|
    ensures var r := WriteVars(cols, vs, b, at); r.Ok? && |r.value| >= |b| && r.value[..at] == b[..at]
  {
    hide Slice, StartOf, StartsWith, TextPart, Given, WriteVars, TotalSize;
    VariablesLand(cols, vs, b, at);
  }

  lemma FirstGiven(cols: seq<Column>, vs: seq<SumValue>, b: seq<byte>, at: nat)
    requires AllGiven(cols, vs) && at + TotalSize(cols) <= |b|
    ensures |vs| == |cols|
    ensures cols == [] ==> WriteVars(cols, vs, b, at) == Ok(b)
    ensures cols != [] ==>
              var size, e := cols[0].entry.size, TextPartAt(cols, vs, 0);
              var r := WriteVar(cols[0].entry, cols[0].structured, b, at, vs[0]);
              && r.Ok? && |r.value| >= |b| && at + |e| <= |r.value| && r.value[..at] == b[..at] && r.value[at..at + |e|] == e
              && AllGiven(cols[1..], vs[1..]) && at + size + TotalSize(cols[1..]) <= |b|
              && WriteVars(cols, vs, b, at) == WriteVars(cols[1..], vs[1..], r.value, at + size)
  {
    hide Given, WriteVar, TextPart;
    if cols != [] {
      GivenWrites(cols[0].entry, cols[0].structured, vs[0], b, at);
    }
  }

  lemma {:induction false} LandedBehind(cols: seq<Column>, vs: seq<SumValue>, r: seq<byte>, at: nat)
    requires cols != [] && |vs| == |cols|
    requires StartsWith(Slice(r, at, cols[0].entry.size), TextPartAt(cols, vs, 0))
    requires var next, rest := at + cols[0].entry.size, cols[1..];
             forall k | 0 <= k < |rest| ::
               StartsWith(Slice(r, next + StartOf(rest, k), rest[k].entry.size), TextPartAt(rest, vs[1..], k))
    ensures forall k | 0 <= k < |cols| ::
              StartsWith(Slice(r, at + StartOf(cols, k), cols[k].entry.size), TextPartAt(cols, vs, k))
  {
    assert StartOf(cols, 0) == 0;
    hide TextPart, StartsWith, StartOf, Slice;
    forall k | 0 <= k < |cols|
      ensures StartsWith(Slice(r, at + StartOf(cols, k), cols[k].entry.size), TextPartAt(cols, vs, k))
    {
      if k > 0 {
        StartStep(cols, k);
        assert TextPartAt(cols, vs, k) == TextPartAt(cols[1..], vs[1..], k - 1);
      }
    }
  }

  lemma SubRange(b: seq<byte>, at: nat, m: nat, n: nat)
    requires n <= m && at + m <= |b|
    ensures b[at..at + m][..n] == b[at..at + n]
  {
  }

  lemma OwnStart(c: seq<byte>, r: seq<byte>, at: nat, size: nat, e: seq<byte>)
    requires at + size <= |c| <= |r| && at + |e| <= |c| && c[at..at + |e|] == e && c[..at + size] == r[..at + size]
    ensures StartsWith(Slice(r, at, size), e)
  {
    var n := if |e| <= size then |e| else size;
    SubRange(r, at, |r| - at, size);
    assert r[at..] == r[at..|r|];
    assert r[at..at + size] == r[..at + size][at..] && c[..at + size][at..] == c[at..at + size];
    SubRange(c, at, size, n);
    SubRange(c, at, |e|, n);
  }

  /** The buffer: the requests, and a payload of at least the size of all variables. */
  lemma {:induction false} BufferHolds(cols: seq<Column>, vs: seq<SumValue>) returns (payload: seq<byte>)
    requires AllGiven(cols, vs)
    ensures |vs| == |cols| && WriteBuffer(cols, vs) == Ok(Headers(cols) + payload) && TotalSize(cols) <= |payload|
  {
    var n := 12 * |cols|;
    hide Given, WriteVars;
    VariablesKeep(cols, vs, Headers(cols) + Zeros(TotalSize(cols)), n);
    var buf := WriteVars(cols, vs, Headers(cols) + Zeros(TotalSize(cols)), n).value;
    payload := buf[n..];
    SplitHead(buf, Headers(cols), Zeros(TotalSize(cols)));
  }

  lemma SliceOfPayload(head: seq<byte>, payload: seq<byte>, at: nat, size: nat)
    ensures Slice(payload, at, size) == Slice(head + payload, |head| + at, size)
  {
    DropDrop(head + payload, |head|, at);
    TakeDropConcat(head, payload);
  }

  /** A sum write of any values of their shapes: all names are reported written, and each variable holds its own slice of the buffer. */
  lemma {:induction false} StoredSlice(codes: map<nat, string>, data: Store, cols: seq<Column>, vs: seq<SumValue>)
    requires 0 in codes && AllGiven(cols, vs) && Known(data, cols) && DistinctAddresses(cols)
    ensures |vs| == |cols| && WriteVars(cols, vs, Headers(cols) + Zeros(TotalSize(cols)), |Headers(cols)|).Ok?
    ensures var (after, statuses) := SumWrite(codes, data, cols, vs);
            && statuses == Ok(AllWritten(codes, NamesOf(cols), map[]))
            && Matching(after, cols) && OthersKept(data, after, cols)
            && forall k | 0 <= k < |cols| ::
                 var buf := WriteVars(cols, vs, Headers(cols) + Zeros(TotalSize(cols)), |Headers(cols)|).value;
                 cols[k].entry.AsRequest().Address() in after && after[cols[k].entry.AsRequest().Address()] ==
                 Slice(buf, |Headers(cols)| + StartOf(cols, k), cols[k].entry.size)
  {
    hide Given, WriteVars, Known, DistinctAddresses, OthersKept, SumWrite, Written, AllWritten, Slice, StartOf, AllGiven, Headers;
    var payload := BufferHolds(cols, vs);
    ServerTakes(codes, data, cols, vs, payload);
    WrittenAt(data, cols, payload);
    forall k | 0 <= k < |cols|
      ensures Slice(payload, StartOf(cols, k), cols[k].entry.size) ==
              Slice(Headers(cols) + payload, |Headers(cols)| + StartOf(cols, k), cols[k].entry.size)
      ensures |Slice(payload, StartOf(cols, k), cols[k].entry.size)| == cols[k].entry.size
    {
      StartWithin(cols, k);
      SliceOfPayload(Headers(cols), payload, StartOf(cols, k), cols[k].entry.size);
      SliceLength(payload, StartOf(cols, k), cols[k].entry.size);
    }
  }

  lemma SliceLength(b: seq<byte>, at: nat, size: nat)
    requires at + size <= |b|
    ensures |Slice(b, at, size)| == size
  {
  }

  /** However long the texts are, each single text starts its own variable. */
  lemma {:induction false} TextsLand(codes: map<nat, string>, data: Store, cols: seq<Column>, vs: seq<SumValue>)
    requires 0 in codes && AllGiven(cols, vs) && Known(data, cols) && DistinctAddresses(cols)
    ensures var after := SumWrite(codes, data, cols, vs).0;
            && Matching(after, cols)
            && forall k | 0 <= k < |cols| ::
                 StartsWith(after[cols[k].entry.AsRequest().Address()], TextPartAt(cols, vs, k))
  {
    hide Given, TextPart, StartsWith, WriteVars, Known, DistinctAddresses, OthersKept, SumWrite, AllWritten, Slice, StartOf;
    StoredSlice(codes, data, cols, vs);
    VariablesLand(cols, vs, Headers(cols) + Zeros(TotalSize(cols)), |Headers(cols)|);
  }

  lemma SameSlice(b: seq<byte>, c: seq<byte>, at: nat, size: nat)
    requires at + size <= |b| && at + size <= |c| && b[..at + size] == c[..at + size]
    ensures Slice(b, at, size) == Slice(c, at, size)
  {
    assert Slice(b, at, size) == b[..at + size][at..] && Slice(c, at, size) == c[..at + size][at..];
  }

  /** What is written behind a slice leaves it alone. */
  lemma {:induction false} SliceStays(cols: seq<Column>, vs: seq<SumValue>, d: seq<byte>, at: nat, size: nat)
    requires AllGiven(cols, vs) && at + size + TotalSize(cols) <= |d|
    ensures |vs| == |cols|
    ensures var r := WriteVars(cols, vs, d, at + size);
            r.Ok? && |d| <= |r.value| && Slice(r.value, at, size) == Slice(d, at, size)
  {
    hide *;
    VariablesKeep(cols, vs, d, at + size);
    SameSlice(WriteVars(cols, vs, d, at + size).value, d, at, size);
  }

  lemma SplitHead(b: seq<byte>, h: seq<byte>, behind: seq<byte>)
    requires |h| <= |b| && b[..|h|] == (h + behind)[..|h|]
    ensures b == h + b[|h|..]
  {
    assert (h + behind)[..|h|] == h;
  }

  /** The first value that does not stay within its variable is not what its part of the buffer reads as. */
  lemma {:induction false} FirstUnplaced(cols: seq<Column>, vs: seq<SumValue>, before: seq<byte>, n: nat) returns (k: nat)
    requires AllGiven(cols, vs) && !AllPlace(cols, vs) && TotalSize(cols) <= n
    ensures k < |cols| == |vs| && WriteVars(cols, vs, before + Zeros(n), |before|).Ok?
    ensures var buf := WriteVars(cols, vs, before + Zeros(n), |before|).value;
            ReadVar(cols[k].entry, cols[k].structured, Slice(buf, |before| + StartOf(cols, k), cols[k].entry.size), 0) != Ok(vs[k])
    decreases |cols|
  {
    hide Given, Places, WriteVar, ReadVar, Image, GrowthOf, WriteVars, Slice;
    FirstGiven(cols, vs, before + Zeros(n), |before|);
    var entry, structured := cols[0].entry, cols[0].structured;
    if Places(entry, structured, vs[0]) {
      VariableWrites(entry, structured, vs[0], before, n);
      var a, g := ImageAt(cols, vs, 0), GrowthOf(entry, structured, vs[0]);
      assert forall j | 0 < j < |cols| :: cols[j] == cols[1..][j - 1] && vs[j] == vs[1..][j - 1];
      k := FirstUnplaced(cols[1..], vs[1..], before + a, n - entry.size + g);
      k := k + 1;
      StartStep(cols, k);
    } else {
      k := 0;
      UnplacedLost(entry, structured, vs[0], before, n);
      var c := WriteVar(entry, structured, before + Zeros(n), |before|, vs[0]).value;
      SliceStays(cols[1..], vs[1..], c, |before|, entry.size);
      StartOfFirst(cols);
    }
  }

  lemma StartOfFirst(cols: seq<Column>)
    ensures StartOf(cols, 0) == 0
  {
  }

  /** After a sum write of placed values each image is at its own address. */
  lemma {:induction false} StoredImages(codes: map<nat, string>, data: Store, cols: seq<Column>, vs: seq<SumValue>)
    requires 0 in codes && AllPlace(cols, vs) && Known(data, cols) && DistinctAddresses(cols)
    ensures var (after, statuses) := SumWrite(codes, data, cols, vs);
            && statuses == Ok(AllWritten(codes, NamesOf(cols), map[]))
            && OthersKept(data, after, cols)
            && forall k | 0 <= k < |cols| ::
                 var a := cols[k].entry.AsRequest().Address(); a in after && after[a] == ImageAt(cols, vs, k)
  {
    hide Places, Image, Known, DistinctAddresses, OthersKept, SumWrite, Written, AllWritten;
    SumWriteIs(codes, data, cols, vs);
    VariablesWrite(cols, vs, [], TotalSize(cols));
    WrittenAt(data, cols, Images(cols, vs));
    assert Images(cols, vs) + [] == Images(cols, vs);
    forall k | 0 <= k < |cols|
      ensures Slice(Images(cols, vs), StartOf(cols, k), cols[k].entry.size) == ImageAt(cols, vs, k)
    {
      ImagesAt(cols, vs, k, []);
    }
  }

  /** What reading the stored bytes of a column gives. */
  function StoredResult(store: Store, col: Column): Result<SumValue>
    requires col.entry.AsRequest().Address() in store
  {
    ReadVar(col.entry, col.structured, store[col.entry.AsRequest().Address()], 0)
  }

  /** All values are read back under their names. */
  predicate ComeBack(r: Result<map<string, SumValue>>, cols: seq<Column>, vs: seq<SumValue>)
    requires |vs| == |cols|
  {
    r.Ok? && r.value.Keys == NameSet(cols) && forall k | 0 <= k < |cols| :: cols[k].name in r.value && r.value[cols[k].name] == vs[k]
  }

  /** Against the test server with matching sizes, each name is read from its own stored bytes, and the first failure is raised. */
  lemma {:induction false} SumReadStored(codes: map<nat, string>, store: Store, cols: seq<Column>, vs: seq<SumValue>)
    requires Matching(store, cols) && NoneBorrows(cols) && DistinctColumns(cols) && |vs| == |cols|
    ensures var r := SumRead(codes, store, cols);
            && (ComeBack(r, cols, vs) <==> forall k | 0 <= k < |cols| :: StoredResult(store, cols[k]) == Ok(vs[k]))
            && (r.Err? <==> exists k :: 0 <= k < |cols| && StoredResult(store, cols[k]).Err?)
  {
    hide NoneBorrows, SumRead, Gathered, ReadVar, DistinctColumns;
    SumReadGathers(codes, store, cols);
    var answers := StoredAnswers(store, cols);
    GatheredKeys(codes, cols, answers, map[]);
    assert forall k | 0 <= k < |cols| :: OwnResult(codes, cols[k], answers[k]) == StoredResult(store, cols[k]);
    if SumRead(codes, store, cols).Ok? {
      DistinctAreConsistent(cols, answers);
      forall k | 0 <= k < |cols|
        ensures var m := SumRead(codes, store, cols).value;
                cols[k].name in m && Ok(m[cols[k].name]) == StoredResult(store, cols[k])
      {
        GatheredValue(codes, cols, answers, map[], k);
      }
    }
  }

  lemma DistinctAreConsistent(cols: seq<Column>, answers: seq<Answer>)
    requires DistinctColumns(cols) && |answers| == |cols|
    ensures Consistent(cols, answers)
  {
  }

  /**
   Sum write then sum read through the server is the identity on the written variables, for any mix of
   scalars, arrays, texts, their arrays and structures; every other variable keeps its value.
   */
  lemma {:induction false} WriteThenRead(codes: map<nat, string>, data: Store, cols: seq<Column>, vs: seq<SumValue>)
    requires 0 in codes && AllFit(cols, vs) && Known(data, cols) && DistinctColumns(cols) && DistinctAddresses(cols)
    ensures var (after, statuses) := SumWrite(codes, data, cols, vs);
            && statuses == Ok(AllWritten(codes, NamesOf(cols), map[]))
            && Matching(after, cols) && OthersKept(data, after, cols)
            && ComeBack(SumRead(codes, after, cols), cols, vs)
  {
    FitsPlace(cols, vs);
    PlaceGiven(cols, vs);
    hide Known, DistinctColumns, DistinctAddresses, OthersKept, ComeBack, SumRead, AllWritten;
    RoundTripExactly(codes, data, cols, vs);
    StoredSlice(codes, data, cols, vs);
  }

  /**
   Exactly when: the values, of their variables' shapes and with texts of any length and any characters,
   all come back if and only if every one fits; a text that leaves no room for its terminator makes the
   sum read raise.
   */
  lemma {:induction false} RoundTripExactly(codes: map<nat, string>, data: Store, cols: seq<Column>, vs: seq<SumValue>)
    requires 0 in codes && AllGiven(cols, vs) && Known(data, cols) && DistinctColumns(cols) && DistinctAddresses(cols)
    ensures var r := SumRead(codes, SumWrite(codes, data, cols, vs).0, cols);
            && (ComeBack(r, cols, vs) <==> AllFit(cols, vs))
            && ((exists k :: 0 <= k < |cols| && Unterminated(cols[k].entry, cols[k].structured, vs[k])) ==> r.Err?)
  {
    hide *;
    TextsRaise(codes, data, cols, vs);
    var after := SumWrite(codes, data, cols, vs).0;
    GivenBorrowsNothing(cols, vs);
    SumReadStored(codes, after, cols, vs);
    if AllPlace(cols, vs) {
      PlacedComeBack(codes, data, cols, vs);
    } else {
      var k := UnplacedStored(codes, data, cols, vs);
      if AllFit(cols, vs) { FitsPlace(cols, vs); }
    }
  }

  lemma {:induction false} TextsRaise(codes: map<nat, string>, data: Store, cols: seq<Column>, vs: seq<SumValue>)
    requires 0 in codes && AllGiven(cols, vs) && Known(data, cols) && DistinctAddresses(cols)
    ensures |vs| == |cols| && Matching(SumWrite(codes, data, cols, vs).0, cols)
    ensures forall k | 0 <= k < |cols| ::
              && cols[k].entry.AsRequest().Address() in SumWrite(codes, data, cols, vs).0
              && (Unterminated(cols[k].entry, cols[k].structured, vs[k]) ==>
                    StoredResult(SumWrite(codes, data, cols, vs).0, cols[k]).Err?)
  {
    hide Given, Unterminated, Known, DistinctAddresses, SumWrite, ReadVar, TextPart;
    var after := SumWrite(codes, data, cols, vs).0;
    TextsLand(codes, data, cols, vs);
    forall k | 0 <= k < |cols| && Unterminated(cols[k].entry, cols[k].structured, vs[k])
      ensures StoredResult(after, cols[k]).Err?
    {
      UnterminatedRaises(cols[k].entry, cols[k].structured, vs[k], after[cols[k].entry.AsRequest().Address()]);
    }
  }

  /** Placed values are stored as what reads back as them exactly if they fit. */
  lemma {:induction false} PlacedComeBack(codes: map<nat, string>, data: Store, cols: seq<Column>, vs: seq<SumValue>)
    requires 0 in codes && AllPlace(cols, vs) && Known(data, cols) && DistinctAddresses(cols)
    ensures var after := SumWrite(codes, data, cols, vs).0;
            && (forall k | 0 <= k < |cols| :: cols[k].entry.AsRequest().Address() in after)
            && (AllFit(cols, vs) <==> forall k | 0 <= k < |cols| :: StoredResult(after, cols[k]) == Ok(vs[k]))
  {
    hide Fits, Places, Known, DistinctAddresses, OthersKept, SumWrite, Image, ReadVar, AllWritten;
    var after := SumWrite(codes, data, cols, vs).0;
    StoredImages(codes, data, cols, vs);
    forall k | 0 <= k < |cols|
      ensures StoredResult(after, cols[k]) == Ok(vs[k]) <==> Fits(cols[k].entry, cols[k].structured, vs[k])
    {
      ImageReadsExactly(cols[k].entry, cols[k].structured, vs[k]);
    }
  }

  /** Of values that do not all stay within their variables one is not stored as itself. */
  lemma {:induction false} UnplacedStored(codes: map<nat, string>, data: Store, cols: seq<Column>, vs: seq<SumValue>)
    returns (k: nat)
    requires 0 in codes && AllGiven(cols, vs) && !AllPlace(cols, vs) && Known(data, cols) && DistinctAddresses(cols)
    ensures var after := SumWrite(codes, data, cols, vs).0;
            && k < |cols| == |vs| && cols[k].entry.AsRequest().Address() in after
            && StoredResult(after, cols[k]) != Ok(vs[k])
  {
    k := FirstUnplaced(cols, vs, Headers(cols), TotalSize(cols));
    StoredSlice(codes, data, cols, vs);
    hide ReadVar, Slice, StartOf, WriteVars, SumWrite, AllGiven, AllPlace, Known, DistinctAddresses, OthersKept, AllWritten;
  }
}
