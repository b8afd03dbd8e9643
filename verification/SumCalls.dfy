/** `adsSumRead` and `adsSumWrite` as the loops they are, against the test server. */
module SumCalls {
  import opened Wrappers
  import opened Bytes
  import opened Text
  import opened StructureCodec
  import opened AdvancedHandlers
  import opened SumCommands

  /** A sum read against a store. */
  function SumRead(codes: map<nat, string>, data: Store, cols: seq<Column>): Result<map<string, SumValue>> {
    var response :- HandledRead(data, |cols|, Headers(cols));
    ParsedRead(codes, cols, response)
  }

  function NamesOf(cols: seq<Column>): seq<string> {
    seq(|cols|, k requires 0 <= k < |cols| => cols[k].name)
  }

  /** A sum write against a store: the store after it, and the status of every name. */
  function SumWrite(codes: map<nat, string>, data: Store, cols: seq<Column>, vs: seq<SumValue>)
    : (Store, Result<map<string, string>>)
    requires |vs| == |cols|
  {
    match WriteBuffer(cols, vs)
    case Err(e) => (data, Err(e))
    case Ok(buf) =>
      var (after, response) := HandledWrite(data, |cols|, buf);
      (after, match response
              case Err(e) => Err(e)
              case Ok(words) => Statuses(codes, NamesOf(cols), 0, Landed(words, 4 * |cols|), map[]))
  }

  lemma HeadersSnoc(cols: seq<Column>, k: nat)
    requires k < |cols|
    ensures Headers(cols[..k + 1]) == Headers(cols[..k]) + Wire(cols[k].entry.AsRequest())
    decreases k
  {
    if k == 0 {
      assert cols[..1][1..] == [];
    } else {
      assert cols[..k + 1][1..] == cols[1..][..k] && cols[..k][1..] == cols[1..][..k - 1];
      HeadersSnoc(cols[1..], k - 1);
    }
  }

  /** The request array of `adsSumReadBytes`. */
  method BuildRequests(names: seq<string>, symbols: map<string, SymbolEntry>) returns (sumReq: seq<byte>)
    requires AllIn(names, symbols)
    ensures sumReq == Headers(Columns(names, symbols, {}))
  {
    ghost var cols := Columns(names, symbols, {});
    sumReq := [];
    for i := 0 to |names|
      invariant sumReq == Headers(cols[..i])
    {
      HeadersSnoc(cols, i);
      sumReq := sumReq + (LE(symbols[names[i]].iGroup, 4) + LE(symbols[names[i]].iOffs, 4) + LE(symbols[names[i]].size, 4));
    }
    assert cols[..|names|] == cols;
  }

  /** A list of values read so far, followed by the rest. */
  function Prepend(vs: seq<Value>, rest: Result<seq<Value>>): Result<seq<Value>> {
    match rest case Ok(r) => Ok(vs + r) case Err(e) => Err(e)
  }

  lemma PrependStep(vs: seq<Value>, v: Value, rest: Result<seq<Value>>)
    ensures Prepend(vs, Prepend([v], rest)) == Prepend(vs + [v], rest)
  {
    assert rest.Ok? ==> vs + ([v] + rest.value) == vs + [v] + rest.value;
  }

  lemma PrependNothing(rest: Result<seq<Value>>)
    ensures Prepend([], rest) == rest
  {
    assert rest.Ok? ==> [] + rest.value == rest.value;
  }

  lemma ZeroFurther(w: seq<byte>, k: nat)
    requires k < |w| && w[k] != 0
    ensures w[..k] + BeforeZero(w[k..]) == w[..k + 1] + BeforeZero(w[k + 1..])
    ensures 0 !in w[..k] ==> 0 !in w[..k + 1]
  {
    assert w[..k + 1] == w[..k] + [w[k]] && w[k..][1..] == w[k + 1..];
  }

  /** One text of a response window; `index(0)` and the wide search both demand a terminator. */
  method ReadTextAt(wide: bool, window: seq<byte>) returns (r: Result<text>)
    ensures r == ReadText(wide, window)
  {
    hide Utf8Decode, Utf16Decode;
    if wide {
      var nullIdx := FindWstringNullTerminator(window);
      if nullIdx.None? {
        return Err(ValueError);
      }
      r := Utf16Decode(window[..nullIdx.value]);
    } else {
      var nullIdx := 0;
      while nullIdx < |window| && window[nullIdx] != 0
        invariant nullIdx <= |window| && 0 !in window[..nullIdx]
        invariant BeforeZero(window) == window[..nullIdx] + BeforeZero(window[nullIdx..])
      {
        ZeroFurther(window, nullIdx);
        nullIdx := nullIdx + 1;
      }
      if nullIdx == |window| {
        assert window[..nullIdx] == window;
        return Err(ValueError);
      }
      assert window[nullIdx] in window;
      assert window[..nullIdx] + [] == window[..nullIdx];
      r := Utf8Decode(window[..nullIdx]);
    }
  }

  lemma ReadTextsStep(wide: bool, w: seq<byte>, elementSize: nat, n: nat, vs: seq<Value>)
    requires n > 0
    ensures Prepend(vs, ReadTexts(wide, w, elementSize, n)) ==
            match ReadText(wide, w)
            case Err(e) => Err(e)
            case Ok(s) => Prepend(vs + [TextV(s)], ReadTexts(wide, Drop(w, elementSize), elementSize, n - 1))
  {
    var s := ReadText(wide, w);
    if s.Ok? {
      PrependStep(vs, TextV(s.value), ReadTexts(wide, Drop(w, elementSize), elementSize, n - 1));
    }
  }

  /** The loop over a text array: every element is looked for between its own start and the end of the variable. */
  method ReadTextArray(wide: bool, b: seq<byte>, offset: nat, size: nat, elementSize: nat, n: nat)
    returns (r: Result<seq<Value>>)
    ensures r == ReadTexts(wide, Slice(b, offset, size), elementSize, n)
  {
    hide ReadText;
    var value: seq<Value> := [];
    var currentOffset: nat := offset;
    ghost var window := Slice(b, offset, size);
    PrependNothing(ReadTexts(wide, window, elementSize, n));
    for j := 0 to n
      invariant offset <= currentOffset && window == Slice(b, currentOffset, Room(offset + size, currentOffset))
      invariant ReadTexts(wide, Slice(b, offset, size), elementSize, n) == Prepend(value, ReadTexts(wide, window, elementSize, n - j))
    {
      ReadTextsStep(wide, window, elementSize, n - j, value);
      var s := ReadTextAt(wide, Slice(b, currentOffset, Room(offset + size, currentOffset)));
      if s.Err? {
        return Err(s.error);
      }
      value := value + [TextV(s.value)];
      window := Drop(window, elementSize);
      currentOffset := currentOffset + elementSize;
    }
    assert value + [] == value;
    r := Ok(value);
  }

  function Room(end: nat, at: nat): nat {
    if at < end then end - at else 0
  }

  method ReadTextVariable(entry: SymbolEntry, wide: bool, b: seq<byte>, offset: nat) returns (r: Result<SumValue>)
    requires TypeOf(entry.dataType) == if wide then WStringAds else StringAds
    ensures r == ReadVar(entry, false, b, offset)
  {
    hide ReadText, GetNumOfChars, Slice;
    var numStringChars := GetNumOfChars(entry.symbolType);
    var elementSize := if wide then numStringChars * 2 + 2 else numStringChars + 1;
    if numStringChars != -1 && entry.size != elementSize {
      var vs := ReadTextArray(wide, b, offset, entry.size, if elementSize > 0 then elementSize else 0,
                              ElementCount(entry.size, elementSize));
      r := if vs.Ok? then Ok(Plain(ListV(vs.value))) else Err(vs.error);
    } else {
      var s := ReadTextAt(wide, Slice(b, offset, entry.size));
      r := if s.Ok? then Ok(Plain(TextV(s.value))) else Err(s.error);
    }
  }

  /** The branches of the reading loop for one variable without an error word. */
  method ReadVariable(entry: SymbolEntry, structured: bool, b: seq<byte>, offset: nat) returns (r: Result<SumValue>)
    ensures r == ReadVar(entry, structured, b, offset)
  {
    if structured {
      r := Ok(Raw(Slice(b, offset, entry.size)));
    } else if TypeOf(entry.dataType).StringAds? {
      r := ReadTextVariable(entry, false, b, offset);
    } else if TypeOf(entry.dataType).WStringAds? {
      r := ReadTextVariable(entry, true, b, offset);
    } else if TypeOf(entry.dataType).UnknownAds? {
      r := Err(KeyError);
    } else {
      var t := TypeOf(entry.dataType).t;
      if entry.size > Width(t) {
        var n := entry.size / Width(t);
        var vs := UnpackAll(t, Slice(b, offset, n * Width(t)), n);
        r := if vs.Ok? then Ok(Plain(ListV(vs.value))) else Err(vs.error);
      } else {
        var v := Unpack(t, Slice(b, offset, Width(t)));
        r := if v.Ok? then Ok(Plain(v.value)) else Err(v.error);
      }
    }
  }

  method AdsSumRead(
    handler: AdvancedHandler, codes: map<nat, string>, names: seq<string>, symbols: map<string, SymbolEntry>,
    structured: set<string>) returns (r: Result<map<string, SumValue>>)
    requires AllIn(names, symbols)
    ensures r == SumRead(codes, handler.data, Columns(names, symbols, structured))
  {
    var sumReq := BuildRequests(names, symbols);
    HeadersIgnoreFlags(Columns(names, symbols, {}), Columns(names, symbols, structured));
    var response := handler.SumUpRead(|names|, sumReq);
    if response.Err? {
      return Err(response.error);
    }
    r := ParseSumResponse(codes, names, symbols, structured, response.value);
  }

  lemma {:induction false} HeadersIgnoreFlags(a: seq<Column>, b: seq<Column>)
    requires |a| == |b| && forall k | 0 <= k < |a| :: a[k].entry == b[k].entry
    ensures Headers(a) == Headers(b)
  {
    if a != [] {
      HeadersIgnoreFlags(a[1..], b[1..]);
    }
  }

  /** The reading loop. */
  method ParseSumResponse(
    codes: map<nat, string>, names: seq<string>, symbols: map<string, SymbolEntry>, structured: set<string>,
    response: seq<byte>) returns (r: Result<map<string, SumValue>>)
    requires AllIn(names, symbols)
    ensures r == ParsedRead(codes, Columns(names, symbols, structured), response)
  {
    hide ReadVar, ErrorWord;
    ghost var cols := Columns(names, symbols, structured);
    var total := TotalOf(names, symbols, structured);
    var sumResponse := Landed(response, 4 * |names| + total);
    var result: map<string, SumValue> := map[];
    var offset: nat := 4 * |names|;
    assert cols[0..] == cols;
    for i := 0 to |names|
      invariant ParsedRead(codes, cols, response) == Results(codes, cols[i..], i, sumResponse, offset, result)
    {
      var name := names[i];
      assert cols[i..][1..] == cols[i + 1..];
      var error := ErrorWord(sumResponse, i);
      if error != 0 {
        if error as nat !in codes {
          return Err(KeyError);
        }
        result := result[name := ErrorText(codes[error])];
      } else {
        var v := ReadVariable(symbols[name], name in structured, sumResponse, offset);
        if v.Err? {
          return Err(v.error);
        }
        result := result[name := v.value];
      }
      offset := offset + symbols[name].size;
    }
    r := Ok(result);
  }

  lemma TotalSizeSnoc(cols: seq<Column>, k: nat)
    requires k < |cols|
    ensures TotalSize(cols[..k + 1]) == TotalSize(cols[..k]) + cols[k].entry.size
    decreases k
  {
    if k == 0 {
      assert cols[..1][1..] == [];
    } else {
      assert cols[..k + 1][1..] == cols[1..][..k] && cols[..k][1..] == cols[1..][..k - 1];
      TotalSizeSnoc(cols[1..], k - 1);
    }
  }

  /** The loop that adds up the sizes. */
  method TotalOf(names: seq<string>, symbols: map<string, SymbolEntry>, structured: set<string>) returns (total: nat)
    requires AllIn(names, symbols)
    ensures total == TotalSize(Columns(names, symbols, structured))
  {
    ghost var cols := Columns(names, symbols, structured);
    total := 0;
    for k := 0 to |names|
      invariant total == TotalSize(cols[..k])
    {
      TotalSizeSnoc(cols, k);
      total := total + symbols[names[k]].size;
    }
    assert cols[..|names|] == cols;
  }

  // --- writing -------------------------------------------------------------------------------------

  method WriteTextArray(wide: bool, b: seq<byte>, offset: nat, elementSize: int, value: seq<Value>)
    returns (r: Result<seq<byte>>)
    ensures r == WriteTexts(wide, b, offset, elementSize, value)
  {
    var buf := b;
    var currentOffset: int := offset;
    assert value[0..] == value;
    for i := 0 to |value|
      invariant WriteTexts(wide, b, offset, elementSize, value) == WriteTexts(wide, buf, currentOffset, elementSize, value[i..])
    {
      assert value[i..][1..] == value[i + 1..];
      if !value[i].TextV? {
        return Err(TypeError);
      }
      buf := Splice(buf, currentOffset, currentOffset + CharSize(wide) * |value[i].s|, Encoded(wide, value[i].s));
      currentOffset := currentOffset + elementSize;
    }
    r := Ok(buf);
  }

  method WriteTextVariable(entry: SymbolEntry, wide: bool, buf: seq<byte>, offset: nat, v: Value) returns (r: Result<seq<byte>>)
    requires TypeOf(entry.dataType) == if wide then WStringAds else StringAds
    ensures r == WriteVar(entry, false, buf, offset, Plain(v))
  {
    hide GetNumOfChars, Splice, WriteTexts;
    var numStringChars := GetNumOfChars(entry.symbolType);
    var elementSize := if wide then numStringChars * 2 + 2 else numStringChars + 1;
    if numStringChars != -1 && entry.size != elementSize {
      var elements := Elements(v);
      if elements.Err? {
        return Err(elements.error);
      }
      r := WriteTextArray(wide, buf, offset, elementSize, elements.value);
    } else if v.TextV? {
      r := Ok(Splice(buf, offset, offset + CharSize(wide) * |v.s|, Encoded(wide, v.s)));
    } else {
      r := Err(TypeError);
    }
  }

  /** The branches of the writing loop for one variable. */
  method WriteVariable(entry: SymbolEntry, structured: bool, buf: seq<byte>, offset: nat, value: SumValue)
    returns (r: Result<seq<byte>>)
    ensures r == WriteVar(entry, structured, buf, offset, value)
  {
    if structured {
      r := if value.Raw? then Ok(Splice(buf, offset, offset + entry.size, value.b)) else Err(TypeError);
    } else if TypeOf(entry.dataType).UnknownAds? {
      r := Err(KeyError);
    } else if !value.Plain? {
      r := Err(TypeError);
    } else if TypeOf(entry.dataType).StringAds? {
      r := WriteTextVariable(entry, false, buf, offset, value.v);
    } else if TypeOf(entry.dataType).WStringAds? {
      r := WriteTextVariable(entry, true, buf, offset, value.v);
    } else {
      var t := TypeOf(entry.dataType).t;
      if entry.size > Width(t) {
        var elements := Elements(value.v);
        if elements.Err? {
          return Err(elements.error);
        }
        r := PackInto(t, entry.size / Width(t), buf, offset, elements.value);
      } else {
        r := PackInto(t, 1, buf, offset, [value.v]);
      }
    }
  }

  /** Three four-byte fields packed one after the other. */
  lemma SpliceThree(done: seq<byte>, n: nat, x: seq<byte>, y: seq<byte>, z: seq<byte>)
    requires |x| == 4 && |y| == 4 && |z| == 4 && n >= 12
    ensures var at := |done|;
            var b1 := Splice(done + Zeros(n), at, at + 4, x);
            var b2 := Splice(b1, at + 4, at + 8, y);
            Splice(b2, at + 8, at + 12, z) == done + (x + y + z) + Zeros(n - 12)
  {
    var at := |done|;
    SpliceZeros(done, n, [], x);
    SpliceZeros(done + x, n - 4, [], y);
    SpliceZeros(done + x + y, n - 8, [], z);
    assert forall b: seq<byte> :: b + [] == b;
    assert done + x + y + z == done + (x + y + z);
  }

  /** The request part filled in, the data part still zero. */
  method BuildWriteHeaders(names: seq<string>, symbols: map<string, SymbolEntry>, structured: set<string>)
    returns (buf: seq<byte>)
    requires AllIn(names, symbols)
    ensures var cols := Columns(names, symbols, structured); buf == Headers(cols) + Zeros(TotalSize(cols))
  {
    hide LE, Splice;
    ghost var cols := Columns(names, symbols, structured);
    var total := TotalOf(names, symbols, structured);
    var totalRequestSize := |names| * 3 * 4 + total;
    buf := Zeros(totalRequestSize);
    var offset := 0;
    for k := 0 to |names|
      invariant offset == 12 * k && buf == Headers(cols[..k]) + Zeros(totalRequestSize - offset)
    {
      HeadersSnoc(cols, k);
      var entry := symbols[names[k]];
      SpliceThree(Headers(cols[..k]), totalRequestSize - offset, LE(entry.iGroup, 4), LE(entry.iOffs, 4), LE(entry.size, 4));
      buf := Splice(buf, offset, offset + 4, LE(entry.iGroup, 4));
      buf := Splice(buf, offset + 4, offset + 8, LE(entry.iOffs, 4));
      buf := Splice(buf, offset + 8, offset + 12, LE(entry.size, 4));
      offset := offset + 12;
    }
    assert cols[..|names|] == cols;
  }

  method BuildWriteBuffer(items: Items, symbols: map<string, SymbolEntry>, structured: set<string>)
    returns (r: Result<seq<byte>>)
    requires AllIn(Keys(items), symbols)
    ensures r == WriteBuffer(Columns(Keys(items), symbols, structured), Values(items))
  {
    var names := Keys(items);
    ghost var cols, vs := Columns(names, symbols, structured), Values(items);
    var buf := BuildWriteHeaders(names, symbols, structured);
    var offset: nat := 12 * |items|;
    assert cols[0..] == cols && vs[0..] == vs;
    for k := 0 to |items|
      invariant WriteBuffer(cols, vs) == WriteVars(cols[k..], vs[k..], buf, offset)
    {
      assert cols[k..][1..] == cols[k + 1..] && vs[k..][1..] == vs[k + 1..];
      var (name, value) := items[k];
      assert cols[k] == Column(names[k], symbols[names[k]], names[k] in structured) && names[k] == name;
      var c := WriteVariable(symbols[name], name in structured, buf, offset, value);
      if c.Err? {
        return c;
      }
      buf := c.value;
      offset := offset + symbols[name].size;
    }
    r := Ok(buf);
  }

  /** `adsSumWriteBytes` and the pairing of its descriptions with the names. */
  method AdsSumWrite(
    handler: AdvancedHandler, codes: map<nat, string>, items: Items, symbols: map<string, SymbolEntry>,
    structured: set<string>) returns (r: Result<map<string, string>>)
    requires AllIn(Keys(items), symbols)
    modifies handler
    ensures (handler.data, r) ==
            SumWrite(codes, old(handler.data), Columns(Keys(items), symbols, structured), Values(items))
  {
    var names := Keys(items);
    assert NamesOf(Columns(names, symbols, structured)) == names;
    var buf := BuildWriteBuffer(items, symbols, structured);
    if buf.Err? {
      return Err(buf.error);
    }
    var response := handler.SumUpWrite(|items|, buf.value);
    if response.Err? {
      return Err(response.error);
    }
    r := PairStatuses(codes, names, response.value);
  }

  method PairStatuses(codes: map<nat, string>, names: seq<string>, response: seq<byte>)
    returns (r: Result<map<string, string>>)
    ensures r == Statuses(codes, names, 0, Landed(response, 4 * |names|), map[])
  {
    var sumResponse := Landed(response, 4 * |names|);
    var result: map<string, string> := map[];
    assert names[0..] == names;
    for k := 0 to |names|
      invariant Statuses(codes, names, 0, sumResponse, map[]) == Statuses(codes, names[k..], k, sumResponse, result)
    {
      assert names[k..][1..] == names[k + 1..];
      var word := ErrorWord(sumResponse, k);
      if word as nat !in codes {
        return Err(KeyError);
      }
      result := result[names[k] := codes[word]];
    }
    r := Ok(result);
  }
}
