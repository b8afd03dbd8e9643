/** Sum read and sum write of `pyads_ex.py`: one flat buffer, offsets computed by hand. */
module SumCommands {
  import opened Wrappers
  import opened Bytes
  import opened Text
  import opened Numerals
  import opened StructureCodec
  import opened AdvancedHandlers

  // --- symbols -------------------------------------------------------------------------------------

  /** The fields of a symbol entry that the sum calls use. */
  datatype SymbolEntry = SymbolEntry(iGroup: u32, iOffs: u32, size: u32, dataType: nat, symbolType: string) {
    function AsRequest(): Request { Request(iGroup, iOffs, size) }
  }

  datatype AdsType = ScalarAds(t: ScalarType) | StringAds | WStringAds | UnknownAds

  /** The ADST constants and the ctypes they map to; an ADST_INT8 is read as an unsigned byte. */
  function TypeOf(dataType: nat): AdsType {
    if dataType == 16 then ScalarAds(U8)
    else if dataType == 17 then ScalarAds(U8)
    else if dataType == 2 then ScalarAds(S16)
    else if dataType == 18 then ScalarAds(U16)
    else if dataType == 3 then ScalarAds(S32)
    else if dataType == 19 then ScalarAds(U32)
    else if dataType == 20 then ScalarAds(S64)
    else if dataType == 21 then ScalarAds(U64)
    else if dataType == 4 then ScalarAds(F32)
    else if dataType == 5 then ScalarAds(F64)
    else if dataType == 30 then StringAds
    else if dataType == 31 then WStringAds
    else if dataType == 33 then ScalarAds(BoolT)
    else UnknownAds
  }

  function Upper(c: char): char {
    if 'a' <= c <= 'z' then c - 'a' + 'A' else c
  }

  predicate HasStringAt(s: string, k: nat) {
    k + 6 <= |s| && forall j | 0 <= j < 6 :: Upper(s[k + j]) == "STRING"[j]
  }

  /** `upper().find("STRING")`, from position `k`. */
  function FindString(s: string, k: nat): (r: Option<nat>)
    ensures r.Some? ==> k <= r.value && HasStringAt(s, r.value)
    ensures forall j | k <= j && (r.Some? ==> j < r.value) :: !HasStringAt(s, j)
    decreases |s| - k
  {
    if k + 6 > |s| then None else if HasStringAt(s, k) then Some(k) else FindString(s, k + 1)
  }

  /** `get_num_of_chars`. */
  function GetNumOfChars(symbolType: string): int {
    match FindString(symbolType, 0)
    case None => -1
    case Some(pos) =>
      var start := pos + 7;
      var digits := if start < |symbolType| then symbolType[start..|symbolType| - 1] else "";
      if ParseInt(digits).Some? then ParseInt(digits).value else DEFAULT_STRING_SIZE
  }

  /** "STRING" in capital or small letters. */
  predicate SpellsString(word: string) {
    && |word| == 6 && word[0] in {'S', 's'} && word[1] in {'T', 't'} && word[2] in {'R', 'r'}
    && word[3] in {'I', 'i'} && word[4] in {'N', 'n'} && word[5] in {'G', 'g'}
  }

  /**
   The length in a type name: the digits behind the first "STRING" and one character, up to the last
   character of the name; 80 when there are none; -1 when the name has no "STRING".
   */
  lemma NumOfCharsIs(before: string, word: string, open: char, digits: string, close: char)
    requires IsDigits(digits) && SpellsString(word)
    requires forall k | 0 <= k < |before| :: !HasStringAt(before + word + [open] + digits + [close], k)
    ensures GetNumOfChars(before + word + [open] + digits + [close]) == DigitsValue(digits)
  {
    var s := before + word + [open] + digits + [close];
    FirstString(s, |before|);
    assert s[|before| + 7..|s| - 1] == digits;
  }

  lemma FirstString(s: string, at: nat)
    requires at + 6 <= |s| && SpellsString(s[at..at + 6])
    requires forall k | 0 <= k < at :: !HasStringAt(s, k)
    ensures FindString(s, 0) == Some(at)
  {
    hide HasStringAt, FindString, SpellsString;
    StringThere(s, at);
    var found := FindString(s, 0);
    assert found.Some? && found.value == at;
  }

  lemma StringThere(s: string, at: nat)
    requires at + 6 <= |s| && SpellsString(s[at..at + 6])
    ensures HasStringAt(s, at)
  {
    forall j | 0 <= j < 6 ensures Upper(s[at + j]) == "STRING"[j] {
      assert s[at + j] == s[at..at + 6][j];
    }
  }

  /** A name that ends with "STRING" means 80 characters, and a name without it means no string. */
  lemma NumOfCharsDefault(s: string)
    ensures (forall k | 0 <= k < |s| :: !HasStringAt(s, k)) ==> GetNumOfChars(s) == -1
    ensures |s| >= 6 && SpellsString(s[|s| - 6..]) && (forall k | 0 <= k < |s| - 6 :: !HasStringAt(s, k)) ==>
              GetNumOfChars(s) == 80
  {
    if |s| >= 6 && SpellsString(s[|s| - 6..]) && (forall k | 0 <= k < |s| - 6 :: !HasStringAt(s, k)) {
      FirstString(s, |s| - 6);
    }
  }

  /** No "STRING" begins in a text without the letter S. */
  predicate NoS(s: string) {
    forall k | 0 <= k < |s| :: s[k] != 'S' && s[k] != 's'
  }

  /**
   The length in a type name as it is printed, behind anything without an S: nothing, a W, or an array's
   bounds. Without a length it is 80, and a name without an S has none.
   */
  lemma LengthIsRead(before: string, word: string, n: nat)
    requires NoS(before) && SpellsString(word)
    ensures GetNumOfChars(before + word + "(" + Printed(n) + ")") == n
    ensures GetNumOfChars(before + word) == 80 && GetNumOfChars(before) == -1
  {
    var s := before + word + "(" + Printed(n) + ")";
    PrintedIsRead(n);
    NothingBefore(before, word + "(" + Printed(n) + ")");
    NothingBefore(before, word);
    NothingBefore(before, "");
    assert before + (word + "(" + Printed(n) + ")") == s && before + "" == before;
    hide GetNumOfChars, HasStringAt, SpellsString;
    assert s == before + word + ['('] + Printed(n) + [')'];
    NumOfCharsIs(before, word, '(', Printed(n), ')');
    SixLetters(word);
    assert (before + word)[|before|..] == word;
    NumOfCharsDefault(before + word);
    NumOfCharsDefault(before);
  }

  lemma SixLetters(word: string)
    requires SpellsString(word)
    ensures |word| == 6
  {
  }

  lemma NothingBefore(before: string, behind: string)
    requires NoS(before)
    ensures forall k | 0 <= k < |before| :: !HasStringAt(before + behind, k)
  {
    forall k | 0 <= k < |before| ensures !HasStringAt(before + behind, k) {
      assert (before + behind)[k + 0] == before[k] && Upper(before[k]) != "STRING"[0];
    }
  }

  /** How the sum calls lay a variable out: the branch they take for it. */
  datatype Shape =
    | RawShape
    | TextShape(wide: bool)
    | TextsShape(wide: bool, elementSize: int)
    | ScalarsShape(t: ScalarType, n: nat)
    | ScalarShape(t: ScalarType)
    | NoShape

  function CharSize(wide: bool): nat {
    if wide then 2 else 1
  }

  /** An array unless the element size read off the type name is the whole size; -1 means no length was found. */
  function TextShapeOf(entry: SymbolEntry, wide: bool): Shape {
    var chars := GetNumOfChars(entry.symbolType);
    var elementSize := CharSize(wide) * chars + CharSize(wide);
    if chars != -1 && entry.size != elementSize then TextsShape(wide, elementSize) else TextShape(wide)
  }

  function ShapeOf(entry: SymbolEntry, structured: bool): Shape {
    if structured then RawShape else
    match TypeOf(entry.dataType)
    case StringAds => TextShapeOf(entry, false)
    case WStringAds => TextShapeOf(entry, true)
    case ScalarAds(t) => if entry.size > Width(t) then ScalarsShape(t, entry.size / Width(t)) else ScalarShape(t)
    case UnknownAds => NoShape
  }

  /** `int(size / element_size)`, and no round at all when it is negative. */
  function ElementCount(size: nat, elementSize: int): nat {
    if elementSize > 0 then size / elementSize else 0
  }

  /** What a sum read yields for a variable and a sum write takes for it; an error text is a string to Python. */
  datatype SumValue = Plain(v: Value) | Raw(b: seq<byte>) | ErrorText(text: string)

  // --- type names ----------------------------------------------------------------------------------

  lemma Quotient(m: nat, el: nat)
    requires el > 0
    ensures m * el / el == m && (m * el == el <==> m == 1)
  {
    QuotientIs(m * el, el, m, 0);
    TimesGrows(el, 2, m);
  }

  /**
   How a text variable is laid out by its type name and size: of the size of one text with its terminator it
   is a text, of the size of `m` others an array of `m`, that many bytes apart.
   */
  lemma TextsByTypeName(entry: SymbolEntry, wide: bool, before: string, word: string, n: nat, m: nat)
    requires entry.dataType == (if wide then 31 else 30) && NoS(before) && SpellsString(word)
    requires entry.symbolType == before + word + "(" + Printed(n) + ")" || (entry.symbolType == before + word && n == 80)
    requires entry.size == m * (if wide then 2 * n + 2 else n + 1)
    ensures var el := if wide then 2 * n + 2 else n + 1;
            if m == 1 then ShapeOf(entry, false) == TextShape(wide)
            else ShapeOf(entry, false) == TextsShape(wide, el) && ElementCount(entry.size, el) == m
  {
    hide *;
    var el := if wide then 2 * n + 2 else n + 1;
    LengthIsRead(before, word, n);
    Quotient(m, el);
    LaidOut(entry, wide, n, el, m, m * el);
  }

  /** A text variable whose type name says no length is one text, whatever its size. */
  lemma TextWithoutLength(entry: SymbolEntry, wide: bool)
    requires entry.dataType == (if wide then 31 else 30) && NoS(entry.symbolType)
    ensures ShapeOf(entry, false) == TextShape(wide)
  {
    assert entry.symbolType + "" == entry.symbolType;
    NothingBefore(entry.symbolType, "");
    NumOfCharsDefault(entry.symbolType);
    hide GetNumOfChars;
  }

  lemma LaidOut(entry: SymbolEntry, wide: bool, n: nat, el: nat, m: nat, size: nat)
    requires entry.dataType == (if wide then 31 else 30) && GetNumOfChars(entry.symbolType) == n && entry.size == size
    requires el == (if wide then 2 * n + 2 else n + 1) && size / el == m && (size == el <==> m == 1)
    ensures if m == 1 then ShapeOf(entry, false) == TextShape(wide)
            else ShapeOf(entry, false) == TextsShape(wide, el) && ElementCount(size, el) == m
  {
    hide GetNumOfChars;
  }

  // --- reading -------------------------------------------------------------------------------------

  /** A text up to its terminator, which must be there. */
  function ReadText(wide: bool, w: seq<byte>): Result<text> {
    if wide then
      if WideNull(w).None? then Err(ValueError) else Utf16Decode(BeforeWideNull(w))
    else
      if 0 !in w then Err(ValueError) else Utf8Decode(BeforeZero(w))
  }

  /** `n` texts `elementSize` apart; each is searched for up to the end of the whole variable. */
  function ReadTexts(wide: bool, w: seq<byte>, elementSize: nat, n: nat): Result<seq<Value>>
    decreases n
  {
    if n == 0 then Ok([]) else
    var s :- ReadText(wide, w);
    var rest :- ReadTexts(wide, Drop(w, elementSize), elementSize, n - 1);
    Ok([TextV(s)] + rest)
  }

  /** `n` scalars one after the other. */
  function UnpackAll(t: ScalarType, w: seq<byte>, n: nat): Result<seq<Value>>
    decreases n
  {
    if n == 0 then Ok([]) else
    var v :- Unpack(t, Take(w, Width(t)));
    var rest :- UnpackAll(t, Drop(w, Width(t)), n - 1);
    Ok([v] + rest)
  }

  /** One variable read from the response at `at`. */
  function ReadVar(entry: SymbolEntry, structured: bool, b: seq<byte>, at: nat): Result<SumValue> {
    match ShapeOf(entry, structured)
    case RawShape => Ok(Raw(Slice(b, at, entry.size)))
    case TextShape(wide) =>
      var s :- ReadText(wide, Slice(b, at, entry.size));
      Ok(Plain(TextV(s)))
    case TextsShape(wide, elementSize) =>
      var n := ElementCount(entry.size, elementSize);
      if n == 0 then Ok(Plain(ListV([]))) else
      var vs :- ReadTexts(wide, Slice(b, at, entry.size), elementSize, n);
      Ok(Plain(ListV(vs)))
    case ScalarsShape(t, n) =>
      var vs :- UnpackAll(t, Slice(b, at, n * Width(t)), n);
      Ok(Plain(ListV(vs)))
    case ScalarShape(t) =>
      var v :- Unpack(t, Slice(b, at, Width(t)));
      Ok(Plain(v))
    case NoShape => Err(KeyError)
  }

  /** One name's result: the error text of its word, or the variable at `at`. */
  function NameResult(
    codes: map<nat, string>, entry: SymbolEntry, structured: bool, word: u32, b: seq<byte>, at: nat): Result<SumValue>
  {
    if word == 0 then ReadVar(entry, structured, b, at)
    else if word as nat in codes then Ok(ErrorText(codes[word]))
    else Err(KeyError)
  }

  /** One name of a sum call with its symbol entry. */
  datatype Column = Column(name: string, entry: SymbolEntry, structured: bool)

  predicate AllIn(names: seq<string>, symbols: map<string, SymbolEntry>) {
    forall k | 0 <= k < |names| :: names[k] in symbols
  }

  function Columns(names: seq<string>, symbols: map<string, SymbolEntry>, structured: set<string>): seq<Column>
    requires AllIn(names, symbols)
  {
    seq(|names|, k requires 0 <= k < |names| => Column(names[k], symbols[names[k]], names[k] in structured))
  }

  function TotalSize(cols: seq<Column>): nat {
    if cols == [] then 0 else cols[0].entry.size + TotalSize(cols[1..])
  }

  /** Error word number `i` of a response. */
  function ErrorWord(b: seq<byte>, i: nat): u32
    requires 4 * i + 4 <= |b|
  {
    Word(b, 4 * i).value
  }

  /** The results of the columns from number `i` on, whose data starts at `at`. */
  function Results(
    codes: map<nat, string>, cols: seq<Column>, i: nat, b: seq<byte>, at: nat, acc: map<string, SumValue>)
    : Result<map<string, SumValue>>
    requires 4 * (i + |cols|) <= |b|
    decreases |cols|
  {
    if cols == [] then Ok(acc) else
    var v :- NameResult(codes, cols[0].entry, cols[0].structured, ErrorWord(b, i), b, at);
    Results(codes, cols[1..], i + 1, b, at + cols[0].entry.size, acc[cols[0].name := v])
  }

  function Wire(r: Request): (b: seq<byte>)
    ensures |b| == 12
  {
    LE(r.group, 4) + LE(r.offs, 4) + LE(r.size, 4)
  }

  /** The requests as they go over the wire. */
  function Headers(cols: seq<Column>): (b: seq<byte>)
    ensures |b| == 12 * |cols|
  {
    if cols == [] then [] else Wire(cols[0].entry.AsRequest()) + Headers(cols[1..])
  }

  /** The response as it lands in a buffer of the expected size, which starts out zero. */
  function Landed(response: seq<byte>, size: nat): (r: seq<byte>)
    ensures |r| == size
  {
    if |response| >= size then response[..size] else response + Zeros(size - |response|)
  }

  /** `adsSumRead` on what the device answers. */
  function ParsedRead(codes: map<nat, string>, cols: seq<Column>, response: seq<byte>): Result<map<string, SumValue>> {
    Results(codes, cols, 0, Landed(response, 4 * |cols| + TotalSize(cols)), 4 * |cols|, map[])
  }

  // --- writing -------------------------------------------------------------------------------------

  /** A Python slice bound. */
  function Clip(i: int, n: nat): nat {
    if i < 0 then (if i + n < 0 then 0 else i + n) else if i < n then i else n
  }

  /** `b[from:to] = x`, which changes the length of the buffer when `x` is not as long as the slice. */
  function Splice(b: seq<byte>, from: int, to: int, x: seq<byte>): seq<byte> {
    var lo := Clip(from, |b|);
    var hi := if Clip(to, |b|) < lo then lo else Clip(to, |b|);
    b[..lo] + x + b[hi..]
  }

  /** Writing inside a stretch of zeros leaves everything around it in place. */
  lemma SpliceZeros(before: seq<byte>, n: nat, behind: seq<byte>, x: seq<byte>)
    requires |x| <= n
    ensures Splice(before + Zeros(n) + behind, |before|, |before| + |x|, x) == before + x + Zeros(n - |x|) + behind
  {
  }

  function Encoded(wide: bool, s: text): seq<byte> {
    if wide then Utf16(s) else Utf8(s)
  }

  /** What iterating over a value yields. */
  function Elements(v: Value): Result<seq<Value>> {
    match v
    case ListV(vs) => Ok(vs)
    case TextV(s) => Ok(seq(|s|, k requires 0 <= k < |s| => TextV([s[k]])))
    case _ => Err(TypeError)
  }

  /** One text written at `at` over as many bytes as it has characters, doubled for wide ones. */
  function WriteText(wide: bool, b: seq<byte>, at: int, v: Value): Result<seq<byte>> {
    if v.TextV? then Ok(Splice(b, at, at + CharSize(wide) * |v.s|, Encoded(wide, v.s))) else Err(TypeError)
  }

  function WriteTexts(wide: bool, b: seq<byte>, at: int, elementSize: int, vs: seq<Value>): Result<seq<byte>>
    decreases |vs|
  {
    if vs == [] then Ok(b) else
    var c :- WriteText(wide, b, at, vs[0]);
    WriteTexts(wide, c, at + elementSize, elementSize, vs[1..])
  }

  function PackAll(t: ScalarType, vs: seq<Value>): Result<seq<byte>> {
    if vs == [] then Ok([]) else
    var a :- Pack(t, vs[0]);
    var rest :- PackAll(t, vs[1..]);
    Ok(a + rest)
  }

  /** `struct.pack_into` of `n` scalars: the right number of values, and room for them. */
  function PackInto(t: ScalarType, n: nat, b: seq<byte>, at: nat, vs: seq<Value>): Result<seq<byte>> {
    if |vs| != n then Err(StructError) else
    var a :- PackAll(t, vs);
    if at + |a| > |b| then Err(StructError) else Ok(Splice(b, at, at + |a|, a))
  }

  function WriteVar(entry: SymbolEntry, structured: bool, b: seq<byte>, at: nat, v: SumValue): Result<seq<byte>> {
    match ShapeOf(entry, structured)
    case RawShape => if v.Raw? then Ok(Splice(b, at, at + entry.size, v.b)) else Err(TypeError)
    case TextShape(wide) => if v.Plain? then WriteText(wide, b, at, v.v) else Err(TypeError)
    case TextsShape(wide, elementSize) =>
      if !v.Plain? then Err(TypeError) else
      var vs :- Elements(v.v);
      WriteTexts(wide, b, at, elementSize, vs)
    case ScalarsShape(t, n) =>
      if !v.Plain? then Err(TypeError) else
      var vs :- Elements(v.v);
      PackInto(t, n, b, at, vs)
    case ScalarShape(t) => if v.Plain? then PackInto(t, 1, b, at, [v.v]) else Err(TypeError)
    case NoShape => Err(KeyError)
  }

  /** A Python dict, in its order. */
  type Items = seq<(string, SumValue)>

  function Keys(items: Items): seq<string> {
    seq(|items|, k requires 0 <= k < |items| => items[k].0)
  }

  function Values(items: Items): seq<SumValue> {
    seq(|items|, k requires 0 <= k < |items| => items[k].1)
  }

  /** The values written in order, the first at `at`. */
  function WriteVars(cols: seq<Column>, vs: seq<SumValue>, b: seq<byte>, at: nat): Result<seq<byte>>
    requires |vs| == |cols|
    decreases |cols|
  {
    if cols == [] then Ok(b) else
    var c :- WriteVar(cols[0].entry, cols[0].structured, b, at, vs[0]);
    WriteVars(cols[1..], vs[1..], c, at + cols[0].entry.size)
  }

  /** The buffer of a sum write. */
  function WriteBuffer(cols: seq<Column>, vs: seq<SumValue>): Result<seq<byte>>
    requires |vs| == |cols|
  {
    WriteVars(cols, vs, Headers(cols) + Zeros(TotalSize(cols)), 12 * |cols|)
  }

  /** `dict(zip(names, descriptions))`: the text of the error word of each name. */
  function Statuses(codes: map<nat, string>, names: seq<string>, i: nat, response: seq<byte>, acc: map<string, string>)
    : Result<map<string, string>>
    requires 4 * (i + |names|) <= |response|
    decreases |names|
  {
    if names == [] then Ok(acc) else
    var word := ErrorWord(response, i);
    if word as nat !in codes then Err(KeyError)
    else Statuses(codes, names[1..], i + 1, response, acc[names[0] := codes[word]])
  }
}
