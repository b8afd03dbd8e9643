/**
 The laws of the structure codec: exact size, round trip, what happens to single nested members, and
 what re-encoding does to a buffer.
 */
module CodecTheorems {
  import opened Wrappers
  import opened Bytes
  import opened Text
  import opened StructureCodec

  // --- well-typed values ---------------------------------------------------------------------------

  function Names(def: seq<Item>): set<string> {
    set k | 0 <= k < |def| :: def[k].name
  }

  predicate TypedElem(ty: PlcType, strLen: Option<nat>, e: Value)
    decreases ty, 0
  {
    match ty
    case StringT => e.TextV? && 0 !in e.s && |e.s| <= StrLen(strLen) + 1
    case WStringT => e.TextV? && 0 !in e.s && |Utf16(e.s)| <= 2 * (StrLen(strLen) + 1)
    case NestedT(def) => e.DictV? && e.m.Keys == Names(def) && TypedMembers(def, e)
    case Unsupported => false
    case ScalarT(t) =>
      if t == BoolT then e.BoolV?
      else if IsFloat(t) then e.FloatV? && |e.bits| == Width(t)
      else e.IntV? && InIntRange(t, e.i)
  }

  predicate TypedElems(ty: PlcType, strLen: Option<nat>, es: seq<Value>)
    decreases ty, 1, |es|
  {
    es == [] || (TypedElem(ty, strLen, es[0]) && TypedElems(ty, strLen, es[1..]))
  }

  /** A member given as a list: every array, and every nested member even when its count is 1. */
  predicate GivenAsList(item: Item) {
    item.ty.NestedT? || item.count != 1
  }

  function Elems(item: Item, v: Value): seq<Value> {
    if GivenAsList(item) then (if v.ListV? then v.vs else []) else [v]
  }

  predicate TypedItem(item: Item, v: Value)
    decreases item, 1
  {
    (GivenAsList(item) ==> v.ListV? && |v.vs| == item.count) && TypedElems(item.ty, item.strLen, Elems(item, v))
  }

  predicate TypedMembers(def: seq<Item>, d: Value)
    decreases def, 2
  {
    d.DictV? && (def == [] || (def[0].name in d.m && TypedItem(def[0], d.m[def[0].name]) && TypedMembers(def[1..], d)))
  }

  /** A value the structure can hold: exactly the members, each of its type, strings that fit, no NUL. */
  predicate Typed(def: seq<Item>, d: Value) {
    d.DictV? && d.m.Keys == Names(def) && TypedMembers(def, d)
  }

  // --- bytes beyond the layout ---------------------------------------------------------------------

  /** How many bytes more than characters the STRING members take in UTF-8. */
  function ExcessElem(ty: PlcType, e: Value): nat
    decreases ty, 0
  {
    match ty
    case StringT => if e.TextV? then (Utf8Length(e.s); |Utf8(e.s)| - |e.s|) else 0
    case NestedT(def) => ExcessMembers(def, e)
    case _ => 0
  }

  function ExcessElems(ty: PlcType, es: seq<Value>): nat
    decreases ty, 1, |es|
  {
    if es == [] then 0 else ExcessElem(ty, es[0]) + ExcessElems(ty, es[1..])
  }

  function ExcessMembers(def: seq<Item>, d: Value): nat
    decreases def, 2
  {
    if def == [] || !d.DictV? then 0 else
    (if def[0].name in d.m then ExcessElems(def[0].ty, Elems(def[0], d.m[def[0].name])) else 0)
    + ExcessMembers(def[1..], d)
  }

  /** A STRING element adds nothing exactly when it is ASCII. */
  lemma ExcessOfString(e: Value)
    requires e.TextV?
    ensures ExcessElem(StringT, e) == 0 <==> Ascii(e.s)
  {
    Utf8Length(e.s);
  }

  predicate AsciiElem(ty: PlcType, e: Value)
    decreases ty, 0
  {
    match ty
    case StringT => e.TextV? ==> Ascii(e.s)
    case NestedT(def) => AsciiMembers(def, e)
    case _ => true
  }

  predicate AsciiElems(ty: PlcType, es: seq<Value>)
    decreases ty, 1, |es|
  {
    es == [] || (AsciiElem(ty, es[0]) && AsciiElems(ty, es[1..]))
  }

  /** Every STRING in the value is ASCII, at every depth. */
  predicate AsciiMembers(def: seq<Item>, d: Value)
    decreases def, 2
  {
    def == [] || !d.DictV?
    || ((def[0].name in d.m ==> AsciiElems(def[0].ty, Elems(def[0], d.m[def[0].name]))) && AsciiMembers(def[1..], d))
  }

  lemma {:induction false} NoExcessElem(ty: PlcType, e: Value)
    ensures ExcessElem(ty, e) == 0 <==> AsciiElem(ty, e)
    decreases ty, 0
  {
    match ty
    case StringT => if e.TextV? { ExcessOfString(e); }
    case NestedT(def) => NoExcessExactly(def, e);
    case _ =>
  }

  lemma {:induction false} NoExcessElems(ty: PlcType, es: seq<Value>)
    ensures ExcessElems(ty, es) == 0 <==> AsciiElems(ty, es)
    decreases ty, 1, |es|
  {
    if es != [] {
      NoExcessElem(ty, es[0]);
      NoExcessElems(ty, es[1..]);
    }
  }

  /** A value takes no byte beyond the layout exactly when all its STRINGs are ASCII. */
  lemma {:induction false} NoExcessExactly(def: seq<Item>, d: Value)
    ensures ExcessMembers(def, d) == 0 <==> AsciiMembers(def, d)
    decreases def, 2
  {
    if def != [] && d.DictV? {
      if def[0].name in d.m {
        NoExcessElems(def[0].ty, Elems(def[0], d.m[def[0].name]));
      }
      NoExcessExactly(def[1..], d);
    }
  }

  // --- what decoding gives back --------------------------------------------------------------------

  /** The value with every nested member of count 1 taken out of its list, at every depth. */
  function DecodedElem(ty: PlcType, e: Value): Value
    decreases ty, 0
  {
    if ty.NestedT? then DictV(DecodedMembers(ty.def, e, map[])) else e
  }

  function DecodedElems(ty: PlcType, es: seq<Value>): (r: seq<Value>)
    ensures |r| == |es|
    decreases ty, 1, |es|
  {
    if es == [] then [] else [DecodedElem(ty, es[0])] + DecodedElems(ty, es[1..])
  }

  function DecodedMembers(def: seq<Item>, d: Value, acc: map<string, Value>): map<string, Value>
    decreases def, 2
  {
    if def == [] || !d.DictV? || def[0].name !in d.m then acc else
    var es := DecodedElems(def[0].ty, Elems(def[0], d.m[def[0].name]));
    DecodedMembers(def[1..], d, acc[def[0].name := Unwrapped(def[0].count, es)])
  }

  function Decoded(def: seq<Item>, d: Value): Value {
    DictV(DecodedMembers(def, d, map[]))
  }

  /** The room for `n` elements. */
  function Slots(size: nat, n: nat): nat {
    if n == 0 then 0 else size + Slots(size, n - 1)
  }

  lemma {:induction false} SlotsIsTimes(size: nat, n: nat)
    ensures Slots(size, n) == size * n
  {
    if n > 0 {
      SlotsIsTimes(size, n - 1);
      assert size * n == size * (n - 1) + size;
    }
  }

  // --- elements ------------------------------------------------------------------------------------

  function EncodeSeq(ty: PlcType, strLen: Option<nat>, es: seq<Value>): Result<seq<byte>> {
    if es == [] then Ok([]) else
    var a :- EncodeElem(ty, strLen, es[0]);
    var rest :- EncodeSeq(ty, strLen, es[1..]);
    Ok(a + rest)
  }

  /** On a well-typed member the encoder's indexing loop goes through its elements in order. */
  lemma {:induction false} EncodeElemsIsSeq(item: Item, v: Value, i: nat)
    requires i <= item.count && item.count == |Elems(item, v)| && (GivenAsList(item) ==> v.ListV?)
    requires !item.ty.Unsupported?
    ensures EncodeElems(item, v, i) == EncodeSeq(item.ty, item.strLen, Elems(item, v)[i..])
    decreases item.count - i
  {
    if i < item.count {
      EncodeElemsIsSeq(item, v, i + 1);
      assert Elems(item, v)[i..][1..] == Elems(item, v)[i + 1..];
      assert Element(item, v, i) == Ok(Elems(item, v)[i]);
    }
  }

  lemma ModulusEven(t: ScalarType)
    ensures Modulus(t) == if Width(t) == 1 then 0x100 else if Width(t) == 2 then 0x1_0000
                          else if Width(t) == 4 then 0x1_0000_0000 else 0x1_0000_0000_0000_0000
  {
    assert Pow256(1) == 256 && Pow256(2) == 65536;
    assert Pow256(4) == 256 * (256 * Pow256(2));
    assert Pow256(6) == 256 * (256 * Pow256(4));
    assert Pow256(8) == 256 * (256 * Pow256(6));
  }

  lemma ScalarRound(t: ScalarType, e: Value)
    requires TypedElem(ScalarT(t), None, e)
    ensures Pack(t, e).Ok? && |Pack(t, e).value| == Width(t) && Unpack(t, Pack(t, e).value) == Ok(e)
  {
    if t != BoolT && !IsFloat(t) {
      ModulusEven(t);
      UnLEOfLE(if e.i < 0 then e.i + Modulus(t) else e.i, Width(t));
    }
  }

  lemma StringRound(strLen: Option<nat>, e: Value)
    requires TypedElem(StringT, strLen, e)
    ensures var r := EncodeElem(StringT, strLen, e);
            && r.Ok? && |r.value| == StrLen(strLen) + 1 + ExcessElem(StringT, e)
            && (ExcessElem(StringT, e) == 0 ==> DecodeElem(StringT, strLen, r.value) == Ok(e))
  {
    Utf8Length(e.s);
    Utf8RoundTrip(e.s);
    BeforeZeroOfPadded(Utf8(e.s), StrLen(strLen) + 1 - |e.s|);
  }

  lemma WStringRound(strLen: Option<nat>, e: Value)
    requires TypedElem(WStringT, strLen, e)
    ensures var r := EncodeElem(WStringT, strLen, e);
            r.Ok? && |r.value| == 2 * (StrLen(strLen) + 1) && DecodeElem(WStringT, strLen, r.value) == Ok(e)
  {
    hide Utf16Decode, BeforeWideNull;
    Utf16NoNull(e.s);
    Utf16RoundTrip(e.s);
    var pad := 2 * (StrLen(strLen) + 1) - |Utf16(e.s)|;
    WideNullOfPadded(Utf16(e.s), pad);
    assert EncodeElem(WStringT, strLen, e) == Ok(Utf16(e.s) + Zeros(pad));
  }

  /** Encoding one element takes its slot plus its excess; with no excess it decodes back. */
  lemma {:induction false} ElemRound(ty: PlcType, strLen: Option<nat>, e: Value)
    requires TypedElem(ty, strLen, e) && ElemSize(ty, strLen).Ok?
    ensures var r := EncodeElem(ty, strLen, e);
            && r.Ok? && |r.value| == ElemSize(ty, strLen).value + ExcessElem(ty, e)
            && (ExcessElem(ty, e) == 0 ==> DecodeElem(ty, strLen, r.value) == Ok(DecodedElem(ty, e)))
    decreases ty, 0
  {
    match ty
    case StringT => StringRound(strLen, e);
    case WStringT => WStringRound(strLen, e);
    case NestedT(def) =>
      MembersRound(def, e, [], map[]);
      var a := EncodeDict(def, e).value;
      assert EncodeAll(def, [e]) == Ok(a) by { assert [e][1..] == [] && a + [] == a; }
    case ScalarT(t) => ScalarRound(t, e);
  }

  /** Decoding a run of elements takes the first slot and goes on behind it. */
  lemma DecodeFirst(ty: PlcType, strLen: Option<nat>, n: nat, a: seq<byte>, rest: seq<byte>)
    requires n > 0 && ElemSize(ty, strLen) == Ok(|a|)
    requires DecodeElem(ty, strLen, a).Ok? && DecodeElems(ty, strLen, n - 1, rest).Ok?
    ensures DecodeElems(ty, strLen, n, a + rest) ==
            Ok(([DecodeElem(ty, strLen, a).value] + DecodeElems(ty, strLen, n - 1, rest).value.0,
                DecodeElems(ty, strLen, n - 1, rest).value.1))
  {
    TakeDropConcat(a, rest);
  }

  /** A run of elements encodes to `a` with `excess` bytes too many, and with none decodes to `out`. */
  ghost predicate RunRound(
    ty: PlcType, strLen: Option<nat>, es: seq<Value>, rest: seq<byte>, a: seq<byte>, excess: nat, out: seq<Value>)
  {
    && ElemSize(ty, strLen).Ok? && EncodeSeq(ty, strLen, es) == Ok(a)
    && |a| == Slots(ElemSize(ty, strLen).value, |es|) + excess
    && (excess == 0 ==> DecodeElems(ty, strLen, |es|, a + rest) == Ok((out, rest)))
  }

  lemma EncodeCons(ty: PlcType, strLen: Option<nat>, es: seq<Value>, a: seq<byte>, b: seq<byte>)
    requires es != [] && EncodeElem(ty, strLen, es[0]) == Ok(a) && EncodeSeq(ty, strLen, es[1..]) == Ok(b)
    ensures EncodeSeq(ty, strLen, es) == Ok(a + b)
  {
  }

  lemma RunCons(
    ty: PlcType, strLen: Option<nat>, es: seq<Value>, rest: seq<byte>, a: seq<byte>, x: nat, e: Value,
    b: seq<byte>, y: nat, out: seq<Value>)
    requires es != [] && EncodeElem(ty, strLen, es[0]) == Ok(a)
    requires ElemSize(ty, strLen).Ok? && |a| == ElemSize(ty, strLen).value + x
    requires x == 0 ==> DecodeElem(ty, strLen, a) == Ok(e)
    requires RunRound(ty, strLen, es[1..], rest, b, y, out)
    ensures RunRound(ty, strLen, es, rest, a + b, x + y, [e] + out)
  {
    hide ElemSize, EncodeElem, DecodeElem, EncodeSeq, DecodeElems;
    EncodeCons(ty, strLen, es, a, b);
    var size := ElemSize(ty, strLen).value;
    assert Slots(size, |es|) == size + Slots(size, |es| - 1) && |es[1..]| == |es| - 1;
    if x + y == 0 {
      assert (a + b) + rest == a + (b + rest);
      DecodeFirst(ty, strLen, |es|, a, b + rest);
    }
  }

  lemma {:induction false} ElemsRound(ty: PlcType, strLen: Option<nat>, es: seq<Value>, rest: seq<byte>)
    requires TypedElems(ty, strLen, es) && ElemSize(ty, strLen).Ok?
    ensures EncodeSeq(ty, strLen, es).Ok?
    ensures RunRound(ty, strLen, es, rest, EncodeSeq(ty, strLen, es).value, ExcessElems(ty, es), DecodedElems(ty, es))
    decreases ty, 1, |es|
  {
    if es == [] {
      assert [] + rest == rest;
    } else {
      ElemRound(ty, strLen, es[0]);
      ElemsRound(ty, strLen, es[1..], rest);
      RunCons(ty, strLen, es, rest, EncodeElem(ty, strLen, es[0]).value, ExcessElem(ty, es[0]), DecodedElem(ty, es[0]),
              EncodeSeq(ty, strLen, es[1..]).value, ExcessElems(ty, es[1..]), DecodedElems(ty, es[1..]));
    }
  }

  lemma {:induction false} MembersRound(def: seq<Item>, d: Value, rest: seq<byte>, acc: map<string, Value>)
    requires TypedMembers(def, d) && SizeOf(def).Ok?
    ensures var r := EncodeDict(def, d);
            && r.Ok? && |r.value| == SizeOf(def).value + ExcessMembers(def, d)
            && (ExcessMembers(def, d) == 0 ==>
                  DecodeDict(def, r.value + rest, acc) == Ok((DecodedMembers(def, d, acc), rest)))
    decreases def, 2
  {
    if def == [] {
      assert [] + rest == rest;
    } else {
      var item := def[0];
      var v := d.m[item.name];
      var es := Elems(item, v);
      EncodeElemsIsSeq(item, v, 0);
      assert es[0..] == es;
      var next := acc[item.name := Unwrapped(item.count, DecodedElems(item.ty, es))];
      MembersRound(def[1..], d, rest, next);
      var b := EncodeDict(def[1..], d).value;
      ElemsRound(item.ty, item.strLen, es, b + rest);
      SlotsIsTimes(ElemSize(item.ty, item.strLen).value, item.count);
      var a := EncodeSeq(item.ty, item.strLen, es).value;
      assert (a + b) + rest == a + (b + rest);
    }
  }

  // --- exact size ----------------------------------------------------------------------------------

  /**
   Exact layout size: the encoder emits the layout size plus one byte for every UTF-8 byte beyond the
   number of characters, so the size is right if and only if every STRING is ASCII. The decoder then
   consumes exactly the layout size.
   */
  lemma ExactSize(def: seq<Item>, d: Value, rest: seq<byte>)
    requires Typed(def, d) && SizeOf(def).Ok?
    ensures var r := Encode(def, d);
            && r.Ok? && |r.value| == SizeOf(def).value + ExcessMembers(def, d)
            && (|r.value| == SizeOf(def).value <==> AsciiMembers(def, d))
            && (AsciiMembers(def, d) ==>
                  DecodeDict(def, r.value + rest, map[]).Ok? && DecodeDict(def, r.value + rest, map[]).value.1 == rest)
  {
    NoExcessExactly(def, d);
    MembersRound(def, d, rest, map[]);
    var a := EncodeDict(def, d).value;
    assert EncodeAll(def, [d]) == Ok(a) by { assert [d][1..] == [] && a + [] == a; }
  }

  lemma {:induction false} SizeOfConcat(a: seq<Item>, b: seq<Item>)
    requires SizeOf(a).Ok? && SizeOf(b).Ok?
    ensures SizeOf(a + b) == Ok(SizeOf(a).value + SizeOf(b).value)
  {
    if a == [] {
      assert a + b == b;
    } else {
      assert (a + b)[1..] == a[1..] + b;
      SizeOfConcat(a[1..], b);
    }
  }

  /** `structure_def * n`. */
  function Times(def: seq<Item>, n: nat): seq<Item> {
    if n == 0 then [] else def + Times(def, n - 1)
  }

  /** The by-name calls size an array of structures by repeating the definition: n times the size of one. */
  lemma SizeOfRepeated(def: seq<Item>, n: nat)
    requires SizeOf(def).Ok?
    ensures SizeOf(Times(def, n)) == Ok(SizeOf(def).value * n)
  {
    SlotsIsTimes(SizeOf(def).value, n);
    SizeOfRepeatedSlots(def, n);
  }

  lemma {:induction false} SizeOfRepeatedSlots(def: seq<Item>, n: nat)
    requires SizeOf(def).Ok?
    ensures SizeOf(Times(def, n)) == Ok(Slots(SizeOf(def).value, n))
  {
    if n > 0 {
      SizeOfRepeatedSlots(def, n - 1);
      SizeOfConcat(def, Times(def, n - 1));
    }
  }

  // --- round trip ----------------------------------------------------------------------------------

  /** A nested member of count 1 that the decoder will come across. */
  predicate SingleIn(ty: PlcType)
    decreases ty, 0
  {
    ty.NestedT? && HasSingle(ty.def)
  }

  predicate HasSingle(def: seq<Item>)
    decreases def, 1
  {
    def != []
    && ((def[0].ty.NestedT? && def[0].count == 1) || (def[0].count > 0 && SingleIn(def[0].ty)) || HasSingle(def[1..]))
  }

  lemma {:induction false} DecodedElemSame(ty: PlcType, strLen: Option<nat>, e: Value)
    requires TypedElem(ty, strLen, e) && !SingleIn(ty)
    ensures DecodedElem(ty, e) == e
    decreases ty, 0
  {
    if ty.NestedT? {
      DecodedMembersSame(ty.def, e, map[]);
      MapsAgree(DecodedMembers(ty.def, e, map[]), e.m, Names(ty.def));
    }
  }

  lemma MapsAgree(a: map<string, Value>, b: map<string, Value>, names: set<string>)
    requires a.Keys == names && b.Keys == names && forall k | k in names :: a[k] == b[k]
    ensures a == b
  {
  }

  lemma {:induction false} DecodedElemsSame(ty: PlcType, strLen: Option<nat>, es: seq<Value>)
    requires TypedElems(ty, strLen, es) && (es != [] ==> !SingleIn(ty))
    ensures DecodedElems(ty, es) == es
    decreases ty, 1, |es|
  {
    if es != [] {
      DecodedElemSame(ty, strLen, es[0]);
      DecodedElemsSame(ty, strLen, es[1..]);
    }
  }

  lemma {:induction false} DecodedMembersSame(def: seq<Item>, d: Value, acc: map<string, Value>)
    requires TypedMembers(def, d) && !HasSingle(def)
    ensures var m := DecodedMembers(def, d, acc);
            && m.Keys == acc.Keys + Names(def)
            && (forall k | k in m :: if k in Names(def) then k in d.m && m[k] == d.m[k] else k in acc && m[k] == acc[k])
    decreases def, 2
  {
    if def != [] {
      var item := def[0];
      var v := d.m[item.name];
      DecodedElemsSame(item.ty, item.strLen, Elems(item, v));
      assert Unwrapped(item.count, Elems(item, v)) == v;
      DecodedMembersSame(def[1..], d, acc[item.name := v]);
      assert Names(def) == {item.name} + Names(def[1..]) by { NamesOfTail(def); }
    }
  }

  lemma NamesOfTail(def: seq<Item>)
    requires def != []
    ensures Names(def) == {def[0].name} + Names(def[1..])
  {
    assert forall k | 0 <= k < |def| - 1 :: def[1..][k] == def[k + 1];
    forall n | n in Names(def) ensures n in {def[0].name} + Names(def[1..]) {
      var k :| 0 <= k < |def| && def[k].name == n;
      if k > 0 { assert def[1..][k - 1].name == n; }
    }
  }

  /**
   Round trip, for every definition: decoding the encoding of a well-typed value with ASCII STRINGs
   gives the value back, except that nested members of count 1 come out of their lists. When the
   definition has none, the value itself comes back.
   */
  lemma RoundTrip(def: seq<Item>, d: Value)
    requires Typed(def, d) && SizeOf(def).Ok? && AsciiMembers(def, d)
    ensures Encode(def, d).Ok? && Decode(def, Encode(def, d).value, 1) == Ok(Decoded(def, d))
    ensures !HasSingle(def) ==> Decoded(def, d) == d
  {
    ExactSize(def, d, []);
    NoExcessExactly(def, d);
    var a := Encode(def, d).value;
    MembersRound(def, d, [], map[]);
    assert EncodeDict(def, d) == Ok(a) by { assert [d][1..] == []; assert forall x: seq<byte> :: x + [] == x; }
    assert a + [] == a;
    assert DecodeMany(def, 0, []) == Ok(([], []));
    if !HasSingle(def) {
      DecodedSame(def, d);
    }
  }

  predicate EachTyped(def: seq<Item>, ds: seq<Value>) {
    forall k | 0 <= k < |ds| :: Typed(def, ds[k])
  }

  predicate EachAscii(def: seq<Item>, ds: seq<Value>) {
    forall k | 0 <= k < |ds| :: AsciiMembers(def, ds[k])
  }

  function DecodedAll(def: seq<Item>, ds: seq<Value>): seq<Value> {
    seq(|ds|, k requires 0 <= k < |ds| => Decoded(def, ds[k]))
  }

  function ExcessAll(def: seq<Item>, ds: seq<Value>): nat {
    if ds == [] then 0 else ExcessMembers(def, ds[0]) + ExcessAll(def, ds[1..])
  }

  lemma {:induction false} NoExcessAll(def: seq<Item>, ds: seq<Value>)
    ensures ExcessAll(def, ds) == 0 <==> EachAscii(def, ds)
  {
    hide ExcessMembers, AsciiMembers;
    if ds != [] {
      NoExcessExactly(def, ds[0]);
      NoExcessAll(def, ds[1..]);
      assert forall k | 0 < k < |ds| :: ds[k] == ds[1..][k - 1];
    }
  }

  /** One structure in front of others takes its size and its excess; ASCII decodes to what it stands for. */
  lemma FirstOfMany(def: seq<Item>, d: Value, rest: seq<byte>)
    requires Typed(def, d) && SizeOf(def).Ok?
    ensures EncodeDict(def, d).Ok? && |EncodeDict(def, d).value| == SizeOf(def).value + ExcessMembers(def, d)
    ensures AsciiMembers(def, d) ==>
              DecodeDict(def, EncodeDict(def, d).value + rest, map[]) == Ok((Decoded(def, d).m, rest))
  {
    NoExcessExactly(def, d);
    MembersRound(def, d, rest, map[]);
  }

  lemma EncodeAllCons(def: seq<Item>, ds: seq<Value>, a: seq<byte>, b: seq<byte>)
    requires ds != [] && EncodeDict(def, ds[0]) == Ok(a) && EncodeAll(def, ds[1..]) == Ok(b)
    ensures EncodeAll(def, ds) == Ok(a + b)
  {
  }

  lemma DecodeManyCons(def: seq<Item>, ds: seq<Value>, b: seq<byte>, mid: seq<byte>, rest: seq<byte>)
    requires ds != [] && ds[0].DictV? && DecodeDict(def, b, map[]) == Ok((ds[0].m, mid))
    requires DecodeMany(def, |ds| - 1, mid) == Ok((ds[1..], rest))
    ensures DecodeMany(def, |ds|, b) == Ok((ds, rest))
  {
    assert [DictV(ds[0].m)] + ds[1..] == ds;
  }

  lemma {:induction false} ManyRound(def: seq<Item>, ds: seq<Value>, rest: seq<byte>)
    requires EachTyped(def, ds) && SizeOf(def).Ok?
    ensures EncodeAll(def, ds).Ok? && |EncodeAll(def, ds).value| == Slots(SizeOf(def).value, |ds|) + ExcessAll(def, ds)
    ensures EachAscii(def, ds) ==>
              DecodeMany(def, |ds|, EncodeAll(def, ds).value + rest) == Ok((DecodedAll(def, ds), rest))
  {
    hide EncodeDict, DecodeDict, SizeOf, AsciiMembers, ExcessMembers, Typed;
    if ds == [] {
      assert [] + rest == rest;
    } else {
      ManyRound(def, ds[1..], rest);
      var b := EncodeAll(def, ds[1..]).value;
      FirstOfMany(def, ds[0], b + rest);
      var a := EncodeDict(def, ds[0]).value;
      EncodeAllCons(def, ds, a, b);
      if EachAscii(def, ds) {
        assert (a + b) + rest == a + (b + rest);
        assert DecodedAll(def, ds)[1..] == DecodedAll(def, ds[1..]);
        DecodeManyCons(def, DecodedAll(def, ds), a + (b + rest), b + rest, rest);
      }
    }
  }

  /**
   An array of n structures takes n times the size, if and only if all its STRINGs are ASCII, and then
   comes back as the list of what its elements decode to; for n = 1 it comes back bare.
   */
  lemma ArrayRoundTrip(def: seq<Item>, ds: seq<Value>)
    requires EachTyped(def, ds) && SizeOf(def).Ok?
    ensures var r := Encode(def, ListV(ds));
            && r.Ok? && |r.value| == SizeOf(def).value * |ds| + ExcessAll(def, ds)
            && (|r.value| == SizeOf(def).value * |ds| <==> EachAscii(def, ds))
            && (EachAscii(def, ds) ==> Decode(def, r.value, |ds|) == Ok(Unwrapped(|ds|, DecodedAll(def, ds))))
    ensures !HasSingle(def) ==> DecodedAll(def, ds) == ds
  {
    ManyRound(def, ds, []);
    NoExcessAll(def, ds);
    SlotsIsTimes(SizeOf(def).value, |ds|);
    var a := EncodeAll(def, ds).value;
    assert a + [] == a;
    if !HasSingle(def) {
      forall k | 0 <= k < |ds|
        ensures Decoded(def, ds[k]) == ds[k]
      {
        DecodedSame(def, ds[k]);
      }
    }
  }

  lemma DecodedSame(def: seq<Item>, d: Value)
    requires Typed(def, d) && !HasSingle(def)
    ensures Decoded(def, d) == d
  {
    DecodedMembersSame(def, d, map[]);
    MapsAgree(DecodedMembers(def, d, map[]), d.m, Names(def));
  }

  // --- single nested members -----------------------------------------------------------------------

  predicate DistinctDef(ty: PlcType)
    decreases ty, 0
  {
    ty.NestedT? ==> DistinctNames(ty.def)
  }

  /** Member names are distinct, at every depth. */
  predicate DistinctNames(def: seq<Item>)
    decreases def, 1
  {
    def == [] || (def[0].name !in Names(def[1..]) && DistinctDef(def[0].ty) && DistinctNames(def[1..]))
  }

  /** What the decoder stores for one member. */
  function DecodedItem(item: Item, d: Value): Value
    requires d.DictV? && item.name in d.m
  {
    Unwrapped(item.count, DecodedElems(item.ty, Elems(item, d.m[item.name])))
  }

  ghost predicate HoldsDecoded(def: seq<Item>, d: Value, out: Value) {
    && d.DictV? && out.DictV?
    && forall k | 0 <= k < |def| ::
         def[k].name in d.m && def[k].name in out.m && out.m[def[k].name] == DecodedItem(def[k], d)
  }

  lemma {:induction false} DecodedHolds(def: seq<Item>, d: Value, acc: map<string, Value>)
    requires TypedMembers(def, d) && DistinctNames(def)
    ensures HoldsDecoded(def, d, DictV(DecodedMembers(def, d, acc)))
    ensures forall n | n in acc && n !in Names(def) ::
              n in DecodedMembers(def, d, acc) && DecodedMembers(def, d, acc)[n] == acc[n]
    decreases |def|
  {
    if def != [] {
      var next := acc[def[0].name := DecodedItem(def[0], d)];
      DecodedHolds(def[1..], d, next);
      NamesOfTail(def);
      assert forall k | 1 <= k < |def| :: def[k] == def[1..][k - 1];
    }
  }

  /**
   The limit of the round trip: what the decoder hands out for a definition with a nested member of
   count 1 cannot be encoded again, because the encoder looks that member up with an integer index.
   */
  lemma {:induction false} SingleBreaksReencoding(def: seq<Item>, d: Value)
    requires TypedMembers(def, d) && HasSingle(def) && DistinctNames(def)
    ensures EncodeDict(def, Decoded(def, d)).Err?
    decreases def, 2
  {
    DecodedHolds(def, d, map[]);
    SingleBreaksFrom(def, d, Decoded(def, d));
  }

  lemma {:induction false} SingleBreaksFrom(def: seq<Item>, d: Value, out: Value)
    requires TypedMembers(def, d) && HasSingle(def) && DistinctNames(def) && HoldsDecoded(def, d, out)
    ensures EncodeDict(def, out).Err?
    decreases def, 1
  {
    var item := def[0];
    var es := Elems(item, d.m[item.name]);
    assert out.m[item.name] == DecodedItem(item, d);
    if item.ty.NestedT? && item.count == 1 {
      assert DecodedItem(item, d) == DecodedElem(item.ty, es[0]);
      assert Element(item, out.m[item.name], 0) == Err(KeyError);
    } else if item.count > 0 && SingleIn(item.ty) {
      assert TypedItem(item, d.m[item.name]);
      assert TypedElems(item.ty, item.strLen, es) && es != [];
      assert TypedElem(item.ty, item.strLen, es[0]) && DistinctDef(item.ty);
      SingleBreaksReencoding(item.ty.def, es[0]);
      assert DecodedElems(item.ty, es)[0] == DecodedElem(item.ty, es[0]);
      var inner := Decoded(item.ty.def, es[0]);
      assert Element(item, out.m[item.name], 0) == Ok(inner);
      assert EncodeAll(item.ty.def, [inner]).Err?;
      assert EncodeElem(item.ty, item.strLen, inner).Err?;
    } else {
      assert forall k | 0 <= k < |def| - 1 :: def[1..][k] == def[k + 1];
      SingleBreaksFrom(def[1..], d, out);
    }
  }

  /** Exactly: a well-typed ASCII value survives decode-then-encode if and only if no member is a single nested one. */
  lemma ReencodableExactly(def: seq<Item>, d: Value)
    requires Typed(def, d) && SizeOf(def).Ok? && AsciiMembers(def, d) && DistinctNames(def)
    ensures Encode(def, Decoded(def, d)).Ok? <==> !HasSingle(def)
    ensures !HasSingle(def) ==> Encode(def, Decoded(def, d)) == Encode(def, d)
  {
    RoundTrip(def, d);
    if HasSingle(def) {
      SingleBreaksReencoding(def, d);
    }
  }

  // --- re-encoding a buffer ------------------------------------------------------------------------

  /** One slot with everything after a string's terminator zeroed. */
  function CanonElem(ty: PlcType, strLen: Option<nat>, w: seq<byte>): (r: seq<byte>)
    ensures ty.StringT? || ty.WStringT? ==> |r| == |w|
    decreases ty, 0
  {
    match ty
    case StringT => BeforeZeroIsPrefix(w); BeforeZero(w) + Zeros(|w| - |BeforeZero(w)|)
    case WStringT => BeforeWideNull(w) + Zeros(|w| - |BeforeWideNull(w)|)
    case NestedT(def) => CanonMembers(def, w)
    case _ => w
  }

  function CanonElems(ty: PlcType, strLen: Option<nat>, n: nat, b: seq<byte>): seq<byte>
    decreases ty, 1, n
  {
    if n == 0 || ElemSize(ty, strLen).Err? then [] else
    var size := ElemSize(ty, strLen).value;
    CanonElem(ty, strLen, Take(b, size)) + CanonElems(ty, strLen, n - 1, Drop(b, size))
  }

  /** The buffer of a structure with the bytes after every string terminator zeroed. */
  function CanonMembers(def: seq<Item>, b: seq<byte>): seq<byte>
    decreases def, 2
  {
    if def == [] || ElemSize(def[0].ty, def[0].strLen).Err? then [] else
    var size := ElemSize(def[0].ty, def[0].strLen).value;
    CanonElems(def[0].ty, def[0].strLen, def[0].count, b) + CanonMembers(def[1..], Drop(b, Slots(size, def[0].count)))
  }

  /** A slot the decoder reads as it was meant: ASCII strings, well-formed wide strings, 0/1 booleans. */
  predicate CleanElem(ty: PlcType, strLen: Option<nat>, w: seq<byte>)
    decreases ty, 0
  {
    match ty
    case StringT => forall k | 0 <= k < |BeforeZero(w)| :: BeforeZero(w)[k] < 128
    case WStringT => Utf16Decode(BeforeWideNull(w)).Ok?
    case NestedT(def) => CleanMembers(def, w)
    case ScalarT(t) => t == BoolT ==> w != [] && w[0] < 2
    case Unsupported => false
  }

  predicate CleanElems(ty: PlcType, strLen: Option<nat>, n: nat, b: seq<byte>)
    decreases ty, 1, n
  {
    n == 0 || (ElemSize(ty, strLen).Ok?
               && CleanElem(ty, strLen, Take(b, ElemSize(ty, strLen).value))
               && CleanElems(ty, strLen, n - 1, Drop(b, ElemSize(ty, strLen).value)))
  }

  predicate CleanMembers(def: seq<Item>, b: seq<byte>)
    decreases def, 2
  {
    def == [] || (ElemSize(def[0].ty, def[0].strLen).Ok?
                  && CleanElems(def[0].ty, def[0].strLen, def[0].count, b)
                  && CleanMembers(def[1..], Drop(b, Slots(ElemSize(def[0].ty, def[0].strLen).value, def[0].count))))
  }

  lemma ScalarBack(t: ScalarType, w: seq<byte>)
    requires |w| == Width(t) && (t == BoolT ==> w[0] < 2)
    ensures Unpack(t, w).Ok? && Pack(t, Unpack(t, w).value) == Ok(w)
  {
    hide UnLE, LE, Pow256;
    ModulusEven(t);
    LEOfUnLE(w);
    if t == BoolT { assert w == [w[0]]; }
  }

  /** ASCII bytes are the text they decode to. */
  lemma AsciiText(b: seq<byte>) returns (s: text)
    requires forall k | 0 <= k < |b| :: b[k] < 128
    ensures s == b && Utf8Decode(b) == Ok(s) && Utf8(s) == b
  {
    Utf8DecodeAscii(b);
    s := Utf8Decode(b).value;
    Utf8Length(s);
  }

  lemma StringBack(strLen: Option<nat>, w: seq<byte>)
    requires |w| == StrLen(strLen) + 1 && CleanElem(StringT, strLen, w)
    ensures var r := DecodeElem(StringT, strLen, w);
            r.Ok? && EncodeElem(StringT, strLen, r.value) == Ok(CanonElem(StringT, strLen, w))
  {
    var s := AsciiText(BeforeZero(w));
    assert DecodeElem(StringT, strLen, w) == Ok(TextV(s));
    assert |s| == |BeforeZero(w)|;
  }

  lemma WStringBack(strLen: Option<nat>, w: seq<byte>)
    requires |w| == 2 * (StrLen(strLen) + 1) && CleanElem(WStringT, strLen, w)
    ensures var r := DecodeElem(WStringT, strLen, w);
            r.Ok? && EncodeElem(WStringT, strLen, r.value) == Ok(CanonElem(WStringT, strLen, w))
  {
    hide Utf16, Utf16Decode, BeforeWideNull;
    Utf16OfDecoded(BeforeWideNull(w));
  }

  lemma {:induction false} ElemBack(ty: PlcType, strLen: Option<nat>, w: seq<byte>)
    requires ElemSize(ty, strLen).Ok? && |w| == ElemSize(ty, strLen).value && CleanElem(ty, strLen, w)
    requires !SingleIn(ty) && DistinctDef(ty)
    ensures var r := DecodeElem(ty, strLen, w);
            r.Ok? && EncodeElem(ty, strLen, r.value) == Ok(CanonElem(ty, strLen, w))
    decreases ty, 0
  {
    match ty
    case StringT => StringBack(strLen, w);
    case WStringT => WStringBack(strLen, w);
    case ScalarT(t) => ScalarBack(t, w);
    case NestedT(def) =>
      MembersDecode(def, w, map[]);
      MembersHaveNames(def, w, map[]);
      var m := DecodeDict(def, w, map[]).value.0;
      MembersBack(def, w, map[], DictV(m));
      var a := EncodeDict(def, DictV(m)).value;
      assert EncodeAll(def, [DictV(m)]) == Ok(a) by { assert [DictV(m)][1..] == [] && a + [] == a; }
  }

  lemma {:induction false} ElemsBack(ty: PlcType, strLen: Option<nat>, n: nat, b: seq<byte>)
    requires ElemSize(ty, strLen).Ok? && |b| >= Slots(ElemSize(ty, strLen).value, n) && CleanElems(ty, strLen, n, b)
    requires n > 0 ==> !SingleIn(ty) && DistinctDef(ty)
    ensures var r := DecodeElems(ty, strLen, n, b);
            && r.Ok? && |r.value.0| == n && r.value.1 == Drop(b, Slots(ElemSize(ty, strLen).value, n))
            && EncodeSeq(ty, strLen, r.value.0) == Ok(CanonElems(ty, strLen, n, b))
    decreases ty, 1, n
  {
    hide ElemSize, SingleIn, DistinctDef, DecodeElem, EncodeElem, CanonElem, CleanElem;
    if n > 0 {
      var size := ElemSize(ty, strLen).value;
      ElemBack(ty, strLen, Take(b, size));
      ElemsBack(ty, strLen, n - 1, Drop(b, size));
      DropDrop(b, size, Slots(size, n - 1));
      var es := DecodeElems(ty, strLen, n, b).value.0;
      assert es[1..] == DecodeElems(ty, strLen, n - 1, Drop(b, size)).value.0;
    }
  }

  /** Decoding the first member and re-encoding it from any dictionary that holds what was decoded. */
  lemma ItemBack(item: Item, b: seq<byte>, out: Value)
    requires ElemSize(item.ty, item.strLen).Ok?
    requires DecodeElems(item.ty, item.strLen, item.count, b).Ok?
    requires |DecodeElems(item.ty, item.strLen, item.count, b).value.0| == item.count
    requires item.ty.NestedT? ==> item.count != 1
    requires out == Unwrapped(item.count, DecodeElems(item.ty, item.strLen, item.count, b).value.0)
    ensures EncodeElems(item, out, 0) == EncodeSeq(item.ty, item.strLen, DecodeElems(item.ty, item.strLen, item.count, b).value.0)
  {
    var es := DecodeElems(item.ty, item.strLen, item.count, b).value.0;
    assert Elems(item, out) == es && es[0..] == es;
    EncodeElemsIsSeq(item, out, 0);
  }

  /** Decoding a clean structure succeeds, uses up its size and keeps what it does not overwrite. */
  lemma {:induction false} MembersDecode(def: seq<Item>, b: seq<byte>, acc: map<string, Value>)
    requires SizeOf(def).Ok? && |b| >= SizeOf(def).value && CleanMembers(def, b)
    requires !HasSingle(def) && DistinctNames(def)
    ensures var r := DecodeDict(def, b, acc);
            && r.Ok? && r.value.1 == Drop(b, SizeOf(def).value)
            && (forall n | n in acc && n !in Names(def) :: n in r.value.0 && r.value.0[n] == acc[n])
    decreases def, 2
  {
    hide EncodeSeq, DecodeElems, CleanElems, CanonElems;
    if def != [] {
      var item := def[0];
      var span := Slots(ElemSize(item.ty, item.strLen).value, item.count);
      SlotsIsTimes(ElemSize(item.ty, item.strLen).value, item.count);
      ElemsBack(item.ty, item.strLen, item.count, b);
      var v := Unwrapped(item.count, DecodeElems(item.ty, item.strLen, item.count, b).value.0);
      MembersDecode(def[1..], Drop(b, span), acc[item.name := v]);
      DropDrop(b, span, SizeOf(def[1..]).value);
      NamesOfTail(def);
    }
  }

  /** A dictionary that holds what was decoded encodes to the canonical bytes. */
  lemma {:induction false} MembersBack(def: seq<Item>, b: seq<byte>, acc: map<string, Value>, out: Value)
    requires SizeOf(def).Ok? && |b| >= SizeOf(def).value && CleanMembers(def, b)
    requires !HasSingle(def) && DistinctNames(def)
    requires out.DictV? && DecodeDict(def, b, acc).Ok? && Covers(DecodeDict(def, b, acc).value.0, out.m, Names(def))
    ensures EncodeDict(def, out) == Ok(CanonMembers(def, b))
    decreases def, 2
  {
    hide EncodeSeq, DecodeElems, CleanElems, CanonElems;
    if def != [] {
      var item := def[0];
      var span := Slots(ElemSize(item.ty, item.strLen).value, item.count);
      SlotsIsTimes(ElemSize(item.ty, item.strLen).value, item.count);
      ElemsBack(item.ty, item.strLen, item.count, b);
      var v := Unwrapped(item.count, DecodeElems(item.ty, item.strLen, item.count, b).value.0);
      var next := acc[item.name := v];
      NamesOfTail(def);
      MembersDecode(def[1..], Drop(b, span), next);
      MembersBack(def[1..], Drop(b, span), next, out);
      assert item.name in Names(def) && Member(out, item.name) == Ok(v);
      ItemBack(item, b, v);
    }
  }

  /** The two dictionaries agree on the names. */
  ghost predicate Covers(a: map<string, Value>, b: map<string, Value>, names: set<string>) {
    forall n | n in names :: n in a && n in b && a[n] == b[n]
  }

  /** The buffer of `n` structures with the bytes after every string terminator zeroed. */
  function CanonMany(def: seq<Item>, n: nat, b: seq<byte>): seq<byte>
    requires SizeOf(def).Ok?
  {
    if n == 0 then [] else CanonMembers(def, b) + CanonMany(def, n - 1, Drop(b, SizeOf(def).value))
  }

  predicate CleanMany(def: seq<Item>, n: nat, b: seq<byte>)
    requires SizeOf(def).Ok?
  {
    n == 0 || (CleanMembers(def, b) && CleanMany(def, n - 1, Drop(b, SizeOf(def).value)))
  }

  /** The first of the structures: it decodes, and re-encodes to its own canonical bytes. */
  lemma FirstBack(def: seq<Item>, b: seq<byte>)
    requires SizeOf(def).Ok? && |b| >= SizeOf(def).value && CleanMembers(def, b)
    requires !HasSingle(def) && DistinctNames(def)
    ensures DecodeDict(def, b, map[]).Ok?
    ensures var (m, rest) := DecodeDict(def, b, map[]).value;
            rest == Drop(b, SizeOf(def).value) && EncodeDict(def, DictV(m)) == Ok(CanonMembers(def, b))
  {
    MembersDecode(def, b, map[]);
    MembersHaveNames(def, b, map[]);
    var m := DecodeDict(def, b, map[]).value.0;
    MembersBack(def, b, map[], DictV(m));
  }

  lemma {:induction false} ManyBack(def: seq<Item>, n: nat, b: seq<byte>)
    requires SizeOf(def).Ok? && |b| >= Slots(SizeOf(def).value, n) && CleanMany(def, n, b)
    requires !HasSingle(def) && DistinctNames(def)
    ensures DecodeMany(def, n, b).Ok?
    ensures var ds := DecodeMany(def, n, b).value.0;
            && |ds| == n && EncodeAll(def, ds) == Ok(CanonMany(def, n, b))
            && forall k | 0 <= k < n :: ds[k].DictV?
  {
    hide SizeOf, CleanMembers, CanonMembers, DecodeDict, EncodeDict, HasSingle, DistinctNames;
    if n > 0 {
      FirstBack(def, b);
      var r := DecodeDict(def, b, map[]).value;
      ManyBack(def, n - 1, r.1);
      var rest := DecodeMany(def, n - 1, r.1).value.0;
      var ds := DecodeMany(def, n, b).value.0;
      assert ds == [DictV(r.0)] + rest && ds[1..] == rest;
      EncodeAllCons(def, ds, CanonMembers(def, b), CanonMany(def, n - 1, r.1));
    }
  }

  /**
   Re-encoding canonicalises: for a clean buffer of `n` structures, encoding what was decoded gives the
   same buffer with only the bytes after each string terminator zeroed.
   */
  lemma ReencodingCanonicalises(def: seq<Item>, b: seq<byte>, n: nat)
    requires SizeOf(def).Ok? && |b| == Slots(SizeOf(def).value, n) && CleanMany(def, n, b)
    requires !HasSingle(def) && DistinctNames(def)
    ensures Decode(def, b, n).Ok? && Encode(def, Decode(def, b, n).value) == Ok(CanonMany(def, n, b))
  {
    hide SizeOf, CanonMany, CleanMany, HasSingle, DistinctNames, EncodeAll;
    ManyBack(def, n, b);
    var ds := DecodeMany(def, n, b).value.0;
    if n == 1 {
      assert ds == [ds[0]];
    }
  }

  lemma {:induction false} MembersHaveNames(def: seq<Item>, b: seq<byte>, acc: map<string, Value>)
    requires DecodeDict(def, b, acc).Ok?
    ensures DecodeDict(def, b, acc).value.0.Keys == acc.Keys + Names(def)
    decreases |def|
  {
    if def != [] {
      var es := DecodeElems(def[0].ty, def[0].strLen, def[0].count, b).value;
      MembersHaveNames(def[1..], es.1, acc[def[0].name := Unwrapped(def[0].count, es.0)]);
      NamesOfTail(def);
    }
  }

  // --- decoding again ------------------------------------------------------------------------------

  lemma PrefixHasNoWideNull(w: seq<byte>)
    requires |w| % 2 == 0
    ensures NoWideNull(BeforeWideNull(w)) && |BeforeWideNull(w)| <= |w|
  {
    var p := BeforeWideNull(w);
    forall k: nat | 2 * k + 1 < |p|
      ensures UnitAt(p, k) != 0
    {
      assert w[2 * k] != 0 || w[2 * k + 1] != 0;
    }
  }

  lemma CanonStringDecodes(w: seq<byte>)
    ensures BeforeZero(BeforeZero(w) + Zeros(|w| - |BeforeZero(w)|)) == BeforeZero(w)
  {
    BeforeZeroIsPrefix(w);
    BeforeZeroOfPadded(BeforeZero(w), |w| - |BeforeZero(w)|);
  }

  lemma CanonWStringDecodes(w: seq<byte>)
    requires |w| % 2 == 0
    ensures BeforeWideNull(BeforeWideNull(w) + Zeros(|w| - |BeforeWideNull(w)|)) == BeforeWideNull(w)
  {
    PrefixHasNoWideNull(w);
    WideNullOfPadded(BeforeWideNull(w), |w| - |BeforeWideNull(w)|);
  }

  /** Zeroing what follows a terminator changes neither a slot's size nor what it decodes to. */
  lemma {:induction false} CanonElemDecodes(ty: PlcType, strLen: Option<nat>, w: seq<byte>)
    requires ElemSize(ty, strLen) == Ok(|w|) && CleanElem(ty, strLen, w)
    ensures |CanonElem(ty, strLen, w)| == |w|
    ensures DecodeElem(ty, strLen, CanonElem(ty, strLen, w)) == DecodeElem(ty, strLen, w)
    decreases ty, 0
  {
    match ty
    case StringT => CanonStringDecodes(w);
    case WStringT => CanonWStringDecodes(w);
    case NestedT(def) =>
      CanonMembersDecode(def, w, [], map[]);
      assert CanonMembers(def, w) + [] == CanonMembers(def, w);
    case _ =>
  }

  lemma {:induction false} CanonElemsDecode(ty: PlcType, strLen: Option<nat>, n: nat, b: seq<byte>, rest: seq<byte>)
    requires ElemSize(ty, strLen).Ok? && |b| >= Slots(ElemSize(ty, strLen).value, n) && CleanElems(ty, strLen, n, b)
    ensures |CanonElems(ty, strLen, n, b)| == Slots(ElemSize(ty, strLen).value, n)
    ensures var r := DecodeElems(ty, strLen, n, b);
            var t := DecodeElems(ty, strLen, n, CanonElems(ty, strLen, n, b) + rest);
            t == (match r case Ok(v) => Ok((v.0, rest)) case Err(e) => Err(e))
    decreases ty, 1, n
  {
    if n == 0 {
      assert [] + rest == rest;
    } else {
      var size := ElemSize(ty, strLen).value;
      CanonElemDecodes(ty, strLen, Take(b, size));
      CanonElemsDecode(ty, strLen, n - 1, Drop(b, size), rest);
      var c, cs := CanonElem(ty, strLen, Take(b, size)), CanonElems(ty, strLen, n - 1, Drop(b, size));
      assert (c + cs) + rest == c + (cs + rest);
      TakeDropConcat(c, cs + rest);
    }
  }

  lemma {:induction false} CanonMembersDecode(def: seq<Item>, b: seq<byte>, rest: seq<byte>, acc: map<string, Value>)
    requires SizeOf(def).Ok? && |b| >= SizeOf(def).value && CleanMembers(def, b)
    ensures |CanonMembers(def, b)| == SizeOf(def).value
    ensures var r := DecodeDict(def, b, acc);
            var t := DecodeDict(def, CanonMembers(def, b) + rest, acc);
            t == (match r case Ok(v) => Ok((v.0, rest)) case Err(e) => Err(e))
    decreases def, 2
  {
    if def == [] {
      assert [] + rest == rest;
    } else {
      var item := def[0];
      var span := Slots(ElemSize(item.ty, item.strLen).value, item.count);
      SlotsIsTimes(ElemSize(item.ty, item.strLen).value, item.count);
      var tail := CanonMembers(def[1..], Drop(b, span));
      CanonElemsDecode(item.ty, item.strLen, item.count, b, tail + rest);
      assert (CanonElems(item.ty, item.strLen, item.count, b) + tail) + rest
             == CanonElems(item.ty, item.strLen, item.count, b) + (tail + rest);
      DecodeElemsRest(item.ty, item.strLen, item.count, b);
      var r := DecodeElems(item.ty, item.strLen, item.count, b);
      if r.Ok? {
        CanonMembersDecode(def[1..], Drop(b, span), rest, acc[item.name := Unwrapped(item.count, r.value.0)]);
      } else {
        CanonMembersDecode(def[1..], Drop(b, span), rest, acc);
      }
    }
  }

  /** Decoding a run of elements uses up exactly its slots. */
  lemma {:induction false} DecodeElemsRest(ty: PlcType, strLen: Option<nat>, n: nat, b: seq<byte>)
    requires ElemSize(ty, strLen).Ok?
    ensures DecodeElems(ty, strLen, n, b).Ok? ==>
              DecodeElems(ty, strLen, n, b).value.1 == Drop(b, Slots(ElemSize(ty, strLen).value, n))
    decreases n
  {
    if n > 0 {
      var size := ElemSize(ty, strLen).value;
      DecodeElemsRest(ty, strLen, n - 1, Drop(b, size));
      DropDrop(b, size, Slots(size, n - 1));
    }
  }

  lemma {:induction false} CanonManyDecode(def: seq<Item>, n: nat, b: seq<byte>)
    requires SizeOf(def).Ok? && |b| >= Slots(SizeOf(def).value, n) && CleanMany(def, n, b)
    requires !HasSingle(def) && DistinctNames(def)
    ensures |CanonMany(def, n, b)| == Slots(SizeOf(def).value, n)
    ensures DecodeMany(def, n, b).Ok?
    ensures DecodeMany(def, n, CanonMany(def, n, b)) == Ok((DecodeMany(def, n, b).value.0, []))
  {
    hide SizeOf, CleanMembers, CanonMembers, DecodeDict, HasSingle, DistinctNames;
    if n > 0 {
      FirstBack(def, b);
      var rest := Drop(b, SizeOf(def).value);
      CanonManyDecode(def, n - 1, rest);
      CanonMembersDecode(def, b, CanonMany(def, n - 1, rest), map[]);
    }
  }

  /** Hence decode, encode, decode is decode, for a buffer of any number of structures. */
  lemma DecodeEncodeDecode(def: seq<Item>, b: seq<byte>, n: nat)
    requires SizeOf(def).Ok? && |b| == Slots(SizeOf(def).value, n) && CleanMany(def, n, b)
    requires !HasSingle(def) && DistinctNames(def)
    ensures var d := Decode(def, b, n);
            d.Ok? && Encode(def, d.value).Ok? && |Encode(def, d.value).value| == |b|
            && Decode(def, Encode(def, d.value).value, n) == d
  {
    hide SizeOf, CanonMany, CleanMany, HasSingle, DistinctNames;
    ReencodingCanonicalises(def, b, n);
    CanonManyDecode(def, n, b);
  }

  /** One structure on its own decodes bare. */
  lemma DecodeOne(def: seq<Item>, b: seq<byte>)
    ensures Decode(def, b, 1) == match DecodeDict(def, b, map[]) case Ok(r) => Ok(DictV(r.0)) case Err(e) => Err(e)
  {
    if DecodeDict(def, b, map[]).Ok? {
      var r := DecodeDict(def, b, map[]).value;
      assert DecodeMany(def, 0, r.1) == Ok(([], r.1));
      assert [DictV(r.0)] + [] == [DictV(r.0)];
    }
  }
}
