/** The scalar types by their literal ranges, sizes and bytes, for the codec and for the sum calls. */
module Scalars {
  import opened Wrappers
  import opened Bytes
  import opened StructureCodec
  import opened CodecTheorems
  import opened SumCommands

  function Power(base: nat, n: nat): nat {
    if n == 0 then 1 else base * Power(base, n - 1)
  }

  /** Every byte times 256 to the number of bytes before it. */
  function DigitSum(w: seq<byte>): nat {
    if w == [] then 0 else DigitSum(w[..|w| - 1]) + w[|w| - 1] * Power(256, |w| - 1)
  }

  lemma PowersOf256()
    ensures Power(256, 1) == 0x100 && Power(256, 2) == 0x1_0000 && Power(256, 4) == 0x1_0000_0000
    ensures Power(256, 8) == 0x1_0000_0000_0000_0000
  {
    assert Power(256, 2) == 256 * Power(256, 1) && Power(256, 3) == 256 * Power(256, 2);
    assert Power(256, 4) == 256 * Power(256, 3) && Power(256, 5) == 256 * Power(256, 4);
    assert Power(256, 6) == 256 * Power(256, 5) && Power(256, 7) == 256 * Power(256, 6);
    assert Power(256, 8) == 256 * Power(256, 7);
  }

  lemma {:induction false} DigitSumTail(w: seq<byte>)
    requires w != []
    ensures DigitSum(w) == w[0] + 256 * DigitSum(w[1..])
    decreases |w|
  {
    if |w| == 1 {
      assert w[..0] == [] && w[1..] == [];
    } else {
      var front := w[..|w| - 1];
      DigitSumTail(front);
      assert front[1..] == w[1..][..|w| - 2];
      var top, p := w[|w| - 1], Power(256, |w| - 2);
      assert Power(256, |w| - 1) == 256 * p;
      assert top * (256 * p) == 256 * (top * p);
    }
  }

  /** A little-endian integer is the sum of its bytes times powers of 256. */
  lemma {:induction false} UnLEIsDigitSum(w: seq<byte>)
    ensures UnLE(w) == DigitSum(w)
  {
    if w != [] {
      UnLEIsDigitSum(w[1..]);
      DigitSumTail(w);
    }
  }

  // --- ranges --------------------------------------------------------------------------------------

  /** An integer is packed into a field exactly if the type's literal range holds it. */
  lemma PacksExactly(i: int)
    ensures Pack(U8, IntV(i)).Ok? <==> 0 <= i < 256
    ensures Pack(S8, IntV(i)).Ok? <==> -128 <= i < 128
    ensures Pack(U16, IntV(i)).Ok? <==> 0 <= i < 65536
    ensures Pack(S16, IntV(i)).Ok? <==> -32768 <= i < 32768
    ensures Pack(U32, IntV(i)).Ok? <==> 0 <= i < 4294967296
    ensures Pack(S32, IntV(i)).Ok? <==> -2147483648 <= i < 2147483648
    ensures Pack(U64, IntV(i)).Ok? <==> 0 <= i < 18446744073709551616
    ensures Pack(S64, IntV(i)).Ok? <==> -9223372036854775808 <= i < 9223372036854775808
    ensures Pack(F32, IntV(i)).Err? && Pack(F64, IntV(i)).Err?
  {
    hide LE, Pow256, Modulus;
    ModulusEven(U8); ModulusEven(S8); ModulusEven(U16); ModulusEven(S16);
    ModulusEven(U32); ModulusEven(S32); ModulusEven(U64); ModulusEven(S64);
  }

  /** A truth value counts as 1 or 0 in an integer field; a BOOL field takes the truth of any value. */
  lemma TruthPacks(v: Value, t: ScalarType, b: bool)
    ensures Pack(BoolT, BoolV(b)) == Ok([if b then 1 else 0])
    ensures v.IntV? ==> Pack(BoolT, v) == Ok([if v.i == 0 then 0 else 1])
    ensures v.TextV? ==> Pack(BoolT, v) == Ok([if v.s == [] then 0 else 1])
    ensures v.ListV? ==> Pack(BoolT, v) == Ok([if v.vs == [] then 0 else 1])
    ensures v.DictV? ==> Pack(BoolT, v) == Ok([if v.m == map[] then 0 else 1])
    ensures t in {U8, S8, U16, S16, U32, S32, U64, S64} ==>
              Pack(t, BoolV(b)) == Pack(t, IntV(if b then 1 else 0))
              && (!v.IntV? && !v.BoolV? ==> Pack(t, v) == Err(StructError))
  {
  }

  /** A float is true unless it is zero, of either sign: all bits but the top one. */
  lemma FloatTruth(bits: seq<byte>)
    requires bits != []
    ensures Pack(BoolT, FloatV(bits)) ==
            Ok([if (forall k | 0 <= k < |bits| - 1 :: bits[k] == 0) && bits[|bits| - 1] in {0, 128} then 0 else 1])
  {
  }

  lemma FloatsPack(bits: seq<byte>)
    ensures Pack(F32, FloatV(bits)) == if |bits| == 4 then Ok(bits) else Err(StructError)
    ensures Pack(F64, FloatV(bits)) == if |bits| == 8 then Ok(bits) else Err(StructError)
  {
  }

  // --- bytes ---------------------------------------------------------------------------------------

  lemma TopDigit(below: nat, top: nat, p: nat)
    requires below < p && top <= 255
    ensures below + top * p < 256 * p && (below + top * p >= 128 * p <==> top >= 128)
  {
    assert top * p <= 255 * p;
    if top >= 128 { assert top * p >= 128 * p; } else { assert top * p <= 127 * p; }
  }

  lemma {:induction false} DigitSumBound(w: seq<byte>)
    ensures DigitSum(w) < Power(256, |w|)
    decreases |w|
  {
    if w != [] {
      DigitSumBound(w[..|w| - 1]);
      LastDigit(w);
      hide DigitSum, Power;
      TopDigit(DigitSum(w[..|w| - 1]), w[|w| - 1], Power(256, |w| - 1));
    }
  }

  lemma LastDigit(w: seq<byte>)
    requires w != []
    ensures DigitSum(w) == DigitSum(w[..|w| - 1]) + w[|w| - 1] * Power(256, |w| - 1)
    ensures Power(256, |w|) == 256 * Power(256, |w| - 1)
  {
  }

  /** The top byte tells on which side of the middle a number lies. */
  lemma TopByte(w: seq<byte>)
    requires w != []
    ensures DigitSum(w) >= 128 * Power(256, |w| - 1) <==> w[|w| - 1] >= 128
  {
    hide DigitSum, Power;
    DigitSumBound(w[..|w| - 1]);
    LastDigit(w);
    TopDigit(DigitSum(w[..|w| - 1]), w[|w| - 1], Power(256, |w| - 1));
  }

  /** The number the bytes stand for, less 256 to their number when a signed type's top bit is set. */
  function TwosComplement(w: seq<byte>): int
    requires w != []
  {
    if w[|w| - 1] >= 128 then DigitSum(w) - Power(256, |w|) else DigitSum(w)
  }

  lemma UnpacksInteger(signed: ScalarType, unsigned: ScalarType, w: seq<byte>)
    requires (signed, unsigned) in {(S8, U8), (S16, U16), (S32, U32), (S64, U64)}
    requires |w| == (if signed == S8 then 1 else if signed == S16 then 2 else if signed == S32 then 4 else 8)
    ensures Unpack(unsigned, w) == Ok(IntV(DigitSum(w))) && Unpack(signed, w) == Ok(IntV(TwosComplement(w)))
  {
    hide UnLE, DigitSum, LE, Pow256;
    UnLEIsDigitSum(w);
    TopByte(w);
    PowersOf256();
    ModulusEven(signed);
    assert Power(256, |w|) == 256 * Power(256, |w| - 1);
  }

  /** What each type makes of the bytes of its field: integers little-endian, signed ones in two's complement. */
  lemma UnpacksExactly(w: seq<byte>)
    ensures Unpack(BoolT, w) == if |w| == 1 then Ok(BoolV(w[0] != 0)) else Err(StructError)
    ensures Unpack(U8, w) == if |w| == 1 then Ok(IntV(DigitSum(w))) else Err(StructError)
    ensures Unpack(S8, w) == if |w| == 1 then Ok(IntV(TwosComplement(w))) else Err(StructError)
    ensures Unpack(U16, w) == if |w| == 2 then Ok(IntV(DigitSum(w))) else Err(StructError)
    ensures Unpack(S16, w) == if |w| == 2 then Ok(IntV(TwosComplement(w))) else Err(StructError)
    ensures Unpack(U32, w) == if |w| == 4 then Ok(IntV(DigitSum(w))) else Err(StructError)
    ensures Unpack(S32, w) == if |w| == 4 then Ok(IntV(TwosComplement(w))) else Err(StructError)
    ensures Unpack(U64, w) == if |w| == 8 then Ok(IntV(DigitSum(w))) else Err(StructError)
    ensures Unpack(S64, w) == if |w| == 8 then Ok(IntV(TwosComplement(w))) else Err(StructError)
    ensures Unpack(F32, w) == if |w| == 4 then Ok(FloatV(w)) else Err(StructError)
    ensures Unpack(F64, w) == if |w| == 8 then Ok(FloatV(w)) else Err(StructError)
  {
    hide UnLE, DigitSum, TwosComplement, LE;
    if |w| == 1 { UnpacksInteger(S8, U8, w); }
    if |w| == 2 { UnpacksInteger(S16, U16, w); }
    if |w| == 4 { UnpacksInteger(S32, U32, w); }
    if |w| == 8 { UnpacksInteger(S64, U64, w); }
  }

  // --- sizes ---------------------------------------------------------------------------------------

  /** The layout size of `n` values of each type, strings with a given length and with the default of 80. */
  lemma SizesAre(name: string, n: nat, len: nat, strLen: Option<nat>)
    ensures forall t | t in {BoolT, U8, S8} :: SizeOf([Item(name, ScalarT(t), n, strLen)]) == Ok(n)
    ensures forall t | t in {U16, S16} :: SizeOf([Item(name, ScalarT(t), n, strLen)]) == Ok(2 * n)
    ensures forall t | t in {U32, S32, F32} :: SizeOf([Item(name, ScalarT(t), n, strLen)]) == Ok(4 * n)
    ensures forall t | t in {U64, S64, F64} :: SizeOf([Item(name, ScalarT(t), n, strLen)]) == Ok(8 * n)
    ensures SizeOf([Item(name, StringT, n, Some(len))]) == Ok((len + 1) * n)
    ensures SizeOf([Item(name, StringT, n, None)]) == Ok(81 * n)
    ensures SizeOf([Item(name, WStringT, n, Some(len))]) == Ok((2 * len + 2) * n)
    ensures SizeOf([Item(name, WStringT, n, None)]) == Ok(162 * n)
    ensures SizeOf([Item(name, Unsupported, n, strLen)]) == Err(RuntimeError)
  {
    forall ty: PlcType, l: Option<nat>
      ensures SizeOf([Item(name, ty, n, l)]) == match ElemSize(ty, l) case Ok(k) => Ok(k * n) case Err(e) => Err(e)
    {
      assert [Item(name, ty, n, l)][1..] == [];
    }
    assert 2 * (len + 1) == 2 * len + 2;
  }

  /** A structure of one scalar is that scalar under its name, in both directions. */
  lemma OneMember(name: string, t: ScalarType, strLen: Option<nat>, w: seq<byte>, v: Value)
    requires |w| == Width(t)
    ensures var def := [Item(name, ScalarT(t), 1, strLen)];
            && Decode(def, w, 1) == (match Unpack(t, w) case Ok(x) => Ok(DictV(map[name := x])) case Err(e) => Err(e))
            && Encode(def, DictV(map[name := v])) == Pack(t, v)
  {
    var item := Item(name, ScalarT(t), 1, strLen);
    var def := [item];
    hide Unpack, Pack, Width;
    assert def[1..] == [] && Take(w, |w|) == w;
    OneDecodes(item, w);
    var x := Unpack(t, w);
    if x.Ok? {
      var m: map<string, Value> := map[][name := x.value];
      assert DecodeDict([], [], m) == Ok((m, [])) && DecodeDict(def, w, map[]) == Ok((m, []));
      assert DecodeMany(def, 0, []) == Ok(([], [])) && [DictV(m)] + [] == [DictV(m)];
    }
    OneEncodes(item, v);
  }

  lemma OneEncodes(item: Item, v: Value)
    requires item.ty.ScalarT? && item.count == 1
    ensures Encode([item], DictV(map[item.name := v])) == Pack(item.ty.t, v)
  {
    hide Pack;
    var d, r := DictV(map[item.name := v]), Pack(item.ty.t, v);
    assert EncodeElems(item, v, 1) == Ok([]) && EncodeElem(item.ty, item.strLen, v) == r && Element(item, v, 0) == Ok(v);
    assert r.Ok? ==> r.value + [] == r.value;
    assert EncodeElems(item, v, 0) == r;
    assert [item][1..] == [] && EncodeDict([], d) == Ok([]) && EncodeDict([item], d) == r;
    assert [d][1..] == [] && EncodeAll([item], []) == Ok([]);
  }

  lemma OneDecodes(item: Item, w: seq<byte>)
    requires item.ty.ScalarT? && item.count == 1 && |w| == Width(item.ty.t)
    ensures DecodeElems(item.ty, item.strLen, 1, w) ==
            match Unpack(item.ty.t, w) case Ok(x) => Ok(([x], [])) case Err(e) => Err(e)
  {
    hide Unpack, Width;
    assert Take(w, |w|) == w && Drop(w, |w|) == [];
    assert DecodeElems(item.ty, item.strLen, 0, []) == Ok(([], []));
    var x := Unpack(item.ty.t, w);
    assert ElemSize(item.ty, item.strLen) == Ok(|w|) && DecodeElem(item.ty, item.strLen, w) == x;
    assert x.Ok? ==> [x.value] + [] == [x.value];
  }

  // --- the sum calls -------------------------------------------------------------------------------

  function AsPlain(r: Result<Value>): Result<SumValue> {
    match r case Ok(v) => Ok(Plain(v)) case Err(e) => Err(e)
  }

  /** The ADS data type numbers, by what a sum read makes of a variable of one value. */
  lemma SumScalarsAre(entry: SymbolEntry, b: seq<byte>, at: nat)
    ensures entry.size == 1 ==>
              && (entry.dataType == 33 ==> ReadVar(entry, false, b, at) == AsPlain(Unpack(BoolT, Slice(b, at, 1))))
              && (entry.dataType in {16, 17} ==> ReadVar(entry, false, b, at) == AsPlain(Unpack(U8, Slice(b, at, 1))))
    ensures entry.size == 2 ==>
              && (entry.dataType == 2 ==> ReadVar(entry, false, b, at) == AsPlain(Unpack(S16, Slice(b, at, 2))))
              && (entry.dataType == 18 ==> ReadVar(entry, false, b, at) == AsPlain(Unpack(U16, Slice(b, at, 2))))
    ensures entry.size == 4 ==>
              && (entry.dataType == 3 ==> ReadVar(entry, false, b, at) == AsPlain(Unpack(S32, Slice(b, at, 4))))
              && (entry.dataType == 19 ==> ReadVar(entry, false, b, at) == AsPlain(Unpack(U32, Slice(b, at, 4))))
              && (entry.dataType == 4 ==> ReadVar(entry, false, b, at) == AsPlain(Unpack(F32, Slice(b, at, 4))))
    ensures entry.size == 8 ==>
              && (entry.dataType == 20 ==> ReadVar(entry, false, b, at) == AsPlain(Unpack(S64, Slice(b, at, 8))))
              && (entry.dataType == 21 ==> ReadVar(entry, false, b, at) == AsPlain(Unpack(U64, Slice(b, at, 8))))
              && (entry.dataType == 5 ==> ReadVar(entry, false, b, at) == AsPlain(Unpack(F64, Slice(b, at, 8))))
    ensures entry.dataType !in {2, 3, 4, 5, 16, 17, 18, 19, 20, 21, 30, 31, 33} ==> ReadVar(entry, false, b, at) == Err(KeyError)
  {
    hide Unpack, Slice;
  }
}
