/** The structure codec case by case: how members and structures compose, and what one member makes of each kind of value. */
module CodecCases {
  import opened Wrappers
  import opened Bytes
  import opened Text
  import opened StructureCodec

  /** One result behind another: the first that fails decides. */
  function Joined(x: Result<seq<byte>>, y: Result<seq<byte>>): Result<seq<byte>> {
    match (x, y) case (Err(e), _) => Err(e) case (_, Err(e)) => Err(e) case (Ok(a), Ok(b)) => Ok(a + b)
  }

  // --- composition ---------------------------------------------------------------------------------

  /** The members of a dictionary are encoded in the order of the definition. */
  lemma {:induction false} MembersCompose(a: seq<Item>, b: seq<Item>, d: Value)
    ensures EncodeDict(a + b, d) == Joined(EncodeDict(a, d), EncodeDict(b, d))
  {
    if a == [] {
      assert a + b == b;
      assert EncodeDict(b, d).Ok? ==> [] + EncodeDict(b, d).value == EncodeDict(b, d).value;
    } else {
      assert (a + b)[1..] == a[1..] + b;
      MembersCompose(a[1..], b, d);
      hide Member, EncodeElems;
      var v := Member(d, a[0].name);
      if v.Ok? {
        var x := EncodeElems(a[0], v.value, 0);
        var y, z := EncodeDict(a[1..], d), EncodeDict(b, d);
        assert x.Ok? && y.Ok? && z.Ok? ==> x.value + (y.value + z.value) == (x.value + y.value) + z.value;
      }
    }
  }

  /** The structures of a list are encoded in its order. */
  lemma {:induction false} StructuresCompose(def: seq<Item>, us: seq<Value>, vs: seq<Value>)
    ensures EncodeAll(def, us + vs) == Joined(EncodeAll(def, us), EncodeAll(def, vs))
    decreases |us|
  {
    if us == [] {
      assert us + vs == vs;
      assert EncodeAll(def, vs).Ok? ==> [] + EncodeAll(def, vs).value == EncodeAll(def, vs).value;
    } else {
      assert (us + vs)[1..] == us[1..] + vs;
      StructuresCompose(def, us[1..], vs);
      hide EncodeDict;
      var x := EncodeDict(def, us[0]);
      var y, z := EncodeAll(def, us[1..]), EncodeAll(def, vs);
      assert x.Ok? && y.Ok? && z.Ok? ==> x.value + (y.value + z.value) == (x.value + y.value) + z.value;
    }
  }

  /** Members are decoded in the order of the definition, each from the bytes the ones before it leave. */
  lemma {:induction false} MembersDecodeInOrder(a: seq<Item>, b: seq<Item>, buf: seq<byte>, acc: map<string, Value>)
    ensures DecodeDict(a + b, buf, acc) ==
            match DecodeDict(a, buf, acc) case Err(e) => Err(e) case Ok(r) => DecodeDict(b, r.1, r.0)
    decreases |a|
  {
    if a == [] {
      assert a + b == b;
    } else {
      assert (a + b)[1..] == a[1..] + b;
      hide DecodeElems;
      var es := DecodeElems(a[0].ty, a[0].strLen, a[0].count, buf);
      if es.Ok? {
        MembersDecodeInOrder(a[1..], b, es.value.1, acc[a[0].name := Unwrapped(a[0].count, es.value.0)]);
      }
    }
  }

  // --- one member, encoded -------------------------------------------------------------------------

  /** A member's bytes when its value is there; a missing key raises KeyError, and what is no dictionary TypeError. */
  lemma OneMemberEncodes(item: Item, d: Value)
    ensures EncodeDict([item], d) ==
            if !d.DictV? then Err(TypeError)
            else if item.name !in d.m then Err(KeyError)
            else EncodeElems(item, d.m[item.name], 0)
  {
    hide EncodeElems;
    assert [item][1..] == [];
    assert forall x: seq<byte> :: x + [] == x;
  }

  function Length(strLen: Option<nat>): nat {
    match strLen case Some(n) => n case None => 80
  }

  /** A text and the zeros behind it, in at least so many bytes. */
  predicate PaddedTo(r: Result<seq<byte>>, bytes: seq<byte>, size: nat) {
    && r.Ok? && bytes <= r.value && (|bytes| <= size ==> |r.value| == size) && (|bytes| > size ==> r.value == bytes)
    && forall k | |bytes| <= k < |r.value| :: r.value[k] == 0
  }

  /**
   A WSTRING of length n, 80 when none is given, fills 2n + 2 bytes with its UTF-16 and zeros; a STRING fills n + 1
   bytes with ASCII, and with one more for each byte its UTF-8 takes beyond its characters. What is no text is refused.
   */
  lemma TextEncodes(strLen: Option<nat>, e: Value)
    ensures !e.TextV? ==> EncodeElem(StringT, strLen, e) == EncodeElem(WStringT, strLen, e) == Err(TypeError)
    ensures e.TextV? ==> PaddedTo(EncodeElem(WStringT, strLen, e), Utf16(e.s), 2 * Length(strLen) + 2)
    ensures e.TextV? ==>
              |Utf8(e.s)| >= |e.s|
              && PaddedTo(EncodeElem(StringT, strLen, e), Utf8(e.s), Length(strLen) + 1 + (|Utf8(e.s)| - |e.s|))
  {
    hide Utf8, Utf16;
    if e.TextV? {
      Utf8Length(e.s);
    }
  }

  /** An unknown type raises, a scalar is packed, and a nested definition is encoded as by itself. */
  lemma ElementEncodes(strLen: Option<nat>, def: seq<Item>, t: ScalarType, e: Value)
    ensures EncodeElem(Unsupported, strLen, e) == Err(RuntimeError)
    ensures EncodeElem(ScalarT(t), strLen, e) == Pack(t, e)
    ensures EncodeElem(NestedT(def), strLen, e) ==
            (if e.ListV? then EncodeAll(def, e.vs) else EncodeDict(def, e))
  {
    hide Pack, EncodeDict;
    if !e.ListV? {
      var r := EncodeDict(def, e);
      assert [e][1..] == [] && EncodeAll(def, []) == Ok([]);
      assert r.Ok? ==> r.value + [] == r.value;
      assert Encode(def, e) == EncodeAll(def, [e]) == r;
    }
    assert EncodeElem(NestedT(def), strLen, e) == Encode(def, e);
  }

  /** A member of count 1 is its value, but a nested one the first element of it; one of count 0 is nothing. */
  lemma CountOneOrNone(item: Item, v: Value)
    ensures item.count == 0 ==> EncodeElems(item, v, 0) == Ok([])
    ensures item.count == 1 && !item.ty.NestedT? ==> EncodeElems(item, v, 0) == EncodeElem(item.ty, item.strLen, v)
    ensures item.count == 1 && item.ty.NestedT? ==>
              EncodeElems(item, v, 0) ==
              match v
              case ListV(vs) => if vs == [] then Err(IndexError) else EncodeElem(item.ty, item.strLen, vs[0])
              case TextV(s) => if s == [] then Err(IndexError) else EncodeElem(item.ty, item.strLen, TextV([s[0]]))
              case DictV(_) => Err(KeyError)
              case _ => Err(TypeError)
  {
    hide EncodeElem;
    if item.count == 1 {
      assert EncodeElems(item, v, 1) == Ok([]);
      assert forall x: seq<byte> :: x + [] == x;
    }
  }

  /** The elements of an array up to the first that fails: too short a list, or the element's own error. */
  lemma {:induction false} FirstElementToFail(item: Item, vs: seq<Value>, i: nat, k: nat)
    requires (item.count > 1 || item.ty.NestedT?) && !item.ty.Unsupported? && i <= k < item.count && k <= |vs|
    requires forall j | i <= j < k :: EncodeElem(item.ty, item.strLen, vs[j]).Ok?
    requires k < |vs| ==> EncodeElem(item.ty, item.strLen, vs[k]).Err?
    ensures EncodeElems(item, ListV(vs), i) ==
            Err(if k == |vs| then IndexError else EncodeElem(item.ty, item.strLen, vs[k]).error)
    decreases k - i
  {
    hide EncodeElem;
    if i < k { FirstElementToFail(item, vs, i + 1, k); }
  }

  /** An array member wants something with indices: a number has none, a dictionary has no such key. */
  lemma ArrayWantsIndices(item: Item, v: Value)
    requires item.count > 1 && !item.ty.Unsupported?
    ensures v.IntV? || v.BoolV? || v.FloatV? ==> EncodeElems(item, v, 0) == Err(TypeError)
    ensures v.DictV? ==> EncodeElems(item, v, 0) == Err(KeyError)
  {
    hide EncodeElem;
  }

  // --- one member, decoded -------------------------------------------------------------------------

  /** A STRING decodes to the text whose UTF-8 lies before the first zero byte, or in all bytes when there is none. */
  lemma StringDecodes(strLen: Option<nat>, w: seq<byte>, z: nat, s: text)
    requires z <= |w| && 0 !in w[..z] && (z < |w| ==> w[z] == 0)
    ensures DecodeElem(StringT, strLen, w) == Ok(TextV(s)) <==> Utf8(s) == w[..z]
    ensures DecodeElem(StringT, strLen, w).Err? ==> DecodeElem(StringT, strLen, w) == Err(UnicodeError)
  {
    hide Utf8, Utf8Decode, BeforeZero;
    ZeroAt(w, z);
    UndecodableRaises(w[..z]);
    Utf8RoundTrip(s);
    if Utf8Decode(w[..z]).Ok? { Utf8OfDecoded(w[..z]); }
  }

  lemma {:induction false} ZeroAt(w: seq<byte>, z: nat)
    requires z <= |w| && 0 !in w[..z] && (z < |w| ==> w[z] == 0)
    ensures BeforeZero(w) == w[..z]
  {
    if z > 0 {
      assert w[..z][0] == w[0] && w[1..][..z - 1] == w[..z][1..];
      ZeroAt(w[1..], z - 1);
    }
  }

  /** A WSTRING decodes to the text whose UTF-16 lies before the first aligned zero unit, or in all bytes when there is none. */
  lemma WStringDecodes(strLen: Option<nat>, w: seq<byte>, z: nat, s: text)
    requires z <= |w| && forall k: nat | 2 * k + 1 < z :: UnitAt(w, k) != 0
    requires z == |w| || (z % 2 == 0 && z + 1 < |w| && w[z] == 0 && w[z + 1] == 0)
    ensures DecodeElem(WStringT, strLen, w) == Ok(TextV(s)) <==> Utf16(s) == w[..z]
    ensures DecodeElem(WStringT, strLen, w).Err? ==> DecodeElem(WStringT, strLen, w) == Err(UnicodeError)
  {
    hide Utf16, Utf16Decode, WideNullFrom;
    if z == |w| { WideNullNone(w, 0); } else { WideNullIs(w, 0, z); }
    assert BeforeWideNull(w) == w[..z];
    UndecodableRaises(w[..z]);
    Utf16RoundTrip(s);
    if Utf16Decode(w[..z]).Ok? { Utf16OfDecoded(w[..z]); }
  }

  /** An unknown type raises, a scalar is unpacked, and a nested definition is decoded as by itself. */
  lemma ElementDecodes(strLen: Option<nat>, def: seq<Item>, t: ScalarType, w: seq<byte>)
    ensures DecodeElem(Unsupported, strLen, w) == Err(RuntimeError)
    ensures DecodeElem(ScalarT(t), strLen, w) == Unpack(t, w)
    ensures DecodeElem(NestedT(def), strLen, w) == Decode(def, w, 1)
  {
    hide Unpack, DecodeDict;
    OneStructure(def, w);
  }

  lemma OneStructure(def: seq<Item>, w: seq<byte>)
    ensures Decode(def, w, 1) ==
            match DecodeDict(def, w, map[]) case Ok(r) => Ok(DictV(r.0)) case Err(e) => Err(e)
  {
    hide DecodeDict;
    var r := DecodeDict(def, w, map[]);
    if r.Ok? {
      assert DecodeMany(def, 0, r.value.1) == Ok(([], r.value.1));
      assert [DictV(r.value.0)] + [] == [DictV(r.value.0)];
    }
  }

  /** A member of count 1 is one element under its name and leaves the bytes behind it; one of another count is a list. */
  lemma OneMemberDecodes(item: Item, b: seq<byte>)
    ensures item.count == 1 && ElemSize(item.ty, item.strLen).Ok? ==>
              var n := ElemSize(item.ty, item.strLen).value;
              DecodeDict([item], b, map[]) ==
              match DecodeElem(item.ty, item.strLen, Take(b, n))
              case Ok(v) => Ok((map[item.name := v], Drop(b, n)))
              case Err(e) => Err(e)
    ensures item.count == 0 ==> DecodeDict([item], b, map[]) == Ok((map[item.name := ListV([])], b))
    ensures item.count > 1 && DecodeDict([item], b, map[]).Ok? ==>
              var v := DecodeDict([item], b, map[]).value.0;
              v.Keys == {item.name} && v[item.name].ListV? && |v[item.name].vs| == item.count
    ensures item.count > 0 && item.ty.Unsupported? ==> DecodeDict([item], b, map[]) == Err(RuntimeError)
  {
    hide DecodeElem, ElemSize;
    assert [item][1..] == [];
    if item.count == 1 && ElemSize(item.ty, item.strLen).Ok? {
      var n := ElemSize(item.ty, item.strLen).value;
      assert DecodeElems(item.ty, item.strLen, 0, Drop(b, n)) == Ok(([], Drop(b, n)));
      var e := DecodeElem(item.ty, item.strLen, Take(b, n));
      assert e.Ok? ==> [e.value] + [] == [e.value];
    }
    if item.count > 1 { AsManyElements(item.ty, item.strLen, item.count, b); }
    if item.ty.Unsupported? { assert ElemSize(item.ty, item.strLen) == Err(RuntimeError) by { NoSize(item.strLen); } }
  }

  lemma NoSize(strLen: Option<nat>)
    ensures ElemSize(Unsupported, strLen) == Err(RuntimeError)
  {
  }

  lemma {:induction false} AsManyElements(ty: PlcType, strLen: Option<nat>, n: nat, b: seq<byte>)
    ensures DecodeElems(ty, strLen, n, b).Ok? ==> |DecodeElems(ty, strLen, n, b).value.0| == n
    decreases n
  {
    hide DecodeElem, ElemSize;
    if n > 0 {
      var size := ElemSize(ty, strLen);
      if size.Ok? { AsManyElements(ty, strLen, n - 1, Drop(b, size.value)); }
    }
  }

  /** Element `i` of an array is decoded from the bytes at `i` element sizes. */
  lemma {:induction false} ElementsInOrder(ty: PlcType, strLen: Option<nat>, size: nat, n: nat, b: seq<byte>, i: nat)
    requires ElemSize(ty, strLen) == Ok(size) && DecodeElems(ty, strLen, n, b).Ok? && i < n
    ensures |DecodeElems(ty, strLen, n, b).value.0| == n
    ensures Ok(DecodeElems(ty, strLen, n, b).value.0[i]) == DecodeElem(ty, strLen, Slice(b, i * size, size))
    decreases n
  {
    hide DecodeElem, ElemSize, Slice, Take, Drop;
    AsManyElements(ty, strLen, n, b);
    if i > 0 {
      ElementsInOrder(ty, strLen, size, n - 1, Drop(b, size), i - 1);
      SliceBehind(b, size, (i - 1) * size, size);
      assert size + (i - 1) * size == i * size;
    } else {
      SliceBehind(b, 0, 0, size);
    }
  }

  lemma SliceBehind(b: seq<byte>, m: nat, at: nat, n: nat)
    ensures Slice(Drop(b, m), at, n) == Slice(b, m + at, n) && Slice(b, 0, n) == Take(b, n)
  {
    DropDrop(b, m, at);
  }
}
