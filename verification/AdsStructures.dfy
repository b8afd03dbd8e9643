/** `size_of_structure`, `dict_from_bytes` and `bytes_from_dict` as the loops they are, against their specifications. */
module AdsStructures {
  import opened Wrappers
  import opened Bytes
  import opened Text
  import opened StructureCodec
  import CodecTheorems

  /** What a total is once the rest has been added. */
  function Plus(n: nat, rest: Result<nat>): Result<nat> {
    match rest case Ok(m) => Ok(n + m) case Err(e) => Err(e)
  }

  lemma SizeStep(def: seq<Item>, k: nat, total: nat)
    requires k < |def|
    ensures Plus(total, SizeOf(def[k..])) ==
            match ElemSize(def[k].ty, def[k].strLen)
            case Err(e) => Err(e)
            case Ok(n) => Plus(total + n * def[k].count, SizeOf(def[k + 1..]))
  {
    assert def[k..][1..] == def[k + 1..];
  }

  lemma SizeOfNothing(def: seq<Item>)
    ensures SizeOf(def[|def|..]) == Ok(0) && def[0..] == def
  {
  }

  method SizeOfStructure(def: seq<Item>) returns (r: Result<nat>)
    ensures r == SizeOf(def)
    decreases def
  {
    hide SizeOf;
    SizeOfNothing(def);
    var numOfBytes: nat := 0;
    for k := 0 to |def|
      invariant SizeOf(def) == Plus(numOfBytes, SizeOf(def[k..]))
    {
      var item := def[k];
      SizeStep(def, k, numOfBytes);
      match item.ty {
        case StringT =>
          numOfBytes := numOfBytes + (StrLen(item.strLen) + 1) * item.count;
        case WStringT =>
          numOfBytes := numOfBytes + 2 * (StrLen(item.strLen) + 1) * item.count;
        case NestedT(inner) =>
          var n := SizeOfStructure(inner);
          if n.Err? {
            return n;
          }
          numOfBytes := numOfBytes + n.value * item.count;
        case Unsupported =>
          return Err(RuntimeError);
        case ScalarT(t) =>
          numOfBytes := numOfBytes + Width(t) * item.count;
      }
    }
    r := Ok(numOfBytes);
  }

  // --- dict_from_bytes -----------------------------------------------------------------------------

  /** The body of the innermost loop: one element at `index`, which moves behind it. */
  method ReadElement(byteList: seq<byte>, index: nat, ty: PlcType, strLen: Option<nat>) returns (r: Result<Value>, next: nat)
    ensures ElemSize(ty, strLen).Err? ==> r == Err(ElemSize(ty, strLen).error)
    ensures ElemSize(ty, strLen).Ok? ==>
              && r == DecodeElem(ty, strLen, Slice(byteList, index, ElemSize(ty, strLen).value))
              && (r.Ok? ==> next == index + ElemSize(ty, strLen).value)
    decreases ty, 0
  {
    next := index;
    match ty {
      case StringT =>
        var s := Utf8Decode(BeforeZero(Slice(byteList, index, StrLen(strLen) + 1)));
        r := if s.Ok? then Ok(TextV(s.value)) else Err(s.error);
        next := index + StrLen(strLen) + 1;
      case WStringT =>
        var a := Slice(byteList, index, 2 * (StrLen(strLen) + 1));
        var nullIdx := FindWstringNullTerminator(a);
        var s := Utf16Decode(if nullIdx.Some? then a[..nullIdx.value] else a);
        r := if s.Ok? then Ok(TextV(s.value)) else Err(s.error);
        next := index + 2 * (StrLen(strLen) + 1);
      case NestedT(def) =>
        var n := SizeOfStructure(def);
        if n.Err? {
          return Err(n.error), index;
        }
        CodecTheorems.DecodeOne(def, Slice(byteList, index, n.value));
        r := DictFromBytes(Slice(byteList, index, n.value), def, 1);
        next := index + n.value;
      case Unsupported =>
        r := Err(RuntimeError);
      case ScalarT(t) =>
        r := Unpack(t, Slice(byteList, index, Width(t)));
        next := index + Width(t);
    }
  }

  /** What a run of elements is once the rest of it has been read. */
  function Behind(es: seq<Value>, rest: Result<(seq<Value>, seq<byte>)>): Result<(seq<Value>, seq<byte>)> {
    match rest case Ok(r) => Ok((es + r.0, r.1)) case Err(e) => Err(e)
  }

  lemma BehindBehind(es: seq<Value>, e: Value, rest: Result<(seq<Value>, seq<byte>)>)
    ensures Behind(es, Behind([e], rest)) == Behind(es + [e], rest)
  {
    if rest.Ok? {
      assert es + ([e] + rest.value.0) == es + [e] + rest.value.0;
    }
  }

  lemma BehindNothing(rest: Result<(seq<Value>, seq<byte>)>)
    ensures Behind([], rest) == rest
  {
    assert rest.Ok? ==> [] + rest.value.0 == rest.value.0;
  }

  /** One round of the loop over the elements. */
  lemma ReadStep(ty: PlcType, strLen: Option<nat>, n: nat, b: seq<byte>, index: nat, e: Result<Value>, next: nat)
    requires n > 0
    requires ElemSize(ty, strLen).Err? ==> e == Err(ElemSize(ty, strLen).error)
    requires ElemSize(ty, strLen).Ok? ==>
               && e == DecodeElem(ty, strLen, Slice(b, index, ElemSize(ty, strLen).value))
               && (e.Ok? ==> next == index + ElemSize(ty, strLen).value)
    ensures DecodeElems(ty, strLen, n, Drop(b, index)) ==
            match e case Ok(v) => Behind([v], DecodeElems(ty, strLen, n - 1, Drop(b, next))) case Err(x) => Err(x)
  {
    hide DecodeElem, ElemSize;
    if e.Ok? {
      DropDrop(b, index, next - index);
    }
  }

  /** The loop over the elements of one member. */
  method ReadMember(byteList: seq<byte>, start: nat, ty: PlcType, strLen: Option<nat>, size: nat)
    returns (r: Result<seq<Value>>, index: nat)
    ensures DecodeElems(ty, strLen, size, Drop(byteList, start)) ==
            match r case Ok(es) => Ok((es, Drop(byteList, index))) case Err(e) => Err(e)
    decreases ty, 1
  {
    hide DecodeElem, ElemSize;
    var varArray: seq<Value> := [];
    index := start;
    BehindNothing(DecodeElems(ty, strLen, size, Drop(byteList, start)));
    for i := 0 to size
      invariant DecodeElems(ty, strLen, size, Drop(byteList, start)) ==
                Behind(varArray, DecodeElems(ty, strLen, size - i, Drop(byteList, index)))
    {
      var e, next := ReadElement(byteList, index, ty, strLen);
      ReadStep(ty, strLen, size - i, byteList, index, e, next);
      if e.Err? {
        return Err(e.error), index;
      }
      BehindBehind(varArray, e.value, DecodeElems(ty, strLen, size - i - 1, Drop(byteList, next)));
      varArray := varArray + [e.value];
      index := next;
    }
    assert varArray + [] == varArray;
    r := Ok(varArray);
  }

  /** The loop over the members of one structure. */
  method ReadStructure(byteList: seq<byte>, start: nat, def: seq<Item>)
    returns (r: Result<map<string, Value>>, index: nat)
    ensures DecodeDict(def, Drop(byteList, start), map[]) ==
            match r case Ok(values) => Ok((values, Drop(byteList, index))) case Err(e) => Err(e)
    decreases def, 2
  {
    var values: map<string, Value> := map[];
    index := start;
    for k := 0 to |def|
      invariant DecodeDict(def, Drop(byteList, start), map[]) == DecodeDict(def[k..], Drop(byteList, index), values)
    {
      var item := def[k];
      assert def[k..][1..] == def[k + 1..];
      var varArray, next := ReadMember(byteList, index, item.ty, item.strLen, item.count);
      if varArray.Err? {
        return Err(varArray.error), index;
      }
      values := values[item.name := Unwrapped(item.count, varArray.value)];
      index := next;
    }
    r := Ok(values);
  }

  method DictFromBytes(byteList: seq<byte>, def: seq<Item>, arraySize: nat) returns (r: Result<Value>)
    ensures r == Decode(def, byteList, arraySize)
    decreases def, 3
  {
    var valuesList: seq<Value> := [];
    var index := 0;
    assert Drop(byteList, 0) == byteList;
    BehindNothing(DecodeMany(def, arraySize, byteList));
    for structure := 0 to arraySize
      invariant DecodeMany(def, arraySize, byteList) ==
                Behind(valuesList, DecodeMany(def, arraySize - structure, Drop(byteList, index)))
    {
      var values, next := ReadStructure(byteList, index, def);
      if values.Err? {
        return Err(values.error);
      }
      BehindBehind(valuesList, DictV(values.value), DecodeMany(def, arraySize - structure - 1, Drop(byteList, next)));
      valuesList := valuesList + [DictV(values.value)];
      index := next;
    }
    assert valuesList + [] == valuesList;
    r := Ok(Unwrapped(arraySize, valuesList));
  }

  // --- bytes_from_dict -----------------------------------------------------------------------------

  /** What the bytes are once the rest has been appended. */
  function Before(a: seq<byte>, rest: Result<seq<byte>>): Result<seq<byte>> {
    match rest case Ok(b) => Ok(a + b) case Err(e) => Err(e)
  }

  lemma BeforeBefore(a: seq<byte>, b: seq<byte>, rest: Result<seq<byte>>)
    ensures Before(a, Before(b, rest)) == Before(a + b, rest)
  {
    assert rest.Ok? ==> a + (b + rest.value) == a + b + rest.value;
  }

  lemma BeforeNothing(rest: Result<seq<byte>>)
    ensures Before([], rest) == rest
  {
    assert rest.Ok? ==> [] + rest.value == rest.value;
  }

  method WriteElement(item: Item, v: Value, i: nat) returns (r: Result<seq<byte>>)
    ensures r == match Element(item, v, i) case Ok(e) => EncodeElem(item.ty, item.strLen, e) case Err(x) => Err(x)
    decreases item.ty, 0
  {
    var strLen := StrLen(item.strLen);
    var e := if item.ty.NestedT? || (item.count > 1 && !item.ty.Unsupported?) then Index(v, i) else Ok(v);
    if e.Err? {
      return Err(e.error);
    }
    match item.ty {
      case StringT =>
        if !e.value.TextV? {
          return Err(TypeError);
        }
        var byteList := Utf8(e.value.s);
        var remainingBytes := strLen + 1 - |e.value.s|;
        r := Ok(byteList + Zeros(remainingBytes));
      case WStringT =>
        if !e.value.TextV? {
          return Err(TypeError);
        }
        var encoded := Utf16(e.value.s);
        var remainingBytes := 2 * (strLen + 1) - |encoded|;
        r := Ok(encoded + Zeros(remainingBytes));
      case NestedT(def) =>
        r := BytesFromDict(e.value, def);
      case Unsupported =>
        r := Err(RuntimeError);
      case ScalarT(t) =>
        r := Pack(t, e.value);
    }
  }

  /** The loop over the elements of one member. */
  method WriteMember(item: Item, v: Value) returns (r: Result<seq<byte>>)
    ensures r == EncodeElems(item, v, 0)
    decreases item.ty, 1
  {
    var byteList: seq<byte> := [];
    BeforeNothing(EncodeElems(item, v, 0));
    for i := 0 to item.count
      invariant EncodeElems(item, v, 0) == Before(byteList, EncodeElems(item, v, i))
    {
      var a := WriteElement(item, v, i);
      if a.Err? {
        return a;
      }
      BeforeBefore(byteList, a.value, EncodeElems(item, v, i + 1));
      byteList := byteList + a.value;
    }
    assert byteList + [] == byteList;
    r := Ok(byteList);
  }

  /** The loop over the members of one dictionary. */
  method WriteStructure(curDict: Value, def: seq<Item>) returns (r: Result<seq<byte>>)
    ensures r == EncodeDict(def, curDict)
    decreases def, 2
  {
    var byteList: seq<byte> := [];
    assert def[0..] == def;
    BeforeNothing(EncodeDict(def, curDict));
    for k := 0 to |def|
      invariant EncodeDict(def, curDict) == Before(byteList, EncodeDict(def[k..], curDict))
    {
      var item := def[k];
      assert def[k..][1..] == def[k + 1..];
      var v := Member(curDict, item.name);
      if v.Err? {
        return Err(v.error);
      }
      var a := WriteMember(item, v.value);
      if a.Err? {
        return a;
      }
      BeforeBefore(byteList, a.value, EncodeDict(def[k + 1..], curDict));
      byteList := byteList + a.value;
    }
    assert byteList + [] == byteList;
    r := Ok(byteList);
  }

  method BytesFromDict(values: Value, def: seq<Item>) returns (r: Result<seq<byte>>)
    ensures r == Encode(def, values)
    decreases def, 3
  {
    var dicts := if values.ListV? then values.vs else [values];
    var byteList: seq<byte> := [];
    assert dicts[0..] == dicts;
    BeforeNothing(Encode(def, values));
    for k := 0 to |dicts|
      invariant Encode(def, values) == Before(byteList, EncodeAll(def, dicts[k..]))
    {
      assert dicts[k..][1..] == dicts[k + 1..];
      var a := WriteStructure(dicts[k], def);
      if a.Err? {
        return a;
      }
      BeforeBefore(byteList, a.value, EncodeAll(def, dicts[k + 1..]));
      byteList := byteList + a.value;
    }
    assert byteList + [] == byteList;
    r := Ok(byteList);
  }
}
