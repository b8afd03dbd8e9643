/** The structure codec of `ads.py`: layout size, encoder and decoder over a structure definition. */
module StructureCodec {
  import opened Wrappers
  import opened Bytes
  import opened Text

  const DEFAULT_STRING_SIZE: nat := 80

  /** The scalar types with an entry in the type map. */
  datatype ScalarType = BoolT | U8 | U16 | U32 | U64 | S8 | S16 | S32 | S64 | F32 | F64

  datatype PlcType = ScalarT(t: ScalarType) | StringT | WStringT | NestedT(def: seq<Item>) | Unsupported

  /** A member: its name, its type, how many, and the string length when one is given. */
  datatype Item = Item(name: string, ty: PlcType, count: nat, strLen: Option<nat>)

  /** Python values; a float is its bit pattern in the width of the field it is written to. */
  datatype Value =
    | BoolV(b: bool) | IntV(i: int) | FloatV(bits: seq<byte>) | TextV(s: text)
    | ListV(vs: seq<Value>) | DictV(m: map<string, Value>)

  function Width(t: ScalarType): nat {
    match t
    case BoolT => 1 case U8 => 1 case S8 => 1
    case U16 => 2 case S16 => 2
    case U32 => 4 case S32 => 4 case F32 => 4
    case U64 => 8 case S64 => 8 case F64 => 8
  }

  predicate IsSigned(t: ScalarType) {
    t in {S8, S16, S32, S64}
  }

  predicate IsFloat(t: ScalarType) {
    t in {F32, F64}
  }

  /** The number of values a field of the given width can hold. */
  function Modulus(t: ScalarType): nat {
    Pow256(Width(t))
  }

  predicate InIntRange(t: ScalarType, i: int) {
    if IsSigned(t) then -(Modulus(t) / 2) <= i < Modulus(t) / 2 else 0 <= i < Modulus(t)
  }

  predicate Truth(v: Value) {
    match v
    case BoolV(b) => b
    case IntV(i) => i != 0
    case FloatV(bits) => exists k :: 0 <= k < |bits| && bits[k] != 0 && !(k == |bits| - 1 && bits[k] == 128)
    case TextV(s) => s != []
    case ListV(vs) => vs != []
    case DictV(m) => m != map[]
  }

  /** `struct.pack` with the format of a scalar type. */
  function Pack(t: ScalarType, v: Value): Result<seq<byte>> {
    if t == BoolT then Ok([if Truth(v) then 1 else 0])
    else if IsFloat(t) then if v.FloatV? && |v.bits| == Width(t) then Ok(v.bits) else Err(StructError)
    else
      var i :- (match v case IntV(i) => Ok(i) case BoolV(b) => Ok(if b then 1 else 0) case _ => Err(StructError));
      if !InIntRange(t, i) then Err(StructError)
      else Ok(LE(if i < 0 then i + Modulus(t) else i, Width(t)))
  }

  /** `struct.unpack` of one scalar; raises unless exactly its width is there. */
  function Unpack(t: ScalarType, w: seq<byte>): Result<Value> {
    if |w| != Width(t) then Err(StructError)
    else if t == BoolT then Ok(BoolV(w[0] != 0))
    else if IsFloat(t) then Ok(FloatV(w))
    else if IsSigned(t) && UnLE(w) >= Modulus(t) / 2 then Ok(IntV(UnLE(w) - Modulus(t)))
    else Ok(IntV(UnLE(w)))
  }

  // --- size ----------------------------------------------------------------------------------------

  function StrLen(strLen: Option<nat>): nat {
    if strLen.Some? then strLen.value else DEFAULT_STRING_SIZE
  }

  function ElemSize(ty: PlcType, strLen: Option<nat>): Result<nat>
    decreases ty, 0
  {
    match ty
    case StringT => Ok(StrLen(strLen) + 1)
    case WStringT => Ok(2 * (StrLen(strLen) + 1))
    case NestedT(def) => SizeOf(def)
    case Unsupported => Err(RuntimeError)
    case ScalarT(t) => Ok(Width(t))
  }

  /** `size_of_structure`. */
  function SizeOf(def: seq<Item>): Result<nat>
    decreases def, 1
  {
    if def == [] then Ok(0) else
    var n :- ElemSize(def[0].ty, def[0].strLen);
    var rest :- SizeOf(def[1..]);
    Ok(n * def[0].count + rest)
  }

  // --- encoding ------------------------------------------------------------------------------------

  /** `var[i]` for an integer index. */
  function Index(v: Value, i: nat): Result<Value> {
    match v
    case ListV(vs) => if i < |vs| then Ok(vs[i]) else Err(IndexError)
    case TextV(s) => if i < |s| then Ok(TextV([s[i]])) else Err(IndexError)
    case DictV(_) => Err(KeyError)
    case _ => Err(TypeError)
  }

  function Member(d: Value, name: string): Result<Value> {
    if !d.DictV? then Err(TypeError) else if name in d.m then Ok(d.m[name]) else Err(KeyError)
  }

  /** Element `i` of a member's value: nested members are always indexed, others only when counted. */
  function Element(item: Item, v: Value, i: nat): Result<Value> {
    if item.ty.NestedT? || (item.count > 1 && !item.ty.Unsupported?) then Index(v, i) else Ok(v)
  }

  function EncodeElem(ty: PlcType, strLen: Option<nat>, e: Value): Result<seq<byte>>
    decreases ty, 0
  {
    match ty
    case StringT =>
      if e.TextV? then Ok(Utf8(e.s) + Zeros(StrLen(strLen) + 1 - |e.s|)) else Err(TypeError)
    case WStringT =>
      if e.TextV? then Ok(Utf16(e.s) + Zeros(2 * (StrLen(strLen) + 1) - |Utf16(e.s)|)) else Err(TypeError)
    case NestedT(def) => Encode(def, e)
    case Unsupported => Err(RuntimeError)
    case ScalarT(t) => Pack(t, e)
  }

  /** Elements `i` and on of one member. */
  function EncodeElems(item: Item, v: Value, i: nat): Result<seq<byte>>
    requires i <= item.count
    decreases item, 1, item.count - i
  {
    if i == item.count then Ok([]) else
    var e :- Element(item, v, i);
    var a :- EncodeElem(item.ty, item.strLen, e);
    var rest :- EncodeElems(item, v, i + 1);
    Ok(a + rest)
  }

  /** One dictionary. */
  function EncodeDict(def: seq<Item>, d: Value): Result<seq<byte>>
    decreases def, 1
  {
    if def == [] then Ok([]) else
    var v :- Member(d, def[0].name);
    var a :- EncodeElems(def[0], v, 0);
    var rest :- EncodeDict(def[1..], d);
    Ok(a + rest)
  }

  function EncodeAll(def: seq<Item>, vs: seq<Value>): Result<seq<byte>>
    decreases def, 2, |vs|
  {
    if vs == [] then Ok([]) else
    var a :- EncodeDict(def, vs[0]);
    var rest :- EncodeAll(def, vs[1..]);
    Ok(a + rest)
  }

  /** `bytes_from_dict`: a list is encoded element by element, anything else as one dictionary. */
  function Encode(def: seq<Item>, v: Value): Result<seq<byte>>
    decreases def, 3
  {
    match v
    case ListV(vs) => EncodeAll(def, vs)
    case _ => EncodeAll(def, [v])
  }

  // --- decoding ------------------------------------------------------------------------------------

  function DecodeElem(ty: PlcType, strLen: Option<nat>, w: seq<byte>): Result<Value>
    decreases ty, 0
  {
    match ty
    case StringT =>
      var s :- Utf8Decode(BeforeZero(w));
      Ok(TextV(s))
    case WStringT =>
      var s :- Utf16Decode(BeforeWideNull(w));
      Ok(TextV(s))
    case NestedT(def) =>
      var r :- DecodeDict(def, w, map[]);
      Ok(DictV(r.0))
    case Unsupported => Err(RuntimeError)
    case ScalarT(t) => Unpack(t, w)
  }

  /** `n` elements from the front of the buffer, and the buffer that is left. */
  function DecodeElems(ty: PlcType, strLen: Option<nat>, n: nat, b: seq<byte>): Result<(seq<Value>, seq<byte>)>
    decreases ty, 1, n
  {
    if n == 0 then Ok(([], b)) else
    var size :- ElemSize(ty, strLen);
    var e :- DecodeElem(ty, strLen, Take(b, size));
    var rest :- DecodeElems(ty, strLen, n - 1, Drop(b, size));
    Ok(([e] + rest.0, rest.1))
  }

  function Unwrapped(count: nat, es: seq<Value>): Value {
    if count == 1 && |es| == 1 then es[0] else ListV(es)
  }

  /** One structure read into `acc`, and the buffer that is left. */
  function DecodeDict(def: seq<Item>, b: seq<byte>, acc: map<string, Value>): Result<(map<string, Value>, seq<byte>)>
    decreases def, 2
  {
    if def == [] then Ok((acc, b)) else
    var es :- DecodeElems(def[0].ty, def[0].strLen, def[0].count, b);
    DecodeDict(def[1..], es.1, acc[def[0].name := Unwrapped(def[0].count, es.0)])
  }

  function DecodeMany(def: seq<Item>, n: nat, b: seq<byte>): Result<(seq<Value>, seq<byte>)> {
    if n == 0 then Ok(([], b)) else
    var r :- DecodeDict(def, b, map[]);
    var rest :- DecodeMany(def, n - 1, r.1);
    Ok(([DictV(r.0)] + rest.0, rest.1))
  }

  /** `dict_from_bytes`. */
  function Decode(def: seq<Item>, b: seq<byte>, arraySize: nat): Result<Value> {
    var r :- DecodeMany(def, arraySize, b);
    Ok(Unwrapped(arraySize, r.0))
  }
}
