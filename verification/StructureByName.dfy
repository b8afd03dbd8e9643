/** `write_structure_by_name` and `read_structure_by_name`: the codec behind a byte array of the layout size. */
module StructureByName {
  import opened Wrappers
  import opened Bytes
  import opened StructureCodec
  import opened CodecTheorems
  import AdsStructures

  /**
   The bytes written: the encoding in a ctypes array of the given size, or else of the size of the
   definition repeated; the array takes no more initializers than it has elements, and fills up with zeros.
   */
  function WrittenBytes(def: seq<Item>, value: Value, arraySize: nat, structureSize: Option<nat>): Result<seq<byte>> {
    var bytes :- Encode(def, value);
    var size :- if structureSize.Some? then Ok(structureSize.value) else SizeOf(Times(def, arraySize));
    if |bytes| > size then Err(IndexError) else Ok(bytes + Zeros(size - |bytes|))
  }

  method WriteStructure(def: seq<Item>, value: Value, arraySize: nat, structureSize: Option<nat>)
    returns (r: Result<seq<byte>>)
    ensures r == WrittenBytes(def, value, arraySize, structureSize)
  {
    var bytes := AdsStructures.BytesFromDict(value, def);
    if bytes.Err? {
      return bytes;
    }
    var size: nat;
    if structureSize.Some? {
      size := structureSize.value;
    } else {
      var computed := AdsStructures.SizeOfStructure(Times(def, arraySize));
      if computed.Err? {
        return Err(computed.error);
      }
      size := computed.value;
    }
    r := if |bytes.value| > size then Err(IndexError) else Ok(bytes.value + Zeros(size - |bytes.value|));
  }

  /** A list of one structure may be given bare. */
  function AsGiven(ds: seq<Value>): Value {
    if |ds| == 1 then ds[0] else ListV(ds)
  }

  lemma GivenEncodes(def: seq<Item>, ds: seq<Value>)
    requires EachTyped(def, ds)
    ensures Encode(def, AsGiven(ds)) == Encode(def, ListV(ds))
  {
    if |ds| == 1 {
      assert ds == [ds[0]];
    }
  }

  /**
   Writing well-typed structures by name, one or an array, succeeds exactly when all their STRINGs are
   ASCII, any other character raising; with a size given, exactly when the layout and the excess fit it.
   */
  lemma WritesExactly(def: seq<Item>, ds: seq<Value>, structureSize: Option<nat>)
    requires EachTyped(def, ds) && SizeOf(def).Ok?
    ensures var r := WrittenBytes(def, AsGiven(ds), |ds|, structureSize);
            match structureSize
            case None => (r.Ok? <==> EachAscii(def, ds)) && (r.Ok? ==> |r.value| == SizeOf(def).value * |ds|)
            case Some(size) =>
              (r.Ok? <==> SizeOf(def).value * |ds| + ExcessAll(def, ds) <= size) && (r.Ok? ==> |r.value| == size)
  {
    GivenEncodes(def, ds);
    ArrayRoundTrip(def, ds);
    SizeOfRepeated(def, |ds|);
    NoExcessAll(def, ds);
  }

  /** What is written by name is read back by name as what it decodes to: itself, without single nested members. */
  lemma WrittenReadsBack(def: seq<Item>, ds: seq<Value>)
    requires EachTyped(def, ds) && EachAscii(def, ds) && SizeOf(def).Ok?
    ensures var r := WrittenBytes(def, AsGiven(ds), |ds|, None);
            r.Ok? && Decode(def, r.value, |ds|) == Ok(AsGiven(DecodedAll(def, ds)))
    ensures !HasSingle(def) ==> AsGiven(DecodedAll(def, ds)) == AsGiven(ds)
  {
    GivenEncodes(def, ds);
    ArrayRoundTrip(def, ds);
    SizeOfRepeated(def, |ds|);
    var bytes := Encode(def, ListV(ds)).value;
    assert bytes + Zeros(0) == bytes;
  }

  /**
   With a size given, as long as the encoding fits it: the encoding, zeros behind it, and the structures come
   back from the front of what was written.
   */
  lemma WrittenWithRoom(def: seq<Item>, ds: seq<Value>, size: nat)
    requires EachTyped(def, ds) && SizeOf(def).Ok? && SizeOf(def).value * |ds| + ExcessAll(def, ds) <= size
    ensures var r := WrittenBytes(def, AsGiven(ds), |ds|, Some(size));
            && r.Ok? && |r.value| == size
            && Encode(def, AsGiven(ds)).Ok? && Encode(def, AsGiven(ds)).value <= r.value
            && (forall k | SizeOf(def).value * |ds| + ExcessAll(def, ds) <= k < size :: r.value[k] == 0)
            && (EachAscii(def, ds) ==> Decode(def, r.value, |ds|) == Ok(AsGiven(DecodedAll(def, ds))))
  {
    hide Typed, SizeOf, EncodeDict, DecodeDict, AsciiMembers, ExcessMembers, DecodedMembers;
    GivenEncodes(def, ds);
    ArrayRoundTrip(def, ds);
    var bytes := Encode(def, ListV(ds)).value;
    ManyRound(def, ds, Zeros(size - |bytes|));
  }
}
