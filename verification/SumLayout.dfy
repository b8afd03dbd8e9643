/** One variable of a sum call: what a fitting value looks like in the buffer, and that it reads back. */
module SumLayout {
  import opened Wrappers
  import opened Bytes
  import opened StructureCodec
  import opened CodecTheorems
  import opened SumCommands
  import opened SumTexts

  // --- scalars -------------------------------------------------------------------------------------

  predicate FitScalars(t: ScalarType, vs: seq<Value>) {
    forall k | 0 <= k < |vs| :: TypedElem(ScalarT(t), None, vs[k])
  }

  lemma {:induction false} UnpackTyped(t: ScalarType, w: seq<byte>)
    ensures Unpack(t, w).Ok? ==> TypedElem(ScalarT(t), None, Unpack(t, w).value)
  {
    hide UnLE, Pow256, LE;
    ModulusEven(t);
    LEOfUnLE(w);
  }

  /** What packs comes back exactly if it is of the type: a truth value written to an integer does not. */
  lemma ScalarReadsExactly(t: ScalarType, v: Value)
    requires Pack(t, v).Ok?
    ensures Unpack(t, Pack(t, v).value) == Ok(v) <==> TypedElem(ScalarT(t), None, v)
  {
    UnpackTyped(t, Pack(t, v).value);
    if TypedElem(ScalarT(t), None, v) {
      ScalarRound(t, v);
    }
  }

  lemma PackSize(t: ScalarType, v: Value)
    ensures Pack(t, v).Ok? ==> |Pack(t, v).value| == Width(t)
  {
  }

  lemma {:induction false} PackAllSize(t: ScalarType, vs: seq<Value>)
    ensures PackAll(t, vs).Ok? ==> |PackAll(t, vs).value| == Slots(Width(t), |vs|)
  {
    hide Pack;
    if vs != [] {
      PackSize(t, vs[0]);
      PackAllSize(t, vs[1..]);
    }
  }

  lemma {:induction false} ScalarsReadExactly(t: ScalarType, vs: seq<Value>)
    requires PackAll(t, vs).Ok?
    ensures |PackAll(t, vs).value| == Slots(Width(t), |vs|)
    ensures UnpackAll(t, PackAll(t, vs).value, |vs|) == Ok(vs) <==> FitScalars(t, vs)
  {
    hide Pack, Unpack, TypedElem;
    PackAllSize(t, vs);
    if vs != [] {
      PackSize(t, vs[0]);
      ScalarReadsExactly(t, vs[0]);
      ScalarsReadExactly(t, vs[1..]);
      var a, rest := Pack(t, vs[0]).value, PackAll(t, vs[1..]).value;
      TakeDropConcat(a, rest);
      FitScalarsCons(t, vs);
      UnpackCons(t, a, rest, vs);
    }
  }

  lemma FitScalarsCons(t: ScalarType, vs: seq<Value>)
    requires vs != []
    ensures FitScalars(t, vs) <==> TypedElem(ScalarT(t), None, vs[0]) && FitScalars(t, vs[1..])
  {
    assert forall k | 0 < k < |vs| :: vs[k] == vs[1..][k - 1];
  }

  lemma UnpackCons(t: ScalarType, a: seq<byte>, rest: seq<byte>, vs: seq<Value>)
    requires vs != [] && |a| == Width(t)
    ensures UnpackAll(t, a + rest, |vs|) == Ok(vs) <==> Unpack(t, a) == Ok(vs[0]) && UnpackAll(t, rest, |vs| - 1) == Ok(vs[1..])
  {
    hide Unpack, Width;
    TakeDropConcat(a, rest);
    var r, tail := Unpack(t, a), UnpackAll(t, rest, |vs| - 1);
    if r.Ok? && tail.Ok? {
      Cons(r.value, tail.value, vs);
    }
  }

  lemma {:induction false} TypedPacks(t: ScalarType, vs: seq<Value>)
    requires FitScalars(t, vs)
    ensures PackAll(t, vs).Ok?
  {
    hide Pack, Unpack, TypedElem;
    if vs != [] {
      ScalarRound(t, vs[0]);
      FitScalarsCons(t, vs);
      TypedPacks(t, vs[1..]);
    }
  }

  lemma TimesWithin(size: nat, width: nat)
    requires width > 0
    ensures Slots(width, size / width) == size / width * width <= size
  {
    SlotsIsTimes(width, size / width);
  }

  // --- a variable ----------------------------------------------------------------------------------

  /** The distance between two elements of a text array. */
  function Stride(elementSize: int): nat {
    if elementSize > 0 then elementSize else 0
  }

  /** A value of the shape its symbol entry says that stays within the variable. */
  predicate Places(entry: SymbolEntry, structured: bool, v: SumValue) {
    match ShapeOf(entry, structured)
    case RawShape => v.Raw? && |v.b| == entry.size
    case TextShape(wide) => v.Plain? && PlacesText(wide, v.v, entry.size)
    case TextsShape(wide, el) =>
      v.Plain? && v.v.ListV? && (v.v.vs != [] ==> el > 0) && PlaceTexts(wide, v.v.vs, Stride(el), entry.size)
    case ScalarsShape(t, n) => v.Plain? && v.v.ListV? && |v.v.vs| == n && PackAll(t, v.v.vs).Ok?
    case ScalarShape(t) => v.Plain? && entry.size == Width(t) && Pack(t, v.v).Ok?
    case NoShape => false
  }

  /** A value that reads back as itself: texts with terminators, as many as the variable holds, scalars of the type. */
  predicate Fits(entry: SymbolEntry, structured: bool, v: SumValue) {
    match ShapeOf(entry, structured)
    case RawShape => v.Raw? && |v.b| == entry.size
    case TextShape(wide) => v.Plain? && FitsText(wide, v.v, entry.size)
    case TextsShape(wide, el) =>
      v.Plain? && v.v.ListV? && |v.v.vs| == ElementCount(entry.size, el) && FitTexts(wide, v.v.vs, Stride(el), entry.size)
    case ScalarsShape(t, n) => v.Plain? && v.v.ListV? && |v.v.vs| == n && FitScalars(t, v.v.vs)
    case ScalarShape(t) => v.Plain? && entry.size == Width(t) && TypedElem(ScalarT(t), None, v.v)
    case NoShape => false
  }

  /** Bytes padded with zeros. */
  function Padded(a: seq<byte>, size: nat): seq<byte> {
    a + Zeros(size - |a|)
  }

  /** The bytes of a value: the declared encoding, padded with zeros to the size of the variable. */
  function Image(entry: SymbolEntry, structured: bool, v: SumValue): seq<byte> {
    if v.Raw? then v.b
    else if v.ErrorText? then []
    else match ShapeOf(entry, structured)
      case TextShape(wide) => TextImage(wide, v.v, entry.size)
      case TextsShape(wide, el) =>
        if v.v.ListV? && AllTexts(v.v.vs) then ArrayImage(wide, v.v.vs, Stride(el), entry.size) else []
      case ScalarsShape(t, _) =>
        if v.v.ListV? && PackAll(t, v.v.vs).Ok? then Padded(PackAll(t, v.v.vs).value, entry.size) else []
      case ScalarShape(t) => if Pack(t, v.v).Ok? then Pack(t, v.v).value else []
      case _ => []
  }

  /** The bytes by which writing the value makes the buffer grow. */
  function GrowthOf(entry: SymbolEntry, structured: bool, v: SumValue): nat {
    match ShapeOf(entry, structured)
    case TextShape(wide) => if v.Plain? && v.v.TextV? then Growth(wide, v.v.s) else 0
    case TextsShape(wide, _) => if v.Plain? && v.v.ListV? then TextsGrowth(wide, v.v.vs) else 0
    case _ => 0
  }

  lemma FitsPlaces(entry: SymbolEntry, structured: bool, v: SumValue)
    requires Fits(entry, structured, v)
    ensures Places(entry, structured, v)
  {
    hide GetNumOfChars, TypeOf, Pack, PackAll, TypedElem, Encoded;
    match ShapeOf(entry, structured)
    case TextsShape(wide, el) => FitTextsPlace(wide, v.v.vs, Stride(el), entry.size);
    case ScalarsShape(t, n) => TypedPacks(t, v.v.vs);
    case ScalarShape(t) => ScalarRound(t, v.v);
    case _ =>
  }

  lemma TextsVariableWrites(wide: bool, vs: seq<Value>, el: int, before: seq<byte>, size: nat, n: nat)
    requires PlaceTexts(wide, vs, Stride(el), size) && (vs != [] ==> el > 0) && size <= n
    ensures AllTexts(vs) && |ArrayImage(wide, vs, Stride(el), size)| == size
    ensures WriteTexts(wide, before + Zeros(n), |before|, el, vs) ==
            Ok(before + ArrayImage(wide, vs, Stride(el), size) + Zeros(n - size + TextsGrowth(wide, vs)))
  {
    hide *;
    StrideIs(el);
    PlacedAreTexts(wide, vs, Stride(el), size);
    AwaitsZeros(wide, vs);
    ArrayLays(wide, vs, Stride(el), size, [], n);
    assert [] + Zeros(n) == Zeros(n);
    if vs == [] {
      NoTextsWrite(wide, before, Zeros(n), el, Stride(el));
    } else {
      WriteTextsLays(wide, before, Zeros(n), el, vs);
    }
    Associate(before, ArrayImage(wide, vs, Stride(el), size), Zeros(n - size + TextsGrowth(wide, vs)));
  }

  lemma StrideIs(el: int)
    ensures el > 0 ==> Stride(el) == el
  {
  }

  lemma AwaitsZeros(wide: bool, vs: seq<Value>)
    requires AllTexts(vs)
    ensures Awaits(wide, [], vs)
  {
  }

  lemma Associate(a: seq<byte>, b: seq<byte>, c: seq<byte>)
    ensures a + (b + c) == a + b + c
  {
  }

  lemma NoTextsWrite(wide: bool, before: seq<byte>, x: seq<byte>, el: int, stride: nat)
    ensures WriteTexts(wide, before + x, |before|, el, []) == Ok(before + Laid(wide, x, stride, []))
  {
  }

  lemma Regroup(before: seq<byte>, a: seq<byte>, size: nat, left: nat)
    requires |a| <= size
    ensures before + a + Zeros(size - |a| + left) == before + Padded(a, size) + Zeros(left)
  {
  }

  lemma PackIntoZeros(t: ScalarType, count: nat, vs: seq<Value>, before: seq<byte>, size: nat, n: nat)
    requires PackAll(t, vs).Ok? && |vs| == count && Slots(Width(t), count) <= size <= n
    ensures var a := PackAll(t, vs).value;
            && |a| <= size
            && PackInto(t, count, before + Zeros(n), |before|, vs) == Ok(before + Padded(a, size) + Zeros(n - size))
  {
    hide Splice, PackAll, Width;
    PackAllSize(t, vs);
    var a := PackAll(t, vs).value;
    SpliceOver(before, n, |a|, a);
    Regroup(before, a, size, n - size);
  }

  /**
   Writing a value into the zeros behind what is already there puts its image next and leaves zeros behind
   it, as many as before less its size, and the growth of its texts more.
   */
  lemma VariableWrites(entry: SymbolEntry, structured: bool, v: SumValue, before: seq<byte>, n: nat)
    requires Places(entry, structured, v) && entry.size <= n
    ensures |Image(entry, structured, v)| == entry.size
    ensures WriteVar(entry, structured, before + Zeros(n), |before|, v) ==
            Ok(before + Image(entry, structured, v) + Zeros(n - entry.size + GrowthOf(entry, structured, v)))
  {
    hide GetNumOfChars, TypeOf, PlacesText, PackInto, Splice, Pack, PackAll, WriteText, Growth, TextImage;
    var size := entry.size;
    match ShapeOf(entry, structured)
    case RawShape => SpliceOver(before, n, size, v.b);
    case TextShape(wide) =>
      PlacedText(wide, v.v, size);
      TextWrites(wide, v.v, size, before, n);
    case TextsShape(wide, el) => TextsVariableWrites(wide, v.v.vs, el, before, size, n);
    case ScalarsShape(t, count) =>
      ShapeWithin(entry, structured);
      PackIntoZeros(t, count, v.v.vs, before, size, n);
    case ScalarShape(t) =>
      OneScalar(t, v.v);
      PackIntoZeros(t, 1, [v.v], before, size, n);
  }

  lemma ShapeWithin(entry: SymbolEntry, structured: bool)
    requires ShapeOf(entry, structured).ScalarsShape?
    ensures var s := ShapeOf(entry, structured); Slots(Width(s.t), s.n) == s.n * Width(s.t) <= entry.size
  {
    TimesWithin(entry.size, Width(ShapeOf(entry, structured).t));
  }

  lemma OneScalar(t: ScalarType, v: Value)
    requires Pack(t, v).Ok?
    ensures PackAll(t, [v]) == Ok(Pack(t, v).value) && |Pack(t, v).value| == Width(t) == Slots(Width(t), 1)
    ensures Padded(Pack(t, v).value, Width(t)) == Pack(t, v).value
  {
    PackSize(t, v);
    assert [v][1..] == [] && Pack(t, v).value + [] == Pack(t, v).value;
  }

  /** A placed value reads back from its image as itself exactly if it fits. */
  lemma ImageReadsExactly(entry: SymbolEntry, structured: bool, v: SumValue)
    requires Places(entry, structured, v)
    ensures |Image(entry, structured, v)| == entry.size
    ensures ReadVar(entry, structured, Image(entry, structured, v), 0) == Ok(v) <==> Fits(entry, structured, v)
  {
    hide GetNumOfChars, TypeOf, ReadText, ReadTexts, FitTexts, PlaceTexts, TextImage, ArrayImage, Unpack, UnpackAll, Pack, PackAll, FitScalars;
    VariableWrites(entry, structured, v, [], entry.size);
    var image := Image(entry, structured, v);
    assert Slice(image, 0, entry.size) == image;
    match ShapeOf(entry, structured)
    case RawShape =>
    case TextShape(wide) => PlacedTextReads(wide, v.v, entry.size);
    case TextsShape(wide, el) => PlacedTextsRead(entry, structured, v);
    case ScalarsShape(t, n) =>
      ShapeWithin(entry, structured);
      ScalarsReadExactly(t, v.v.vs);
      assert Slice(image, 0, n * Width(t)) == PackAll(t, v.v.vs).value;
    case ScalarShape(t) => ScalarReadsExactly(t, v.v);
  }

  lemma PlacedTextReads(wide: bool, v: Value, size: nat)
    requires PlacesText(wide, v, size)
    ensures |TextImage(wide, v, size)| == size
    ensures ReadText(wide, TextImage(wide, v, size)) == Ok(v.s) <==> FitsText(wide, v, size)
  {
    var w := TextImage(wide, v, size);
    assert w[..|Encoded(wide, v.s)|] == Encoded(wide, v.s);
    ReadsExactly(wide, w, v.s);
  }

  lemma PlacedTextsRead(entry: SymbolEntry, structured: bool, v: SumValue)
    requires Places(entry, structured, v) && ShapeOf(entry, structured).TextsShape?
    requires |Image(entry, structured, v)| == entry.size
    ensures ReadVar(entry, structured, Image(entry, structured, v), 0) == Ok(v) <==> Fits(entry, structured, v)
  {
    hide GetNumOfChars, TypeOf, ReadTexts, FitTexts, PlaceTexts, ArrayImage, AllTexts;
    var TextsShape(wide, el) := ShapeOf(entry, structured);
    var image := Image(entry, structured, v);
    assert Slice(image, 0, entry.size) == image;
    ArrayImageRead(wide, v.v.vs, el, entry.size);
  }

  lemma ArrayImageRead(wide: bool, vs: seq<Value>, el: int, size: nat)
    requires PlaceTexts(wide, vs, Stride(el), size) && (vs != [] ==> el > 0) && (wide ==> el % 2 == 0)
    ensures AllTexts(vs)
    ensures var count, image := ElementCount(size, el), ArrayImage(wide, vs, Stride(el), size);
            && (count == 0 ==> (vs == [] <==> |vs| == count && FitTexts(wide, vs, Stride(el), size)))
            && (count > 0 ==>
                  (ReadTexts(wide, image, el, count) == Ok(vs) <==> |vs| == count && FitTexts(wide, vs, Stride(el), size)))
  {
    PlacedAreTexts(wide, vs, Stride(el), size);
    NothingComesBack(wide, [], Stride(el), size);
    hide *;
    if el > 0 {
      ArrayLays(wide, vs, el, size, [], size);
      CutImage(ArrayImage(wide, vs, el, size), size, TextsGrowth(wide, vs));
      CountedTextsRead(wide, vs, el, size, size, ArrayImage(wide, vs, el, size));
    }
  }

  lemma CutImage(image: seq<byte>, size: nat, left: nat)
    requires |image| == size
    ensures Take(image + Zeros(left), size) == image && [] + Zeros(size) == Zeros(size)
  {
  }

  /** Read from a window that holds what was laid onto zeros: exactly when there are as many as are read, and they fit. */
  lemma CountedTextsRead(wide: bool, vs: seq<Value>, el: nat, size: nat, n: nat, w: seq<byte>)
    requires AllTexts(vs) && el > 0 && (wide ==> el % 2 == 0) && size <= n && |w| == size
    requires |vs| == ElementCount(size, el) ==> w == Take(Laid(wide, Zeros(n), el, vs), size)
    ensures ReadTexts(wide, w, el, ElementCount(size, el)) == Ok(vs) <==>
            |vs| == ElementCount(size, el) && FitTexts(wide, vs, el, size)
  {
    hide ReadTexts, FitTexts, Laid, Slots;
    ReadTextsCount(wide, w, el, ElementCount(size, el));
    if |vs| == ElementCount(size, el) {
      TimesWithin(size, el);
      assert [] + Zeros(n) == Zeros(n);
      ArrayReadsExactly(wide, vs, el, size, [], n);
    }
  }

  // --- texts of any length -------------------------------------------------------------------------

  /** A value of the variable's shape: one that can be placed, or any text or list of texts. */
  predicate Given(entry: SymbolEntry, structured: bool, v: SumValue) {
    match ShapeOf(entry, structured)
    case TextShape(_) => v.Plain? && v.v.TextV?
    case TextsShape(_, el) => v.Plain? && v.v.ListV? && AllTexts(v.v.vs) && (v.v.vs != [] ==> el > 0)
    case _ => Places(entry, structured, v)
  }

  lemma PlacedIsGiven(entry: SymbolEntry, structured: bool, v: SumValue)
    requires Places(entry, structured, v)
    ensures Given(entry, structured, v)
  {
    hide GetNumOfChars, TypeOf, PlaceTexts, Encoded, Pack, PackAll;
    match ShapeOf(entry, structured)
    case TextsShape(wide, el) => PlacedAreTexts(wide, v.v.vs, Stride(el), entry.size);
    case _ =>
  }

  /** The bytes a text starts with; nothing for the other layouts. */
  function TextPart(entry: SymbolEntry, structured: bool, v: SumValue): seq<byte> {
    match ShapeOf(entry, structured)
    case TextShape(wide) => if v.Plain? && v.v.TextV? then Encoded(wide, v.v.s) else []
    case _ => []
  }

  lemma {:induction false} TextsKeep(wide: bool, b: seq<byte>, at: nat, keep: nat, elementSize: nat, vs: seq<Value>)
    requires AllTexts(vs) && keep <= at && keep <= |b|
    ensures var r := WriteTexts(wide, b, at, elementSize, vs);
            r.Ok? && |r.value| >= |b| && r.value[..keep] == b[..keep]
    decreases |vs|
  {
    hide Encoded, WriteText;
    if vs != [] {
      TextKeepsBefore(wide, b, at, keep, vs[0]);
      TextsKeep(wide, WriteText(wide, b, at, vs[0]).value, at + elementSize, keep, elementSize, vs[1..]);
    }
  }

  lemma NothingWritten(wide: bool, b: seq<byte>, at: nat, el: int)
    ensures WriteTexts(wide, b, at, el, []) == Ok(b)
  {
  }

  lemma TextKeepsBefore(wide: bool, b: seq<byte>, at: nat, keep: nat, v: Value)
    requires v.TextV? && keep <= at && keep <= |b|
    ensures var r := WriteText(wide, b, at, v); r.Ok? && |r.value| >= |b| && r.value[..keep] == b[..keep]
  {
    EncodedLength(wide, v.s);
    hide Encoded;
  }

  lemma KeptBefore(a: seq<byte>, b: seq<byte>, c: seq<byte>, at: nat, further: nat)
    requires at <= further <= |b| && at <= |a| && further <= |c| && a[..at] == b[..at] && b[..further] == c[..further]
    ensures a[..at] == c[..at]
  {
    assert b[..at] == b[..further][..at] && c[..at] == c[..further][..at];
  }

  lemma TextKeeps(wide: bool, b: seq<byte>, at: nat, v: Value)
    requires v.TextV? && at <= |b|
    ensures var (r, e) := (WriteText(wide, b, at, v), Encoded(wide, v.s));
            r.Ok? && |r.value| >= |b| && at + |e| <= |r.value| && r.value[..at] == b[..at] && r.value[at..at + |e|] == e
  {
    EncodedLength(wide, v.s);
    hide Encoded;
  }

  /** Writing a variable leaves what lies before it alone, never shortens the buffer, and puts a text at its start. */
  lemma GivenWrites(entry: SymbolEntry, structured: bool, v: SumValue, b: seq<byte>, at: nat)
    requires Given(entry, structured, v) && at + entry.size <= |b|
    ensures var (r, e) := (WriteVar(entry, structured, b, at, v), TextPart(entry, structured, v));
            r.Ok? && |r.value| >= |b| && at + |e| <= |r.value| && r.value[..at] == b[..at] && r.value[at..at + |e|] == e
  {
    hide GetNumOfChars, TypeOf, WriteText, WriteTexts, PlaceTexts, Encoded, Pack, PackAll;
    match ShapeOf(entry, structured)
    case TextShape(wide) => TextKeeps(wide, b, at, v.v);
    case TextsShape(wide, el) =>
      if v.v.vs == [] { NothingWritten(wide, b, at, el); } else { TextsKeep(wide, b, at, at, el, v.v.vs); }
    case ScalarsShape(t, n) =>
      ShapeWithin(entry, structured);
      PackAllSize(t, v.v.vs);
    case ScalarShape(t) => OneScalar(t, v.v);
    case _ =>
  }

  /** A text that does not leave room for its terminator cannot be read from a window it starts. */
  lemma UnterminatedRaises(entry: SymbolEntry, structured: bool, v: SumValue, w: seq<byte>)
    requires Unterminated(entry, structured, v) && |w| == entry.size
    requires Take(w, |TextPart(entry, structured, v)|) == Take(TextPart(entry, structured, v), |w|)
    ensures ReadVar(entry, structured, w, 0).Err?
  {
    hide GetNumOfChars, TypeOf, Encoded, ReadText;
    assert Slice(w, 0, entry.size) == w;
    NoTerminator(ShapeOf(entry, structured).wide, w, v.v.s);
  }

  /** What was written into zeros and does not stay within its variable does not come back from it. */
  lemma UnplacedLost(entry: SymbolEntry, structured: bool, v: SumValue, before: seq<byte>, n: nat)
    requires Given(entry, structured, v) && !Places(entry, structured, v) && entry.size <= n
    ensures var r := WriteVar(entry, structured, before + Zeros(n), |before|, v);
            && r.Ok? && |before| + entry.size <= |r.value|
            && ReadVar(entry, structured, Slice(r.value, |before|, entry.size), 0) != Ok(v)
  {
    hide GetNumOfChars, TypeOf, Encoded, ReadText, ReadTexts, WriteText, WriteTexts, Laid, FitTexts, PlaceTexts;
    GivenWrites(entry, structured, v, before + Zeros(n), |before|);
    var c := WriteVar(entry, structured, before + Zeros(n), |before|, v).value;
    var w := Slice(c, |before|, entry.size);
    assert |w| == entry.size && Slice(w, 0, entry.size) == w;
    match ShapeOf(entry, structured)
    case TextShape(wide) =>
      ReadsExactly(wide, w, v.v.s);
      assert |Encoded(wide, v.v.s)| > |w|;
    case TextsShape(wide, el) => UnplacedTextsLost(wide, v.v.vs, el, before, entry.size, n);
    case _ =>
  }

  lemma UnplacedTextsLost(wide: bool, vs: seq<Value>, el: int, before: seq<byte>, size: nat, n: nat)
    requires AllTexts(vs) && (vs != [] ==> el > 0) && size <= n && !PlaceTexts(wide, vs, Stride(el), size)
    requires wide ==> el % 2 == 0
    ensures vs != []
    ensures var r := WriteTexts(wide, before + Zeros(n), |before|, el, vs);
            && r.Ok? && |before| + size <= |r.value|
            && ReadTexts(wide, Slice(r.value, |before|, size), Stride(el), ElementCount(size, el)) != Ok(vs)
  {
    hide ReadTexts, Laid, WriteTexts, Slots, Encoded;
    assert vs != [];
    TextsKeep(wide, before + Zeros(n), |before|, |before|, el, vs);
    var c := WriteTexts(wide, before + Zeros(n), |before|, el, vs).value;
    var w := Slice(c, |before|, size);
    if |vs| == ElementCount(size, el) {
      TimesWithin(size, el);
      WriteTextsLays(wide, before, Zeros(n), el, vs);
      TakeDropConcat(before, Laid(wide, Zeros(n), el, vs));
    }
    CountedTextsRead(wide, vs, el, size, n, w);
    if FitTexts(wide, vs, el, size) { FitTextsPlace(wide, vs, el, size); }
  }

  /** A text without NUL whose encoding leaves no room for a terminator. */
  predicate Unterminated(entry: SymbolEntry, structured: bool, v: SumValue) {
    var shape := ShapeOf(entry, structured);
    && shape.TextShape? && v.Plain? && v.v.TextV? && 0 !in v.v.s
    && |Encoded(shape.wide, v.v.s)| + CharSize(shape.wide) > entry.size
  }

  // --- windows -------------------------------------------------------------------------------------

  /** A scalar whose entry is smaller than its type. */
  predicate Narrow(entry: SymbolEntry, structured: bool) {
    var shape := ShapeOf(entry, structured);
    shape.ScalarShape? && entry.size < Width(shape.t)
  }

  /** The variable is read from its own window alone, wherever the window lies. */
  ghost predicate ReadsOwnWindow(entry: SymbolEntry, structured: bool) {
    forall b: seq<byte>, at: nat | at + entry.size <= |b| ::
      ReadVar(entry, structured, b, at) == ReadVar(entry, structured, Slice(b, at, entry.size), 0)
  }

  lemma WideReadsOwnWindow(entry: SymbolEntry, structured: bool, b: seq<byte>, at: nat)
    requires !Narrow(entry, structured) && at + entry.size <= |b|
    ensures ReadVar(entry, structured, b, at) == ReadVar(entry, structured, Slice(b, at, entry.size), 0)
  {
    hide GetNumOfChars, TypeOf, ReadText, Unpack;
    var w := Slice(b, at, entry.size);
    assert Slice(w, 0, entry.size) == w;
    if ShapeOf(entry, structured).ScalarsShape? {
      ShapeWithin(entry, structured);
      var m := ShapeOf(entry, structured).n * Width(ShapeOf(entry, structured).t);
      assert Slice(b, at, m) == Slice(w, 0, m);
    }
  }

  /**
   Exactly the entries at least as large as their scalar type are read from their own window alone; a
   smaller one takes bytes of its neighbour.
   */
  lemma OwnWindowExactly(entry: SymbolEntry, structured: bool)
    ensures ReadsOwnWindow(entry, structured) <==> !Narrow(entry, structured)
  {
    if Narrow(entry, structured) {
      var b: seq<byte> := Zeros(8);
      NarrowReads(entry, structured, b);
      assert ReadVar(entry, structured, b, 0) != ReadVar(entry, structured, Slice(b, 0, entry.size), 0);
    } else {
      forall b: seq<byte>, at: nat | at + entry.size <= |b|
        ensures ReadVar(entry, structured, b, at) == ReadVar(entry, structured, Slice(b, at, entry.size), 0)
      {
        WideReadsOwnWindow(entry, structured, b, at);
      }
    }
  }

  lemma NarrowReads(entry: SymbolEntry, structured: bool, b: seq<byte>)
    requires Narrow(entry, structured) && |b| == 8
    ensures ReadVar(entry, structured, b, 0).Ok? && ReadVar(entry, structured, Slice(b, 0, entry.size), 0).Err?
  {
  }
}
