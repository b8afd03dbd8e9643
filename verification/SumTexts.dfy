/** Texts and text arrays of a sum call: how they are laid onto the buffer, and exactly which come back. */
module SumTexts {
  import opened Wrappers
  import opened Bytes
  import opened Text
  import opened StructureCodec
  import opened CodecTheorems
  import opened SumCommands

  // --- texts ---------------------------------------------------------------------------------------

  /** The characters that take as many bytes as the writer counts. */
  predicate Plainly(wide: bool, s: text) {
    if wide then Bmp(s) else Ascii(s)
  }

  /** A text the writer can place: its encoding takes no more bytes than there are. */
  predicate PlacesText(wide: bool, v: Value, room: int) {
    v.TextV? && |Encoded(wide, v.s)| <= room
  }

  /** One the reader can find again: without NUL, and with room for a terminator. */
  predicate FitsText(wide: bool, v: Value, room: int) {
    v.TextV? && 0 !in v.s && |Encoded(wide, v.s)| + CharSize(wide) <= room
  }

  lemma EncodedLength(wide: bool, s: text)
    ensures |Encoded(wide, s)| >= CharSize(wide) * |s|
    ensures |Encoded(wide, s)| == CharSize(wide) * |s| <==> Plainly(wide, s)
    ensures wide ==> |Encoded(wide, s)| % 2 == 0
  {
    if wide {
      Utf16Length(s);
      Utf16NoNull(s);
    } else {
      Utf8Length(s);
    }
  }

  /** The bytes by which writing a text makes the buffer grow: those of its encoding beyond the ones counted. */
  function Growth(wide: bool, s: text): nat {
    EncodedLength(wide, s);
    |Encoded(wide, s)| - CharSize(wide) * |s|
  }

  /**
   Writing a text keeps the length of the buffer exactly when its characters are plain: ASCII in a
   STRING, the basic multilingual plane in a WSTRING. Any other text makes it grow.
   */
  lemma TextResizesExactly(wide: bool, b: seq<byte>, at: nat, s: text)
    requires at + CharSize(wide) * |s| <= |b|
    ensures WriteText(wide, b, at, TextV(s)).Ok?
    ensures |WriteText(wide, b, at, TextV(s)).value| == |b| + Growth(wide, s)
    ensures |WriteText(wide, b, at, TextV(s)).value| == |b| <==> Plainly(wide, s)
  {
    EncodedLength(wide, s);
  }

  /** The encoding and zeros up to the room there is. */
  function TextImage(wide: bool, v: Value, room: int): seq<byte> {
    if v.TextV? then Encoded(wide, v.s) + Zeros(room - |Encoded(wide, v.s)|) else Zeros(room)
  }

  /** The window starts with the text and its terminator, and the text holds no NUL. */
  predicate Terminated(wide: bool, w: seq<byte>, s: text) {
    var e := Encoded(wide, s);
    && 0 !in s && |e| + CharSize(wide) <= |w|
    && w[..|e|] == e && w[|e|] == 0 && (wide ==> w[|e| + 1] == 0)
  }

  lemma {:induction false} BeforeZeroStops(a: seq<byte>, rest: seq<byte>)
    requires 0 !in a && rest != [] && rest[0] == 0
    ensures BeforeZero(a + rest) == a
  {
    if a == [] {
      assert a + rest == rest;
    } else {
      assert (a + rest)[1..] == a[1..] + rest;
      BeforeZeroStops(a[1..], rest);
    }
  }

  lemma {:induction false} ZeroBehind(b: seq<byte>)
    requires 0 in b
    ensures |BeforeZero(b)| < |b| && b[|BeforeZero(b)|] == 0
  {
    if b[0] != 0 {
      ZeroBehind(b[1..]);
    }
  }

  lemma BeforeWideNullStops(a: seq<byte>, rest: seq<byte>)
    requires NoWideNull(a) && |rest| >= 2 && rest[0] == 0 && rest[1] == 0
    ensures WideNull(a + rest) == Some(|a|) && BeforeWideNull(a + rest) == a
  {
    var b := a + rest;
    assert forall k: nat | 2 * k < |a| :: UnitAt(b, k) == UnitAt(a, k);
    assert b[|a|] == 0 && b[|a| + 1] == 0;
    WideNullIs(b, 0, |a|);
  }

  /** A text reads back as itself exactly from the windows that start with it and its terminator. */
  lemma ReadsExactly(wide: bool, w: seq<byte>, s: text)
    ensures ReadText(wide, w) == Ok(s) <==> Terminated(wide, w, s)
  {
    if Terminated(wide, w, s) {
      TerminatedReads(wide, w, s);
    }
    if ReadText(wide, w) == Ok(s) {
      ReadIsTerminated(wide, w, s);
    }
  }

  lemma TerminatedReads(wide: bool, w: seq<byte>, s: text)
    requires Terminated(wide, w, s)
    ensures ReadText(wide, w) == Ok(s)
  {
    var e := Encoded(wide, s);
    var rest := w[|e|..];
    assert w == e + rest && rest[0] == 0;
    if wide {
      Utf16NoNull(s);
      BeforeWideNullStops(e, rest);
      Utf16RoundTrip(s);
    } else {
      Utf8RoundTrip(s);
      assert rest[0] in w;
      BeforeZeroStops(e, rest);
    }
  }

  lemma ReadIsTerminated(wide: bool, w: seq<byte>, s: text)
    requires ReadText(wide, w) == Ok(s)
    ensures Terminated(wide, w, s)
  {
    hide Utf8, Utf8Decode, Utf16, Utf16Decode;
    if wide {
      ReadWideIsTerminated(w, s);
    } else {
      Utf8OfDecoded(BeforeZero(w));
      Utf8RoundTrip(s);
      BeforeZeroIsPrefix(w);
      ZeroBehind(w);
    }
  }

  lemma ReadWideIsTerminated(w: seq<byte>, s: text)
    requires ReadText(true, w) == Ok(s)
    ensures Terminated(true, w, s)
  {
    hide Utf16, Utf16Decode;
    var at := WideNull(w).value;
    Utf16OfDecoded(w[..at]);
    Utf16NoNull(s);
    forall k: nat | 2 * k + 1 < at ensures UnitAt(w[..at], k) != 0 {
      assert w[2 * k] != 0 || w[2 * k + 1] != 0;
    }
  }

  /** A window without room for the terminator of the text it starts with cannot be read. */
  lemma NoTerminator(wide: bool, w: seq<byte>, s: text)
    requires 0 !in s && |w| < |Encoded(wide, s)| + CharSize(wide)
    requires Take(w, |Encoded(wide, s)|) == Take(Encoded(wide, s), |w|)
    ensures ReadText(wide, w) == Err(ValueError)
  {
    var e := Encoded(wide, s);
    if wide {
      Utf16NoNull(s);
      forall k: nat | 2 * k + 1 < |w| ensures UnitAt(w, k) != 0 {
        assert 2 * k + 1 < |e| && e[2 * k] == Take(w, |e|)[2 * k] && e[2 * k + 1] == Take(w, |e|)[2 * k + 1];
        assert UnitAt(e, k) == UnitAt(w, k);
      }
      WideNullNone(w, 0);
    } else {
      Utf8RoundTrip(s);
      assert w == e[..|w|];
    }
  }

  /**
   A text without NUL, of any length, comes back from its variable exactly if its encoding leaves room
   for a terminator; otherwise reading raises.
   */
  lemma TextReadsExactly(wide: bool, s: text, size: nat)
    requires 0 !in s
    ensures ReadText(wide, Take(TextImage(wide, TextV(s), size), size)) ==
            if |Encoded(wide, s)| + CharSize(wide) <= size then Ok(s) else Err(ValueError)
  {
    var w := Take(TextImage(wide, TextV(s), size), size);
    if |Encoded(wide, s)| + CharSize(wide) <= size {
      ReadsExactly(wide, w, s);
    } else {
      NoTerminator(wide, w, s);
    }
  }

  /** Replacing the first of some zeros. */
  lemma SpliceOver(before: seq<byte>, n: nat, count: nat, x: seq<byte>)
    requires count <= n
    ensures Splice(before + Zeros(n), |before|, |before| + count, x) == before + x + Zeros(n - count)
  {
  }

  /** A text written into zeros fills its slot and leaves zeros behind it, more than there were when it is not plain. */
  lemma TextWrites(wide: bool, v: Value, room: int, before: seq<byte>, n: nat)
    requires PlacesText(wide, v, room) && room <= n
    ensures WriteText(wide, before + Zeros(n), |before|, v) ==
            Ok((before + TextImage(wide, v, room)) + Zeros(n - room + Growth(wide, v.s)))
    ensures |TextImage(wide, v, room)| == room
  {
    EncodedLength(wide, v.s);
    var a, count := Encoded(wide, v.s), CharSize(wide) * |v.s|;
    SpliceOver(before, n, count, a);
    hide Splice, Encoded, CharSize;
    assert before + a + Zeros(n - count) == (before + (a + Zeros(room - |a|))) + Zeros(n - count - (room - |a|));
  }

  lemma PlacedText(wide: bool, v: Value, room: nat)
    requires PlacesText(wide, v, room)
    ensures v == TextV(v.s) && |TextImage(wide, v, room)| == room && |Encoded(wide, v.s)| <= room
  {
  }

  // --- text arrays ---------------------------------------------------------------------------------

  predicate AllTexts(vs: seq<Value>) {
    vs == [] || (vs[0].TextV? && AllTexts(vs[1..]))
  }

  /** Some bytes with a text written over the first of them. */
  function Onto(wide: bool, x: seq<byte>, s: text): seq<byte> {
    Encoded(wide, s) + Drop(x, CharSize(wide) * |s|)
  }

  /** Some bytes with the texts written onto them in order, `el` bytes apart. */
  function Laid(wide: bool, x: seq<byte>, el: nat, vs: seq<Value>): seq<byte>
    requires AllTexts(vs)
    decreases |vs|
  {
    if vs == [] then x else
    var y := Onto(wide, x, vs[0].s);
    Take(y, el) + Laid(wide, Drop(y, el), el, vs[1..])
  }

  /** Replacing the first bytes of what follows. */
  lemma SpliceInto(before: seq<byte>, rest: seq<byte>, count: nat, x: seq<byte>)
    ensures Splice(before + rest, |before|, |before| + count, x) == before + (x + Drop(rest, count))
  {
  }

  lemma OntoLength(wide: bool, x: seq<byte>, s: text)
    ensures |Onto(wide, x, s)| >= |x|
  {
    EncodedLength(wide, s);
    hide Encoded;
  }

  /** Writing an array is laying its texts onto what follows. */
  lemma {:induction false} WriteTextsLays(wide: bool, before: seq<byte>, x: seq<byte>, el: nat, vs: seq<Value>)
    requires AllTexts(vs) && Slots(el, |vs|) <= |x|
    ensures WriteTexts(wide, before + x, |before|, el, vs) == Ok(before + Laid(wide, x, el, vs))
    decreases |vs|
  {
    hide Encoded, Splice;
    if vs != [] {
      var y := Onto(wide, x, vs[0].s);
      SpliceInto(before, x, CharSize(wide) * |vs[0].s|, Encoded(wide, vs[0].s));
      OntoLength(wide, x, vs[0].s);
      hide Onto;
      assert before + y == (before + y[..el]) + y[el..];
      WriteTextsLays(wide, before + y[..el], y[el..], el, vs[1..]);
      assert (before + y[..el]) + Laid(wide, y[el..], el, vs[1..]) == before + (y[..el] + Laid(wide, y[el..], el, vs[1..]));
    }
  }

  // --- what an array leaves in its variable --------------------------------------------------------

  /**
   Texts that stay within the array's variable: each within its element, or running on into exactly the
   text behind it, or, for the last, within what the array leaves of the variable.
   */
  predicate PlaceTexts(wide: bool, vs: seq<Value>, el: nat, room: nat) {
    vs == [] ||
    (&& vs[0].TextV? && el <= room
     && (|| |Encoded(wide, vs[0].s)| <= el
         || (|vs| == 1 && |Encoded(wide, vs[0].s)| <= room)
         || RunsOn(wide, vs, el))
     && PlaceTexts(wide, vs[1..], el, room - el))
  }

  /** The first text fills its element and goes on with exactly the next one, which overwrites it byte by byte. */
  predicate RunsOn(wide: bool, vs: seq<Value>, el: nat)
    requires vs != [] && vs[0].TextV?
  {
    && |vs| > 1 && vs[1].TextV? && Plainly(wide, vs[1].s) && el <= |Encoded(wide, vs[0].s)|
    && Encoded(wide, vs[0].s)[el..] == Encoded(wide, vs[1].s)
  }

  lemma {:induction false} PlacedAreTexts(wide: bool, vs: seq<Value>, el: nat, room: nat)
    requires PlaceTexts(wide, vs, el, room)
    ensures AllTexts(vs) && Slots(el, |vs|) <= room
  {
    hide RunsOn, Encoded;
    if vs != [] {
      PlacedAreTexts(wide, vs[1..], el, room - el);
    }
  }

  lemma {:induction false} FirstWithin(wide: bool, vs: seq<Value>, el: nat, room: nat)
    requires PlaceTexts(wide, vs, el, room) && vs != []
    ensures |Encoded(wide, vs[0].s)| <= room
    decreases |vs|
  {
    hide Encoded;
    if |vs| > 1 {
      FirstWithin(wide, vs[1..], el, room - el);
    }
  }

  /** The bytes of an array's variable: each text's in its element, the last one's as far as it goes. */
  function ArrayImage(wide: bool, vs: seq<Value>, el: nat, room: int): seq<byte>
    requires AllTexts(vs)
  {
    if vs == [] then Zeros(room)
    else if |vs| == 1 then TextImage(wide, vs[0], room)
    else Take(TextImage(wide, vs[0], el), el) + ArrayImage(wide, vs[1..], el, room - el)
  }

  function TextsGrowth(wide: bool, vs: seq<Value>): nat {
    if vs == [] then 0 else (if vs[0].TextV? then Growth(wide, vs[0].s) else 0) + TextsGrowth(wide, vs[1..])
  }

  /** What lies where a text is to be written: zeros, or the very text, run on from the one before. */
  predicate Awaits(wide: bool, t: seq<byte>, vs: seq<Value>)
    requires AllTexts(vs)
  {
    t == [] || (vs != [] && t == Encoded(wide, vs[0].s) && Plainly(wide, vs[0].s))
  }

  lemma OntoZeros(wide: bool, t: seq<byte>, n: nat, vs: seq<Value>)
    requires vs != [] && AllTexts(vs) && Awaits(wide, t, vs)
    ensures var s := vs[0].s;
            var left := if t != [] then n else if CharSize(wide) * |s| <= n then n - CharSize(wide) * |s| else 0;
            && Onto(wide, t + Zeros(n), s) == Encoded(wide, s) + Zeros(left)
            && (CharSize(wide) * |s| <= |t| + n ==> |Encoded(wide, s)| + left == |t| + n + Growth(wide, s))
  {
    EncodedLength(wide, vs[0].s);
    hide Encoded, Plainly;
  }

  lemma TakeAndDrop(b: seq<byte>, n: nat)
    ensures Take(b, n) + Drop(b, n) == b
  {
  }

  /** Bytes and zeros cut behind an element. */
  lemma CutZeros(e: seq<byte>, left: nat, el: nat)
    requires el <= |e| + left
    ensures var (y, t) := (e + Zeros(left), if |e| <= el then [] else e[el..]);
            && Drop(y, el) == t + Zeros(|y| - el - |t|) && |Take(y, el)| == el
            && Take(y, el) == Take(e + Zeros(el - |e|), el)
  {
    var y := e + Zeros(left);
    if |e| <= el {
      assert Drop(y, el) == [] + Zeros(|y| - el);
    } else {
      assert Drop(y, el) == e[el..] + Zeros(left);
    }
  }

  /** What a text and the zeros behind it leave for the next element. */
  lemma LeftForNext(wide: bool, vs: seq<Value>, el: nat, left: nat)
    requires vs != [] && AllTexts(vs) && el <= |Encoded(wide, vs[0].s)| + left
    requires |Encoded(wide, vs[0].s)| <= el || RunsOn(wide, vs, el)
    ensures var y := Encoded(wide, vs[0].s) + Zeros(left);
            var t := if |Encoded(wide, vs[0].s)| <= el then [] else Encoded(wide, vs[0].s)[el..];
            && Awaits(wide, t, vs[1..]) && Drop(y, el) == t + Zeros(|y| - el - |t|) && |Take(y, el)| == el
            && Take(y, el) == Take(TextImage(wide, vs[0], el), el)
  {
    hide Encoded, Plainly, Drop, Take, Zeros;
    CutZeros(Encoded(wide, vs[0].s), left, el);
  }

  lemma NothingLays(wide: bool, el: nat, room: nat, t: seq<byte>, n: nat)
    requires Awaits(wide, t, []) && room <= |t| + n
    ensures |ArrayImage(wide, [], el, room)| == room && TextsGrowth(wide, []) == 0
    ensures Laid(wide, t + Zeros(n), el, []) == ArrayImage(wide, [], el, room) + Zeros(|t| + n - room)
  {
  }

  lemma LaidCons(wide: bool, x: seq<byte>, el: nat, vs: seq<Value>)
    requires AllTexts(vs) && vs != []
    ensures vs[0].TextV? && AllTexts(vs[1..])
    ensures var y := Onto(wide, x, vs[0].s); Laid(wide, x, el, vs) == Take(y, el) + Laid(wide, Drop(y, el), el, vs[1..])
    ensures |vs| == 1 ==> Laid(wide, x, el, vs) == Onto(wide, x, vs[0].s)
  {
    hide Onto;
    TakeAndDrop(Onto(wide, x, vs[0].s), el);
  }

  lemma PlaceCons(wide: bool, vs: seq<Value>, el: nat, room: nat)
    requires PlaceTexts(wide, vs, el, room) && vs != []
    ensures vs[0].TextV? && |Encoded(wide, vs[0].s)| <= room && CharSize(wide) * |vs[0].s| <= room
    ensures |vs| > 1 ==> |Encoded(wide, vs[0].s)| <= el || RunsOn(wide, vs, el)
    ensures el <= room && PlaceTexts(wide, vs[1..], el, room - el)
  {
    FirstWithin(wide, vs, el, room);
    EncodedLength(wide, vs[0].s);
    hide Encoded, Plainly;
  }

  lemma ImageCons(wide: bool, vs: seq<Value>, el: nat, room: nat)
    requires AllTexts(vs) && vs != []
    ensures |vs| == 1 ==> ArrayImage(wide, vs, el, room) == TextImage(wide, vs[0], room)
    ensures |vs| > 1 ==>
              ArrayImage(wide, vs, el, room) ==
              Take(TextImage(wide, vs[0], el), el) + ArrayImage(wide, vs[1..], el, room - el)
    ensures TextsGrowth(wide, vs) == Growth(wide, vs[0].s) + if |vs| == 1 then 0 else TextsGrowth(wide, vs[1..])
  {
    hide TextImage, Growth;
  }

  lemma LastLays(wide: bool, v: Value, room: nat, left: nat)
    requires v.TextV? && |Encoded(wide, v.s)| <= room <= |Encoded(wide, v.s)| + left
    ensures |TextImage(wide, v, room)| == room
    ensures Encoded(wide, v.s) + Zeros(left) == TextImage(wide, v, room) + Zeros(|Encoded(wide, v.s)| + left - room)
  {
    hide Encoded;
  }

  /** An array that stays within its variable leaves its image there and zeros behind. */
  lemma {:induction false} ArrayLays(wide: bool, vs: seq<Value>, el: nat, room: nat, t: seq<byte>, n: nat)
    requires PlaceTexts(wide, vs, el, room) && AllTexts(vs) && Awaits(wide, t, vs) && room <= |t| + n
    ensures |ArrayImage(wide, vs, el, room)| == room
    ensures Laid(wide, t + Zeros(n), el, vs) ==
            ArrayImage(wide, vs, el, room) + Zeros(|t| + n - room + TextsGrowth(wide, vs))
    decreases |vs|
  {
    hide *;
    if vs == [] {
      NothingLays(wide, el, room, t, n);
    } else {
      PlaceCons(wide, vs, el, room);
      LaidCons(wide, t + Zeros(n), el, vs);
      ImageCons(wide, vs, el, room);
      OntoZeros(wide, t, n, vs);
      var e, y := Encoded(wide, vs[0].s), Onto(wide, t + Zeros(n), vs[0].s);
      if |vs| == 1 {
        LastLays(wide, vs[0], room, |y| - |e|);
      } else {
        LeftForNext(wide, vs, el, |y| - |e|);
        var t' := if |e| <= el then [] else e[el..];
        ArrayLays(wide, vs[1..], el, room - el, t', |y| - el - |t'|);
      }
    }
  }

  // --- exactly which arrays come back --------------------------------------------------------------

  /**
   Texts that come back from an array: without NUL, and each with a terminator, in its own element, behind
   the text it runs on into, or, for the last, in what the array leaves of the variable.
   */
  predicate FitTexts(wide: bool, vs: seq<Value>, el: nat, room: nat) {
    vs == [] ||
    (&& vs[0].TextV? && el <= room && 0 !in vs[0].s
     && (|| |Encoded(wide, vs[0].s)| + CharSize(wide) <= el
         || (|vs| == 1 && |Encoded(wide, vs[0].s)| + CharSize(wide) <= room)
         || RunsOn(wide, vs, el))
     && FitTexts(wide, vs[1..], el, room - el))
  }

  lemma {:induction false} FitTextsPlace(wide: bool, vs: seq<Value>, el: nat, room: nat)
    requires FitTexts(wide, vs, el, room)
    ensures PlaceTexts(wide, vs, el, room)
  {
    hide RunsOn, Encoded;
    if vs != [] {
      FitTextsPlace(wide, vs[1..], el, room - el);
    }
  }

  /** The texts laid onto some bytes are read back from the first `room` of them. */
  predicate ReadBack(wide: bool, x: seq<byte>, el: nat, vs: seq<Value>, room: nat)
    requires AllTexts(vs)
  {
    ReadTexts(wide, Take(Laid(wide, x, el, vs), room), el, |vs|) == Ok(vs)
  }

  lemma Cons(v: Value, rest: seq<Value>, vs: seq<Value>)
    requires vs != []
    ensures [v] + rest == vs <==> v == vs[0] && rest == vs[1..]
  {
    assert ([v] + rest)[1..] == rest && vs == [vs[0]] + vs[1..];
  }

  lemma {:induction false} ReadTextsCount(wide: bool, w: seq<byte>, elementSize: nat, n: nat)
    ensures ReadTexts(wide, w, elementSize, n).Ok? ==> |ReadTexts(wide, w, elementSize, n).value| == n
    decreases n
  {
    hide ReadText;
    if n > 0 {
      ReadTextsCount(wide, Drop(w, elementSize), elementSize, n - 1);
    }
  }

  lemma ReadTextsCons(wide: bool, a: seq<byte>, rest: seq<byte>, vs: seq<Value>)
    requires vs != [] && vs[0].TextV?
    ensures ReadTexts(wide, a + rest, |a|, |vs|) == Ok(vs) <==>
            Terminated(wide, a + rest, vs[0].s) && ReadTexts(wide, rest, |a|, |vs| - 1) == Ok(vs[1..])
  {
    hide ReadText, Terminated;
    TakeDropConcat(a, rest);
    ReadsExactly(wide, a + rest, vs[0].s);
    var r, tail := ReadText(wide, a + rest), ReadTexts(wide, rest, |a|, |vs| - 1);
    if r.Ok? && tail.Ok? {
      Cons(TextV(r.value), tail.value, vs);
    }
  }

  lemma TakeConcat(a: seq<byte>, b: seq<byte>, n: nat)
    requires |a| <= n
    ensures Take(a + b, n) == a + Take(b, n - |a|)
  {
  }

  /** The first text's window is its element and the window of the next. */
  lemma ReadBackCons(wide: bool, x: seq<byte>, el: nat, vs: seq<Value>, room: nat)
    requires AllTexts(vs) && vs != [] && el <= room && el <= |Onto(wide, x, vs[0].s)|
    ensures var y := Onto(wide, x, vs[0].s);
            var (a, w) := (Take(y, el), Take(Laid(wide, Drop(y, el), el, vs[1..]), room - el));
            && Take(Laid(wide, x, el, vs), room) == a + w && |a| == el
            && (ReadBack(wide, x, el, vs, room) <==>
                  Terminated(wide, a + w, vs[0].s) && ReadBack(wide, Drop(y, el), el, vs[1..], room - el))
  {
    hide Onto, Terminated, Laid, Encoded, ReadTexts, CharSize;
    var y := Onto(wide, x, vs[0].s);
    var a, w := Take(y, el), Take(Laid(wide, Drop(y, el), el, vs[1..]), room - el);
    LaidCons(wide, x, el, vs);
    TakeConcat(a, Laid(wide, Drop(y, el), el, vs[1..]), room);
    ReadTextsCons(wide, a, w, vs);
  }

  lemma FirstTerminated(wide: bool, x: seq<byte>, el: nat, vs: seq<Value>, room: nat)
    requires AllTexts(vs) && vs != [] && ReadBack(wide, x, el, vs, room)
    ensures Terminated(wide, Take(Laid(wide, x, el, vs), room), vs[0].s)
  {
    hide Laid, ReadText, Terminated;
    ReadsExactly(wide, Take(Laid(wide, x, el, vs), room), vs[0].s);
  }

  lemma ShortTerminated(wide: bool, s: text, el: nat, w: seq<byte>)
    requires |Encoded(wide, s)| + CharSize(wide) <= el
    ensures Terminated(wide, (Encoded(wide, s) + Zeros(el - |Encoded(wide, s)|)) + w, s) <==> 0 !in s
  {
    hide Encoded;
    var e := Encoded(wide, s);
    assert ((e + Zeros(el - |e|)) + w)[..|e|] == e;
  }

  lemma LastTerminated(wide: bool, s: text, left: nat, room: nat)
    requires room <= |Encoded(wide, s)| + left
    ensures Terminated(wide, Take(Encoded(wide, s) + Zeros(left), room), s) <==>
            0 !in s && |Encoded(wide, s)| + CharSize(wide) <= room
  {
    hide Encoded;
    var e := Encoded(wide, s);
    if |e| <= room { assert Take(e + Zeros(left), room)[..|e|] == e; }
  }

  /** A text that goes on with the next one has its terminator where the next one has. */
  lemma OverhangFits(wide: bool, s: text, a: seq<byte>, w: seq<byte>, t: text)
    requires |a| <= |Encoded(wide, s)| && a == Encoded(wide, s)[..|a|] && Encoded(wide, s)[|a|..] == Encoded(wide, t)
    requires Terminated(wide, w, t) && 0 !in s
    ensures Terminated(wide, a + w, s)
  {
    hide Encoded;
    var e, f := Encoded(wide, s), Encoded(wide, t);
    assert e == a + f && (a + w)[..|e|] == a + w[..|f|];
  }

  /** No zero in the bytes, or no aligned zero unit. */
  ghost predicate NoNulls(wide: bool, b: seq<byte>) {
    if wide then NoWideNull(b) else 0 !in b
  }

  lemma NullFree(wide: bool, s: text)
    requires 0 !in s
    ensures NoNulls(wide, Encoded(wide, s))
  {
    if wide { Utf16NoNull(s); } else { Utf8RoundTrip(s); }
  }

  lemma NoNullsSuffix(wide: bool, b: seq<byte>, n: nat)
    requires NoNulls(wide, b) && n <= |b| && (wide ==> n % 2 == 0)
    ensures NoNulls(wide, b[n..])
  {
    if wide {
      NoWideNullConcat(b[..n], b[n..]);
      assert b[..n] + b[n..] == b;
    }
  }

  /** What comes before the first terminator. */
  function BeforeNull(wide: bool, w: seq<byte>): seq<byte> {
    if wide then BeforeWideNull(w) else BeforeZero(w)
  }

  lemma BeforeNullIs(wide: bool, b: seq<byte>, w: seq<byte>)
    requires NoNulls(wide, b) && |b| + CharSize(wide) <= |w| && w[..|b|] == b && w[|b|] == 0 && (wide ==> w[|b| + 1] == 0)
    ensures BeforeNull(wide, w) == b
  {
    assert w == b + w[|b|..];
    if wide { BeforeWideNullStops(b, w[|b|..]); } else { BeforeZeroStops(b, w[|b|..]); }
  }

  /** Two texts that both come back, the first one filling its element: it goes on with exactly the second. */
  lemma OverhangIs(wide: bool, s: text, a: seq<byte>, w: seq<byte>, t: text)
    requires |a| <= |Encoded(wide, s)| && (wide ==> |a| % 2 == 0)
    requires Terminated(wide, a + w, s) && Terminated(wide, w, t)
    ensures a == Encoded(wide, s)[..|a|] && Encoded(wide, s)[|a|..] == Encoded(wide, t)
  {
    var e, f := Encoded(wide, s), Encoded(wide, t);
    NullFree(wide, s);
    NullFree(wide, t);
    NoNullsSuffix(wide, e, |a|);
    hide Encoded, NoNulls, BeforeNull;
    assert (a + w)[..|e|] == a + w[..|e| - |a|];
    assert (a + w)[..|e|][..|a|] == a && (a + w)[..|e|][|a|..] == w[..|e| - |a|];
    BeforeNullIs(wide, e[|a|..], w);
    BeforeNullIs(wide, f, w);
  }

  /** A text with something left standing behind it has no terminator there. */
  lemma ResidueStands(wide: bool, w: seq<byte>, s: text, r: seq<byte>)
    requires r != [] && NoNulls(wide, r)
    requires |w| >= |Encoded(wide, s)| + CharSize(wide) ==>
               |r| >= CharSize(wide) && w[|Encoded(wide, s)|..][..CharSize(wide)] == r[..CharSize(wide)]
    ensures !Terminated(wide, w, s)
  {
    hide Encoded;
    var n := |Encoded(wide, s)|;
    if |w| >= n + CharSize(wide) {
      assert w[n] == w[n..][..CharSize(wide)][0] == r[0];
      if wide {
        assert w[n + 1] == w[n..][..2][1] == r[1];
        assert UnitAt(r, 0) != 0;
      }
    }
  }

  /** What stands behind a text once it is written over a copy of itself. */
  function Standing(wide: bool, s: text, r: seq<byte>): seq<byte> {
    Drop(Encoded(wide, s), CharSize(wide) * |s|) + r
  }

  lemma DropWithin(e: seq<byte>, r: seq<byte>, z: seq<byte>, n: nat)
    requires n <= |e|
    ensures Drop(e + r + z, n) == (e[n..] + r) + z
  {
  }

  lemma StandingFree(wide: bool, s: text, r: seq<byte>)
    requires 0 !in s && NoNulls(wide, r)
    ensures NoNulls(wide, Standing(wide, s, r))
  {
    EncodedLength(wide, s);
    NullFree(wide, s);
    var e, count := Encoded(wide, s), CharSize(wide) * |s|;
    NoNullsSuffix(wide, e, count);
    hide Encoded, Plainly;
    if wide { NoWideNullConcat(e[count..], r); }
  }

  lemma OntoItself(wide: bool, s: text, r: seq<byte>, n: nat)
    requires 0 !in s && NoNulls(wide, r)
    ensures Onto(wide, Encoded(wide, s) + r + Zeros(n), s) == Encoded(wide, s) + (Standing(wide, s, r) + Zeros(n))
    ensures NoNulls(wide, Standing(wide, s, r)) && |Standing(wide, s, r)| == |r| + Growth(wide, s)
  {
    EncodedLength(wide, s);
    StandingFree(wide, s, r);
    hide Encoded, Plainly, NoNulls;
    DropWithin(Encoded(wide, s), r, Zeros(n), CharSize(wide) * |s|);
  }

  lemma Inner(b: seq<byte>, kept: nat, i: nat, n: nat)
    requires i + n <= kept <= |b|
    ensures b[..kept][i..i + n] == b[i..i + n] && b[i..][..n] == b[i..i + n]
  {
  }

  lemma StandsBehind(wide: bool, s: text, q: seq<byte>, n: nat, w: seq<byte>, kept: nat)
    requires q != [] && NoNulls(wide, q) && kept <= |w| && kept <= |Encoded(wide, s)| + |q| + n
    requires w[..kept] == (Encoded(wide, s) + (q + Zeros(n)))[..kept]
    requires kept == |w| || |Encoded(wide, s)| + CharSize(wide) <= kept
    ensures !Terminated(wide, w, s)
  {
    hide Encoded;
    var e := Encoded(wide, s);
    if |w| >= |e| + CharSize(wide) {
      var c, y := CharSize(wide), e + (q + Zeros(n));
      assert |q| >= c;
      Inner(w, kept, |e|, c);
      Inner(y, kept, |e|, c);
      assert y[|e|..|e| + c] == q[..c];
    }
    ResidueStands(wide, w, s, q);
  }

  /** Once something stands behind a text of the array, not all of them come back. */
  lemma {:induction false} ResidueLost(wide: bool, vs: seq<Value>, el: nat, room: nat, r: seq<byte>, n: nat)
    requires AllTexts(vs) && vs != [] && el > 0 && (wide ==> el % 2 == 0) && Slots(el, |vs|) <= room
    requires 0 !in vs[0].s && NoNulls(wide, r) && |r| + Growth(wide, vs[0].s) > 0
    requires room <= |Encoded(wide, vs[0].s)| + |r| + n
    ensures !ReadBack(wide, Encoded(wide, vs[0].s) + r + Zeros(n), el, vs, room)
    decreases |vs|
  {
    hide Encoded, Onto, Growth, Standing, NoNulls, Terminated, ReadBack, Laid;
    var e, q := Encoded(wide, vs[0].s), Standing(wide, vs[0].s, r);
    var x, y := e + r + Zeros(n), e + (q + Zeros(n));
    OntoItself(wide, vs[0].s, r, n);
    EncodedLength(wide, vs[0].s);
    ReadBackCons(wide, x, el, vs, room);
    LaidCons(wide, x, el, vs);
    var a, w := Take(y, el), Take(Laid(wide, Drop(y, el), el, vs[1..]), room - el);
    if ReadBack(wide, x, el, vs, room) {
      if |e| + CharSize(wide) <= el {
        assert (a + w)[..el] == y[..el];
        StandsBehind(wide, vs[0].s, q, n, a + w, el);
      } else if |vs| == 1 {
        assert a + w == Take(y, room);
        StandsBehind(wide, vs[0].s, q, n, a + w, room);
      } else {
        FirstTerminated(wide, Drop(y, el), el, vs[1..], room - el);
        OverhangIs(wide, vs[0].s, a, w, vs[1].s);
        assert Drop(y, el) == e[el..] + q + Zeros(n);
        TerminatedNullFree(wide, w, vs[1].s);
        ResidueLost(wide, vs[1..], el, room - el, q, n);
      }
    }
  }

  lemma TerminatedNullFree(wide: bool, w: seq<byte>, s: text)
    requires Terminated(wide, w, s)
    ensures 0 !in s
  {
  }

  lemma CoversCons(wide: bool, vs: seq<Value>, el: nat, room: nat)
    requires vs != [] && AllTexts(vs) && el <= room && (wide ==> el % 2 == 0)
    ensures var n := |Encoded(wide, vs[0].s)|;
            && (n + CharSize(wide) > el ==> n >= el)
            && (FitTexts(wide, vs, el, room) <==>
                  && 0 !in vs[0].s
                  && (n + CharSize(wide) <= el || (|vs| == 1 && n + CharSize(wide) <= room) || RunsOn(wide, vs, el))
                  && FitTexts(wide, vs[1..], el, room - el))
    ensures |vs| == 1 ==> FitTexts(wide, vs[1..], el, room - el) && !RunsOn(wide, vs, el)
  {
    EncodedLength(wide, vs[0].s);
    hide Encoded, Plainly;
  }

  /** Where the text runs on into the next, it comes back exactly when it holds no NUL and the others come back. */
  lemma RunningOn(wide: bool, x: seq<byte>, el: nat, vs: seq<Value>, room: nat, left: nat)
    requires AllTexts(vs) && vs != [] && el <= room && RunsOn(wide, vs, el)
    requires Onto(wide, x, vs[0].s) == Encoded(wide, vs[0].s) + Zeros(left)
    ensures ReadBack(wide, x, el, vs, room) <==>
            0 !in vs[0].s && ReadBack(wide, Drop(Onto(wide, x, vs[0].s), el), el, vs[1..], room - el)
  {
    hide Encoded, Onto, ReadBack, Laid, Plainly;
    var e, y := Encoded(wide, vs[0].s), Onto(wide, x, vs[0].s);
    var a, w := Take(y, el), Take(Laid(wide, Drop(y, el), el, vs[1..]), room - el);
    ReadBackCons(wide, x, el, vs, room);
    assert a == e[..el];
    if 0 !in vs[0].s && ReadBack(wide, Drop(y, el), el, vs[1..], room - el) {
      FirstTerminated(wide, Drop(y, el), el, vs[1..], room - el);
      OverhangFits(wide, vs[0].s, a, w, vs[1].s);
    }
  }

  /** A text that fills its element, has another behind it and does not run on into that: not both come back. */
  lemma NotRunningOn(wide: bool, x: seq<byte>, el: nat, vs: seq<Value>, room: nat, left: nat)
    requires AllTexts(vs) && |vs| > 1 && el > 0 && (wide ==> el % 2 == 0) && Slots(el, |vs|) <= room
    requires el <= |Encoded(wide, vs[0].s)| && !RunsOn(wide, vs, el)
    requires Onto(wide, x, vs[0].s) == Encoded(wide, vs[0].s) + Zeros(left) && room <= |Encoded(wide, vs[0].s)| + left
    ensures !ReadBack(wide, x, el, vs, room)
  {
    hide Encoded, Onto, ReadBack, Laid, Terminated, NoNulls;
    var e, y := Encoded(wide, vs[0].s), Onto(wide, x, vs[0].s);
    var a, w := Take(y, el), Take(Laid(wide, Drop(y, el), el, vs[1..]), room - el);
    ReadBackCons(wide, x, el, vs, room);
    if ReadBack(wide, x, el, vs, room) {
      FirstTerminated(wide, Drop(y, el), el, vs[1..], room - el);
      OverhangIs(wide, vs[0].s, a, w, vs[1].s);
      TerminatedNullFree(wide, w, vs[1].s);
      EncodedLength(wide, vs[1].s);
      assert Drop(y, el) == e[el..] + [] + Zeros(left);
      NoNullsNothing(wide);
      ResidueLost(wide, vs[1..], el, room - el, [], left);
    }
  }

  lemma NoNullsNothing(wide: bool)
    ensures NoNulls(wide, [])
  {
  }

  /** Exactly: the texts of an array, whatever their lengths and characters, come back if and only if they fit. */
  lemma {:induction false} ArrayReadsExactly(wide: bool, vs: seq<Value>, el: nat, room: nat, t: seq<byte>, n: nat)
    requires AllTexts(vs) && Awaits(wide, t, vs) && el > 0 && (wide ==> el % 2 == 0) && Slots(el, |vs|) <= room <= |t| + n
    ensures ReadBack(wide, t + Zeros(n), el, vs, room) <==> FitTexts(wide, vs, el, room)
    decreases |vs|
  {
    hide *;
    if vs == [] {
      NothingComesBack(wide, t + Zeros(n), el, room);
    } else {
      FirstSlot(el, vs);
      OntoZeros(wide, t, n, vs);
      var x, e := t + Zeros(n), Encoded(wide, vs[0].s);
      OntoLength(wide, x, vs[0].s);
      var y := Onto(wide, x, vs[0].s);
      var left := |y| - |e|;
      CoversCons(wide, vs, el, room);
      if |e| + CharSize(wide) <= el {
        ShortComesBack(wide, x, el, vs, room, left);
        ArrayReadsExactly(wide, vs[1..], el, room - el, [], |y| - el);
      } else if |vs| == 1 {
        LastComesBack(wide, x, el, vs, room, left);
      } else if RunsOn(wide, vs, el) {
        RunningOn(wide, x, el, vs, room, left);
        LeftForNext(wide, vs, el, left);
        var t' := if |e| <= el then [] else e[el..];
        ArrayReadsExactly(wide, vs[1..], el, room - el, t', |y| - el - |t'|);
      } else {
        NotRunningOn(wide, x, el, vs, room, left);
      }
    }
  }

  lemma FirstSlot(el: nat, vs: seq<Value>)
    requires AllTexts(vs) && vs != []
    ensures vs[0].TextV? && AllTexts(vs[1..]) && Slots(el, |vs|) == el + Slots(el, |vs| - 1)
  {
  }

  /** A text with a terminator in its own element comes back exactly when it holds no NUL. */
  lemma ShortComesBack(wide: bool, x: seq<byte>, el: nat, vs: seq<Value>, room: nat, left: nat)
    requires AllTexts(vs) && vs != [] && el <= room && |Encoded(wide, vs[0].s)| + CharSize(wide) <= el
    requires Onto(wide, x, vs[0].s) == Encoded(wide, vs[0].s) + Zeros(left) && el <= |Encoded(wide, vs[0].s)| + left
    ensures var y := Onto(wide, x, vs[0].s);
            && Drop(y, el) == [] + Zeros(|y| - el) && Awaits(wide, [], vs[1..])
            && (ReadBack(wide, x, el, vs, room) <==> 0 !in vs[0].s && ReadBack(wide, Drop(y, el), el, vs[1..], room - el))
  {
    hide Encoded, Onto, ReadBack, Laid, Terminated;
    var e, y := Encoded(wide, vs[0].s), Onto(wide, x, vs[0].s);
    ReadBackCons(wide, x, el, vs, room);
    CutZeros(e, left, el);
    assert Take(e + Zeros(el - |e|), el) == e + Zeros(el - |e|);
    ShortTerminated(wide, vs[0].s, el, Take(Laid(wide, Drop(y, el), el, vs[1..]), room - el));
  }

  lemma NothingComesBack(wide: bool, x: seq<byte>, el: nat, room: nat)
    ensures ReadBack(wide, x, el, [], room) && FitTexts(wide, [], el, room)
  {
  }

  lemma LastComesBack(wide: bool, x: seq<byte>, el: nat, vs: seq<Value>, room: nat, left: nat)
    requires AllTexts(vs) && |vs| == 1 && el <= room <= |Encoded(wide, vs[0].s)| + left
    requires Onto(wide, x, vs[0].s) == Encoded(wide, vs[0].s) + Zeros(left)
    ensures ReadBack(wide, x, el, vs, room) <==> 0 !in vs[0].s && |Encoded(wide, vs[0].s)| + CharSize(wide) <= room
  {
    hide Encoded, Onto, ReadBack, Laid, Terminated;
    ReadBackCons(wide, x, el, vs, room);
    LaidCons(wide, x, el, vs);
    LastTerminated(wide, vs[0].s, left, room);
    NothingComesBack(wide, Drop(Onto(wide, x, vs[0].s), el), el, room - el);
    assert vs[1..] == [];
  }
}
