/** Texts longer than their variables: what one call leaves of them in the variables behind, and chunks do not. */
module Spills {
  import opened Wrappers
  import opened Bytes
  import opened Text
  import opened StructureCodec
  import opened AdvancedHandlers
  import opened SumCommands
  import opened SumTexts
  import opened SumLayout
  import opened SumCalls
  import opened SumTheorems
  import opened Connections

  predicate IsString(col: Column) {
    ShapeOf(col.entry, col.structured) == TextShape(false)
  }

  /** The bytes of a text that reach past its own variable and past the characters of the next text. */
  function Residue(s: text, size: nat, t: text): seq<byte> {
    Drop(Utf8(s), size + |t|)
  }

  /** What a variable of this size holds of some bytes, the rest being zeros. */
  function Filled(b: seq<byte>, size: nat): seq<byte> {
    Take(Padded(b, size), size)
  }

  // --- one call ------------------------------------------------------------------------------------

  /** Behind zeros or not, the variable holds the same. */
  lemma FilledAnyway(x: seq<byte>, e: seq<byte>, zeros: nat, count: nat, size: nat)
    requires |x| <= size && count <= |e| + zeros && |x| + (|e| + zeros - count) >= size
    ensures Take(x + Drop(e + Zeros(zeros), count), size) == Filled(x + Drop(e, count), size)
  {
    var a, b := x + Drop(e + Zeros(zeros), count), Padded(x + Drop(e, count), size);
    assert |a| >= size && |b| >= size;
    assert forall k | 0 <= k < size :: a[k] == b[k];
  }

  /** Two texts written one after the other into zeros, the first too long: the second lands on its end. */
  lemma OverlongThenText(s: text, t: text, before: seq<byte>, m: nat, size: nat, n: nat)
    requires |Utf8(s)| > m && m + size <= n && |Utf8(t)| <= size
    ensures var b := WriteText(false, before + Zeros(n), |before|, TextV(s)).value;
            var c := WriteText(false, b, |before| + m, TextV(t)).value;
            && |before| + m + size <= |c|
            && Slice(c, |before| + m, size) == Filled(Utf8(t) + Residue(s, m, t), size)
  {
    EncodedLength(false, s);
    EncodedLength(false, t);
    hide Utf8, Ascii, Splice, Filled, Slice;
    var e, x, left := Utf8(s), Utf8(t), if |s| <= n then n - |s| else 0;
    var head, rest := before + e[..m], e[m..] + Zeros(left);
    OverlongWritten(s, before, m, n);
    SpliceInto(head, rest, |t|, x);
    FilledAnyway(x, e[m..], left, |t|, size);
    assert Drop(e[m..], |t|) == Drop(e, m + |t|);
    SliceOf(head, x + Drop(rest, |t|), size);
  }

  lemma OverlongWritten(s: text, before: seq<byte>, m: nat, n: nat)
    requires m < |Utf8(s)|
    ensures var e := Utf8(s);
            WriteText(false, before + Zeros(n), |before|, TextV(s)) ==
            Ok((before + e[..m]) + (e[m..] + Zeros(if |s| <= n then n - |s| else 0)))
  {
    hide Utf8, Splice;
    var e, left := Utf8(s), if |s| <= n then n - |s| else 0;
    SpliceInto(before, Zeros(n), |s|, e);
    assert Drop(Zeros(n), |s|) == Zeros(left);
    assert before + (e + Zeros(left)) == (before + e[..m]) + (e[m..] + Zeros(left));
  }

  lemma SliceOf(head: seq<byte>, b: seq<byte>, size: nat)
    ensures Slice(head + b, |head|, size) == Take(b, size)
  {
    TakeDropConcat(head, b);
  }

  /**
   Column `i` is a STRING given a text too long for it, the next one a STRING given a text that has room,
   and everything before them has room as well.
   */
  predicate SpillsAt(cols: seq<Column>, vs: seq<SumValue>, i: nat) {
    && AllGiven(cols, vs) && i + 1 < |cols|
    && (forall k | 0 <= k < i :: Places(cols[k].entry, cols[k].structured, vs[k]))
    && IsString(cols[i]) && IsString(cols[i + 1])
    && |Utf8(vs[i].v.s)| > cols[i].entry.size && |Utf8(vs[i + 1].v.s)| <= cols[i + 1].entry.size
  }

  /** What one call leaves in the variable behind the text that is too long. */
  function Spilled(cols: seq<Column>, vs: seq<SumValue>, i: nat): seq<byte>
    requires SpillsAt(cols, vs, i)
  {
    Filled(Utf8(vs[i + 1].v.s) + Residue(vs[i].v.s, cols[i].entry.size, vs[i + 1].v.s), cols[i + 1].entry.size)
  }

  lemma StringIsText(col: Column, v: SumValue, b: seq<byte>, at: nat)
    requires IsString(col) && Given(col.entry, col.structured, v)
    ensures v == Plain(TextV(v.v.s)) && WriteVar(col.entry, col.structured, b, at, v) == WriteText(false, b, at, v.v)
  {
    hide WriteText, Encoded;
  }

  lemma TwoWritten(cols: seq<Column>, vs: seq<SumValue>, b: seq<byte>, at: nat)
    requires |vs| == |cols| >= 2
    ensures var c := WriteVar(cols[0].entry, cols[0].structured, b, at, vs[0]);
            c.Ok? ==>
              var d := WriteVar(cols[1].entry, cols[1].structured, c.value, at + cols[0].entry.size, vs[1]);
              d.Ok? ==>
                WriteVars(cols, vs, b, at) ==
                WriteVars(cols[2..], vs[2..], d.value, at + cols[0].entry.size + cols[1].entry.size)
  {
    hide WriteVar;
    assert cols[1..][1..] == cols[2..] && vs[1..][1..] == vs[2..];
  }

  /** The two texts at the front of a list. */
  lemma {:induction false} FrontWritten(cols: seq<Column>, vs: seq<SumValue>, before: seq<byte>, n: nat) returns (d: seq<byte>)
    requires SpillsAt(cols, vs, 0) && cols[0].entry.size + cols[1].entry.size <= n
    ensures var m, size := cols[0].entry.size, cols[1].entry.size;
            && n + |before| <= |d| && Slice(d, |before| + m, size) == Spilled(cols, vs, 0)
            && WriteVars(cols, vs, before + Zeros(n), |before|) == WriteVars(cols[2..], vs[2..], d, |before| + m + size)
  {
    hide Utf8, Given, WriteText, WriteVars, WriteVar, Filled, Residue;
    var m, size, b := cols[0].entry.size, cols[1].entry.size, before + Zeros(n);
    StringIsText(cols[0], vs[0], b, |before|);
    StringIsText(cols[1], vs[1], b, |before|);
    var s, t := vs[0].v.s, vs[1].v.s;
    TwoTextsKeep(b, |before|, s, m, t);
    var c := WriteText(false, b, |before|, TextV(s)).value;
    StringIsText(cols[1], vs[1], c, |before| + m);
    d := WriteText(false, c, |before| + m, TextV(t)).value;
    OverlongThenText(s, t, before, m, size, n);
    TwoWritten(cols, vs, b, |before|);
  }

  lemma {:induction false} FrontRest(cols: seq<Column>, vs: seq<SumValue>)
    requires SpillsAt(cols, vs, 0)
    ensures |vs| == |cols| >= 2 && AllGiven(cols[2..], vs[2..])
    ensures TotalSize(cols) == cols[0].entry.size + cols[1].entry.size + TotalSize(cols[2..])
  {
    hide Given;
    assert cols[1..][1..] == cols[2..];
  }

  lemma {:induction false} SpillsFirst(cols: seq<Column>, vs: seq<SumValue>, before: seq<byte>, n: nat)
    requires SpillsAt(cols, vs, 0) && TotalSize(cols) <= n
    ensures var r := WriteVars(cols, vs, before + Zeros(n), |before|);
            && r.Ok? && |before| + cols[0].entry.size + cols[1].entry.size <= |r.value|
            && Slice(r.value, |before| + cols[0].entry.size, cols[1].entry.size) == Spilled(cols, vs, 0)
  {
    hide *;
    FrontRest(cols, vs);
    var m, size := cols[0].entry.size, cols[1].entry.size;
    var d := FrontWritten(cols, vs, before, n);
    SliceStays(cols[2..], vs[2..], d, |before| + m, size);
  }

  lemma TwoTextsKeep(b: seq<byte>, at: nat, s: text, m: nat, t: text)
    requires at + m <= |b|
    ensures var c := WriteText(false, b, at, TextV(s));
            c.Ok? && at + m <= |c.value| && |c.value| >= |b|
            && var d := WriteText(false, c.value, at + m, TextV(t)); d.Ok? && |d.value| >= |c.value|
  {
    hide WriteText, Encoded;
    TextKeeps(false, b, at, TextV(s));
    TextKeeps(false, WriteText(false, b, at, TextV(s)).value, at + m, TextV(t));
  }

  lemma SpillsBehind(cols: seq<Column>, vs: seq<SumValue>, i: nat)
    requires SpillsAt(cols, vs, i) && i > 0
    ensures Places(cols[0].entry, cols[0].structured, vs[0]) && SpillsAt(cols[1..], vs[1..], i - 1)
    ensures Spilled(cols[1..], vs[1..], i - 1) == Spilled(cols, vs, i)
  {
    hide Given, Places, Filled, Residue, Utf8, ShapeOf;
    assert forall k | 0 <= k < |cols| - 1 :: cols[1..][k] == cols[k + 1] && vs[1..][k] == vs[k + 1];
  }

  /** The same behind any placed values. */
  lemma {:induction false} SpillsWritten(cols: seq<Column>, vs: seq<SumValue>, i: nat, before: seq<byte>, n: nat)
    requires SpillsAt(cols, vs, i) && TotalSize(cols) <= n
    ensures |vs| == |cols|
    ensures var r := WriteVars(cols, vs, before + Zeros(n), |before|);
            && r.Ok? && Slice(r.value, |before| + StartOf(cols, i + 1), cols[i + 1].entry.size) == Spilled(cols, vs, i)
    decreases i
  {
    hide Given, Places, WriteVar, Image, GrowthOf, Spilled, ShapeOf, Filled;
    if i == 0 {
      SpillsFirst(cols, vs, before, n);
      StartStep(cols, 1);
    } else {
      SpillsBehind(cols, vs, i);
      VariableWrites(cols[0].entry, cols[0].structured, vs[0], before, n);
      var a, g := ImageAt(cols, vs, 0), GrowthOf(cols[0].entry, cols[0].structured, vs[0]);
      SpillsWritten(cols[1..], vs[1..], i - 1, before + a, n - cols[0].entry.size + g);
      StartStep(cols, i + 1);
    }
  }

  /** What one call stores behind a text that is too long for its variable. */
  lemma {:induction false} SpillStored(codes: map<nat, string>, data: Store, cols: seq<Column>, vs: seq<SumValue>, i: nat)
    requires 0 in codes && SpillsAt(cols, vs, i) && Known(data, cols) && DistinctAddresses(cols)
    ensures var (after, statuses) := SumWrite(codes, data, cols, vs);
            var a := cols[i + 1].entry.AsRequest().Address();
            statuses.Ok? && a in after && after[a] == Spilled(cols, vs, i)
  {
    hide *;
    SpillsWithin(cols, vs, i);
    SpillsWritten(cols, vs, i, Headers(cols), TotalSize(cols));
    StoredSlice(codes, data, cols, vs);
    HeadersLength(cols);
  }

  lemma SpillsWithin(cols: seq<Column>, vs: seq<SumValue>, i: nat)
    requires SpillsAt(cols, vs, i)
    ensures AllGiven(cols, vs) && |vs| == |cols| && i + 1 < |cols|
  {
  }

  lemma HeadersLength(cols: seq<Column>)
    ensures |Headers(cols)| == 12 * |cols|
  {
  }

  // --- one name a call -----------------------------------------------------------------------------

  /** Written alone, a value that has room is stored as its image, and nothing else is touched. */
  lemma {:induction false} FirstStored(codes: map<nat, string>, data: Store, cols: seq<Column>, vs: seq<SumValue>)
    requires 0 in codes && cols != [] && AllGiven(cols, vs) && Known(data, cols) && DistinctAddresses(cols)
    ensures |vs| == |cols| && AllGiven(cols[1..], vs[1..])
    ensures var (after, statuses) := SumWrite(codes, data, cols[..1], vs[..1]);
            var a := cols[0].entry.AsRequest().Address();
            && statuses.Ok? && a in after && OthersKept(data, after, cols) && OthersKept(data, after, cols[..1])
            && Known(after, cols[1..]) && DistinctAddresses(cols[1..]) && !Addressed(cols[1..], a)
            && (Places(cols[0].entry, cols[0].structured, vs[0]) ==> after[a] == ImageAt(cols, vs, 0))
  {
    hide Given, Places, Image, SumWrite;
    var first, value := cols[..1], vs[..1];
    assert first == [cols[0]] && value == [vs[0]];
    StoredSlice(codes, data, first, value);
    if Places(cols[0].entry, cols[0].structured, vs[0]) {
      StoredImages(codes, data, first, value);
    }
    assert forall k | 0 < k < |cols| :: cols[k] == cols[1..][k - 1];
    assert forall k | 0 <= k < |cols| - 1 :: cols[1..][k] == cols[k + 1] && vs[1..][k] == vs[k + 1];
    assert forall a | !Addressed(cols, a) :: !Addressed(first, a);
  }

  lemma KeptOnward(before: Store, between: Store, after: Store, cols: seq<Column>, vs: seq<SumValue>)
    requires cols != [] && |vs| == |cols| && OthersKept(before, between, cols) && OthersKept(between, after, cols[1..])
    requires var a := cols[0].entry.AsRequest().Address();
             && a in between && !Addressed(cols[1..], a)
             && (Places(cols[0].entry, cols[0].structured, vs[0]) ==> between[a] == ImageAt(cols, vs, 0))
    requires forall k | 0 <= k < |cols| - 1 && Places(cols[1..][k].entry, cols[1..][k].structured, vs[1..][k]) ::
               var a := cols[1..][k].entry.AsRequest().Address(); a in after && after[a] == ImageAt(cols[1..], vs[1..], k)
    ensures OthersKept(before, after, cols)
    ensures forall k | 0 <= k < |cols| && Places(cols[k].entry, cols[k].structured, vs[k]) ::
              var a := cols[k].entry.AsRequest().Address(); a in after && after[a] == ImageAt(cols, vs, k)
  {
    hide Places, Image;
    assert forall k | 0 < k < |cols| :: cols[k] == cols[1..][k - 1] && vs[k] == vs[1..][k - 1];
    assert forall k | 0 <= k < |cols| - 1 :: cols[1..][k] == cols[k + 1];
    assert forall a | !Addressed(cols, a) :: !Addressed(cols[1..], a);
  }

  /** Written one by one, every value that has room is stored as its image. */
  lemma {:induction false} OneByOneStores(
    codes: map<nat, string>, data: Store, cols: seq<Column>, vs: seq<SumValue>, acc: map<string, string>)
    requires 0 in codes && AllGiven(cols, vs) && Known(data, cols) && DistinctAddresses(cols)
    ensures |vs| == |cols|
    ensures var (after, statuses) := WriteChunks(codes, data, cols, vs, 1, acc);
            && statuses.Ok? && OthersKept(data, after, cols)
            && forall k | 0 <= k < |cols| && Places(cols[k].entry, cols[k].structured, vs[k]) ::
                 var a := cols[k].entry.AsRequest().Address(); a in after && after[a] == ImageAt(cols, vs, k)
    decreases |cols|
  {
    hide Given, Places, Image, SumWrite, Known, DistinctAddresses;
    if cols != [] {
      FirstStored(codes, data, cols, vs);
      var (between, part) := SumWrite(codes, data, cols[..1], vs[..1]);
      OneByOneStores(codes, between, cols[1..], vs[1..], acc + part.value);
      var after := WriteChunks(codes, between, cols[1..], vs[1..], 1, acc + part.value).0;
      hide OthersKept, AllGiven;
      KeptOnward(data, between, after, cols, vs);
    }
  }

  // --- the two compared ----------------------------------------------------------------------------

  /** The residue shows exactly when it is not empty and the next text leaves room for it. */
  lemma ResidueShows(s: text, size: nat, t: text, room: nat)
    requires 0 !in s && |Utf8(t)| <= room
    ensures Filled(Utf8(t) + Residue(s, size, t), room) == TextImage(false, TextV(t), room) <==>
            |Utf8(s)| <= size + |t| || |Utf8(t)| == room
  {
    Utf8RoundTrip(s);
    hide Utf8, Utf8Decode;
    var e, x, r := Utf8(s), Utf8(t), Residue(s, size, t);
    var image := TextImage(false, TextV(t), room);
    if r == [] {
      assert x + r == x;
    } else if |x| < room {
      assert r[0] in e;
      assert Filled(x + r, room)[|x|] == r[0] && image[|x|] == 0;
    }
  }

  lemma StringImage(cols: seq<Column>, vs: seq<SumValue>, i: nat)
    requires SpillsAt(cols, vs, i)
    ensures Places(cols[i + 1].entry, cols[i + 1].structured, vs[i + 1])
    ensures ImageAt(cols, vs, i + 1) == TextImage(false, TextV(vs[i + 1].v.s), cols[i + 1].entry.size)
  {
    hide GetNumOfChars, TypeOf, Utf8, TextImage;
    assert Given(cols[i + 1].entry, cols[i + 1].structured, vs[i + 1]);
  }

  /**
   A text too long for its STRING, with another text behind it: one call leaves what sticks out past the
   second text's characters in the second variable, as far as that has room; written one by one, the second
   variable holds its own text alone. Both report success. They agree on it exactly when nothing sticks out
   so far or the second text leaves no room.
   */
  lemma {:induction false} SpillExactly(codes: map<nat, string>, data: Store, cols: seq<Column>, vs: seq<SumValue>, i: nat)
    requires 0 in codes && SpillsAt(cols, vs, i) && 0 !in vs[i].v.s && Known(data, cols) && DistinctAddresses(cols)
    ensures var (one, a) := (SumWrite(codes, data, cols, vs), cols[i + 1].entry.AsRequest().Address());
            var each := WriteList(codes, data, cols, vs, 1);
            && one.1.Ok? && each.1.Ok? && a in one.0 && a in each.0
            && one.0[a] == Spilled(cols, vs, i) && each.0[a] == ImageAt(cols, vs, i + 1)
            && (one.0[a] == each.0[a] <==>
                  |Utf8(vs[i].v.s)| <= cols[i].entry.size + |vs[i + 1].v.s|
                  || |Utf8(vs[i + 1].v.s)| == cols[i + 1].entry.size)
  {
    SpillStored(codes, data, cols, vs, i);
    OneByOneStores(codes, data, cols, vs, map[]);
    StringImage(cols, vs, i);
    ResidueShows(vs[i].v.s, cols[i].entry.size, vs[i + 1].v.s, cols[i + 1].entry.size);
    hide Given, Places, Image, TextImage, SumWrite, WriteChunks, Filled, Residue, Known, DistinctAddresses, OthersKept, Utf8;
  }

  /** The smallest case: "abc" and "" for two STRINGs of two bytes. */
  lemma {:induction false} SpillExample(codes: map<nat, string>, data: Store, a: Column, b: Column)
    requires 0 in codes && IsString(a) && IsString(b) && a.entry.size == b.entry.size == 2
    requires Known(data, [a, b]) && DistinctAddresses([a, b])
    ensures var vs := [Plain(TextV([97, 98, 99])), Plain(TextV([]))];
            var address := b.entry.AsRequest().Address();
            var one, each := SumWrite(codes, data, [a, b], vs).0, WriteList(codes, data, [a, b], vs, 1).0;
            address in one && one[address] == [99, 0] && address in each && each[address] == [0, 0]
  {
    var vs := [Plain(TextV([97, 98, 99])), Plain(TextV([]))];
    ExampleSpills(a, b);
    StringImage([a, b], vs, 0);
    hide SumWrite, WriteList, SpillsAt, Known, DistinctAddresses, Places, Image;
    SpillExactly(codes, data, [a, b], vs, 0);
  }

  lemma ExampleSpills(a: Column, b: Column)
    requires IsString(a) && IsString(b) && a.entry.size == b.entry.size == 2
    ensures var vs := [Plain(TextV([97, 98, 99])), Plain(TextV([]))];
            && SpillsAt([a, b], vs, 0) && Spilled([a, b], vs, 0) == [99, 0]
            && TextImage(false, TextV([]), 2) == [0, 0]
  {
    hide ShapeOf;
    var s: text := [97, 98, 99];
    Utf8Length(s);
    assert Utf8(s) == [97, 98, 99];
  }
}
