/** Text as Unicode scalar values, and its UTF-8 and UTF-16 (little-endian) encodings. */
module Text {
  import opened Wrappers
  import opened Bytes

  type scalar = c: int | 0 <= c < 0xD800 || 0xE000 <= c < 0x11_0000

  type text = seq<scalar>

  predicate Ascii(s: text) {
    forall k | 0 <= k < |s| :: s[k] < 128
  }

  // --- UTF-8 ---------------------------------------------------------------------------------------

  function Utf8Char(c: scalar): seq<byte> {
    if c < 0x80 then [c]
    else if c < 0x800 then [0xC0 + c / 64, 0x80 + c % 64]
    else if c < 0x1_0000 then [0xE0 + c / 4096, 0x80 + c / 64 % 64, 0x80 + c % 64]
    else [0xF0 + c / 262144, 0x80 + c / 4096 % 64, 0x80 + c / 64 % 64, 0x80 + c % 64]
  }

  function Utf8(s: text): seq<byte> {
    if s == [] then [] else Utf8Char(s[0]) + Utf8(s[1..])
  }

  predicate Continues(b: byte) {
    0x80 <= b < 0xC0
  }

  /** The payload bits of a byte under its marker. */
  function Low(b: byte, marker: int): int {
    b as int - marker
  }

  /** The first character of a byte sequence and its length; None when it is malformed. */
  function Utf8Head(b: seq<byte>): (r: Option<(scalar, nat)>)
    requires b != []
    ensures r.Some? ==> 0 < r.value.1 <= |b|
  {
    if b[0] < 0x80 then Some((b[0], 1))
    else if 0xC2 <= b[0] < 0xE0 && |b| >= 2 && Continues(b[1]) then
      Some((Low(b[0], 0xC0) * 64 + Low(b[1], 0x80), 2))
    else if 0xE0 <= b[0] < 0xF0 && |b| >= 3 && Continues(b[1]) && Continues(b[2]) then
      var c := Low(b[0], 0xE0) * 4096 + Low(b[1], 0x80) * 64 + Low(b[2], 0x80);
      if c >= 0x800 && !(0xD800 <= c < 0xE000) then Some((c, 3)) else None
    else if 0xF0 <= b[0] < 0xF5 && |b| >= 4 && Continues(b[1]) && Continues(b[2]) && Continues(b[3]) then
      var c := Low(b[0], 0xF0) * 262144 + Low(b[1], 0x80) * 4096 + Low(b[2], 0x80) * 64 + Low(b[3], 0x80);
      if 0x1_0000 <= c < 0x11_0000 then Some((c, 4)) else None
    else None
  }

  function Utf8Decode(b: seq<byte>): Result<text>
    decreases |b|
  {
    if b == [] then Ok([]) else
    match Utf8Head(b)
    case None => Err(UnicodeError)
    case Some((c, n)) =>
      var rest :- Utf8Decode(b[n..]);
      Ok([c] + rest)
  }

  lemma Utf8HeadOfThree(c: scalar, rest: seq<byte>)
    requires 0x800 <= c < 0x1_0000
    ensures Utf8Head(Utf8Char(c) + rest) == Some((c, 3))
  {
    var x, y, z := c / 4096, c / 64 % 64, c % 64;
    var e := Utf8Char(c) + rest;
    assert e[0] == 0xE0 + x && e[1] == 0x80 + y && e[2] == 0x80 + z;
    assert c == x * 4096 + y * 64 + z;
  }

  lemma Digits64(c: nat)
    ensures c == c / 262144 * 262144 + c / 4096 % 64 * 4096 + c / 64 % 64 * 64 + c % 64
  {
    assert c / 4096 == c / 64 / 64 && c / 262144 == c / 4096 / 64;
  }

  lemma Utf8HeadOfFour(c: scalar, rest: seq<byte>)
    requires 0x1_0000 <= c
    ensures Utf8Head(Utf8Char(c) + rest) == Some((c, 4))
  {
    var w, x, y, z := c / 262144, c / 4096 % 64, c / 64 % 64, c % 64;
    var e := Utf8Char(c) + rest;
    Digits64(c);
    assert 0 <= w < 5 && 0 <= x < 64 && 0 <= y < 64 && 0 <= z < 64;
    assert e[0] == 0xF0 + w && e[1] == 0x80 + x && e[2] == 0x80 + y && e[3] == 0x80 + z;
  }

  lemma Utf8HeadOfChar(c: scalar, rest: seq<byte>)
    ensures Utf8Head(Utf8Char(c) + rest) == Some((c, |Utf8Char(c)|))
  {
    var e := Utf8Char(c) + rest;
    if 0x80 <= c < 0x800 {
      assert e[0] == 0xC0 + c / 64 && e[1] == 0x80 + c % 64;
    } else if 0x800 <= c < 0x1_0000 {
      Utf8HeadOfThree(c, rest);
    } else if 0x1_0000 <= c {
      Utf8HeadOfFour(c, rest);
    }
  }

  lemma Utf8CharShape(c: scalar)
    ensures 0 in Utf8Char(c) <==> c == 0
    ensures 1 <= |Utf8Char(c)| && (|Utf8Char(c)| == 1 <==> c < 128)
  {
  }

  /** Decoding what was encoded gives the text back; the encoding has a zero byte exactly if the text has a NUL. */
  lemma {:induction false} Utf8RoundTrip(s: text)
    ensures Utf8Decode(Utf8(s)) == Ok(s)
    ensures 0 in Utf8(s) <==> 0 in s
  {
    if s != [] {
      Utf8HeadOfChar(s[0], Utf8(s[1..]));
      Utf8CharShape(s[0]);
      Utf8RoundTrip(s[1..]);
      assert s == [s[0]] + s[1..];
      assert Utf8(s)[|Utf8Char(s[0])|..] == Utf8(s[1..]);
    }
  }

  lemma Utf8CharOfThree(x: nat, y: nat, z: nat)
    requires x < 16 && y < 64 && z < 64
    ensures var c := x * 4096 + y * 64 + z;
            0x800 <= c && !(0xD800 <= c < 0xE000) ==> Utf8Char(c) == [0xE0 + x, 0x80 + y, 0x80 + z]
  {
    Sixes(x * 64 + y, z);
    Sixes(x, y);
    var c := x * 4096 + y * 64 + z;
    assert c == (x * 64 + y) * 64 + z && c / 4096 == x;
  }

  lemma Utf8CharOfFour(w: nat, x: nat, y: nat, z: nat)
    requires w < 5 && x < 64 && y < 64 && z < 64
    ensures var c := w * 262144 + x * 4096 + y * 64 + z;
            0x1_0000 <= c < 0x11_0000 ==> Utf8Char(c) == [0xF0 + w, 0x80 + x, 0x80 + y, 0x80 + z]
  {
    Sixes((w * 64 + x) * 64 + y, z);
    Sixes(w * 64 + x, y);
    Sixes(w, x);
    var c := w * 262144 + x * 4096 + y * 64 + z;
    assert c == ((w * 64 + x) * 64 + y) * 64 + z;
    Digits64(c);
    assert c / 64 / 64 == w * 64 + x && c / 4096 == c / 64 / 64 && c / 262144 == c / 4096 / 64;
  }

  lemma Utf8HeadBack(b: seq<byte>)
    requires b != [] && Utf8Head(b).Some?
    ensures Utf8Char(Utf8Head(b).value.0) == b[..Utf8Head(b).value.1]
  {
    var n := Utf8Head(b).value.1;
    if n == 2 {
      Sixes(Low(b[0], 0xC0), Low(b[1], 0x80));
    } else if n == 3 {
      hide Utf8Char;
      Utf8CharOfThree(Low(b[0], 0xE0), Low(b[1], 0x80), Low(b[2], 0x80));
    } else if n == 4 {
      hide Utf8Char;
      Utf8CharOfFour(Low(b[0], 0xF0), Low(b[1], 0x80), Low(b[2], 0x80), Low(b[3], 0x80));
    }
  }

  lemma Sixes(hi: nat, lo: nat)
    requires lo < 64
    ensures (hi * 64 + lo) / 64 == hi && (hi * 64 + lo) % 64 == lo
  {
  }

  /** What decodes is the encoding of what it decodes to. */
  lemma {:induction false} Utf8OfDecoded(b: seq<byte>)
    requires Utf8Decode(b).Ok?
    ensures Utf8(Utf8Decode(b).value) == b
    decreases |b|
  {
    hide Utf8Head, Utf8Char;
    if b != [] {
      var (c, n) := Utf8Head(b).value;
      Utf8OfDecoded(b[n..]);
      Utf8HeadBack(b);
      assert Utf8Decode(b).value == [c] + Utf8Decode(b[n..]).value;
      assert Utf8Decode(b).value[1..] == Utf8Decode(b[n..]).value;
      assert b == b[..n] + b[n..];
    }
  }

  /** UTF-8 is never shorter than the text, and as long exactly for ASCII. */
  lemma {:induction false} Utf8Length(s: text)
    ensures |Utf8(s)| >= |s|
    ensures |Utf8(s)| == |s| <==> Ascii(s)
    ensures Ascii(s) ==> Utf8(s) == s
  {
    if s != [] {
      Utf8CharShape(s[0]);
      Utf8Length(s[1..]);
      assert Ascii(s) <==> s[0] < 128 && Ascii(s[1..]) by {
        assert forall k | 0 <= k < |s| :: k > 0 ==> s[k] == s[1..][k - 1];
        assert forall k | 0 <= k < |s| - 1 :: s[1..][k] == s[k + 1];
      }
    }
  }

  lemma {:induction false} Utf8DecodeAscii(b: seq<byte>)
    requires forall k | 0 <= k < |b| :: b[k] < 128
    ensures Utf8Decode(b) == Ok(b)
  {
    if b != [] {
      Utf8DecodeAscii(b[1..]);
      assert b == [b[0]] + b[1..];
    }
  }

  // --- UTF-16 --------------------------------------------------------------------------------------

  function Unit(u: nat): seq<byte>
    requires u < 0x1_0000
  {
    [u % 256, u / 256]
  }

  function Utf16Char(c: scalar): seq<byte> {
    if c < 0x1_0000 then Unit(c)
    else Unit(0xD800 + (c - 0x1_0000) / 1024) + Unit(0xDC00 + (c - 0x1_0000) % 1024)
  }

  function Utf16(s: text): seq<byte> {
    if s == [] then [] else Utf16Char(s[0]) + Utf16(s[1..])
  }

  /** Within the basic multilingual plane: no surrogate pairs. */
  predicate Bmp(s: text) {
    forall k | 0 <= k < |s| :: s[k] < 0x1_0000
  }

  /** UTF-16 takes at least two bytes a character, and exactly two within the basic multilingual plane. */
  lemma {:induction false} Utf16Length(s: text)
    ensures |Utf16(s)| >= 2 * |s|
    ensures |Utf16(s)| == 2 * |s| <==> Bmp(s)
  {
    if s != [] {
      Utf16Length(s[1..]);
      assert Bmp(s) <==> s[0] < 0x1_0000 && Bmp(s[1..]) by {
        assert forall k | 0 <= k < |s| :: k > 0 ==> s[k] == s[1..][k - 1];
        assert forall k | 0 <= k < |s| - 1 :: s[1..][k] == s[k + 1];
      }
    }
  }

  function UnitAt(b: seq<byte>, k: nat): nat
    requires 2 * k + 1 < |b|
  {
    b[2 * k] as int + 256 * b[2 * k + 1] as int
  }

  function Utf16Head(b: seq<byte>): (r: Option<(scalar, nat)>)
    requires b != []
    ensures r.Some? ==> 0 < r.value.1 <= |b|
  {
    if |b| < 2 then None
    else
      var u := UnitAt(b, 0);
      if u < 0xD800 || u >= 0xE000 then Some((u, 2))
      else if u < 0xDC00 && |b| >= 4 && 0xDC00 <= UnitAt(b, 1) < 0xE000 then
        Some((0x1_0000 + (u - 0xD800) * 1024 + (UnitAt(b, 1) - 0xDC00), 4))
      else None
  }

  function Utf16Decode(b: seq<byte>): Result<text>
    decreases |b|
  {
    if b == [] then Ok([]) else
    match Utf16Head(b)
    case None => Err(UnicodeError)
    case Some((c, n)) =>
      var rest :- Utf16Decode(b[n..]);
      Ok([c] + rest)
  }

  /** The place of the first aligned zero unit at or after `from`. */
  function WideNullFrom(b: seq<byte>, from: nat): (r: Option<nat>)
    requires from % 2 == 0
    ensures r.Some? ==> from <= r.value && r.value % 2 == 0 && r.value + 1 < |b| && b[r.value] == 0 && b[r.value + 1] == 0
    ensures forall k | from <= k && k % 2 == 0 && k + 1 < |b| && (r.Some? ==> k < r.value) :: b[k] != 0 || b[k + 1] != 0
    decreases |b| - from
  {
    if from + 1 >= |b| then None
    else if b[from] == 0 && b[from + 1] == 0 then Some(from)
    else WideNullFrom(b, from + 2)
  }

  function WideNull(b: seq<byte>): Option<nat> {
    WideNullFrom(b, 0)
  }

  /** `find_wstring_null_terminator`. */
  method FindWstringNullTerminator(data: seq<byte>) returns (r: Option<nat>)
    ensures r == WideNull(data)
  {
    var ix := 1;
    while ix < |data|
      invariant ix % 2 == 1 && WideNull(data) == WideNullFrom(data, ix - 1)
    {
      if data[ix - 1] == 0 && data[ix] == 0 {
        return Some(ix - 1);
      }
      ix := ix + 2;
    }
    r := None;
  }

  /** The bytes before the terminator; all of them when there is none. */
  function BeforeWideNull(b: seq<byte>): seq<byte> {
    var at := WideNull(b);
    if at.Some? then b[..at.value] else b
  }

  lemma Utf16HeadOfChar(c: scalar, rest: seq<byte>)
    ensures Utf16Head(Utf16Char(c) + rest) == Some((c, |Utf16Char(c)|))
    ensures |Utf16Char(c)| in {2, 4}
    ensures c != 0 ==> UnitAt(Utf16Char(c), 0) != 0 && (|Utf16Char(c)| == 4 ==> UnitAt(Utf16Char(c), 1) != 0)
  {
    var e := Utf16Char(c) + rest;
    if c < 0x1_0000 {
      assert e[0] == c % 256 && e[1] == c / 256;
    } else {
      var d := c - 0x1_0000;
      assert e[0] == (0xD800 + d / 1024) % 256 && e[1] == (0xD800 + d / 1024) / 256;
      assert e[2] == (0xDC00 + d % 1024) % 256 && e[3] == (0xDC00 + d % 1024) / 256;
    }
  }

  /** No aligned unit of the bytes is zero. */
  ghost predicate NoWideNull(b: seq<byte>) {
    |b| % 2 == 0 && forall k: nat | 2 * k + 1 < |b| :: UnitAt(b, k) != 0
  }

  lemma NoWideNullConcat(a: seq<byte>, b: seq<byte>)
    requires |a| % 2 == 0
    ensures NoWideNull(a + b) <==> NoWideNull(a) && NoWideNull(b)
  {
    assert forall k: nat | 2 * k + 1 < |a| :: UnitAt(a + b, k) == UnitAt(a, k);
    assert forall k: nat | 2 * k + 1 < |b| :: UnitAt(b, k) == UnitAt(a + b, |a| / 2 + k);
    if NoWideNull(a) && NoWideNull(b) {
      forall k: nat | 2 * k + 1 < |a + b|
        ensures UnitAt(a + b, k) != 0
      {
        if 2 * k < |a| {
          assert UnitAt(a + b, k) == UnitAt(a, k);
        } else {
          assert UnitAt(a + b, k) == UnitAt(b, k - |a| / 2);
        }
      }
    }
  }

  lemma Utf16CharShape(c: scalar)
    ensures |Utf16Char(c)| % 2 == 0 && (NoWideNull(Utf16Char(c)) <==> c != 0)
  {
    Utf16HeadOfChar(c, []);
    if c == 0 { assert UnitAt(Utf16Char(c), 0) == 0; }
    assert forall k: nat | 2 * k + 1 < |Utf16Char(c)| :: k == 0 || k == 1;
  }

  /** The encoding has no zero unit exactly if the text has no NUL. */
  lemma {:induction false} Utf16NoNull(s: text)
    ensures |Utf16(s)| % 2 == 0
    ensures NoWideNull(Utf16(s)) <==> 0 !in s
  {
    if s != [] {
      Utf16CharShape(s[0]);
      Utf16NoNull(s[1..]);
      NoWideNullConcat(Utf16Char(s[0]), Utf16(s[1..]));
    }
  }

  lemma {:induction false} Utf16RoundTrip(s: text)
    ensures Utf16Decode(Utf16(s)) == Ok(s)
  {
    if s != [] {
      Utf16HeadOfChar(s[0], Utf16(s[1..]));
      Utf16RoundTrip(s[1..]);
      assert s == [s[0]] + s[1..];
      assert Utf16(s)[|Utf16Char(s[0])|..] == Utf16(s[1..]);
    }
  }

  lemma UnitBack(lo: byte, hi: byte)
    ensures lo as int + 256 * hi as int < 0x1_0000 && Unit(lo as int + 256 * hi as int) == [lo, hi]
  {
    var u := lo as int + 256 * hi as int;
    assert u % 256 == lo && u / 256 == hi;
  }

  lemma Utf16HeadBack(b: seq<byte>)
    requires b != [] && Utf16Head(b).Some?
    ensures Utf16Char(Utf16Head(b).value.0) == b[..Utf16Head(b).value.1]
  {
    var (c, n) := Utf16Head(b).value;
    UnitBack(b[0], b[1]);
    hide Unit;
    if n == 4 {
      UnitBack(b[2], b[3]);
      assert Utf16Char(c) == Unit(UnitAt(b, 0)) + Unit(UnitAt(b, 1));
    }
  }

  /** What decodes is the encoding of what it decodes to. */
  lemma {:induction false} Utf16OfDecoded(b: seq<byte>)
    requires Utf16Decode(b).Ok?
    ensures Utf16(Utf16Decode(b).value) == b
    decreases |b|
  {
    hide Utf16Head, Utf16Char;
    if b != [] {
      var (c, n) := Utf16Head(b).value;
      Utf16OfDecoded(b[n..]);
      Utf16HeadBack(b);
      assert Utf16Decode(b).value == [c] + Utf16Decode(b[n..]).value;
      assert Utf16Decode(b).value[1..] == Utf16Decode(b[n..]).value;
      assert b == b[..n] + b[n..];
    }
  }

  /** The search finds a zero unit with none before it. */
  lemma {:induction false} WideNullIs(b: seq<byte>, from: nat, at: nat)
    requires from % 2 == 0 && at % 2 == 0 && from <= at && at + 1 < |b| && b[at] == 0 && b[at + 1] == 0
    requires forall k: nat | from <= 2 * k < at :: UnitAt(b, k) != 0
    ensures WideNullFrom(b, from) == Some(at)
    decreases at - from
  {
    if from < at {
      assert UnitAt(b, from / 2) != 0;
      WideNullIs(b, from + 2, at);
    }
  }

  lemma {:induction false} WideNullNone(b: seq<byte>, from: nat)
    requires from % 2 == 0 && forall k: nat | 2 * k + 1 < |b| :: UnitAt(b, k) != 0
    ensures WideNullFrom(b, from) == None
    decreases |b| - from
  {
    if from + 1 < |b| {
      assert UnitAt(b, from / 2) != 0;
      WideNullNone(b, from + 2);
    }
  }

  lemma WideNullOfPadded(a: seq<byte>, n: nat)
    requires NoWideNull(a) && n % 2 == 0
    ensures BeforeWideNull(a + Zeros(n)) == a
  {
    var b := a + Zeros(n);
    if n == 0 {
      assert b == a;
      WideNullNone(a, 0);
    } else {
      assert forall k: nat | 2 * k < |a| :: UnitAt(b, k) == UnitAt(a, k);
      WideNullIs(b, 0, |a|);
    }
  }

  /** Bytes that are no encoding raise a UnicodeError. */
  lemma {:induction false} UndecodableRaises(b: seq<byte>)
    ensures Utf8Decode(b).Err? ==> Utf8Decode(b) == Err(UnicodeError)
    ensures Utf16Decode(b).Err? ==> Utf16Decode(b) == Err(UnicodeError)
    decreases |b|
  {
    if b != [] {
      if Utf8Head(b).Some? { UndecodableRaises(b[Utf8Head(b).value.1..]); }
      if Utf16Head(b).Some? { UndecodableRaises(b[Utf16Head(b).value.1..]); }
    }
  }

  // --- known encodings -----------------------------------------------------------------------------

  /** One character of each length: A, e with acute, the euro sign, and the first emoticon of U+1F600. */
  lemma KnownEncodings()
    ensures Utf8([0x41]) == [0x41] && Utf8([0xE9]) == [0xC3, 0xA9] && Utf8([0x20AC]) == [0xE2, 0x82, 0xAC]
    ensures Utf8([0x1F600]) == [0xF0, 0x9F, 0x98, 0x80]
    ensures Utf16([0x41]) == [0x41, 0] && Utf16([0x20AC]) == [0xAC, 0x20] && Utf16([0x1F600]) == [0x3D, 0xD8, 0x00, 0xDE]
  {
    OneCharacter(0x41);
    OneCharacter(0xE9);
    OneCharacter(0x20AC);
    OneCharacter(0x1F600);
  }

  lemma OneCharacter(c: scalar)
    ensures Utf8([c]) == Utf8Char(c) && Utf16([c]) == Utf16Char(c)
  {
    assert [c][1..] == [] && Utf8Char(c) + [] == Utf8Char(c) && Utf16Char(c) + [] == Utf16Char(c);
  }

  /** The bits of a character, six to a continuation byte: what every UTF-8 encoding spells. */
  lemma Utf8Spells(c: scalar)
    ensures var b := Utf8Char(c);
            && (c < 0x80 ==> b == [c])
            && (0x80 <= c < 0x800 ==> |b| == 2 && c == (b[0] as int - 0xC0) * 64 + (b[1] as int - 0x80))
            && (0x800 <= c < 0x1_0000 ==> |b| == 3 && c == (b[0] as int - 0xE0) * 4096 + (b[1] as int - 0x80) * 64 + (b[2] as int - 0x80))
            && (0x1_0000 <= c ==>
                  |b| == 4 && c == (b[0] as int - 0xF0) * 262144 + (b[1] as int - 0x80) * 4096 + (b[2] as int - 0x80) * 64 + (b[3] as int - 0x80))
            && (forall k | 1 <= k < |b| :: 0x80 <= b[k] < 0xC0)
  {
    if 0x1_0000 <= c { Digits64(c); }
  }

  /** A character outside the basic plane is a high and a low surrogate with ten bits each; any other is one unit. */
  lemma Utf16Spells(c: scalar)
    ensures var b := Utf16Char(c);
            && (c < 0x1_0000 ==> |b| == 2 && c == UnitAt(b, 0))
            && (0x1_0000 <= c ==>
                  && |b| == 4 && 0xD800 <= UnitAt(b, 0) < 0xDC00 <= UnitAt(b, 1) < 0xE000
                  && c == 0x1_0000 + (UnitAt(b, 0) - 0xD800) * 1024 + (UnitAt(b, 1) - 0xDC00))
  {
    Utf16HeadOfChar(c, []);
    assert Utf16Char(c) + [] == Utf16Char(c);
  }
}
