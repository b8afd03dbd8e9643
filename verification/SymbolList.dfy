/** The symbol list: `get_packed_info` prints an entry, `get_all_symbols` and the entry accessors parse it. */
module SymbolLists {
  import opened Wrappers
  import opened Bytes
  import opened Text
  import opened AdvancedHandlers
  import opened SumCommands

  // --- windows-1252 and stripping ------------------------------------------------------------------

  /** The character of a byte in windows-1252; for the five undefined ones the byte itself. */
  function Cp1252Char(b: byte): scalar {
    match b
    case 0x80 => 0x20AC case 0x82 => 0x201A case 0x83 => 0x0192
    case 0x84 => 0x201E case 0x85 => 0x2026 case 0x86 => 0x2020
    case 0x87 => 0x2021 case 0x88 => 0x02C6 case 0x89 => 0x2030
    case 0x8A => 0x0160 case 0x8B => 0x2039 case 0x8C => 0x0152
    case 0x8E => 0x017D case 0x91 => 0x2018 case 0x92 => 0x2019
    case 0x93 => 0x201C case 0x94 => 0x201D case 0x95 => 0x2022
    case 0x96 => 0x2013 case 0x97 => 0x2014 case 0x98 => 0x02DC
    case 0x99 => 0x2122 case 0x9A => 0x0161 case 0x9B => 0x203A
    case 0x9C => 0x0153 case 0x9E => 0x017E case 0x9F => 0x0178
    case _ => b
  }

  predicate Undefined(b: byte) {
    b in {0x81, 0x8D, 0x8F, 0x90, 0x9D}
  }

  function Cp1252(b: seq<byte>): Result<text> {
    if b == [] then Ok([])
    else if Undefined(b[0]) then Err(UnicodeError)
    else
      var rest :- Cp1252(b[1..]);
      Ok([Cp1252Char(b[0])] + rest)
  }

  /**
   The windows-1252 code page: five bytes raise, and every other one is one character, itself in ASCII and
   Latin-1 and one of 27 others between 0x80 and 0x9F.
   */
  lemma CodePage(b: byte)
    ensures Cp1252([b]) == if b in {0x81, 0x8D, 0x8F, 0x90, 0x9D} then Err(UnicodeError) else Ok([Cp1252Char(b)])
    ensures b < 0x80 || 0xA0 <= b ==> Cp1252Char(b) == b
  {
    assert [b][1..] == [] && [Cp1252Char(b)] + [] == [Cp1252Char(b)];
  }

  lemma HighCharacters()
    ensures Cp1252Char(0x80) == 0x20AC && Cp1252Char(0x82) == 0x201A && Cp1252Char(0x83) == 0x0192
    ensures Cp1252Char(0x84) == 0x201E && Cp1252Char(0x85) == 0x2026 && Cp1252Char(0x86) == 0x2020
    ensures Cp1252Char(0x87) == 0x2021 && Cp1252Char(0x88) == 0x02C6 && Cp1252Char(0x89) == 0x2030
    ensures Cp1252Char(0x8A) == 0x0160 && Cp1252Char(0x8B) == 0x2039 && Cp1252Char(0x8C) == 0x0152
    ensures Cp1252Char(0x8E) == 0x017D && Cp1252Char(0x91) == 0x2018 && Cp1252Char(0x92) == 0x2019
    ensures Cp1252Char(0x93) == 0x201C && Cp1252Char(0x94) == 0x201D && Cp1252Char(0x95) == 0x2022
    ensures Cp1252Char(0x96) == 0x2013 && Cp1252Char(0x97) == 0x2014 && Cp1252Char(0x98) == 0x02DC
    ensures Cp1252Char(0x99) == 0x2122 && Cp1252Char(0x9A) == 0x0161 && Cp1252Char(0x9B) == 0x203A
    ensures Cp1252Char(0x9C) == 0x0153 && Cp1252Char(0x9E) == 0x017E && Cp1252Char(0x9F) == 0x0178
  {
  }

  /** What `strip(" \t\n\r\0")` removes at the ends. */
  predicate Blank(c: scalar) {
    c == 32 || c == 9 || c == 10 || c == 13 || c == 0
  }

  function StripLeft(s: text): text {
    if s != [] && Blank(s[0]) then StripLeft(s[1..]) else s
  }

  function StripRight(s: text): text {
    if s != [] && Blank(s[|s| - 1]) then StripRight(s[..|s| - 1]) else s
  }

  function Strip(s: text): text {
    StripRight(StripLeft(s))
  }

  /** `decode_ads`. */
  function DecodeAds(b: seq<byte>): Result<text> {
    var s :- Cp1252(b);
    Ok(Strip(s))
  }

  predicate NoBlankEnds(s: text) {
    s == [] || (!Blank(s[0]) && !Blank(s[|s| - 1]))
  }

  /** The number of characters stripping cannot remove. */
  function Marks(s: text): nat {
    if s == [] then 0 else (if Blank(s[0]) then 0 else 1) + Marks(s[1..])
  }

  lemma {:induction false} MarksConcat(a: text, b: text)
    ensures Marks(a + b) == Marks(a) + Marks(b)
  {
    if a == [] {
      assert a + b == b;
    } else {
      assert (a + b)[1..] == a[1..] + b;
      MarksConcat(a[1..], b);
    }
  }

  lemma {:induction false} StripLeftFacts(s: text)
    ensures Marks(StripLeft(s)) == Marks(s) && |StripLeft(s)| <= |s|
    ensures StripLeft(s) != [] ==> !Blank(StripLeft(s)[0])
  {
    if s != [] && Blank(s[0]) {
      StripLeftFacts(s[1..]);
    }
  }

  lemma {:induction false} StripRightFacts(s: text)
    ensures Marks(StripRight(s)) == Marks(s) && |StripRight(s)| <= |s|
    ensures StripRight(s) != [] ==> !Blank(StripRight(s)[|StripRight(s)| - 1]) && StripRight(s)[0] == s[0]
  {
    if s != [] && Blank(s[|s| - 1]) {
      StripRightFacts(s[..|s| - 1]);
      var last := [s[|s| - 1]];
      assert s == s[..|s| - 1] + last && last[1..] == [];
      MarksConcat(s[..|s| - 1], last);
    }
  }

  /** Stripping leaves a text alone exactly when neither end is blank, and never removes anything but blanks. */
  lemma StripExactly(s: text)
    ensures Marks(Strip(s)) == Marks(s) && NoBlankEnds(Strip(s))
    ensures Strip(s) == s <==> NoBlankEnds(s)
  {
    StripLeftFacts(s);
    StripRightFacts(StripLeft(s));
  }

  /** Stripping cuts a text down to the part between its first and last character that is not a blank, a tab, a line end or a NUL. */
  lemma StripIsASlice(s: text) returns (i: nat, j: nat)
    ensures i <= j <= |s| && Strip(s) == s[i..j]
    ensures forall k | 0 <= k < i || j <= k < |s| :: s[k] in {0, 9, 10, 13, 32}
    ensures i < j ==> s[i] !in {0, 9, 10, 13, 32} && s[j - 1] !in {0, 9, 10, 13, 32}
  {
    i := LeftBlanks(s);
    var n := RightBlanks(s[i..]);
    j := i + n;
    assert s[i..][..n] == s[i..j];
    assert forall k | j <= k < |s| :: s[k] == s[i..][k - i];
    if n > 0 { assert s[i] == s[i..][0] && s[j - 1] == s[i..][n - 1]; }
  }

  lemma {:induction false} LeftBlanks(s: text) returns (i: nat)
    ensures i <= |s| && StripLeft(s) == s[i..] && (i < |s| ==> s[i] !in {0, 9, 10, 13, 32})
    ensures forall k | 0 <= k < i :: s[k] in {0, 9, 10, 13, 32}
  {
    i := 0;
    if s != [] && Blank(s[0]) {
      var m := LeftBlanks(s[1..]);
      i := m + 1;
      assert s[1..][m..] == s[i..];
      assert forall k | 1 <= k < i :: s[k] == s[1..][k - 1];
    }
  }

  lemma {:induction false} RightBlanks(s: text) returns (n: nat)
    ensures n <= |s| && StripRight(s) == s[..n] && (n > 0 ==> s[n - 1] !in {0, 9, 10, 13, 32})
    ensures forall k | n <= k < |s| :: s[k] in {0, 9, 10, 13, 32}
  {
    n := |s|;
    if s != [] && Blank(s[|s| - 1]) {
      n := RightBlanks(s[..|s| - 1]);
      assert s[..|s| - 1][..n] == s[..n];
      assert forall k | n <= k < |s| - 1 :: s[k] == s[..|s| - 1][k];
    }
  }

  lemma {:induction false} Cp1252Concat(a: seq<byte>, b: seq<byte>)
    ensures Cp1252(a).Ok? && Cp1252(b).Ok? ==> Cp1252(a + b) == Ok(Cp1252(a).value + Cp1252(b).value)
    ensures Cp1252(a + b).Ok? ==> Cp1252(a).Ok? && Cp1252(b).Ok?
  {
    if a == [] {
      assert a + b == b;
      assert Cp1252(b).Ok? ==> [] + Cp1252(b).value == Cp1252(b).value;
    } else {
      assert (a + b)[1..] == a[1..] + b;
      Cp1252Concat(a[1..], b);
      assert Cp1252(a).Ok? && Cp1252(b).Ok? ==>
          [Cp1252Char(a[0])] + (Cp1252(a[1..]).value + Cp1252(b).value) == Cp1252(a).value + Cp1252(b).value;
    }
  }

  /** Bytes above ASCII never become blanks. */
  lemma {:induction false} HighBytesAreMarks(b: seq<byte>)
    requires forall k | 0 <= k < |b| :: b[k] >= 128
    ensures Cp1252(b).Ok? ==> Marks(Cp1252(b).value) == |b|
  {
    if b != [] && Cp1252(b).Ok? {
      HighBytesAreMarks(b[1..]);
      assert Cp1252(b).value[1..] == Cp1252(b[1..]).value;
      assert !Undefined(b[0]) && Cp1252Char(b[0]) > 32;
    }
  }

  lemma CharMarks(c: scalar)
    ensures c < 128 ==> Cp1252(Utf8Char(c)) == Ok([c])
    ensures c >= 128 && Cp1252(Utf8Char(c)).Ok? ==> Marks(Cp1252(Utf8Char(c)).value) > 1
  {
    if c < 128 {
      assert [c][1..] == [] && [c as scalar] + [] == [c];
    } else {
      HighBytesAreMarks(Utf8Char(c));
    }
  }

  /** Read as windows-1252, UTF-8 has the marks of the text for ASCII and more for anything else. */
  lemma {:induction false} Cp1252OfUtf8(s: text)
    ensures Ascii(s) ==> Cp1252(Utf8(s)) == Ok(s)
    ensures !Ascii(s) && Cp1252(Utf8(s)).Ok? ==> Marks(Cp1252(Utf8(s)).value) > Marks(s)
  {
    if s != [] {
      var c, t := s[0], s[1..];
      Cp1252OfUtf8(t);
      CharMarks(c);
      Cp1252Concat(Utf8Char(c), Utf8(t));
      assert s == [c] + t && [c][1..] == [];
      assert Ascii(s) <==> c < 128 && Ascii(t) by {
        assert forall k | 0 <= k < |s| :: k > 0 ==> s[k] == t[k - 1];
        assert forall k | 0 <= k < |t| :: t[k] == s[k + 1];
      }
      if Cp1252(Utf8(s)).Ok? {
        MarksConcat(Cp1252(Utf8Char(c)).value, Cp1252(Utf8(t)).value);
      }
    }
  }

  /** Exactly the ASCII texts without blank ends survive being printed by the server and decoded by the client. */
  lemma TextSurvivesExactly(s: text)
    ensures DecodeAds(Utf8(s)) == Ok(s) <==> Ascii(s) && NoBlankEnds(s)
  {
    Cp1252OfUtf8(s);
    StripExactly(s);
    if !Ascii(s) && Cp1252(Utf8(s)).Ok? {
      StripExactly(Cp1252(Utf8(s)).value);
    }
  }

  // --- printing ------------------------------------------------------------------------------------

  datatype Symbol = Symbol(name: text, indexGroup: u32, indexOffset: u32, symbolType: text, comment: text)

  /** What the server holds about a variable beside its value. */
  datatype Variable = Variable(sym: Symbol, size: u32, adsType: u32)

  /** The three texts of an entry, a blank after each of the first two. */
  function Texts(v: Variable): seq<byte> {
    Utf8(v.sym.name) + [32] + Utf8(v.sym.symbolType) + [32] + Utf8(v.sym.comment)
  }

  function EntryLength(v: Variable): nat {
    30 + |Texts(v)|
  }

  /** The fixed part of an entry. */
  function Head(v: Variable): (b: seq<byte>)
    ensures |b| == 30
  {
    LE(EntryLength(v), 4) + LE(v.sym.indexGroup, 4) + LE(v.sym.indexOffset, 4) + LE(v.size, 4) + LE(v.adsType, 4) + LE(0, 4)
    + LE(|Utf8(v.sym.name)|, 2) + LE(|Utf8(v.sym.symbolType)|, 2) + LE(|Utf8(v.sym.comment)|, 2)
  }

  /** The text lengths fit their two bytes each. */
  predicate Packable(v: Variable) {
    |Utf8(v.sym.name)| < 0x1_0000 && |Utf8(v.sym.symbolType)| < 0x1_0000 && |Utf8(v.sym.comment)| < 0x1_0000
  }

  /** `get_packed_info`. */
  function PackedInfo(v: Variable): Result<seq<byte>> {
    if Packable(v) then Ok(Head(v) + Texts(v)) else Err(StructError)
  }

  // --- parsing -------------------------------------------------------------------------------------

  /** A two-byte field. */
  function Half(b: seq<byte>, i: nat): Result<nat> {
    if i + 2 <= |b| then Ok(UnLE(b[i..i + 2])) else Err(StructError)
  }

  /** The symbol at `ptr` and where the next one starts. */
  function ParseSymbol(msg: seq<byte>, ptr: nat): Result<(Symbol, nat)> {
    var readLength :- Word(msg, ptr);
    var indexGroup :- Word(msg, ptr + 4);
    var indexOffset :- Word(msg, ptr + 8);
    var nameLength :- Half(msg, ptr + 24);
    var typeLength :- Half(msg, ptr + 26);
    var commentLength :- Half(msg, ptr + 28);
    var name :- DecodeAds(Slice(msg, ptr + 30, nameLength));
    var symbolType :- DecodeAds(Slice(msg, ptr + 30 + nameLength + 1, typeLength));
    var comment :- DecodeAds(Slice(msg, ptr + 30 + nameLength + 1 + typeLength + 1, commentLength));
    Ok((Symbol(name, indexGroup, indexOffset, symbolType, comment), ptr + readLength))
  }

  function ParseSymbols(msg: seq<byte>, ptr: nat, count: nat): Result<seq<Symbol>>
    decreases count
  {
    if count == 0 then Ok([]) else
    var r :- ParseSymbol(msg, ptr);
    var rest :- ParseSymbols(msg, r.1, count - 1);
    Ok([r.0] + rest)
  }

  function After(done: seq<Symbol>, rest: Result<seq<Symbol>>): Result<seq<Symbol>> {
    match rest case Ok(r) => Ok(done + r) case Err(e) => Err(e)
  }

  lemma ParseStep(msg: seq<byte>, ptr: nat, count: nat, done: seq<Symbol>)
    requires count > 0
    ensures After(done, ParseSymbols(msg, ptr, count)) ==
            match ParseSymbol(msg, ptr)
            case Err(e) => Err(e)
            case Ok(r) => After(done + [r.0], ParseSymbols(msg, r.1, count - 1))
  {
    hide ParseSymbol;
    var r := ParseSymbol(msg, ptr);
    if r.Ok? {
      var rest := ParseSymbols(msg, r.value.1, count - 1);
      assert rest.Ok? ==> done + ([r.value.0] + rest.value) == done + [r.value.0] + rest.value;
    }
  }

  /** The loop of `get_all_symbols` over the uploaded list. */
  method GetAllSymbols(symbolListMsg: seq<byte>, symCount: nat) returns (r: Result<seq<Symbol>>)
    ensures r == ParseSymbols(symbolListMsg, 0, symCount)
  {
    hide ParseSymbol;
    var symbols: seq<Symbol> := [];
    var ptr: nat := 0;
    assert After([], ParseSymbols(symbolListMsg, 0, symCount)) == ParseSymbols(symbolListMsg, 0, symCount) by {
      assert ParseSymbols(symbolListMsg, 0, symCount).Ok? ==>
          [] + ParseSymbols(symbolListMsg, 0, symCount).value == ParseSymbols(symbolListMsg, 0, symCount).value;
    }
    for idx := 0 to symCount
      invariant ParseSymbols(symbolListMsg, 0, symCount) == After(symbols, ParseSymbols(symbolListMsg, ptr, symCount - idx))
    {
      ParseStep(symbolListMsg, ptr, symCount - idx, symbols);
      var symbol := ParseSymbol(symbolListMsg, ptr);
      if symbol.Err? {
        return Err(symbol.error);
      }
      symbols := symbols + [symbol.value.0];
      ptr := symbol.value.1;
    }
    assert symbols + [] == symbols;
    r := Ok(symbols);
  }

  /** `_get_string` of a symbol entry: a slice of its 768-byte string buffer. */
  function GetString(stringBuffer: seq<byte>, offset: nat, length: nat): Result<text>
    requires |stringBuffer| == 768
  {
    Cp1252(Slice(stringBuffer, offset, length))
  }

  /** The string buffer of an entry as it is received: cut off, or padded with zeros. */
  function StringBuffer(v: Variable): (b: seq<byte>)
    ensures |b| == 768
  {
    Landed(Texts(v), 768)
  }

  // --- round trips ---------------------------------------------------------------------------------

  /** Texts the list can carry. */
  predicate Clean(v: Variable) {
    && Ascii(v.sym.name) && Ascii(v.sym.symbolType) && Ascii(v.sym.comment)
    && NoBlankEnds(v.sym.name) && NoBlankEnds(v.sym.symbolType) && NoBlankEnds(v.sym.comment)
  }

  lemma WordAt(before: seq<byte>, v: nat, behind: seq<byte>)
    requires v < 0x1_0000_0000
    ensures Word(before + LE(v, 4) + behind, |before|) == Ok(v)
  {
    var b := before + LE(v, 4) + behind;
    assert b[|before|..|before| + 4] == LE(v, 4);
    assert Pow256(4) == 0x1_0000_0000 by { assert Pow256(2) == 65536; }
    UnLEOfLE(v, 4);
  }

  lemma HalfAt(before: seq<byte>, v: nat, behind: seq<byte>)
    requires v < 0x1_0000
    ensures Half(before + LE(v, 2) + behind, |before|) == Ok(v)
  {
    var b := before + LE(v, 2) + behind;
    assert b[|before|..|before| + 2] == LE(v, 2);
    assert Pow256(2) == 0x1_0000;
    UnLEOfLE(v, 2);
  }

  /** Every field of a printed entry is read back from its place. */
  lemma HeadReads(v: Variable, before: seq<byte>, behind: seq<byte>)
    requires Packable(v)
    ensures var msg, ptr := before + Head(v) + behind, |before|;
            && Word(msg, ptr) == Ok(EntryLength(v)) && Word(msg, ptr + 4) == Ok(v.sym.indexGroup)
            && Word(msg, ptr + 8) == Ok(v.sym.indexOffset) && Half(msg, ptr + 24) == Ok(|Utf8(v.sym.name)|)
            && Half(msg, ptr + 26) == Ok(|Utf8(v.sym.symbolType)|) && Half(msg, ptr + 28) == Ok(|Utf8(v.sym.comment)|)
  {
    hide LE, Word, Half;
    var msg := before + Head(v) + behind;
    var h := Head(v);
    var n, t, c := |Utf8(v.sym.name)|, |Utf8(v.sym.symbolType)|, |Utf8(v.sym.comment)|;
    PieceAt(h, before, behind, 0, LE(EntryLength(v), 4));
    WordAt(before + h[..0], EntryLength(v), h[4..] + behind);
    PieceAt(h, before, behind, 4, LE(v.sym.indexGroup, 4));
    WordAt(before + h[..4], v.sym.indexGroup, h[8..] + behind);
    PieceAt(h, before, behind, 8, LE(v.sym.indexOffset, 4));
    WordAt(before + h[..8], v.sym.indexOffset, h[12..] + behind);
    PieceAt(h, before, behind, 24, LE(n, 2));
    HalfAt(before + h[..24], n, h[26..] + behind);
    PieceAt(h, before, behind, 26, LE(t, 2));
    HalfAt(before + h[..26], t, h[28..] + behind);
    PieceAt(h, before, behind, 28, LE(c, 2));
    HalfAt(before + h[..28], c, h[30..] + behind);
  }

  /** The fields the client skips: the size, the type number, and no flags. */
  lemma SkippedFields(v: Variable)
    ensures Word(Head(v), 12) == Ok(v.size) && Word(Head(v), 16) == Ok(v.adsType) && Word(Head(v), 20) == Ok(0)
  {
    hide LE, Word;
    var h := Head(v);
    PieceAt(h, [], [], 12, LE(v.size, 4));
    WordAt([] + h[..12], v.size, h[16..] + []);
    PieceAt(h, [], [], 16, LE(v.adsType, 4));
    WordAt([] + h[..16], v.adsType, h[20..] + []);
    PieceAt(h, [], [], 20, LE(0, 4));
    WordAt([] + h[..20], 0, h[24..] + []);
    assert [] + h + [] == h;
  }

  /** An entry is printed unless a text takes 65536 bytes or more; then packing its length raises. */
  lemma PrintedExactly(v: Variable)
    ensures PackedInfo(v).Ok? <==>
            |Utf8(v.sym.name)| < 65536 && |Utf8(v.sym.symbolType)| < 65536 && |Utf8(v.sym.comment)| < 65536
    ensures PackedInfo(v).Err? ==> PackedInfo(v).error == StructError
    ensures PackedInfo(v).Ok? ==>
              var n, t := |Utf8(v.sym.name)|, |Utf8(v.sym.symbolType)|;
              && |PackedInfo(v).value| == 32 + n + t + |Utf8(v.sym.comment)|
              && PackedInfo(v).value[30 + n] == 32 && PackedInfo(v).value[31 + n + t] == 32
  {
  }

  lemma PieceAt(h: seq<byte>, before: seq<byte>, behind: seq<byte>, i: nat, piece: seq<byte>)
    requires i + |piece| <= |h| && h[i..i + |piece|] == piece
    ensures before + h + behind == (before + h[..i]) + piece + (h[i + |piece|..] + behind)
  {
  }

  lemma TextsSlices(v: Variable, before: seq<byte>, behind: seq<byte>)
    ensures var msg, at := before + Texts(v) + behind, |before|;
            var n, t := |Utf8(v.sym.name)|, |Utf8(v.sym.symbolType)|;
            && Slice(msg, at, n) == Utf8(v.sym.name) && Slice(msg, at + n + 1, t) == Utf8(v.sym.symbolType)
            && Slice(msg, at + n + 1 + t + 1, |Utf8(v.sym.comment)|) == Utf8(v.sym.comment)
  {
    hide Utf8;
  }

  /**
   A printed entry parses to its symbol exactly if its texts are clean; whatever it parses to, the parser
   moves on to the byte behind it.
   */
  lemma EntryRound(v: Variable, before: seq<byte>, behind: seq<byte>)
    requires Packable(v)
    ensures var r := ParseSymbol(before + (Head(v) + Texts(v)) + behind, |before|);
            && (r.Ok? ==> r.value.1 == |before| + EntryLength(v))
            && (r.Ok? && r.value.0 == v.sym <==> Clean(v))
  {
    hide Head, Texts, Word, Half, DecodeAds, Slice, Utf8;
    var msg := before + (Head(v) + Texts(v)) + behind;
    assert msg == before + Head(v) + (Texts(v) + behind);
    HeadReads(v, before, Texts(v) + behind);
    assert msg == (before + Head(v)) + Texts(v) + behind;
    TextsSlices(v, before + Head(v), behind);
    TextSurvivesExactly(v.sym.name);
    TextSurvivesExactly(v.sym.symbolType);
    TextSurvivesExactly(v.sym.comment);
  }

  /** The entries of the variables, one after the other. */
  function Upload(vs: seq<Variable>): seq<byte>
    requires forall k | 0 <= k < |vs| :: Packable(vs[k])
  {
    if vs == [] then [] else PackedInfo(vs[0]).value + Upload(vs[1..])
  }

  function SymbolsOf(vs: seq<Variable>): seq<Symbol> {
    if vs == [] then [] else [vs[0].sym] + SymbolsOf(vs[1..])
  }

  lemma {:induction false} UploadRoundFrom(vs: seq<Variable>, before: seq<byte>, behind: seq<byte>)
    requires forall k | 0 <= k < |vs| :: Packable(vs[k])
    ensures ParseSymbols(before + Upload(vs) + behind, |before|, |vs|) == Ok(SymbolsOf(vs)) <==>
            forall k | 0 <= k < |vs| :: Clean(vs[k])
    decreases |vs|
  {
    hide ParseSymbol, Packable, Clean, Head, Texts;
    if vs != [] {
      var e := Head(vs[0]) + Texts(vs[0]);
      var msg := before + Upload(vs) + behind;
      assert msg == before + e + (Upload(vs[1..]) + behind);
      EntryRound(vs[0], before, Upload(vs[1..]) + behind);
      assert msg == (before + e) + Upload(vs[1..]) + behind;
      UploadRoundFrom(vs[1..], before + e, behind);
      assert |before + e| == |before| + EntryLength(vs[0]);
      ParseCons(msg, |before|, vs);
      assert forall k | 0 < k < |vs| :: vs[k] == vs[1..][k - 1];
    }
  }

  lemma ParseCons(msg: seq<byte>, ptr: nat, vs: seq<Variable>)
    requires vs != []
    ensures var r := ParseSymbol(msg, ptr);
            ParseSymbols(msg, ptr, |vs|) == Ok(SymbolsOf(vs)) <==>
            r.Ok? && r.value.0 == vs[0].sym && ParseSymbols(msg, r.value.1, |vs| - 1) == Ok(SymbolsOf(vs[1..]))
  {
    hide ParseSymbol;
    var r := ParseSymbol(msg, ptr);
    if r.Ok? {
      var rest := ParseSymbols(msg, r.value.1, |vs| - 1);
      assert SymbolsOf(vs)[0] == vs[0].sym && SymbolsOf(vs)[1..] == SymbolsOf(vs[1..]);
      assert rest.Ok? ==> ([r.value.0] + rest.value)[0] == r.value.0 && ([r.value.0] + rest.value)[1..] == rest.value;
    }
  }

  /**
   The upload parser, run over the concatenated entries of any list of packable symbols, returns the same
   symbols in the same order exactly if all their texts are ASCII without blank ends.
   */
  lemma UploadRoundTrip(vs: seq<Variable>)
    requires forall k | 0 <= k < |vs| :: Packable(vs[k])
    ensures ParseSymbols(Upload(vs), 0, |vs|) == Ok(SymbolsOf(vs)) <==> forall k | 0 <= k < |vs| :: Clean(vs[k])
  {
    hide Upload, ParseSymbols, Packable, Clean, SymbolsOf;
    UploadRoundFrom(vs, [], []);
    assert [] + Upload(vs) + [] == Upload(vs);
  }

  /** A piece of the texts is in the string buffer exactly when it is empty or ends within the 768 bytes. */
  lemma BufferedExactly(all: seq<byte>, start: nat, length: nat)
    requires start + length <= |all|
    ensures Slice(Landed(all, 768), start, length) == all[start..start + length] <==> length == 0 || start + length <= 768
  {
    var b := Landed(all, 768);
    if start + length <= 768 {
      assert b[start..start + length] == all[start..start + length];
    } else {
      assert |Slice(b, start, length)| < length || length == 0;
    }
  }

  /** The entry accessors give back ASCII texts exactly as far as they lie within the string buffer. */
  lemma AccessorsExactly(v: Variable)
    requires Ascii(v.sym.name) && Ascii(v.sym.symbolType) && Ascii(v.sym.comment)
    ensures var n, t, c := |v.sym.name|, |v.sym.symbolType|, |v.sym.comment|;
            && (GetString(StringBuffer(v), 0, n) == Ok(v.sym.name) <==> n <= 768)
            && (GetString(StringBuffer(v), n + 1, t) == Ok(v.sym.symbolType) <==> t == 0 || n + 1 + t <= 768)
            && (GetString(StringBuffer(v), n + t + 2, c) == Ok(v.sym.comment) <==> c == 0 || n + t + 2 + c <= 768)
  {
    hide GetString, Landed, Utf8;
    var all := Texts(v);
    Utf8Length(v.sym.name);
    Utf8Length(v.sym.symbolType);
    Utf8Length(v.sym.comment);
    var n, t := |v.sym.name|, |v.sym.symbolType|;
    StringAccess(all, 0, v.sym.name);
    StringAccess(all, n + 1, v.sym.symbolType);
    StringAccess(all, n + t + 2, v.sym.comment);
  }

  lemma StringAccess(all: seq<byte>, start: nat, s: text)
    requires Ascii(s) && start + |s| <= |all| && all[start..start + |s|] == s
    ensures GetString(Landed(all, 768), start, |s|) == Ok(s) <==> s == [] || start + |s| <= 768
  {
    BufferedExactly(all, start, |s|);
    Utf8Length(s);
    Cp1252OfUtf8(s);
    Cp1252Length(Slice(Landed(all, 768), start, |s|));
  }

  lemma {:induction false} Cp1252Length(b: seq<byte>)
    ensures Cp1252(b).Ok? ==> |Cp1252(b).value| == |b|
  {
    if b != [] {
      Cp1252Length(b[1..]);
    }
  }
}
