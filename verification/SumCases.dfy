/** The sum calls case by case: scalar arrays, error words, and the slice assignments they fill their buffer with. */
module SumCases {
  import opened Wrappers
  import opened Bytes
  import opened Text
  import opened StructureCodec
  import opened AdvancedHandlers
  import opened SumCommands

  // --- buffers -------------------------------------------------------------------------------------

  /** A Python slice assignment, by where its bounds lie: in order, past the end, crossed, or counted from the end. */
  lemma SpliceMeans(b: seq<byte>, from: nat, to: nat, x: seq<byte>)
    ensures from <= to <= |b| ==> Splice(b, from, to, x) == b[..from] + x + b[to..]
    ensures from <= |b| <= to ==> Splice(b, from, to, x) == b[..from] + x
    ensures |b| <= from ==> Splice(b, from, to, x) == b + x
    ensures to <= from <= |b| ==> Splice(b, from, to, x) == b[..from] + x + b[from..]
    ensures 0 < from <= |b| ==> Splice(b, 0 - from, to, x) == Splice(b, |b| - from, to, x)
    ensures 0 < to <= |b| ==> Splice(b, from, 0 - to, x) == Splice(b, from, |b| - to, x)
    ensures from > |b| ==> Splice(b, 0 - from, to, x) == Splice(b, 0, to, x)
  {
  }

  /** A response in its buffer: byte by byte, cut off at the end of the buffer, zeros where it is too short. */
  lemma LandedAt(response: seq<byte>, size: nat, k: nat)
    requires k < size
    ensures Landed(response, size)[k] == if k < |response| then response[k] else 0
  {
  }

  // --- scalar arrays -------------------------------------------------------------------------------

  /** A scalar array is read element by element, each from its own bytes. */
  lemma {:induction false} ScalarsAreRead(t: ScalarType, w: seq<byte>, n: nat, i: nat)
    requires UnpackAll(t, w, n).Ok? && i < n
    ensures |UnpackAll(t, w, n).value| == n
    ensures Ok(UnpackAll(t, w, n).value[i]) == Unpack(t, Slice(w, i * Width(t), Width(t)))
    decreases n
  {
    hide Unpack, Width, Slice, Take, Drop;
    ScalarCount(t, w, n);
    if i > 0 {
      ScalarsAreRead(t, Drop(w, Width(t)), n - 1, i - 1);
      SliceBehind(w, Width(t), (i - 1) * Width(t), Width(t));
      assert Width(t) + (i - 1) * Width(t) == i * Width(t);
    } else {
      SliceBehind(w, 0, 0, Width(t));
    }
  }

  lemma SliceBehind(b: seq<byte>, m: nat, at: nat, n: nat)
    ensures Slice(Drop(b, m), at, n) == Slice(b, m + at, n) && Slice(b, 0, n) == Take(b, n)
  {
    DropDrop(b, m, at);
  }

  lemma {:induction false} ScalarCount(t: ScalarType, w: seq<byte>, n: nat)
    ensures UnpackAll(t, w, n).Ok? ==> |UnpackAll(t, w, n).value| == n
    decreases n
  {
    hide Unpack;
    if n > 0 { ScalarCount(t, Drop(w, Width(t)), n - 1); }
  }

  /** It raises exactly when its bytes are not all there. */
  lemma {:induction false} ScalarsReadExactly(t: ScalarType, w: seq<byte>, n: nat)
    ensures UnpackAll(t, w, n).Ok? <==> n * Width(t) <= |w|
    ensures UnpackAll(t, w, n).Err? ==> UnpackAll(t, w, n).error == StructError
    decreases n
  {
    if n > 0 {
      ScalarsReadExactly(t, Drop(w, Width(t)), n - 1);
      hide UnpackAll, Drop, Take;
      TakenAndLeft(w, Width(t));
      UnpackFirst(t, w, n);
      assert n * Width(t) == Width(t) + (n - 1) * Width(t);
    }
  }

  lemma TakenAndLeft(w: seq<byte>, n: nat)
    ensures |Take(w, n)| == (if n <= |w| then n else |w|) && |Drop(w, n)| == (if n <= |w| then |w| - n else 0)
  {
  }

  lemma UnpackFirst(t: ScalarType, w: seq<byte>, n: nat)
    requires n > 0
    ensures UnpackAll(t, w, n) ==
            match Unpack(t, Take(w, Width(t)))
            case Err(e) => Err(e)
            case Ok(v) =>
              match UnpackAll(t, Drop(w, Width(t)), n - 1) case Err(e) => Err(e) case Ok(vs) => Ok([v] + vs)
  {
    hide Unpack;
  }

  /** How a variable of a scalar type is read, by its size: a list of as many as it has room for, or one value. */
  lemma ScalarVariable(entry: SymbolEntry, t: ScalarType, b: seq<byte>, at: nat)
    requires TypeOf(entry.dataType) == ScalarAds(t)
    ensures entry.size > Width(t) ==>
              ReadVar(entry, false, b, at) ==
              match UnpackAll(t, Slice(b, at, entry.size / Width(t) * Width(t)), entry.size / Width(t))
              case Ok(vs) => Ok(Plain(ListV(vs)))
              case Err(e) => Err(e)
    ensures entry.size <= Width(t) ==>
              ReadVar(entry, false, b, at) ==
              match Unpack(t, Slice(b, at, Width(t))) case Ok(v) => Ok(Plain(v)) case Err(e) => Err(e)
    ensures ReadVar(entry, true, b, at) == Ok(Raw(Slice(b, at, entry.size)))
  {
    hide Unpack, UnpackAll, Slice;
  }

  /** A list is written element by element; one of the wrong length is refused before anything is written. */
  lemma {:induction false} ScalarsAreWritten(t: ScalarType, us: seq<Value>, vs: seq<Value>)
    ensures PackAll(t, us + vs) ==
            match PackAll(t, us)
            case Err(e) => Err(e)
            case Ok(a) => match PackAll(t, vs) case Err(e) => Err(e) case Ok(b) => Ok(a + b)
  {
    if us == [] {
      assert us + vs == vs;
      assert PackAll(t, vs).Ok? ==> [] + PackAll(t, vs).value == PackAll(t, vs).value;
    } else {
      assert (us + vs)[1..] == us[1..] + vs;
      ScalarsAreWritten(t, us[1..], vs);
      hide Pack;
      var x := Pack(t, us[0]);
      var y, z := PackAll(t, us[1..]), PackAll(t, vs);
      assert x.Ok? && y.Ok? && z.Ok? ==> x.value + (y.value + z.value) == (x.value + y.value) + z.value;
    }
  }

  lemma OneIsWritten(t: ScalarType, v: Value)
    ensures PackAll(t, [v]) == Pack(t, v)
  {
    hide Pack;
    assert [v][1..] == [] && PackAll(t, []) == Ok([]);
    assert Pack(t, v).Ok? ==> Pack(t, v).value + [] == Pack(t, v).value;
  }

  lemma WrongCountRefused(t: ScalarType, n: nat, b: seq<byte>, at: nat, vs: seq<Value>)
    requires |vs| != n
    ensures PackInto(t, n, b, at, vs) == Err(StructError)
  {
  }

  // --- error words ---------------------------------------------------------------------------------

  /** What a name's error word makes of it: zero means its value, a known code its text, any other KeyError. */
  lemma WordDecides(codes: map<nat, string>, entry: SymbolEntry, structured: bool, word: u32, b: seq<byte>, at: nat)
    ensures word == 0 ==> NameResult(codes, entry, structured, word, b, at) == ReadVar(entry, structured, b, at)
    ensures word != 0 && word as nat in codes ==> NameResult(codes, entry, structured, word, b, at) == Ok(ErrorText(codes[word]))
    ensures word != 0 && word as nat !in codes ==> NameResult(codes, entry, structured, word, b, at) == Err(KeyError)
  {
    hide ReadVar;
  }

  /** The error words of a response from number `i` on. */
  function WordsFrom(response: seq<byte>, i: nat, n: nat): (words: seq<nat>)
    requires 4 * (i + n) <= |response|
    ensures |words| == n
    decreases n
  {
    if n == 0 then [] else [ErrorWord(response, i)] + WordsFrom(response, i + 1, n - 1)
  }

  predicate AllKnown(codes: map<nat, string>, words: seq<nat>) {
    forall k | 0 <= k < |words| :: words[k] in codes
  }

  /** Place `k` is the last one of its name. */
  predicate LastOfItsName(names: seq<string>, k: nat)
    requires k < |names|
  {
    forall j | k < j < |names| :: names[j] != names[k]
  }

  /** Each name has the text of its own error word, its last one where it is repeated; what was there before stays. */
  ghost predicate Described(
    codes: map<nat, string>, names: seq<string>, words: seq<nat>, acc: map<string, string>, m: map<string, string>)
    requires |words| == |names|
  {
    && (forall n | n in acc && n !in names :: n in m && m[n] == acc[n])
    && (forall k | 0 <= k < |names| && LastOfItsName(names, k) ::
          words[k] in codes && names[k] in m && m[names[k]] == codes[words[k]])
  }

  /** The statuses of a sum write: the text of each name's error word, or KeyError for a word without one. */
  lemma {:induction false} StatusOfEach(
    codes: map<nat, string>, names: seq<string>, i: nat, response: seq<byte>, acc: map<string, string>)
    requires 4 * (i + |names|) <= |response|
    ensures var r, words := Statuses(codes, names, i, response, acc), WordsFrom(response, i, |names|);
            if AllKnown(codes, words) then r.Ok? && Described(codes, names, words, acc, r.value)
            else r == Err(KeyError)
    decreases |names|
  {
    hide ErrorWord, Described;
    if names == [] {
      assert Described(codes, names, [], acc, acc) by { NothingDescribed(codes, acc); }
    } else {
      var words, rest := WordsFrom(response, i, |names|), names[1..];
      assert words == [words[0]] + WordsFrom(response, i + 1, |rest|);
      if words[0] in codes {
        var more := acc[names[0] := codes[words[0]]];
        StatusOfEach(codes, rest, i + 1, response, more);
        assert words[1..] == WordsFrom(response, i + 1, |rest|);
        var r := Statuses(codes, rest, i + 1, response, more);
        assert AllKnown(codes, words) <==> AllKnown(codes, words[1..]) by {
          assert forall k | 0 < k < |words| :: words[k] == words[1..][k - 1];
          assert forall k | 0 <= k < |rest| :: words[1..][k] == words[k + 1];
        }
        if AllKnown(codes, words) { DescribedCons(codes, names, words, acc, r.value); }
      } else {
        assert !AllKnown(codes, words);
      }
    }
  }

  lemma NothingDescribed(codes: map<nat, string>, acc: map<string, string>)
    ensures Described(codes, [], [], acc, acc)
  {
  }

  lemma DescribedCons(
    codes: map<nat, string>, names: seq<string>, words: seq<nat>, acc: map<string, string>, m: map<string, string>)
    requires |words| == |names| > 0 && words[0] in codes
    requires Described(codes, names[1..], words[1..], acc[names[0] := codes[words[0]]], m)
    ensures Described(codes, names, words, acc, m)
  {
    var rest := names[1..];
    assert names == [names[0]] + rest;
    forall k | 0 <= k < |names| && LastOfItsName(names, k)
      ensures words[k] in codes && names[k] in m && m[names[k]] == codes[words[k]]
    {
      if k > 0 {
        assert names[k] == rest[k - 1] && LastOfItsName(rest, k - 1);
      } else {
        assert forall j | 0 <= j < |rest| :: rest[j] == names[j + 1];
        assert names[0] !in rest;
      }
    }
  }

  /** Error word `i` is the little-endian number in the four bytes at `4 * i`. */
  lemma WordIs(b: seq<byte>, i: nat)
    requires 4 * i + 4 <= |b|
    ensures ErrorWord(b, i) == b[4 * i] as int + 0x100 * (b[4 * i + 1] as int) + 0x1_0000 * (b[4 * i + 2] as int) + 0x100_0000 * (b[4 * i + 3] as int)
  {
    WordOf(b, 4 * i);
  }

  // --- texts ---------------------------------------------------------------------------------------

  /** A str written to an array of texts is written character by character; a number cannot be iterated. */
  lemma TextIsItsCharacters(s: text, v: Value)
    ensures Elements(TextV(s)).Ok? && |Elements(TextV(s)).value| == |s|
    ensures forall k | 0 <= k < |s| :: Elements(TextV(s)).value[k] == TextV([s[k]])
    ensures v.IntV? || v.BoolV? || v.FloatV? ==> Elements(v) == Err(TypeError)
    ensures v.ListV? ==> Elements(v) == Ok(v.vs)
  {
  }
}
