/** Bytes, little-endian integers, and slices that clip at the end of a buffer. */
module Bytes {

  type byte = b: int | 0 <= b < 256

  function Pow256(n: nat): (p: nat)
    ensures p > 0
  {
    if n == 0 then 1 else 256 * Pow256(n - 1)
  }

  /** The low `n` bytes of `v`, least significant first. */
  function LE(v: nat, n: nat): (b: seq<byte>)
    ensures |b| == n
  {
    if n == 0 then [] else [v % 256] + LE(v / 256, n - 1)
  }

  function UnLE(b: seq<byte>): nat {
    if b == [] then 0 else b[0] + 256 * UnLE(b[1..])
  }

  /** Byte `k` is the digit of 256 to the power `k`: the least significant byte comes first. */
  lemma {:induction false} LEDigits(v: nat, n: nat, k: nat)
    requires k < n
    ensures LE(v, n)[k] == v / Pow256(k) % 256
    decreases k
  {
    if k > 0 {
      LEDigits(v / 256, n - 1, k - 1);
      DivDiv(v, Pow256(k - 1));
    }
  }

  lemma DivDiv(v: nat, m: nat)
    requires m > 0
    ensures v / 256 / m == v / (256 * m)
  {
    var q, r := v / 256, v % 256;
    var s, t := q / m, q % m;
    assert v == 256 * (m * s + t) + r == (256 * m) * s + (256 * t + r);
    assert 256 * t + r < 256 * m;
    QuotientIs(v, 256 * m, s, 256 * t + r);
  }

  lemma QuotientIs(v: nat, m: nat, s: nat, t: nat)
    requires v == m * s + t && t < m
    ensures v / m == s
  {
    var q, r := v / m, v % m;
    TimesGrows(m, q + 1, s);
    TimesGrows(m, s + 1, q);
  }

  lemma TimesGrows(m: nat, a: nat, b: nat)
    ensures a <= b ==> m * a <= m * b
  {
  }

  lemma {:induction false} UnLEOfLE(v: nat, n: nat)
    requires v < Pow256(n)
    ensures UnLE(LE(v, n)) == v
  {
    if n > 0 {
      UnLEOfLE(v / 256, n - 1);
      assert LE(v, n)[1..] == LE(v / 256, n - 1);
    }
  }

  lemma {:induction false} LEOfUnLE(b: seq<byte>)
    ensures UnLE(b) < Pow256(|b|) && LE(UnLE(b), |b|) == b
  {
    if b != [] {
      LEOfUnLE(b[1..]);
      var n := UnLE(b[1..]);
      assert UnLE(b) == b[0] + 256 * n && n + 1 <= Pow256(|b| - 1);
      assert UnLE(b) % 256 == b[0] && UnLE(b) / 256 == n;
      assert b == [b[0]] + b[1..];
    }
  }

  function Zeros(n: int): (b: seq<byte>)
    ensures |b| == if n < 0 then 0 else n
  {
    seq(if n < 0 then 0 else n, i => 0)
  }

  /** Slicing never raises: what lies past the end is missing from the result. */
  function Take(b: seq<byte>, n: nat): seq<byte> {
    if n <= |b| then b[..n] else b
  }

  function Drop(b: seq<byte>, n: nat): seq<byte> {
    if n <= |b| then b[n..] else []
  }

  /** `b[index:index + n]`. */
  function Slice(b: seq<byte>, index: nat, n: nat): seq<byte> {
    Take(Drop(b, index), n)
  }

  lemma DropDrop(b: seq<byte>, m: nat, n: nat)
    ensures Drop(Drop(b, m), n) == Drop(b, m + n)
  {
  }

  lemma TakeDropConcat(a: seq<byte>, b: seq<byte>)
    ensures Take(a + b, |a|) == a && Drop(a + b, |a|) == b
  {
  }

  /** The bytes before the first zero byte; all of them when there is none. */
  function BeforeZero(b: seq<byte>): seq<byte> {
    if b == [] || b[0] == 0 then [] else [b[0]] + BeforeZero(b[1..])
  }

  lemma {:induction false} BeforeZeroOfPadded(a: seq<byte>, n: int)
    requires 0 !in a
    ensures BeforeZero(a + Zeros(n)) == a
  {
    if a == [] {
      assert a + Zeros(n) == Zeros(n);
    } else {
      assert (a + Zeros(n))[1..] == a[1..] + Zeros(n);
      BeforeZeroOfPadded(a[1..], n);
    }
  }

  lemma {:induction false} BeforeZeroIsPrefix(b: seq<byte>)
    ensures |BeforeZero(b)| <= |b| && BeforeZero(b) == b[..|BeforeZero(b)|] && 0 !in BeforeZero(b)
    ensures |BeforeZero(b)| < |b| ==> b[|BeforeZero(b)|] == 0
  {
    if b != [] && b[0] != 0 {
      BeforeZeroIsPrefix(b[1..]);
    }
  }
}
