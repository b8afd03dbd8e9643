/** Python's `int()` on text: digits, with an optional minus sign. */
module Numerals {
  import opened Wrappers

  predicate IsDigits(s: string) {
    s != "" && forall k | 0 <= k < |s| :: '0' <= s[k] <= '9'
  }

  function DigitsValue(s: string): int
    requires forall k | 0 <= k < |s| :: '0' <= s[k] <= '9'
  {
    if s == "" then 0 else DigitsValue(s[..|s| - 1]) * 10 + (s[|s| - 1] as int - '0' as int)
  }

  /** None where `int()` raises ValueError. */
  function ParseInt(s: string): Option<int> {
    if IsDigits(s) then Some(DigitsValue(s))
    else if s != "" && s[0] == '-' && IsDigits(s[1..]) then Some(-DigitsValue(s[1..]))
    else None
  }

  function PowerOf10(n: nat): nat {
    if n == 0 then 1 else 10 * PowerOf10(n - 1)
  }

  /** Digit `k` counts its value times 10 to the number of digits behind it. */
  function PlaceSum(s: string): int
    requires forall k | 0 <= k < |s| :: '0' <= s[k] <= '9'
  {
    if s == "" then 0 else (s[0] as int - '0' as int) * PowerOf10(|s| - 1) + PlaceSum(s[1..])
  }

  lemma {:induction false} PlaceSumSnoc(s: string)
    requires s != "" && forall k | 0 <= k < |s| :: '0' <= s[k] <= '9'
    ensures PlaceSum(s) == 10 * PlaceSum(s[..|s| - 1]) + (s[|s| - 1] as int - '0' as int)
  {
    if |s| == 1 {
      assert s[1..] == "" && s[..0] == "" && PowerOf10(0) == 1;
    } else {
      var front := s[..|s| - 1];
      PlaceSumSnoc(s[1..]);
      assert s[1..][..|s| - 2] == front[1..] && PowerOf10(|s| - 1) == 10 * PowerOf10(|s| - 2);
      var d, p := s[0] as int - '0' as int, PowerOf10(|s| - 2);
      assert d * (10 * p) == 10 * (d * p);
    }
  }

  /** The value of a digit string is its value in the decimal system. */
  lemma {:induction false} DigitsArePlaces(s: string)
    requires forall k | 0 <= k < |s| :: '0' <= s[k] <= '9'
    ensures DigitsValue(s) == PlaceSum(s)
  {
    if s != "" {
      DigitsArePlaces(s[..|s| - 1]);
      PlaceSumSnoc(s);
    }
  }

  /** A number printed in decimal. */
  function Printed(n: nat): string {
    if n < 10 then [n as char + '0'] else Printed(n / 10) + [(n % 10) as char + '0']
  }

  /** What is printed is read back. */
  lemma {:induction false} PrintedIsRead(n: nat)
    ensures IsDigits(Printed(n)) && DigitsValue(Printed(n)) == n && ParseInt(Printed(n)) == Some(n)
  {
    var s := Printed(n);
    if n < 10 {
      assert s[..0] == "" && DigitsValue("") == 0;
    } else {
      PrintedIsRead(n / 10);
      assert s[..|s| - 1] == Printed(n / 10);
    }
  }

  /** Only digits, with at most a minus sign before them, are read; everything else raises ValueError. */
  lemma ParsesExactly(s: string)
    ensures ParseInt(s).Some? <==>
            |s| > 0 && '0' <= s[|s| - 1] <= '9' && (s[0] == '-' || '0' <= s[0] <= '9')
            && forall k | 1 <= k < |s| :: '0' <= s[k] <= '9'
    ensures ParseInt(s).Some? && s[0] != '-' ==> ParseInt(s).value == DigitsValue(s)
    ensures ParseInt(s).Some? && s[0] == '-' ==> ParseInt(s).value == 0 - DigitsValue(s[1..])
  {
    hide DigitsValue;
    if s != [] {
      assert s[|s| - 1] == if |s| > 1 then s[1..][|s| - 2] else s[0];
      assert forall k | 1 <= k < |s| :: s[k] == s[1..][k - 1];
      assert forall k | 0 <= k < |s| - 1 :: s[1..][k] == s[k + 1];
    }
  }

  lemma {:induction false} NegatedIsRead(s: string)
    requires IsDigits(s)
    ensures ParseInt("-" + s) == Some(0 - DigitsValue(s))
  {
    hide DigitsValue;
    var t := "-" + s;
    assert t[1..] == s && t[0] == '-' && !IsDigits(t);
  }
}
