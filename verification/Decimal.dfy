/** Decimal text, as strconv writes and reads it. */
module Decimal {
  import opened Basics

  const MAX_INT64: int := 0x7fff_ffff_ffff_ffff
  const MAX_UINT64: int := 0xffff_ffff_ffff_ffff

  predicate IsDigit(b: byte) { 48 <= b <= 57 }

  predicate AllDigits(s: Bytes) { forall i :: 0 <= i < |s| ==> IsDigit(s[i]) }

  /** strconv.Itoa and FormatUint on a number that is not negative. */
  function Format(n: nat): Bytes {
    (if n < 10 then [] else Format(n / 10)) + [(48 + n % 10) as byte]
  }

  /** The number written by a string of digits. */
  function Value(s: Bytes): (n: nat)
    requires AllDigits(s)
  {
    if s == [] then 0 else 10 * Value(s[..|s| - 1]) + (s[|s| - 1] as int - 48)
  }

  function ParseUint(s: Bytes): Option<nat> {
    if s != [] && AllDigits(s) && Value(s) <= MAX_UINT64 then Some(Value(s)) else None
  }

  /** strconv.Atoi: an optional sign, at least one digit, and the range of int64. */
  function Atoi(s: Bytes): Option<int> {
    var signed := s != [] && (s[0] == 43 || s[0] == 45);
    var digits := if signed then s[1..] else s;
    if digits == [] || !AllDigits(digits) then None
    else
      var n := if s[0] == 45 then 0 - (Value(digits) as int) else Value(digits) as int;
      if -MAX_INT64 - 1 <= n <= MAX_INT64 then Some(n) else None
  }

  lemma ValueAppend(s: Bytes, d: byte)
    requires AllDigits(s) && IsDigit(d)
    ensures AllDigits(s + [d]) && Value(s + [d]) == 10 * Value(s) + (d as int - 48)
  {
    assert (s + [d])[..|s|] == s;
  }

  /** Reading back what was written gives the number. */
  lemma {:induction false} FormatValue(n: nat)
    ensures Format(n) != [] && AllDigits(Format(n)) && Value(Format(n)) == n
  {
    var d := (48 + n % 10) as byte;
    if n < 10 {
      ValueAppend([], d);
    } else {
      FormatValue(n / 10);
      ValueAppend(Format(n / 10), d);
    }
  }

  lemma ParseFormat(n: nat)
    ensures n <= MAX_UINT64 ==> ParseUint(Format(n)) == Some(n)
    ensures n <= MAX_INT64 ==> Atoi(Format(n)) == Some(n)
  {
    FormatValue(n);
    assert IsDigit(Format(n)[0]);
  }

  /** A number below 10^k has at most k digits. */
  lemma {:induction false} FormatLength(n: nat, k: nat)
    requires 1 <= k && n < Pow10(k)
    ensures |Format(n)| <= k
    decreases k
  {
    if n >= 10 {
      assert Pow10(1) == 10 && Pow10(k) == 10 * Pow10(k - 1);
      FormatLength(n / 10, k - 1);
    }
  }

  function Pow10(k: nat): nat { if k == 0 then 1 else 10 * Pow10(k - 1) }
}
