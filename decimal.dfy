/**
 * Decimal text of 32-bit signed integers, as `i32::to_string` writes it and
 * `str::parse::<i32>` reads it: an optional '+' or '-', then one or more ASCII digits,
 * with the value in the range of `i32`.
 */
module Decimal {
  import opened Wrappers

  const MinI32: int := -0x8000_0000
  const MaxI32: int := 0x7fff_ffff

  predicate IsDigit(c: char) {
    '0' <= c <= '9'
  }

  predicate AllDigits(s: string) {
    forall k :: 0 <= k < |s| ==> IsDigit(s[k])
  }

  /** The value of a digit string, read left to right. */
  function DigitsValue(s: string): (n: nat)
    requires AllDigits(s)
    decreases |s|
  {
    if s == [] then 0 else DigitsValue(s[..|s| - 1]) * 10 + (s[|s| - 1] as int - '0' as int)
  }

  /** The shortest digit string of `n`. */
  function NatDigits(n: nat): (s: string)
    ensures s != [] && AllDigits(s)
    decreases n
  {
    var last := (('0' as int) + n % 10) as char;
    if n < 10 then [last] else NatDigits(n / 10) + [last]
  }

  /** `i32::to_string`. */
  function I32ToString(i: int): (r: string)
    requires MinI32 <= i <= MaxI32
    ensures r != [] && (r[0] == '-' <==> i < 0)
    ensures AllDigits(if i < 0 then r[1..] else r) && (i < 0 ==> |r| > 1)
  {
    if i < 0 then "-" + NatDigits(-i) else NatDigits(i)
  }

  /** `str::parse::<i32>`: `None` for a malformed or out-of-range text. */
  function ParseI32(s: string): (r: Option<int>)
    ensures r.Some? ==> MinI32 <= r.value <= MaxI32
    ensures r.Some? ==> s != [] && (AllDigits(s) || ((s[0] == '-' || s[0] == '+') && |s| > 1 && AllDigits(s[1..])))
    ensures s != [] && AllDigits(s) && DigitsValue(s) <= MaxI32 ==> r == Some(DigitsValue(s))
  {
    var signed := s != [] && (s[0] == '-' || s[0] == '+');
    var digits := if signed then s[1..] else s;
    if digits == [] || !AllDigits(digits) then None
    else
      var v: int := if signed && s[0] == '-' then 0 - DigitsValue(digits) as int else DigitsValue(digits);
      if MinI32 <= v <= MaxI32 then Some(v) else None
  }

  lemma {:induction false} DigitsOfNat(n: nat)
    ensures DigitsValue(NatDigits(n)) == n
    decreases n
  {
    var last := (('0' as int) + n % 10) as char;
    if n >= 10 {
      var prefix := NatDigits(n / 10);
      assert (prefix + [last])[..|prefix|] == prefix;
      DigitsOfNat(n / 10);
    }
  }

  /** Reading back what `i32::to_string` writes gives the number again. */
  lemma ParseShow(i: int)
    requires MinI32 <= i <= MaxI32
    ensures ParseI32(I32ToString(i)) == Some(i)
  {
    if i < 0 {
      DigitsOfNat(-i);
      assert ("-" + NatDigits(-i))[1..] == NatDigits(-i);
    } else {
      DigitsOfNat(i);
      assert IsDigit(NatDigits(i)[0]);
    }
  }
}
