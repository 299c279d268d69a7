/** Decimal text of unsigned integers: `format!("{}", n)` and `str::parse::<uN>()`. */
module Decimal {
  import opened Prelude

  predicate IsDigit(c: char) { '0' <= c <= '9' }

  function DigitOf(d: nat): char
    requires d < 10
  {
    ('0' as int + d) as char
  }

  /** The decimal text of `n`: no sign, no leading zero. */
  function Print(n: nat): (s: string)
    ensures s != [] && AllDigits(s) && Value(s) == n
    ensures s[0] == '0' ==> n == 0
  {
    if n < 10 then [DigitOf(n)] else Print(n / 10) + [DigitOf(n % 10)]
  }

  predicate AllDigits(s: string) { forall i :: 0 <= i < |s| ==> IsDigit(s[i]) }

  function Value(s: string): nat
    requires AllDigits(s)
  {
    if s == [] then 0 else 10 * Value(s[..|s| - 1]) + (s[|s| - 1] as int - '0' as int)
  }

  /** Rust's unsigned integer parser: an optional `+`, then one or more digits whose value is at most
      `max`; everything else is an error. */
  function Parse(s: string, max: nat): Option<nat> {
    var digits := if s != [] && s[0] == '+' then s[1..] else s;
    if digits != [] && AllDigits(digits) && Value(digits) <= max then Some(Value(digits)) else None
  }

  /** What is read is digits whose value is at most `max`, with or without one plus sign before them. */
  lemma ParseIff(s: string, max: nat, n: nat)
    ensures Parse(s, max) == Some(n)
            <==> n <= max && exists d: string :: d != [] && AllDigits(d) && Value(d) == n && (s == d || s == "+" + d)
  {
    var digits := if s != [] && s[0] == '+' then s[1..] else s;
    assert s != [] && s[0] == '+' ==> s == "+" + digits;
    forall d: string | d != [] && AllDigits(d) && (s == d || s == "+" + d) ensures d == digits {
      assert IsDigit(d[0]);
      assert s == "+" + d ==> s[1..] == d;
    }
  }

  lemma ParsePrint(n: nat, max: nat)
    ensures Parse(Print(n), max) == if n <= max then Some(n) else None
  {
    assert IsDigit(Print(n)[0]);
  }
}
