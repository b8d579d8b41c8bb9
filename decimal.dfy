/** Decimal text of Java ints: String.valueOf(int) and Integer.parseInt, the
    two conversions the line protocol uses for numeric parameters. */
module Decimal {
  import opened Wrappers

  const IntMin := -0x8000_0000
  const IntMax := 0x7FFF_FFFF

  /** A value a Java int can hold. */
  predicate IsInt32(n: int) {
    IntMin <= n <= IntMax
  }

  predicate IsDigit(c: char) {
    '0' <= c <= '9'
  }

  predicate AllDigits(s: string) {
    forall i :: 0 <= i < |s| ==> IsDigit(s[i])
  }

  /** The number a run of decimal digits denotes, most significant first. */
  function DigitsValue(s: string): nat
    requires AllDigits(s)
  {
    if s == [] then 0 else DigitsValue(s[..|s| - 1]) * 10 + (s[|s| - 1] - '0') as nat
  }

  /** The decimal digits of n without leading zeros ("0" for zero). */
  function NatDigits(n: nat): (s: string)
    ensures s != [] && AllDigits(s)
  {
    var d := ['0' + (n % 10) as char];
    if n < 10 then d else NatDigits(n / 10) + d
  }

  /** String.valueOf(int): a minus sign for negative values, then the digits. */
  function IntToString(n: int): string
  {
    if n < 0 then "-" + NatDigits(-n) else NatDigits(n)
  }

  /** Integer.parseInt: an optional sign, at least one digit and a value that
      fits an int; anything else is a NumberFormatException (None). */
  function ParseInt(s: string): (r: Option<int>)
    ensures r.Some? ==> IsInt32(r.value) && s != []
  {
    if s == [] then None
    else
      var signed := s[0] == '-' || s[0] == '+';
      var digits := if signed then s[1..] else s;
      if digits == [] || !AllDigits(digits) then None
      else
        var v: int := DigitsValue(digits);
        var n := if s[0] == '-' then -v else v;
        if IsInt32(n) then Some(n) else None
  }

  /** The digits of n read back give n. */
  lemma {:induction false} NatDigitsValue(n: nat)
    ensures DigitsValue(NatDigits(n)) == n
  {
    var d := ['0' + (n % 10) as char];
    if n >= 10 {
      NatDigitsValue(n / 10);
      var s := NatDigits(n / 10) + d;
      assert s[..|s| - 1] == NatDigits(n / 10);
    }
  }

  /** Integer.parseInt(String.valueOf(n)) == n for every int n. */
  lemma IntRoundTrip(n: int)
    requires IsInt32(n)
    ensures ParseInt(IntToString(n)) == Some(n)
  {
    NatDigitsValue(if n < 0 then -n else n);
    if n < 0 {
      assert IntToString(n)[1..] == NatDigits(-n);
    }
  }
}
