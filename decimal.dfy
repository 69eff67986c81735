/**
 * Decimal text of unsigned 32-bit integers: the formatting used when a row is
 * written (`{row.Number}`) and the digits-only reading of `uint.Parse`.
 */
module Decimal {
  import opened Outcomes

  const UInt32Max: nat := 0xFFFF_FFFF

  /** The values of C#'s `uint`. */
  type UInt32 = n: nat | n <= UInt32Max

  predicate IsDigit(c: char) {
    '0' <= c <= '9'
  }

  predicate AllDigits(s: string) {
    forall i :: 0 <= i < |s| ==> IsDigit(s[i])
  }

  function DigitValue(c: char): (d: nat)
    requires IsDigit(c)
    ensures d < 10
  {
    c as int - '0' as int
  }

  function DigitChar(d: nat): (c: char)
    requires d < 10
    ensures IsDigit(c) && DigitValue(c) == d
  {
    ('0' as int + d) as char
  }

  /** The number a string of decimal digits denotes, most significant digit first. */
  function Value(s: string): nat
    requires AllDigits(s)
  {
    if s == [] then 0 else 10 * Value(s[..|s| - 1]) + DigitValue(s[|s| - 1])
  }

  /** The shortest decimal text of `n`, as `uint.ToString()` prints it. */
  function Digits(n: nat): (s: string)
    ensures |s| > 0 && AllDigits(s)
    ensures Value(s) == n
  {
    if n < 10 then [DigitChar(n)]
    else
      var prefix := Digits(n / 10);
      var s := prefix + [DigitChar(n % 10)];
      assert s[..|s| - 1] == prefix;
      s
  }

  /**
   * `uint.Parse` restricted to plain digits: an empty or non-digit text is a
   * format error, a value above `uint.MaxValue` an overflow.
   */
  function ParseUInt(s: string): (r: Result<UInt32>)
    ensures r.Ok? <==> s != [] && AllDigits(s) && Value(s) <= UInt32Max
    ensures r.Ok? ==> r.value == Value(s)
    ensures r == Err(InvalidNumber) <==> s == [] || !AllDigits(s)
    ensures r == Err(NumberOverflow) <==> s != [] && AllDigits(s) && Value(s) > UInt32Max
  {
    if s == [] || !AllDigits(s) then Err(InvalidNumber)
    else if Value(s) > UInt32Max then Err(NumberOverflow)
    else Ok(Value(s))
  }

  /** Printing a number and reading it back gives the number. */
  lemma ParseDigits(n: UInt32)
    ensures ParseUInt(Digits(n)) == Ok(n)
  {
  }

  /** A text with a character other than a digit is refused as a format error. */
  lemma ParseNonDigit(s: string, i: nat)
    requires i < |s| && !IsDigit(s[i])
    ensures ParseUInt(s) == Err(InvalidNumber)
  {
  }

  /** Leading zeros do not change the value: "007" reads as 7. */
  lemma {:induction false} LeadingZeros(s: string)
    requires AllDigits(s)
    ensures AllDigits("0" + s) && Value("0" + s) == Value(s)
  {
    if s != [] {
      var z := "0" + s;
      assert z[..|z| - 1] == "0" + s[..|s| - 1];
      LeadingZeros(s[..|s| - 1]);
    }
  }

  /** The smallest number past the range overflows rather than wrapping around. */
  lemma OverflowAtLimit()
    ensures ParseUInt(Digits(UInt32Max + 1)) == Err(NumberOverflow)
  {
  }

  /**
   * Every digit string denoting a number past the range overflows, however
   * many leading zeros it has; a shorter digit string with the same value
   * parses.
   */
  lemma {:induction false} OverflowAboveLimit(s: string, k: nat)
    requires s != [] && AllDigits(s) && Value(s) > UInt32Max
    ensures ParseUInt(Zeros(k) + s) == Err(NumberOverflow)
  {
    ZerosPrefix(k, s);
  }

  /** `k` zero digits. */
  function Zeros(k: nat): (z: string)
    ensures |z| == k && AllDigits(z)
  {
    if k == 0 then [] else "0" + Zeros(k - 1)
  }

  /** Leading zero digits do not change the value of a digit string. */
  lemma {:induction false} ZerosPrefix(k: nat, s: string)
    requires AllDigits(s)
    ensures AllDigits(Zeros(k) + s) && Value(Zeros(k) + s) == Value(s)
  {
    if k == 0 {
      assert Zeros(k) + s == s;
    } else {
      var t := Zeros(k - 1) + s;
      ZerosPrefix(k - 1, s);
      assert Zeros(k) + s == "0" + t;
      LeadingZeros(t);
    }
  }
}
