/**
 * Java's fixed-width integers as the suggestion cursor uses them: the `long`
 * range of subject ids, the narrowing casts `(int)` and `(short)`, and the
 * decimal rendering `Long.toString`, together with a parser that undoes it.
 */
module JavaLong {
  import opened Wrappers

  const TWO_16: int := 0x1_0000
  const TWO_32: int := 0x1_0000_0000

  type int64 = x: int | -0x8000_0000_0000_0000 <= x < 0x8000_0000_0000_0000
  type int32 = x: int | -0x8000_0000 <= x < 0x8000_0000
  type int16 = x: int | -0x8000 <= x < 0x8000

  /** The Java cast `(int) x` of a `long`: keep the low 32 bits, read them back signed. */
  function ToInt32(x: int64): (r: int32)
    ensures (x - r) % TWO_32 == 0
  {
    var low := x % TWO_32;
    if low >= 0x8000_0000 then low - TWO_32 else low
  }

  /** The Java cast `(short) x` of a `long`: keep the low 16 bits, read them back signed. */
  function ToInt16(x: int64): (r: int16)
    ensures (x - r) % TWO_16 == 0
  {
    var low := x % TWO_16;
    if low >= 0x8000 then low - TWO_16 else low
  }

  /** Narrowing to `int` leaves a `long` that already fits unchanged. */
  lemma ToInt32Fits(x: int64)
    requires -0x8000_0000 <= x < 0x8000_0000
    ensures ToInt32(x) == x
  {
  }

  /** Narrowing to `short` leaves a `long` that already fits unchanged. */
  lemma ToInt16Fits(x: int64)
    requires -0x8000 <= x < 0x8000
    ensures ToInt16(x) == x
  {
  }

  /** Two values whose difference is a multiple of 2^32 agree in their low 16 bits. */
  lemma LowBitsAgree(x: int, y: int)
    requires (x - y) % TWO_32 == 0
    ensures x % TWO_16 == y % TWO_16
  {
  }

  /** `(short) x` of a `long` equals `(short) (int) x`: both keep the same low 16 bits. */
  lemma ShortThroughInt(x: int64)
    ensures ToInt16(ToInt32(x)) == ToInt16(x)
  {
    LowBitsAgree(x, ToInt32(x));
  }

  // ---------------------------------------------------------------------
  // Long.toString and its inverse

  predicate IsDigit(c: char) {
    '0' <= c <= '9'
  }

  predicate AllDigits(s: string) {
    forall i :: 0 <= i < |s| ==> IsDigit(s[i])
  }

  function DigitChar(d: int): (c: char)
    requires 0 <= d < 10
    ensures IsDigit(c) && c as int - '0' as int == d
  {
    (d + '0' as int) as char
  }

  /** The decimal digits of `n`, most significant first, without leading zeros. */
  function Digits(n: nat): (s: string)
    ensures 1 <= |s| && AllDigits(s)
    ensures |s| > 1 ==> s[0] != '0'
    ensures n < 10 <==> |s| == 1
    decreases n
  {
    if n < 10 then [DigitChar(n)] else Digits(n / 10) + [DigitChar(n % 10)]
  }

  /** `Long.toString(x)`: an optional minus sign followed by the digits of |x|. */
  function DecimalString(x: int): (s: string)
    ensures 1 <= |s|
    ensures x < 0 <==> s[0] == '-'
    ensures x < 0 ==> AllDigits(s[1..]) && |s| >= 2 && s[1] != '0'
    ensures x >= 0 ==> AllDigits(s) && (|s| > 1 ==> s[0] != '0')
  {
    if x < 0 then "-" + Digits(-x) else Digits(x)
  }

  /** The value of a run of decimal digits. */
  function DigitsValue(s: string): (n: nat)
    requires AllDigits(s)
    decreases |s|
  {
    if s == [] then 0
    else DigitsValue(s[..|s| - 1]) * 10 + (s[|s| - 1] as int - '0' as int)
  }

  /** Reads an optionally signed decimal numeral; anything else is refused. */
  function ParseDecimal(s: string): (r: Option<int>)
    ensures r.Some? ==> 1 <= |s|
  {
    if 2 <= |s| && s[0] == '-' && AllDigits(s[1..]) then Some(0 - DigitsValue(s[1..]) as int)
    else if 1 <= |s| && AllDigits(s) then Some(DigitsValue(s))
    else None
  }

  lemma {:induction false} DigitsRoundTrip(n: nat)
    ensures DigitsValue(Digits(n)) == n
    decreases n
  {
    if n >= 10 {
      var s := Digits(n);
      DigitsRoundTrip(n / 10);
      assert s[..|s| - 1] == Digits(n / 10);
    }
  }

  /** Parsing undoes `Long.toString`. */
  lemma DecimalRoundTrip(x: int)
    ensures ParseDecimal(DecimalString(x)) == Some(x)
  {
    var s := DecimalString(x);
    if x < 0 {
      DigitsRoundTrip(-x);
      assert s[1..] == Digits(-x);
    } else {
      DigitsRoundTrip(x);
    }
  }

  /** Distinct ids render to distinct strings. */
  lemma DecimalStringInjective(x: int, y: int)
    requires DecimalString(x) == DecimalString(y)
    ensures x == y
  {
    DecimalRoundTrip(x);
    DecimalRoundTrip(y);
  }
}
