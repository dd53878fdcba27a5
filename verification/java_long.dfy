/** The decimal text form of Java's 64-bit `long`: `Long.toString(long)` and
    `Long.parseLong(String)` (radix 10), used by the poll-cycle cache to store
    timestamps as strings. */
module JavaLong {
  import opened Wrappers

  const MinValue: int := -0x8000_0000_0000_0000
  const MaxValue: int := 0x7FFF_FFFF_FFFF_FFFF

  /** A Java `long`. */
  type Long = x: int | MinValue <= x <= MaxValue

  /** The exception `Long.parseLong` throws, carrying the rejected input. */
  datatype NumberFormatException = NumberFormatException(input: string)

  predicate IsDigit(c: char) {
    '0' <= c <= '9'
  }

  predicate AllDigits(s: string) {
    forall i :: 0 <= i < |s| ==> IsDigit(s[i])
  }

  function DigitValue(c: char): (d: nat)
    requires IsDigit(c)
    ensures d < 10
  {
    c as int - '0' as int
  }

  function DigitChar(d: nat): (c: char)
    requires d < 10
    ensures IsDigit(c) && DigitValue(c) == d
  {
    ('0' as int + d) as char
  }

  /** A digit string as `Long.toString` writes magnitudes: non-empty and
      without a leading zero unless it is exactly "0". */
  predicate CanonicalDigits(s: string) {
    |s| > 0 && AllDigits(s) && (s[0] != '0' || |s| == 1)
  }

  /** The text `Long.toString` produces for some value: canonical digits,
      optionally preceded by '-' when the magnitude is not zero. */
  predicate CanonicalDecimal(s: string) {
    CanonicalDigits(s) || (|s| > 1 && s[0] == '-' && CanonicalDigits(s[1..]) && s[1..] != "0")
  }

  /** The number a run of decimal digits denotes, most significant first. */
  function DigitsValue(s: string): nat
    requires AllDigits(s)
    decreases |s|
  {
    if |s| == 0 then 0 else DigitsValue(s[..|s| - 1]) * 10 + DigitValue(s[|s| - 1])
  }

  /** The shortest decimal digit string of n. */
  function NatToDigits(n: nat): (r: string)
    ensures CanonicalDigits(r)
    ensures DigitsValue(r) == n
    ensures r == "0" <==> n == 0
  {
    if n < 10 then
      [DigitChar(n)]
    else
      var init := NatToDigits(n / 10);
      var r := init + [DigitChar(n % 10)];
      assert r[..|r| - 1] == init;
      r
  }

  /** `Long.toString(x)`: '-' for negative values, then the magnitude. */
  function LongToString(x: Long): (r: string)
    ensures CanonicalDecimal(r)
    ensures r[0] == '-' <==> x < 0
  {
    if x < 0 then "-" + NatToDigits(-(x as int)) else NatToDigits(x)
  }

  /** `Long.parseLong(s)`: one optional leading '+' or '-', then at least one
      decimal digit, and the value must fit in a long; anything else throws
      NumberFormatException. Leading zeros are accepted. */
  function ParseLong(s: string): (r: Result<Long, NumberFormatException>)
    ensures r.Failure? ==> r.error == NumberFormatException(s)
  {
    if |s| == 0 then
      Failure(NumberFormatException(s))
    else
      var negative := s[0] == '-';
      var digits := if s[0] == '-' || s[0] == '+' then s[1..] else s;
      if |digits| == 0 || !AllDigits(digits) then
        Failure(NumberFormatException(s))
      else
        var magnitude := DigitsValue(digits);
        var v: int := if negative then -(magnitude as int) else magnitude;
        if MinValue <= v <= MaxValue then Success(v) else Failure(NumberFormatException(s))
  }

  /** Parsing the text of any long gives that long back, negatives and the
      extreme values included. */
  lemma ParseLongToString(x: Long)
    ensures ParseLong(LongToString(x)) == Success(x)
  {
  }

  /** Distinct longs have distinct texts. */
  lemma LongToStringInjective(x: Long, y: Long)
    ensures LongToString(x) == LongToString(y) <==> x == y
  {
  }

  /** A non-empty canonical digit string starts with a digit no larger than
      its value. */
  lemma {:induction false} DigitsValueAtLeastLeading(s: string)
    requires |s| > 0 && AllDigits(s)
    ensures DigitsValue(s) >= DigitValue(s[0])
    decreases |s|
  {
    if |s| > 1 {
      var init := s[..|s| - 1];
      assert init[0] == s[0];
      DigitsValueAtLeastLeading(init);
    }
  }

  /** Canonical digit strings are exactly what NatToDigits writes. */
  lemma {:induction false} NatToDigitsOfValue(s: string)
    requires CanonicalDigits(s)
    ensures NatToDigits(DigitsValue(s)) == s
    decreases |s|
  {
    var n := DigitsValue(s);
    var last := s[|s| - 1];
    if |s| == 1 {
      assert s[..|s| - 1] == [];
      assert DigitsValue(s[..|s| - 1]) == 0;
      assert n == DigitsValue(s[..|s| - 1]) * 10 + DigitValue(last);
      assert DigitChar(DigitValue(last)) == last;
    } else {
      var init := s[..|s| - 1];
      assert init[0] == s[0];
      assert CanonicalDigits(init);
      DigitsValueAtLeastLeading(init);
      assert DigitsValue(init) >= 1;
      assert n / 10 == DigitsValue(init) && n % 10 == DigitValue(last);
      NatToDigitsOfValue(init);
      assert DigitChar(DigitValue(last)) == last;
      assert s == init + [last];
    }
  }

  /** The other direction of the round trip: when the stored text is the
      canonical form, re-encoding the parsed value reproduces it exactly.
      Non-canonical inputs such as "+5" or "007" parse but do not come back. */
  lemma {:induction false} LongToStringOfParse(s: string)
    requires CanonicalDecimal(s)
    requires ParseLong(s).Success?
    ensures LongToString(ParseLong(s).value) == s
  {
    var v := ParseLong(s).value;
    if CanonicalDigits(s) {
      assert s[0] != '-' && s[0] != '+';
      NatToDigitsOfValue(s);
    } else {
      var digits := s[1..];
      NatToDigitsOfValue(digits);
      assert DigitsValue(digits) != 0;
      assert s == "-" + digits;
    }
  }

  /** The same round trip for any text: whenever a text is canonical and
      parses, its parsed value re-encodes to it. */
  lemma CanonicalTextReencodes(s: string)
    ensures CanonicalDecimal(s) && ParseLong(s).Success? ==> LongToString(ParseLong(s).value) == s
  {
    if CanonicalDecimal(s) && ParseLong(s).Success? {
      LongToStringOfParse(s);
    }
  }

  /** Texts that are not long literals are rejected rather than read as a
      default: the empty string, a lone sign, letters and trailing junk. */
  lemma ParseLongRejects()
    ensures ParseLong("").Failure?
    ensures ParseLong("-").Failure?
    ensures ParseLong("+").Failure?
    ensures ParseLong("abc").Failure?
    ensures ParseLong("12x").Failure?
  {
    assert !AllDigits("abc") by { assert !IsDigit("abc"[0]); }
    assert !AllDigits("12x") by { assert !IsDigit("12x"[2]); }
  }

  function Pow10(k: nat): nat {
    if k == 0 then 1 else 10 * Pow10(k - 1)
  }

  lemma Pow10Nineteen()
    ensures Pow10(19) == 10000000000000000000
  {
    assert Pow10(1) == 10;
    assert Pow10(2) == 100;
    assert Pow10(3) == 1000;
    assert Pow10(4) == 10000;
    assert Pow10(5) == 100000;
    assert Pow10(6) == 1000000;
    assert Pow10(7) == 10000000;
    assert Pow10(8) == 100000000;
    assert Pow10(9) == 1000000000;
    assert Pow10(10) == 10000000000;
    assert Pow10(11) == 100000000000;
    assert Pow10(12) == 1000000000000;
    assert Pow10(13) == 10000000000000;
    assert Pow10(14) == 100000000000000;
    assert Pow10(15) == 1000000000000000;
    assert Pow10(16) == 10000000000000000;
    assert Pow10(17) == 100000000000000000;
    assert Pow10(18) == 1000000000000000000;
  }

  lemma {:induction false} Pow10Monotone(j: nat, k: nat)
    requires j <= k
    ensures Pow10(j) <= Pow10(k)
    decreases k - j
  {
    if j < k {
      Pow10Monotone(j, k - 1);
    }
  }

  /** Every run of twenty or more digits without a leading zero is out of
      range, unsigned or with either sign: its magnitude is at least ten to
      the nineteenth, beyond both the largest long and the magnitude of the
      smallest. */
  lemma LongDigitRunsOverflow(digits: string)
    requires AllDigits(digits) && |digits| > 19 && digits[0] != '0'
    ensures ParseLong(digits).Failure?
    ensures ParseLong("+" + digits).Failure?
    ensures ParseLong("-" + digits).Failure?
  {
    DigitsValueLowerBound(digits);
    Pow10Monotone(19, |digits| - 1);
    Pow10Nineteen();
    assert DigitValue(digits[0]) >= 1;
    assert DigitsValue(digits) >= 10000000000000000000;
    assert ("+" + digits)[1..] == digits;
    assert ("-" + digits)[1..] == digits;
  }

  /** A digit string is worth at least its leading digit in its leading
      position, so a long enough run of digits cannot fit in a long. */
  lemma {:induction false} DigitsValueLowerBound(s: string)
    requires |s| > 0 && AllDigits(s)
    ensures DigitsValue(s) >= DigitValue(s[0]) * Pow10(|s| - 1)
    decreases |s|
  {
    if |s| > 1 {
      var init := s[..|s| - 1];
      assert init[0] == s[0];
      DigitsValueLowerBound(init);
      assert DigitsValue(s) >= DigitsValue(init) * 10;
    }
  }
}
