/** Decimal text and the JavaScript conversions the program relies on:
    `String(n)`, `padStart`, `parseInt` and `parseFloat`. */
module Numbers {
  import opened Wrappers
  import Text

  predicate IsDigit(c: char) { '0' <= c <= '9' }

  predicate AllDigits(s: string) {
    forall i :: 0 <= i < |s| ==> IsDigit(s[i])
  }

  function DigitValue(c: char): nat
    requires IsDigit(c)
  {
    c as int - '0' as int
  }

  function DigitChar(d: nat): (c: char)
    requires d < 10
    ensures IsDigit(c) && DigitValue(c) == d
  {
    ('0' as int + d) as char
  }

  function Pow10(k: nat): (p: nat)
    ensures p >= 1
  {
    if k == 0 then 1 else 10 * Pow10(k - 1)
  }

  /** `String(n)` for a natural number: its decimal digits, most significant
      first, with no leading zero. */
  function NatToString(n: nat): (r: string)
    ensures |r| >= 1 && AllDigits(r)
    ensures |r| > 1 ==> r[0] != '0'
  {
    if n < 10 then [DigitChar(n)] else NatToString(n / 10) + [DigitChar(n % 10)]
  }

  /** The value of a string of decimal digits (the empty string reads 0). */
  function DigitsToNat(s: string): nat
    requires AllDigits(s)
  {
    if s == [] then 0 else DigitsToNat(s[..|s| - 1]) * 10 + DigitValue(s[|s| - 1])
  }

  /** Reading back what `NatToString` wrote gives the number. */
  lemma {:induction false} NatStringRoundTrip(n: nat)
    ensures DigitsToNat(NatToString(n)) == n
  {
    if n >= 10 {
      NatStringRoundTrip(n / 10);
      var s := NatToString(n);
      assert s[..|s| - 1] == NatToString(n / 10);
    }
  }

  /** A number below 10^k is written with at most k digits, and one of at
      least 10^(k-1) with at least k. */
  lemma {:induction false} NatToStringLength(n: nat, k: nat)
    requires k >= 1
    ensures n < Pow10(k) ==> |NatToString(n)| <= k
    ensures Pow10(k - 1) <= n ==> |NatToString(n)| >= k
  {
    if n >= 10 && k >= 2 {
      NatToStringLength(n / 10, k - 1);
      if Pow10(k - 1) <= n {
        assert Pow10(k - 2) <= n / 10;
      }
    }
  }

  /** `Repeat(c, k)` is `k` copies of `c`. */
  function Repeat(c: char, k: nat): (r: string)
    ensures |r| == k
    ensures forall i :: 0 <= i < k ==> r[i] == c
  {
    if k == 0 then [] else [c] + Repeat(c, k - 1)
  }

  /** `s.padStart(width, c)`: `s` itself when already `width` long, else `s`
      preceded by enough copies of `c` to reach `width`. */
  function PadStart(s: string, width: nat, c: char): (r: string)
    ensures |r| == if |s| >= width then |s| else width
    ensures r[|r| - |s|..] == s
    ensures forall i :: 0 <= i < |r| - |s| ==> r[i] == c
  {
    if |s| >= width then s else Repeat(c, width - |s|) + s
  }

  /** Leading zeros do not change the value of a digit string. */
  lemma {:induction false} LeadingZeros(k: nat, s: string)
    requires AllDigits(s)
    ensures AllDigits(Repeat('0', k) + s)
    ensures DigitsToNat(Repeat('0', k) + s) == DigitsToNat(s)
    decreases |s|
  {
    var z := Repeat('0', k);
    if s == [] {
      assert z + s == z;
      ZerosReadZero(k);
    } else {
      LeadingZeros(k, s[..|s| - 1]);
      assert (z + s)[..|z + s| - 1] == z + s[..|s| - 1];
    }
  }

  lemma {:induction false} ZerosReadZero(k: nat)
    ensures DigitsToNat(Repeat('0', k)) == 0
  {
    if k > 0 {
      var z := Repeat('0', k);
      assert z[..k - 1] == Repeat('0', k - 1);
      ZerosReadZero(k - 1);
    }
  }

  /** The longest prefix of `s` made of decimal digits. */
  function LeadingDigits(s: string): (r: string)
    ensures |r| <= |s| && r == s[..|r|] && AllDigits(r)
    ensures |r| < |s| ==> !IsDigit(s[|r|])
  {
    if s != [] && IsDigit(s[0]) then [s[0]] + LeadingDigits(s[1..]) else []
  }

  lemma {:induction false} LeadingDigitsOfDigits(s: string)
    requires AllDigits(s)
    ensures LeadingDigits(s) == s
  {
    if s != [] {
      LeadingDigitsOfDigits(s[1..]);
    }
  }

  /** The text after an optional leading sign, and whether it was `-`. */
  function SignSplit(s: string): (bool, string) {
    if s != [] && (s[0] == '-' || s[0] == '+') then (s[0] == '-', s[1..]) else (false, s)
  }

  /** `parseInt(s)` in base 10: leading white space and one sign are
      skipped, then the leading digits are read; `None` is `NaN`. */
  function ParseInt(s: string): (r: Option<int>)
    ensures r.Some? ==> exists d :: LeadingNumberAt(s, d)
  {
    var (neg, rest) := SignSplit(Text.TrimStart(s));
    var ds := LeadingDigits(rest);
    if ds == [] then None
    else
      assert LeadingNumberAt(s, ds);
      Some(if neg then -(DigitsToNat(ds) as int) else DigitsToNat(ds))
  }

  /** `ds` is the non-empty run of digits that `parseInt` reads from `s`. */
  predicate LeadingNumberAt(s: string, ds: string) {
    ds != [] && ds == LeadingDigits(SignSplit(Text.TrimStart(s)).1)
  }

  /** Text `parseInt` reads a number from is not blank. */
  lemma ParseIntNotBlank(s: string)
    requires ParseInt(s).Some?
    ensures Text.Trim(s) != []
  {
    Text.TrimEndKeepsFirst(Text.TrimStart(s));
  }

  /** A run of digits is read whole. */
  lemma ParseIntOfDigits(s: string)
    requires s != [] && AllDigits(s)
    ensures ParseInt(s) == Some(DigitsToNat(s) as int)
  {
    assert Text.TrimStart(s) == s by { assert !Text.IsSpace(s[0]); }
    assert SignSplit(s) == (false, s);
    LeadingDigitsOfDigits(s);
  }

  /** Text without a minus sign never reads as a negative number. */
  lemma ParseIntUnsigned(s: string)
    requires '-' !in s && ParseInt(s).Some?
    ensures ParseInt(s).value >= 0
  {
    var t := Text.TrimStart(s);
    if t != [] {
      assert t[0] == s[|s| - |t|];
    }
  }

  /** `parseInt(String(n)) == n`. */
  lemma ParseIntOfNat(n: nat)
    ensures ParseInt(NatToString(n)) == Some(n)
  {
    var s := NatToString(n);
    assert Text.TrimStart(s) == s by { assert !Text.IsSpace(s[0]); }
    assert SignSplit(s) == (false, s);
    LeadingDigitsOfDigits(s);
    NatStringRoundTrip(n);
  }

  /** `parseFloat(s)` for plain decimals: leading white space and one sign
      are skipped, then digits, optionally a point and more digits; `None`
      is `NaN` (no digit on either side of the point). */
  function ParseFloat(s: string): (r: Option<real>)
    ensures r.None? <==> ParseFloatDigits(s) == ([], [])
  {
    var digits := ParseFloatDigits(s);
    DecimalValue(SignSplit(Text.TrimStart(s)).0, digits.0, digits.1)
  }

  /** The number a sign, an integer digit run and a fraction digit run
      spell; `None` when both runs are empty. */
  function DecimalValue(neg: bool, whole: string, frac: string): (r: Option<real>)
    requires AllDigits(whole) && AllDigits(frac)
    ensures r.None? <==> whole == [] && frac == []
  {
    if whole == [] && frac == [] then None
    else
      var v := DigitsToNat(whole) as real + FractionValue(frac);
      Some(if neg then -v else v)
  }

  /** The value of the digits after a decimal point: `0.d1d2…` is
      `(d1 + 0.d2…) / 10`. */
  function FractionValue(frac: string): (v: real)
    requires AllDigits(frac)
    ensures 0.0 <= v < 1.0
  {
    if frac == [] then 0.0 else (DigitValue(frac[0]) as real + FractionValue(frac[1..])) / 10.0
  }

  /** The integer and fraction digit runs `parseFloat` reads from `s`. */
  function ParseFloatDigits(s: string): (string, string) {
    var rest := SignSplit(Text.TrimStart(s)).1;
    var whole := LeadingDigits(rest);
    var after := rest[|whole|..];
    var frac := if after != [] && after[0] == '.' then LeadingDigits(after[1..]) else [];
    (whole, frac)
  }

  /** `parseFloat(String(n)) == n`. */
  lemma ParseFloatOfNat(n: nat)
    ensures ParseFloat(NatToString(n)) == Some(n as real)
  {
    ParseFloatOfDigits(NatToString(n));
    NatStringRoundTrip(n);
  }

  /** A non-empty digit string parses to its value. */
  lemma ParseFloatOfDigits(s: string)
    requires s != [] && AllDigits(s)
    ensures ParseFloat(s) == Some(DigitsToNat(s) as real)
  {
    var digits := ParseFloatDigits(s);
    var neg := SignSplit(Text.TrimStart(s)).0;
    assert digits.0 == s && digits.1 == [] && !neg by {
      DigitRunDigits(s);
    }
    assert DecimalValue(false, s, []) == Some(DigitsToNat(s) as real);
  }

  /** A digit string is read whole, with no fraction. */
  lemma DigitRunDigits(s: string)
    requires s != [] && AllDigits(s)
    ensures SignSplit(Text.TrimStart(s)) == (false, s)
    ensures ParseFloatDigits(s) == (s, [])
  {
    assert Text.TrimStart(s) == s by { assert !Text.IsSpace(s[0]); }
    LeadingDigitsOfDigits(s);
    assert s[|s|..] == [];
  }

  /** `Number(x) || 0` for a parsed number: the value, or 0 for `NaN`. */
  function OrZero(x: Option<real>): real {
    x.GetOr(0.0)
  }
}
