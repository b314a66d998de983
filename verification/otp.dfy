/**
 * The one-time passcode generator `generateOTP`:
 * `Math.floor(100000 + Math.random() * 900000).toString()`.
 *
 * The random number is replaced by an integer draw `k` in `[0, 900000)`, so the
 * code is the decimal rendering of `100000 + k`. `Decimal` is how
 * `Number.prototype.toString` prints a non-negative integer below 10^21 (larger
 * numbers get exponent notation; a code is below 10^6), and `DecimalValue`
 * reads such a string back; the lemmas relate the two in both directions.
 */
module Otp {

  /** The smallest code `generateOTP` can produce. */
  const OtpBase: nat := 100000
  /** The number of different codes: the draw lies in `[0, OtpRange)`. */
  const OtpRange: nat := 900000

  predicate IsDigit(c: char) {
    '0' <= c <= '9'
  }

  predicate AllDigits(s: string) {
    forall i :: 0 <= i < |s| ==> IsDigit(s[i])
  }

  /** What a stored or mailed code looks like: six decimal digits, no leading zero. */
  predicate IsOtpCode(s: string) {
    |s| == 6 && AllDigits(s) && s[0] != '0'
  }

  function Pow10(k: nat): (p: nat)
    ensures p >= 1
  {
    if k == 0 then 1 else 10 * Pow10(k - 1)
  }

  function DigitChar(d: nat): (c: char)
    requires d < 10
    ensures IsDigit(c)
    ensures d == 0 <==> c == '0'
  {
    ('0' as int + d) as char
  }

  function DigitValue(c: char): (d: nat)
    requires IsDigit(c)
    ensures d < 10 && DigitChar(d) == c
  {
    c as int - '0' as int
  }

  /** Decimal rendering of `n`, most significant digit first, without leading zeros. */
  function Decimal(n: nat): string
  {
    if n < 10 then [DigitChar(n)] else Decimal(n / 10) + [DigitChar(n % 10)]
  }

  /** The number a string of decimal digits denotes. */
  function DecimalValue(s: string): nat
    requires AllDigits(s)
  {
    if s == [] then 0 else DecimalValue(s[..|s| - 1]) * 10 + DigitValue(s[|s| - 1])
  }

  /** `Decimal` prints digits only, never a leading zero for a positive number, and reads back as `n`. */
  lemma {:induction false} DecimalRoundTrip(n: nat)
    ensures AllDigits(Decimal(n)) && |Decimal(n)| >= 1
    ensures n > 0 ==> Decimal(n)[0] != '0'
    ensures DecimalValue(Decimal(n)) == n
  {
    if n >= 10 {
      DecimalRoundTrip(n / 10);
      var prefix := Decimal(n / 10);
      var s := prefix + [DigitChar(n % 10)];
      assert s[..|s| - 1] == prefix;
      assert DecimalValue(s) == DecimalValue(prefix) * 10 + n % 10;
    }
  }

  /** A number with `k + 1` digits is printed with exactly `k + 1` characters. */
  lemma {:induction false} DecimalLength(n: nat, k: nat)
    requires Pow10(k) <= n < Pow10(k + 1)
    ensures |Decimal(n)| == k + 1
  {
    if k > 0 {
      assert n >= 10;
      assert Pow10(k - 1) <= n / 10 < Pow10(k);
      DecimalLength(n / 10, k - 1);
    }
  }

  /** A digit string of length `k + 1` without a leading zero denotes a number with `k + 1` digits. */
  lemma {:induction false} DecimalValueBounds(s: string)
    requires AllDigits(s) && |s| >= 1 && s[0] != '0'
    ensures Pow10(|s| - 1) <= DecimalValue(s) < Pow10(|s|)
  {
    if |s| > 1 {
      var prefix := s[..|s| - 1];
      assert prefix[0] == s[0];
      DecimalValueBounds(prefix);
    }
  }

  /** Reading a digit string without a leading zero and printing the number again gives the string back. */
  lemma {:induction false} DecimalOfValue(s: string)
    requires AllDigits(s) && |s| >= 1 && s[0] != '0'
    ensures Decimal(DecimalValue(s)) == s
  {
    if |s| > 1 {
      var prefix := s[..|s| - 1];
      assert prefix[0] == s[0];
      DecimalValueBounds(prefix);
      DecimalOfValue(prefix);
      var v := DecimalValue(s);
      assert v / 10 == DecimalValue(prefix) && v % 10 == DigitValue(s[|s| - 1]);
      assert s == prefix + [s[|s| - 1]];
    }
  }

  /**
   * `generateOTP` with its random number replaced by the draw: the code is always
   * six digits without a leading zero, and it denotes `100000 + draw`.
   */
  function GenerateOtp(draw: nat): (code: string)
    requires draw < OtpRange
    ensures IsOtpCode(code)
    ensures DecimalValue(code) == OtpBase + draw
  {
    DecimalRoundTrip(OtpBase + draw);
    DecimalLength(OtpBase + draw, 5);
    Decimal(OtpBase + draw)
  }

  /** Different draws give different codes. */
  lemma GenerateOtpInjective(a: nat, b: nat)
    requires a < OtpRange && b < OtpRange
    ensures GenerateOtp(a) == GenerateOtp(b) <==> a == b
  {
  }

  /** Every six-digit code without a leading zero is produced by exactly the draw its value names. */
  lemma {:induction false} EveryCodeIsGenerated(s: string)
    requires IsOtpCode(s)
    ensures OtpBase <= DecimalValue(s) < OtpBase + OtpRange
    ensures GenerateOtp(DecimalValue(s) - OtpBase) == s
  {
    DecimalValueBounds(s);
    assert Pow10(5) == OtpBase && Pow10(6) == OtpBase + OtpRange;
    DecimalOfValue(s);
  }
}
