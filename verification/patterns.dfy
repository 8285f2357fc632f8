/**
 * The remaining entries of the `Regex` table in src/utils/validation.ts and
 * the `isValid*` guards built on them. The `name`, `phone` and `digitsOnly`
 * patterns are written out as conditions on characters and length; the
 * `email` and `password` patterns are kept abstract and passed in as
 * predicates, so whatever is proved here holds for every choice of them.
 */
module Patterns {
  import opened JsValue
  import opened Digits

  /** `Regex.digitsOnly`, `/^[0-9]+$/`: a non-empty digit string, which is
      the zero-padded form of the number it denotes; every
      non-empty digit string matches, whatever its length. */
  function MatchesDigitsOnly(s: string): (r: bool)
    ensures r ==> |s| >= 1 && AllDigits(s) && ZeroPadded(DecimalValue(s), |s|) == s
    ensures |s| >= 1 && AllDigits(s) ==> r
  {
    var ok := |s| >= 1 && AllDigits(s);
    if ok then ZeroPaddedOfDecimalValue(s); ok else ok
  }

  /** `Regex.phone`, `/^[0-9]{10}$/`: the `digitsOnly` strings of length ten. */
  function MatchesPhone(s: string): (r: bool)
    ensures r <==> |s| == 10 && MatchesDigitsOnly(s)
  {
    |s| == 10 && AllDigits(s)
  }

  /** `Regex.name`, `/^.{2,36}$/`: 2 to 36 characters, none a line
      terminator. Every phone number is also a valid name. */
  function MatchesName(s: string): (r: bool)
    ensures MatchesPhone(s) ==> r
    ensures |s| < 2 || |s| > 36 ==> !r
  {
    2 <= |s| <= 36 && forall i :: 0 <= i < |s| ==> !IsLineTerminator(s[i])
  }

  /** `isValidHumanName` */
  function IsValidHumanName(value: Value): (r: bool)
    ensures r <==> value.Str? && 2 <= |value.s| <= 36
                   && forall i :: 0 <= i < |value.s| ==> !IsLineTerminator(value.s[i])
  {
    IsString(value) && MatchesName(value.s)
  }

  /** `isValidEmail`: the length guard is checked before the pattern. */
  function IsValidEmail(value: Value, emailPattern: string -> bool): (r: bool)
    ensures r ==> value.Str? && 5 < |value.s| < 255
    ensures value.Str? && 5 < |value.s| < 255 ==> (r <==> emailPattern(value.s))
  {
    IsString(value) && |value.s| > 5 && |value.s| < 255 && emailPattern(value.s)
  }

  /** `isValidPassword` */
  function IsValidPassword(value: Value, passwordPattern: string -> bool): (r: bool)
    ensures r <==> value.Str? && passwordPattern(value.s)
  {
    IsString(value) && passwordPattern(value.s)
  }

  /** `isValidPhone` */
  function IsValidPhone(value: Value): (r: bool)
    ensures r <==> value.Str? && |value.s| == 10 && forall i :: 0 <= i < 10 ==> '0' <= value.s[i] <= '9'
  {
    IsString(value) && MatchesPhone(value.s)
  }

  /** Every valid phone number is a `digitsOnly` string, and is the
      zero-padded ten-digit form of the number it denotes. */
  lemma {:induction false} PhoneIsTenDigitNumber(value: Value)
    requires IsValidPhone(value)
    ensures MatchesDigitsOnly(value.s)
    ensures ZeroPadded(DecimalValue(value.s), 10) == value.s
  {
    ZeroPaddedOfDecimalValue(value.s);
  }

  /** Conversely, every number below ten to the tenth, padded to ten digits,
      is a valid phone number. */
  lemma {:induction false} TenDigitNumberIsPhone(n: nat)
    requires n < Pow10(10)
    ensures IsValidPhone(Str(ZeroPadded(n, 10)))
    ensures DecimalValue(ZeroPadded(n, 10)) == n
  {
    DecimalValueOfZeroPadded(n, 10);
  }

  /** The email length guard rejects short and long strings whatever the
      pattern says. */
  lemma EmailLengthGuard(s: string, emailPattern: string -> bool)
    requires |s| <= 5 || |s| >= 255
    ensures !IsValidEmail(Str(s), emailPattern)
  {
  }

  lemma SamplePhones()
    ensures IsValidPhone(Str("5551234567"))
    ensures !IsValidPhone(Str("555123456")) && !IsValidPhone(Str("555-123-45"))
    ensures !IsValidPhone(Num(5551234567.0))
  {
    assert !IsDigit("555-123-45"[3]);
  }
}
