/**
 * The two ISO date patterns of the `Regex` table in src/utils/validation.ts,
 * `ISO_Date` and `ISO_Date_15minIncrements`, written out position by
 * position (every alternative in them has a fixed length, so a match is a
 * condition on each character), together with their meaning: the strings
 * `Date.prototype.toISOString` produces (the Date Time String Format of
 * section 20.3.1.16 of ECMA-262, 6th edition) whose fields lie in the
 * ranges the patterns admit.
 */
module IsoPatterns {
  import opened Digits
  import opened JsValue

  /** `[12][90]` */
  predicate YearLead(a: char, b: char) {
    (a == '1' || a == '2') && (b == '9' || b == '0')
  }

  /** `01|03|05|07|08|10|12` */
  predicate LongMonth(a: char, b: char) {
    || (a == '0' && (b == '1' || b == '3' || b == '5' || b == '7' || b == '8'))
    || (a == '1' && (b == '0' || b == '2'))
  }

  /** `04|06|09|11` */
  predicate ShortMonth(a: char, b: char) {
    (a == '0' && (b == '4' || b == '6' || b == '9')) || (a == '1' && b == '1')
  }

  /** `0[1-9]|[1-2][0-9]` */
  predicate DayTo29(a: char, b: char) {
    (a == '0' && '1' <= b <= '9') || ('1' <= a <= '2' && '0' <= b <= '9')
  }

  /** `0[1-9]|[1-2][0-9]|30` */
  predicate DayTo30(a: char, b: char) {
    DayTo29(a, b) || (a == '3' && b == '0')
  }

  /** `0[1-9]|[1-2][0-9]|3[0-1]` */
  predicate DayTo31(a: char, b: char) {
    DayTo29(a, b) || (a == '3' && '0' <= b <= '1')
  }

  /** The month-day alternation: the day range depends on the month, and
      February always admits the 29th. */
  predicate MonthDay(m1: char, m2: char, d1: char, d2: char) {
    || (LongMonth(m1, m2) && DayTo31(d1, d2))
    || (ShortMonth(m1, m2) && DayTo30(d1, d2))
    || (m1 == '0' && m2 == '2' && DayTo29(d1, d2))
  }

  /** `[0-1][0-9]|2[0-3]` */
  predicate Hour(a: char, b: char) {
    ('0' <= a <= '1' && IsDigit(b)) || (a == '2' && '0' <= b <= '3')
  }

  /** `[0-5][0-9]` */
  predicate BelowSixty(a: char, b: char) {
    '0' <= a <= '5' && IsDigit(b)
  }

  /** `00|15|30|45` */
  predicate QuarterHour(a: char, b: char) {
    (a == '0' && b == '0') || (a == '1' && b == '5') || (a == '3' && b == '0') || (a == '4' && b == '5')
  }

  /** `^[12][90][0-9][0-9]-(month-day)T(hour):`, the first fourteen
      characters, which both patterns share. */
  predicate DateAndHour(s: string)
    requires |s| >= 14
  {
    && YearLead(s[0], s[1]) && IsDigit(s[2]) && IsDigit(s[3])
    && s[4] == '-' && MonthDay(s[5], s[6], s[8], s[9]) && s[7] == '-'
    && s[10] == 'T' && Hour(s[11], s[12]) && s[13] == ':'
  }

  /** `Regex.ISO_Date.test(s)`: anchored at both ends, so exactly 24
      characters; the `.` before the milliseconds is unescaped. */
  function MatchesIsoDate(s: string): (r: bool)
    ensures r ==> |s| == 24 && DigitPositions(s)
  {
    && |s| == 24 && DateAndHour(s)
    && BelowSixty(s[14], s[15]) && s[16] == ':' && BelowSixty(s[17], s[18])
    && !IsLineTerminator(s[19]) && IsDigit(s[20]) && IsDigit(s[21]) && IsDigit(s[22])
    && s[23] == 'Z'
  }

  /** `Regex.ISO_Date_15minIncrements.test(s)`: anchored at the start only,
      so any text may follow the first 24 characters. */
  function MatchesIsoDate15(s: string): (r: bool)
    ensures r ==> |s| >= 24 && DigitPositions(s)
  {
    && |s| >= 24 && DateAndHour(s)
    && QuarterHour(s[14], s[15]) && s[16] == ':' && s[17] == '0' && s[18] == '0'
    && !IsLineTerminator(s[19]) && s[20] == '0' && s[21] == '0' && s[22] == '0'
    && s[23] == 'Z'
  }

  /** The fields of an ISO instant. */
  datatype DateTime = DateTime(
    year: nat, month: nat, day: nat,
    hour: nat, minute: nat, second: nat, millisecond: nat)

  /** Fields that fit the fixed widths of the format. */
  predicate FitsWidths(t: DateTime) {
    && t.year < 10000 && t.month < 100 && t.day < 100
    && t.hour < 100 && t.minute < 100 && t.second < 100 && t.millisecond < 1000
  }

  /** `Date.prototype.toISOString` for a year between 0 and 9999. */
  function ToIsoString(t: DateTime): (s: string)
    ensures |s| == 24
  {
    ZeroPadded(t.year, 4) + "-" + ZeroPadded(t.month, 2) + "-" + ZeroPadded(t.day, 2)
    + "T" + ZeroPadded(t.hour, 2) + ":" + ZeroPadded(t.minute, 2) + ":" + ZeroPadded(t.second, 2)
    + "." + ZeroPadded(t.millisecond, 3) + "Z"
  }

  /** The days the patterns admit in a month: February always has 29. */
  function DaysAdmitted(month: nat): nat {
    if month == 2 then 29
    else if month == 4 || month == 6 || month == 9 || month == 11 then 30
    else 31
  }

  /** The fields `ISO_Date` admits: a century of 10, 19, 20 or 29, a month,
      a day within `DaysAdmitted`, and a time of day. */
  predicate IsoAdmits(t: DateTime) {
    && (t.year / 100 == 10 || t.year / 100 == 19 || t.year / 100 == 20 || t.year / 100 == 29)
    && 1 <= t.month <= 12 && 1 <= t.day <= DaysAdmitted(t.month)
    && t.hour < 24 && t.minute < 60 && t.second < 60 && t.millisecond < 1000
  }

  /** Digits in every numeric position of the format. */
  predicate DigitPositions(s: string) {
    && |s| >= 24
    && IsDigit(s[0]) && IsDigit(s[1]) && IsDigit(s[2]) && IsDigit(s[3])
    && IsDigit(s[5]) && IsDigit(s[6]) && IsDigit(s[8]) && IsDigit(s[9])
    && IsDigit(s[11]) && IsDigit(s[12]) && IsDigit(s[14]) && IsDigit(s[15])
    && IsDigit(s[17]) && IsDigit(s[18])
    && IsDigit(s[20]) && IsDigit(s[21]) && IsDigit(s[22])
  }

  function Two(a: char, b: char): nat
    requires IsDigit(a) && IsDigit(b)
  {
    10 * DigitValue(a) + DigitValue(b)
  }

  /** The fields written in the first 24 characters of `s`. */
  function ParseIso(s: string): (t: DateTime)
    requires DigitPositions(s)
    ensures FitsWidths(t)
  {
    DateTime(
      100 * Two(s[0], s[1]) + Two(s[2], s[3]), Two(s[5], s[6]), Two(s[8], s[9]),
      Two(s[11], s[12]), Two(s[14], s[15]), Two(s[17], s[18]),
      100 * DigitValue(s[20]) + Two(s[21], s[22]))
  }

  // ----- Character-level meaning of the alternations -----

  lemma TwoDigitsOf(n: nat)
    requires n < 100
    ensures ZeroPadded(n, 2) == [DigitChar(n / 10), DigitChar(n % 10)]
    ensures Two(DigitChar(n / 10), DigitChar(n % 10)) == n
  {
    var q := n / 10;
    assert q < 10 && q / 10 == 0 && q % 10 == q;
    assert ZeroPadded(q, 1) == ZeroPadded(0, 0) + [DigitChar(q)];
    assert ZeroPadded(n, 2) == ZeroPadded(q, 1) + [DigitChar(n % 10)];
  }

  lemma ThreeDigitsOf(n: nat)
    requires n < 1000
    ensures ZeroPadded(n, 3) == [DigitChar(n / 100), DigitChar(n / 10 % 10), DigitChar(n % 10)]
    ensures 100 * DigitValue(DigitChar(n / 100)) + Two(DigitChar(n / 10 % 10), DigitChar(n % 10)) == n
  {
    TwoDigitsOf(n / 10);
    assert n / 10 / 10 == n / 100;
    assert ZeroPadded(n, 3) == ZeroPadded(n / 10, 2) + [DigitChar(n % 10)];
  }

  lemma FourDigitsOf(n: nat)
    requires n < 10000
    ensures ZeroPadded(n, 4) == [DigitChar(n / 1000), DigitChar(n / 100 % 10), DigitChar(n / 10 % 10), DigitChar(n % 10)]
    ensures 100 * Two(DigitChar(n / 1000), DigitChar(n / 100 % 10)) + Two(DigitChar(n / 10 % 10), DigitChar(n % 10)) == n
  {
    ThreeDigitsOf(n / 10);
    FourDigitArithmetic(n);
    assert ZeroPadded(n, 4) == ZeroPadded(n / 10, 3) + [DigitChar(n % 10)];
  }

  lemma FourDigitArithmetic(n: nat)
    requires n < 10000
    ensures n / 10 / 100 == n / 1000 && n / 10 / 10 == n / 100 && n / 1000 < 10
    ensures 1000 * (n / 1000) + 100 * (n / 100 % 10) + 10 * (n / 10 % 10) + n % 10 == n
  {
    var q := n / 10;
    var h := q / 10;
    assert n == 10 * q + n % 10;
    assert q == 10 * h + q % 10;
    assert h == 10 * (h / 10) + h % 10;
    assert h == n / 100;
    assert h / 10 == n / 1000;
  }

  /** The month-day alternation holds of two-digit month and day exactly
      when the month is 1 to 12 and the day 1 to `DaysAdmitted(month)`. */
  lemma MonthDayMeaning(m1: char, m2: char, d1: char, d2: char)
    requires IsDigit(m1) && IsDigit(m2) && IsDigit(d1) && IsDigit(d2)
    ensures MonthDay(m1, m2, d1, d2)
        <==> 1 <= Two(m1, m2) <= 12 && 1 <= Two(d1, d2) <= DaysAdmitted(Two(m1, m2))
  {
    var m, d := Two(m1, m2), Two(d1, d2);
    assert DayTo29(d1, d2) <==> 1 <= d <= 29;
    assert DayTo30(d1, d2) <==> 1 <= d <= 30;
    assert DayTo31(d1, d2) <==> 1 <= d <= 31;
    assert LongMonth(m1, m2) <==> m == 1 || m == 3 || m == 5 || m == 7 || m == 8 || m == 10 || m == 12;
    assert ShortMonth(m1, m2) <==> m == 4 || m == 6 || m == 9 || m == 11;
    assert m1 == '0' && m2 == '2' <==> m == 2;
  }

  lemma TimeMeaning(a: char, b: char)
    requires IsDigit(a) && IsDigit(b)
    ensures Hour(a, b) <==> Two(a, b) < 24
    ensures BelowSixty(a, b) <==> Two(a, b) < 60
    ensures QuarterHour(a, b) <==> Two(a, b) in {0, 15, 30, 45}
  {
  }

  lemma YearLeadMeaning(a: char, b: char)
    requires IsDigit(a) && IsDigit(b)
    ensures YearLead(a, b) <==> Two(a, b) in {10, 19, 20, 29}
  {
  }

  /** Every numeric position of a matching string holds a digit. */
  lemma MatchHasDigitPositions(s: string)
    requires MatchesIsoDate(s) || MatchesIsoDate15(s)
    ensures DigitPositions(s)
  {
  }

  /** `ToIsoString` character by character. */
  lemma ToIsoStringChars(t: DateTime)
    requires FitsWidths(t)
    ensures ToIsoString(t) == [
      DigitChar(t.year / 1000), DigitChar(t.year / 100 % 10), DigitChar(t.year / 10 % 10), DigitChar(t.year % 10), '-',
      DigitChar(t.month / 10), DigitChar(t.month % 10), '-', DigitChar(t.day / 10), DigitChar(t.day % 10), 'T',
      DigitChar(t.hour / 10), DigitChar(t.hour % 10), ':', DigitChar(t.minute / 10), DigitChar(t.minute % 10), ':',
      DigitChar(t.second / 10), DigitChar(t.second % 10), '.',
      DigitChar(t.millisecond / 100), DigitChar(t.millisecond / 10 % 10), DigitChar(t.millisecond % 10), 'Z']
  {
    FourDigitsOf(t.year);
    TwoDigitsOf(t.month);
    TwoDigitsOf(t.day);
    TwoDigitsOf(t.hour);
    TwoDigitsOf(t.minute);
    TwoDigitsOf(t.second);
    ThreeDigitsOf(t.millisecond);
  }

  /** Reading the fields back from `toISOString`'s output gives the fields. */
  lemma ParseToIsoString(t: DateTime)
    requires FitsWidths(t)
    ensures DigitPositions(ToIsoString(t)) && ParseIso(ToIsoString(t)) == t
  {
    var s := ToIsoString(t);
    ToIsoStringChars(t);
    assert DigitPositions(s);
    FourDigitsOf(t.year);
    assert 100 * Two(s[0], s[1]) + Two(s[2], s[3]) == t.year;
    TwoDigitsOf(t.month);
    assert Two(s[5], s[6]) == t.month;
    TwoDigitsOf(t.day);
    assert Two(s[8], s[9]) == t.day;
    TwoDigitsOf(t.hour);
    assert Two(s[11], s[12]) == t.hour;
    TwoDigitsOf(t.minute);
    assert Two(s[14], s[15]) == t.minute;
    TwoDigitsOf(t.second);
    assert Two(s[17], s[18]) == t.second;
    ThreeDigitsOf(t.millisecond);
    assert 100 * DigitValue(s[20]) + Two(s[21], s[22]) == t.millisecond;
  }

  /** The separators of `toISOString`'s output. */
  lemma ToIsoStringSeparators(t: DateTime)
    requires FitsWidths(t)
    ensures var s := ToIsoString(t);
      && s[4] == '-' && s[7] == '-' && s[10] == 'T' && s[13] == ':' && s[16] == ':'
      && s[19] == '.' && s[23] == 'Z'
  {
    ToIsoStringChars(t);
  }

  /** `ISO_Date` accepts the output of `toISOString` exactly when the fields
      are ones it admits. */
  lemma {:induction false} IsoDateOfToIsoString(t: DateTime)
    requires FitsWidths(t)
    ensures MatchesIsoDate(ToIsoString(t)) <==> IsoAdmits(t)
  {
    var s := ToIsoString(t);
    ParseToIsoString(t);
    ToIsoStringSeparators(t);
    MonthDayMeaning(s[5], s[6], s[8], s[9]);
    YearLeadMeaning(s[0], s[1]);
    TimeMeaning(s[11], s[12]);
    TimeMeaning(s[14], s[15]);
    TimeMeaning(s[17], s[18]);
    assert t.year / 100 == Two(s[0], s[1]);
  }

  /** The fields read from a string `ISO_Date` accepts are admitted. */
  lemma MatchAdmits(s: string)
    requires MatchesIsoDate(s)
    ensures DigitPositions(s) && IsoAdmits(ParseIso(s))
  {
    MatchHasDigitPositions(s);
    var t := ParseIso(s);
    MonthDayMeaning(s[5], s[6], s[8], s[9]);
    YearLeadMeaning(s[0], s[1]);
    TimeMeaning(s[11], s[12]);
    TimeMeaning(s[14], s[15]);
    TimeMeaning(s[17], s[18]);
    assert t.year / 100 == Two(s[0], s[1]);
  }

  /** A string with digits and separators in the places of the format is
      the output of `toISOString` for the fields it writes, up to the
      character before the milliseconds. */
  lemma FormatIsToIsoString(s: string)
    requires |s| == 24 && DigitPositions(s)
    requires s[4] == '-' && s[7] == '-' && s[10] == 'T' && s[13] == ':' && s[16] == ':' && s[23] == 'Z'
    ensures s == ToIsoString(ParseIso(s))[19 := s[19]]
  {
    ToIsoStringChars(ParseIso(s));
    DigitsRoundTrip(s);
  }

  /** Every string `ISO_Date` accepts is the output of `toISOString` for
      admitted fields, except that the separator before the milliseconds
      may be any character other than a line terminator. */
  lemma {:induction false} IsoDateIsToIsoString(s: string)
    requires MatchesIsoDate(s)
    ensures DigitPositions(s) && IsoAdmits(ParseIso(s))
    ensures s == ToIsoString(ParseIso(s))[19 := s[19]]
  {
    MatchAdmits(s);
    FormatIsToIsoString(s);
  }

  /** Writing back the fields read from a string restores its digits. */
  lemma DigitsRoundTrip(s: string)
    requires DigitPositions(s)
    ensures var t := ParseIso(s);
      && DigitChar(t.year / 1000) == s[0] && DigitChar(t.year / 100 % 10) == s[1]
      && DigitChar(t.year / 10 % 10) == s[2] && DigitChar(t.year % 10) == s[3]
      && DigitChar(t.month / 10) == s[5] && DigitChar(t.month % 10) == s[6]
      && DigitChar(t.day / 10) == s[8] && DigitChar(t.day % 10) == s[9]
      && DigitChar(t.hour / 10) == s[11] && DigitChar(t.hour % 10) == s[12]
      && DigitChar(t.minute / 10) == s[14] && DigitChar(t.minute % 10) == s[15]
      && DigitChar(t.second / 10) == s[17] && DigitChar(t.second % 10) == s[18]
      && DigitChar(t.millisecond / 100) == s[20] && DigitChar(t.millisecond / 10 % 10) == s[21]
      && DigitChar(t.millisecond % 10) == s[22]
  {
    FourSplits(s[0], s[1], s[2], s[3]);
    TwoSplits(s[5], s[6]);
    TwoSplits(s[8], s[9]);
    TwoSplits(s[11], s[12]);
    TwoSplits(s[14], s[15]);
    TwoSplits(s[17], s[18]);
    ThreeSplits(s[20], s[21], s[22]);
  }

  lemma TwoSplits(a: char, b: char)
    requires IsDigit(a) && IsDigit(b)
    ensures DigitChar(Two(a, b) / 10) == a && DigitChar(Two(a, b) % 10) == b
  {
    DigitCharOfValue(a);
    DigitCharOfValue(b);
  }

  lemma ThreeSplits(a: char, b: char, c: char)
    requires IsDigit(a) && IsDigit(b) && IsDigit(c)
    ensures var n := 100 * DigitValue(a) + Two(b, c);
      DigitChar(n / 100) == a && DigitChar(n / 10 % 10) == b && DigitChar(n % 10) == c
  {
    var n := 100 * DigitValue(a) + Two(b, c);
    var q := 10 * DigitValue(a) + DigitValue(b);
    assert n == 10 * q + DigitValue(c);
    DivModDigit(q, DigitValue(c));
    DivModDigit(DigitValue(a), DigitValue(b));
    assert n / 100 == n / 10 / 10;
    DigitCharOfValue(a);
    DigitCharOfValue(b);
    DigitCharOfValue(c);
  }

  lemma FourSplits(a: char, b: char, c: char, d: char)
    requires IsDigit(a) && IsDigit(b) && IsDigit(c) && IsDigit(d)
    ensures var n := 100 * Two(a, b) + Two(c, d);
      && DigitChar(n / 1000) == a && DigitChar(n / 100 % 10) == b
      && DigitChar(n / 10 % 10) == c && DigitChar(n % 10) == d
  {
    var n := 100 * Two(a, b) + Two(c, d);
    var p := 10 * DigitValue(a) + DigitValue(b);
    var q := 10 * p + DigitValue(c);
    assert n == 10 * q + DigitValue(d);
    DivModDigit(q, DigitValue(d));
    DivModDigit(p, DigitValue(c));
    DivModDigit(DigitValue(a), DigitValue(b));
    assert n / 100 == n / 10 / 10 && n / 1000 == n / 10 / 10 / 10;
    DigitCharOfValue(a);
    DigitCharOfValue(b);
    DigitCharOfValue(c);
    DigitCharOfValue(d);
  }

  /** `ISO_Date_15minIncrements` accepts exactly the strings whose first 24
      characters satisfy `ISO_Date` with minutes 00, 15, 30 or 45 and zero
      seconds and milliseconds, whatever follows them. */
  lemma IsoDate15Meaning(s: string)
    ensures MatchesIsoDate15(s) <==>
      && |s| >= 24 && MatchesIsoDate(s[..24])
      && DigitPositions(s) && ParseIso(s).minute in {0, 15, 30, 45}
      && ParseIso(s).second == 0 && ParseIso(s).millisecond == 0
  {
    if |s| >= 24 {
      var p := s[..24];
      assert forall i :: 0 <= i < 24 ==> p[i] == s[i];
      if DigitPositions(s) {
        TimeMeaning(s[14], s[15]);
        TimeMeaning(s[17], s[18]);
      }
    }
  }

  // ----- Sample strings -----

  /** February 29th passes in every year and February 30th never; 10:10 is
      a time of day but not a quarter hour. */
  lemma SampleStrings()
    ensures MatchesIsoDate("2023-02-29T10:15:00.000Z") && MatchesIsoDate15("2023-02-29T10:15:00.000Z")
    ensures !MatchesIsoDate("2023-02-30T10:15:00.000Z") && !MatchesIsoDate15("2023-02-30T10:15:00.000Z")
    ensures MatchesIsoDate("2023-06-01T10:10:00.000Z") && !MatchesIsoDate15("2023-06-01T10:10:00.000Z")
  {
  }

  /** April has no 31st, and a day has no hour 24. */
  lemma SampleRejectedStrings()
    ensures !MatchesIsoDate("2023-04-31T10:15:00.000Z") && !MatchesIsoDate("2023-06-01T24:00:00.000Z")
  {
  }

  // ----- The patterns as written against their comments -----

  /** `[12][90]` lets through the centuries 10 and 29 besides 19 and 20. */
  lemma YearLeadAdmitsOtherCenturies()
    ensures MatchesIsoDate("1000-01-01T00:00:00.000Z") && MatchesIsoDate("2999-12-31T23:59:59.999Z")
    ensures !MatchesStrictIsoDate("1000-01-01T00:00:00.000Z")
  {
  }

  /** The unescaped `.` lets any character other than a line terminator
      stand before the milliseconds. */
  lemma UnescapedDotAdmitsAnySeparator()
    ensures MatchesIsoDate("2021-09-17T12:15:00x000Z") && MatchesIsoDate15("2021-09-17T12:15:00x000Z")
    ensures !MatchesStrictIsoDate("2021-09-17T12:15:00x000Z")
  {
  }

  /** The same for every `toISOString` text the pattern accepts: the
      separator before the milliseconds may be replaced by any character
      other than a line terminator. */
  lemma {:induction false} AnySeparatorAdmitted(t: DateTime, c: char)
    requires FitsWidths(t) && IsoAdmits(t) && !IsLineTerminator(c)
    ensures MatchesIsoDate(ToIsoString(t)[19 := c])
  {
    var s := ToIsoString(t);
    IsoDateOfToIsoString(t);
    SeparatorIsFree(s, c);
  }

  /** Position 19 is the only one `ISO_Date` checks just for not being a
      line terminator. */
  lemma SeparatorIsFree(s: string, c: char)
    requires MatchesIsoDate(s) && !IsLineTerminator(c)
    ensures MatchesIsoDate(s[19 := c])
  {
    var u := s[19 := c];
    assert forall i :: 0 <= i < 24 && i != 19 ==> u[i] == s[i];
    assert DateAndHour(u);
  }

  /** Without `$`, the 15-minute pattern lets any text follow the instant. */
  lemma MissingEndAnchorAdmitsTrailingText()
    ensures MatchesIsoDate15("2021-09-17T12:15:00.000Zjunk")
    ensures !MatchesIsoDate("2021-09-17T12:15:00.000Zjunk")
    ensures !MatchesStrictIsoDate15("2021-09-17T12:15:00.000Zjunk")
  {
  }

  // ----- The patterns as their comments describe them -----

  /** Years 19xx and 20xx only. */
  predicate StrictYearLead(a: char, b: char) {
    (a == '1' && b == '9') || (a == '2' && b == '0')
  }

  /** `ISO_Date` with `(?:19|20)` for `[12][90]` and `\.` for `.`. */
  predicate MatchesStrictIsoDate(s: string) {
    MatchesIsoDate(s) && StrictYearLead(s[0], s[1]) && s[19] == '.'
  }

  /** `ISO_Date_15minIncrements` with the same two corrections and a `$`. */
  predicate MatchesStrictIsoDate15(s: string) {
    |s| == 24 && MatchesIsoDate15(s) && StrictYearLead(s[0], s[1]) && s[19] == '.'
  }

  /** The corrected pattern accepts exactly the output of `toISOString` for
      admitted fields in the years 1900 to 2099. */
  lemma {:induction false} StrictIsoDateOfToIsoString(t: DateTime)
    requires FitsWidths(t)
    ensures MatchesStrictIsoDate(ToIsoString(t)) <==> IsoAdmits(t) && 1900 <= t.year <= 2099
  {
    var s := ToIsoString(t);
    IsoDateOfToIsoString(t);
    ParseToIsoString(t);
    ToIsoStringChars(t);
    YearLeadMeaning(s[0], s[1]);
    assert StrictYearLead(s[0], s[1]) <==> Two(s[0], s[1]) == 19 || Two(s[0], s[1]) == 20;
  }

  lemma {:induction false} StrictIsoDateIsToIsoString(s: string)
    requires MatchesStrictIsoDate(s)
    ensures DigitPositions(s) && s == ToIsoString(ParseIso(s))
    ensures IsoAdmits(ParseIso(s)) && 1900 <= ParseIso(s).year <= 2099
  {
    IsoDateIsToIsoString(s);
    var t := ParseIso(s);
    ToIsoStringChars(t);
    assert ToIsoString(t)[19] == '.';
  }

  /** The corrected 15-minute pattern accepts exactly the strings the
      corrected `ISO_Date` accepts that fall on a quarter hour. */
  lemma {:induction false} StrictIsoDate15Meaning(s: string)
    ensures MatchesStrictIsoDate15(s) <==>
      && MatchesStrictIsoDate(s) && ParseIso(s).minute in {0, 15, 30, 45}
      && ParseIso(s).second == 0 && ParseIso(s).millisecond == 0
  {
    IsoDate15Meaning(s);
    if |s| == 24 {
      assert s[..24] == s;
    }
  }
}
