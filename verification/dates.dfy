/**
 * The date helpers of src/utils/date.ts: the Date and ISO-string range
 * guards, the calendar-number guards, `addMinutesToDate`, and the `pad`
 * helper of `getTimestamp` together with the timestamp it formats.
 *
 * A Date is represented by its time value in milliseconds since the epoch,
 * `None` standing for NaN (an invalid Date). Parsing a string with
 * `new Date(s)` belongs to the JavaScript engine and is passed in as a
 * function `parse`, so the range guards hold for every parser.
 */
module Dates {
  import opened JsValue
  import opened Digits
  import IsoPatterns

  /** A Date's time value; `None` is NaN. */
  type TimeValue = Option<int>

  /** `new Date(s)` for a string `s`: the time value the engine parses. */
  type DateParser = string -> TimeValue

  /** The largest magnitude of a time value, 8.64e15 ms (section 20.3.1.1 of ECMA-262, 6th edition). */
  const MaxTime: int := 8_640_000_000_000_000

  /** `a < b` on two time values: false as soon as either is NaN. */
  predicate TimeBefore(a: TimeValue, b: TimeValue) {
    a.Some? && b.Some? && a.value < b.value
  }

  /** `isValidDateInstance`: a Date object whose time value is not NaN.
      Such a value is an object to `isObject` and truthy; every other Date,
      and every value that is not a Date, is rejected. */
  function IsValidDateInstance(v: Value): (r: bool)
    ensures r ==> IsObject(v) && Truthy(v) && v.Date? && v.time.Some?
    ensures v.Date? && v.time.None? ==> !r
    ensures !v.Date? ==> !r
    ensures v.Date? && v.time.Some? ==> r
  {
    v.Date? && v.time.Some?
  }

  /** `isDateRange`: an object whose `start` and `end` are valid Dates, with
      `start` strictly earlier. The truthiness tests of `start` and `end`
      are redundant, since every object is truthy. */
  function IsDateRange(obj: Value): (r: bool)
    ensures r <==> && IsObject(obj)
                   && Get(obj, "start").Date? && Get(obj, "end").Date?
                   && TimeBefore(Get(obj, "start").time, Get(obj, "end").time)
  {
    && IsObject(obj) && Truthy(Get(obj, "start")) && Truthy(Get(obj, "end"))
    && IsValidDateInstance(Get(obj, "start"))
    && IsValidDateInstance(Get(obj, "end"))
    && Get(obj, "start").time.value < Get(obj, "end").time.value
  }

  /** A range is never empty: equal start and end times are rejected, and
      so is an invalid Date at either end. */
  lemma DateRangeIsStrict(obj: Value)
    requires IsObject(obj) && Get(obj, "start").Date? && Get(obj, "end").Date?
    requires Get(obj, "start").time == Get(obj, "end").time
             || Get(obj, "start").time.None? || Get(obj, "end").time.None?
    ensures !IsDateRange(obj)
  {
  }

  /** `isISODateString`: an accepted string is a non-empty `toISOString`
      text of admitted fields, up to the character before the milliseconds. */
  function IsIsoDateString(s: string): (r: bool)
    ensures r ==> && Truthy(Str(s)) && IsoPatterns.DigitPositions(s)
                  && IsoPatterns.IsoAdmits(IsoPatterns.ParseIso(s))
                  && s == IsoPatterns.ToIsoString(IsoPatterns.ParseIso(s))[19 := s[19]]
  {
    if IsoPatterns.MatchesIsoDate(s) then IsoPatterns.IsoDateIsToIsoString(s); true else false
  }

  /** `isISODateString_15minIncrements`: an accepted string starts with an
      `isISODateString` string on a quarter hour. */
  function IsIsoDateString15(s: string): (r: bool)
    ensures r ==> && |s| >= 24 && IsIsoDateString(s[..24])
                  && IsoPatterns.ParseIso(s).minute in {0, 15, 30, 45}
                  && IsoPatterns.ParseIso(s).second == 0 && IsoPatterns.ParseIso(s).millisecond == 0
  {
    IsoPatterns.IsoDate15Meaning(s);
    IsoPatterns.MatchesIsoDate15(s)
  }

  /** `isISODateRange`: `start` and `end` are ISO strings and the first
      parses to an earlier instant. An ISO string is never empty, so the
      truthiness tests add nothing. */
  function IsIsoDateRange(obj: Value, parse: DateParser): (r: bool)
    ensures r <==> && IsObject(obj)
                   && Get(obj, "start").Str? && Get(obj, "end").Str?
                   && IsIsoDateString(Get(obj, "start").s) && IsIsoDateString(Get(obj, "end").s)
                   && TimeBefore(parse(Get(obj, "start").s), parse(Get(obj, "end").s))
  {
    && IsObject(obj) && Truthy(Get(obj, "start")) && Truthy(Get(obj, "end"))
    && IsString(Get(obj, "start")) && IsIsoDateString(Get(obj, "start").s)
    && IsString(Get(obj, "end")) && IsIsoDateString(Get(obj, "end").s)
    && TimeBefore(parse(Get(obj, "start").s), parse(Get(obj, "end").s))
  }

  /** `isISODateRange_15minIncrements`, the same guard over the
      quarter-hour pattern. */
  function IsIsoDateRange15(obj: Value, parse: DateParser): (r: bool)
    ensures r <==> && IsObject(obj)
                   && Get(obj, "start").Str? && Get(obj, "end").Str?
                   && IsIsoDateString15(Get(obj, "start").s) && IsIsoDateString15(Get(obj, "end").s)
                   && TimeBefore(parse(Get(obj, "start").s), parse(Get(obj, "end").s))
  {
    && IsObject(obj) && Truthy(Get(obj, "start")) && Truthy(Get(obj, "end"))
    && IsString(Get(obj, "start")) && IsIsoDateString15(Get(obj, "start").s)
    && IsString(Get(obj, "end")) && IsIsoDateString15(Get(obj, "end").s)
    && TimeBefore(parse(Get(obj, "start").s), parse(Get(obj, "end").s))
  }

  /** Whatever the parser, a range whose two ends are the same string is
      rejected. */
  lemma IsoDateRangeIsStrict(obj: Value, parse: DateParser)
    requires IsObject(obj) && Get(obj, "start") == Get(obj, "end")
    ensures !IsIsoDateRange(obj, parse) && !IsIsoDateRange15(obj, parse)
  {
  }

  /** A quarter-hour range whose ends are exactly 24 characters long is an
      ISO range: the quarter-hour pattern only narrows the minutes, seconds
      and milliseconds. */
  lemma {:induction false} QuarterHourRangeIsIsoRange(obj: Value, parse: DateParser)
    requires IsIsoDateRange15(obj, parse)
    requires |Get(obj, "start").s| == 24 && |Get(obj, "end").s| == 24
    ensures IsIsoDateRange(obj, parse)
  {
    QuarterHourStringIsIsoString(Get(obj, "start").s);
    QuarterHourStringIsIsoString(Get(obj, "end").s);
  }

  /** The string half of `QuarterHourRangeIsIsoRange`. */
  lemma QuarterHourStringIsIsoString(s: string)
    requires |s| == 24 && IsIsoDateString15(s)
    ensures IsIsoDateString(s)
  {
    assert s[..24] == s;
  }

  /** `isReasonableYearNumber`: the integers 2001 to 2049. */
  function IsReasonableYearNumber(year: real): (r: bool)
    ensures r <==> year == year.Floor as real && 2001 <= year.Floor <= 2049
  {
    var ok := IsIntegral(year) && year > 2000.0 && year < 2050.0;
    assert ok ==> 2001 <= year.Floor <= 2049 && year == year.Floor as real;
    ok
  }

  /** `isMonthNumber`: the integers 1 to 12. */
  function IsMonthNumber(month: real): (r: bool)
    ensures r <==> month == month.Floor as real && 1 <= month.Floor <= 12
  {
    var ok := IsIntegral(month) && month > 0.0 && month < 13.0;
    assert ok ==> 1 <= month.Floor <= 12 && month == month.Floor as real;
    ok
  }

  /** `isDayNumber`: the integers 1 to 31. */
  function IsDayNumber(day: real): (r: bool)
    ensures r <==> day == day.Floor as real && 1 <= day.Floor <= 31
  {
    var ok := IsIntegral(day) && day > 0.0 && day < 32.0;
    assert ok ==> 1 <= day.Floor <= 31 && day == day.Floor as real;
    ok
  }

  /** The month and day written in an accepted ISO string pass the month
      and day guards. */
  lemma {:induction false} IsoFieldsAreCalendarNumbers(s: string)
    requires IsIsoDateString(s)
    ensures IsoPatterns.DigitPositions(s)
    ensures IsMonthNumber(IsoPatterns.ParseIso(s).month as real)
    ensures IsDayNumber(IsoPatterns.ParseIso(s).day as real)
  {
    IsoPatterns.IsoDateIsToIsoString(s);
  }

  /** `x` truncated toward zero, as ToInteger does. */
  function Truncate(x: real): (n: int)
    ensures x >= 0.0 ==> 0.0 <= x - n as real < 1.0
    ensures x < 0.0 ==> -1.0 < x - n as real <= 0.0
  {
    if x >= 0.0 then x.Floor else -((-x).Floor)
  }

  /** TimeClip (section 20.3.1.15 of ECMA-262, 6th edition): NaN beyond 8.64e15 ms,
      otherwise truncated toward zero. */
  function TimeClip(x: real): (r: TimeValue)
    ensures r.Some? <==> -(MaxTime as real) <= x <= MaxTime as real
    ensures r.Some? ==> -MaxTime <= r.value <= MaxTime && r.value == Truncate(x)
  {
    if x < -(MaxTime as real) || x > MaxTime as real then None else Some(Truncate(x))
  }

  /** `addMinutesToDate`: the time value `minutes` minutes later, as the
      Date constructor builds it from a number. */
  function AddMinutesToDate(date: TimeValue, minutes: real): (r: TimeValue)
    ensures date.None? ==> r.None?
    ensures date.Some? && -(MaxTime as real) <= date.value as real + minutes * 60000.0 <= MaxTime as real
            ==> r == Some(Truncate(date.value as real + minutes * 60000.0))
    ensures date.Some? && IsIntegral(minutes)
            && -MaxTime <= date.value + minutes.Floor * 60000 <= MaxTime
            ==> r == Some(date.value + minutes.Floor * 60000)
    ensures date.Some? && (date.value as real + minutes * 60000.0 > MaxTime as real
                           || date.value as real + minutes * 60000.0 < -(MaxTime as real))
            ==> r.None?
  {
    if date.None? then None
    else
      var x := date.value as real + minutes * 60000.0;
      if IsIntegral(minutes) then WholeMinutesAreExact(date.value, minutes); TimeClip(x) else TimeClip(x)
  }

  /** For whole minutes the sum is an integer, so nothing is truncated. */
  lemma WholeMinutesAreExact(t: int, minutes: real)
    requires IsIntegral(minutes)
    ensures t as real + minutes * 60000.0 == (t + minutes.Floor * 60000) as real
    ensures Truncate(t as real + minutes * 60000.0) == t + minutes.Floor * 60000
  {
    var m := minutes.Floor;
    assert minutes * 60000.0 == (m * 60000) as real;
    var n := t + m * 60000;
    assert (n as real).Floor == n && (-(n as real)).Floor == -n;
  }

  /** Adding whole minutes and then taking them away again gives back the
      original Date, as long as both results are in range. */
  lemma AddMinutesInverse(t: int, m: int)
    requires -MaxTime <= t <= MaxTime && -MaxTime <= t + m * 60000 <= MaxTime
    ensures AddMinutesToDate(AddMinutesToDate(Some(t), m as real), -(m as real)) == Some(t)
  {
    assert (m as real).Floor == m && (-(m as real)).Floor == -m;
  }

  /** Two whole-minute shifts in range add up. */
  lemma AddMinutesComposes(t: int, a: int, b: int)
    requires -MaxTime <= t + a * 60000 <= MaxTime && -MaxTime <= t + (a + b) * 60000 <= MaxTime
    ensures AddMinutesToDate(AddMinutesToDate(Some(t), a as real), b as real)
            == AddMinutesToDate(Some(t), (a + b) as real)
  {
    assert (a as real).Floor == a && (b as real).Floor == b && ((a + b) as real).Floor == a + b;
  }

  /** `${new Array(s).fill(0)}`: `s` zeros joined by commas. */
  function ZerosJoined(s: nat): (r: string)
    ensures s == 0 ==> r == ""
    ensures s > 0 ==> |r| == 2 * s - 1
    ensures forall i :: 0 <= i < |r| ==> r[i] == (if i % 2 == 0 then '0' else ',')
  {
    if s == 0 then "" else if s == 1 then "0" else ZerosJoined(s - 1) + ",0"
  }

  /** `str.slice(-s)`: the last `s` characters; `slice(-0)` is the whole string. */
  function SliceLast(str: string, s: nat): string {
    if s == 0 || s >= |str| then str else str[|str| - s..]
  }

  /** `pad` in `getTimestamp`, as written: always exactly `s` characters,
      except that `slice(-0)` keeps the whole text. */
  function Pad(n: int, s: nat): (r: string)
    ensures s > 0 ==> |r| == s
    ensures s == 0 ==> r == IntToString(n)
  {
    SliceLast(ZerosJoined(s) + IntToString(n), s)
  }

  /** Two-digit padding is right for 0 to 99. */
  lemma PadTwoDigits(n: nat)
    requires n < 100
    ensures Pad(n, 2) == ZeroPadded(n, 2)
  {
    if n < 10 {
      NatToStringIsZeroPadded(n, 1);
      ZeroPaddedWiden(n, 1);
    } else {
      NatToStringIsZeroPadded(n, 2);
    }
  }

  /** Four-digit padding is right for 100 to 9999, the only range where
      it is. */
  lemma PadFourDigits(n: nat)
    requires 100 <= n < 10000
    ensures Pad(n, 4) == ZeroPadded(n, 4)
  {
    if n < 1000 {
      NatToStringIsZeroPadded(n, 3);
      ZeroPaddedWiden(n, 3);
    } else {
      NatToStringIsZeroPadded(n, 4);
    }
  }

  /** Below 100, the commas between the zeros show through in a four-wide pad. */
  lemma PadShowsCommas()
    ensures Pad(5, 4) == "0,05" && Pad(42, 4) == ",042"
    ensures ZeroPadded(5, 4) == "0005"
  {
    assert NatToString(5) == "5";
    assert NatToString(42) == "42";
  }

  /** The evidently intended `pad`, with `s` zeros and no separators. */
  function PadZeros(n: nat, s: nat): string {
    SliceLast(Zeros(s) + NatToString(n), s)
  }

  /** The intended `pad` writes every number that fits in `s` digits as
      exactly `s` digits, with the value preserved. */
  lemma {:induction false} PadZerosIsZeroPadded(n: nat, s: nat)
    requires 1 <= s && n < Pow10(s)
    ensures PadZeros(n, s) == ZeroPadded(n, s)
    ensures |PadZeros(n, s)| == s && DecimalValue(PadZeros(n, s)) == n
  {
    ZeroPaddedIsZerosAndDecimal(n, s);
    var k := |NatToString(n)|;
    var str := Zeros(s) + NatToString(n);
    assert str[k..] == Zeros(s - k) + NatToString(n);
    DecimalValueOfZeroPadded(n, s);
  }

  /** `getTimestamp` with the clock's local calendar fields passed in:
      `YYYY-MM-DD HH:MM:SS`, the month given from 0 as `getMonth` does. */
  function FormatTimestamp(year: int, monthIndex: int, day: int, hours: int, minutes: int, seconds: int): (r: string)
    ensures |r| == 19
    ensures r[4] == '-' && r[7] == '-' && r[10] == ' ' && r[13] == ':' && r[16] == ':'
  {
    var r := Pad(year, 4) + "-" + Pad(monthIndex + 1, 2) + "-" + Pad(day, 2)
             + " " + Pad(hours, 2) + ":" + Pad(minutes, 2) + ":" + Pad(seconds, 2);
    TimestampSeparators(Pad(year, 4), Pad(monthIndex + 1, 2), Pad(day, 2), Pad(hours, 2), Pad(minutes, 2), Pad(seconds, 2));
    r
  }

  /** Where the separators of the timestamp template fall. */
  lemma TimestampSeparators(y: string, mo: string, d: string, h: string, mi: string, s: string)
    requires |y| == 4 && |mo| == 2 && |d| == 2 && |h| == 2 && |mi| == 2 && |s| == 2
    ensures var r := y + "-" + mo + "-" + d + " " + h + ":" + mi + ":" + s;
      && |r| == 19
      && r[4] == '-' && r[7] == '-' && r[10] == ' ' && r[13] == ':' && r[16] == ':'
  {
    var date := y + "-" + mo + "-" + d;
    var time := " " + h + ":" + mi + ":" + s;
    assert date[4] == '-' && date[7] == '-';
    assert time[0] == ' ' && time[3] == ':' && time[6] == ':';
    assert y + "-" + mo + "-" + d + " " + h + ":" + mi + ":" + s == date + time;
  }

  /** The `YYYY-MM-DD HH:MM:SS` text of six fields, each zero-padded. */
  function Stamp(year: nat, month: nat, day: nat, hours: nat, minutes: nat, seconds: nat): (r: string)
    ensures |r| == 19
  {
    ZeroPadded(year, 4) + "-" + ZeroPadded(month, 2) + "-" + ZeroPadded(day, 2)
    + " " + ZeroPadded(hours, 2) + ":" + ZeroPadded(minutes, 2) + ":" + ZeroPadded(seconds, 2)
  }

  /** For years 100 to 9999 and in-range fields, `getTimestamp` writes the
      zero-padded `YYYY-MM-DD HH:MM:SS` text. */
  lemma {:induction false} TimestampIsStamp(year: nat, monthIndex: nat, day: nat, hours: nat, minutes: nat, seconds: nat)
    requires 100 <= year <= 9999 && monthIndex <= 11 && 1 <= day <= 31
    requires hours < 24 && minutes < 60 && seconds < 60
    ensures FormatTimestamp(year, monthIndex, day, hours, minutes, seconds)
            == Stamp(year, monthIndex + 1, day, hours, minutes, seconds)
  {
    PadFourDigits(year);
    PadTwoDigits(monthIndex + 1);
    PadTwoDigits(day);
    PadTwoDigits(hours);
    PadTwoDigits(minutes);
    PadTwoDigits(seconds);
  }

  /** Each field of a stamp sits at its fixed position and reads back. */
  lemma {:induction false} StampReadsBack(year: nat, month: nat, day: nat, hours: nat, minutes: nat, seconds: nat)
    requires year < 10000 && month < 100 && day < 100 && hours < 100 && minutes < 100 && seconds < 100
    ensures var r := Stamp(year, month, day, hours, minutes, seconds);
      && r[4] == '-' && r[7] == '-' && r[10] == ' ' && r[13] == ':' && r[16] == ':'
      && AllDigits(r[0..4]) && DecimalValue(r[0..4]) == year
      && AllDigits(r[5..7]) && DecimalValue(r[5..7]) == month
      && AllDigits(r[8..10]) && DecimalValue(r[8..10]) == day
      && AllDigits(r[11..13]) && DecimalValue(r[11..13]) == hours
      && AllDigits(r[14..16]) && DecimalValue(r[14..16]) == minutes
      && AllDigits(r[17..19]) && DecimalValue(r[17..19]) == seconds
  {
    var r := Stamp(year, month, day, hours, minutes, seconds);
    assert r[0..4] == ZeroPadded(year, 4);
    assert r[5..7] == ZeroPadded(month, 2);
    assert r[8..10] == ZeroPadded(day, 2);
    assert r[11..13] == ZeroPadded(hours, 2);
    assert r[14..16] == ZeroPadded(minutes, 2);
    assert r[17..19] == ZeroPadded(seconds, 2);
    DecimalValueOfZeroPadded(year, 4);
    DecimalValueOfZeroPadded(month, 2);
    DecimalValueOfZeroPadded(day, 2);
    DecimalValueOfZeroPadded(hours, 2);
    DecimalValueOfZeroPadded(minutes, 2);
    DecimalValueOfZeroPadded(seconds, 2);
  }

  /** On integer numbers the guards are exactly the integer ranges. */
  lemma CalendarNumbersOfIntegers(n: int)
    ensures IsReasonableYearNumber(n as real) <==> 2001 <= n <= 2049
    ensures IsMonthNumber(n as real) <==> 1 <= n <= 12
    ensures IsDayNumber(n as real) <==> 1 <= n <= 31
  {
  }

  lemma SampleNumbers()
    ensures IsReasonableYearNumber(2021.0) && !IsReasonableYearNumber(2000.0) && !IsReasonableYearNumber(2050.0)
    ensures !IsReasonableYearNumber(2021.5)
    ensures IsMonthNumber(12.0) && !IsMonthNumber(0.0) && !IsMonthNumber(13.0)
    ensures IsDayNumber(31.0) && !IsDayNumber(32.0) && !IsDayNumber(1.5)
  {
  }
}
