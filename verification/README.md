# Request validation and date utilities

This project models the validation core of a TypeScript web front end:
`src/utils/validation.ts` and `src/utils/date.ts`. It is written in Dafny
and proves properties of that model.

- `validateObject` checks an object against three optional rule lists:
  typeof rules, regex rules and equality rules. It returns `false` on the
  first failing rule, or throws that rule's error when the rule carries one.
- `validatePartialObject` rejects keys that no rule names with an
  `InvalidRequestError` (status 400). Then the first rule whose property
  holds a string decides the outcome.
- The `Regex` table holds the name, phone, digit, e-mail, password and
  ISO-date patterns. The `isValid*` guards are built on them.
- `date.ts` holds the Date and ISO-string range guards, the calendar-number
  guards, `addMinutesToDate`, and the `pad` helper of `getTimestamp`.

JavaScript values are a datatype (`JsValue.Value`). Symbols, functions,
objects, arrays and Dates carry a reference, so `===` compares them by
identity. A Date carries its time value, where `None` stands for NaN. Each
validator is a method with the source's loops. The method is proved equal
to a loop-free result function, and the lemmas characterise that function.

The two ISO patterns are written out position by position. An `ISO_Date`
string is proved to be the `toISOString` text of fields in the admitted
ranges, up to the character before the milliseconds, which the pattern
leaves free. The 15-minute pattern has no end anchor, so it constrains only
the first 24 characters and accepts any trailing text. Only the corrected
pattern `IsoPatterns.MatchesStrictIsoDate` is exactly the `toISOString`
format.

Two places where the code does not do what its own comments and types say:

- The comment at src/utils/validation.ts:240 says the ISO patterns
  restrict years to 19xx and 20xx. The code's `[12][90]` also admits 10xx
  and 29xx. The model follows the code and logs this under "Findings".
- `PropertyValidation.StringRegex` (src/utils/validation.ts:28-34) has
  `allowNull` and `allowUndefined` fields, and the regex branches test them.
  But the `isString` test at src/utils/validation.ts:90 (and at line 155)
  comes first. So `null` and `undefined` always fail a regex rule in
  `validateObject` and are always skipped in `validatePartialObject`, and
  the flags are dead. The model follows the code.
  `Validation.RegexFlagsAreIgnored` proves that the flags change nothing.

## Model

| member | source | states |
|---|---|---|
| JsValue.Typeof | src/utils/validation.ts:18 | `typeof` yields "object" exactly for null, objects, arrays and Dates; "undefined", "string" and "function" each for their own kind |
| JsValue.StrictEquals | src/utils/validation.ts:126 | `===` is value equality against a primitive, and only values of the same `typeof` are strictly equal |
| JsValue.StrictEqualsIsAnEquivalence | src/utils/validation.ts:126 | without NaN, `===` is reflexive, symmetric and transitive |
| JsValue.IsString | src/utils/validation.ts:1-3 | true exactly for strings |
| JsValue.IsNumber | src/utils/validation.ts:5-7 | true exactly for numbers |
| JsValue.IsInteger | src/utils/validation.ts:9-11 | true exactly for numbers equal to their floor |
| JsValue.IntegersAreIntegers | src/utils/validation.ts:9-11 | every integer number passes, and everything that passes is a number |
| JsValue.IsObject | src/utils/validation.ts:13-16 | true exactly for plain objects and Dates: not null, not arrays, not primitives |
| JsValue.NullIsAnObjectToTypeof | src/utils/validation.ts:15 | null and arrays have `typeof` "object" yet fail `isObject` |
| JsValue.Get | src/utils/validation.ts:62 | reading a property that is not an own property yields `undefined` |
| JsValue.Truthy | src/utils/date.ts:27 | every symbol, function, object, array and Date is truthy; `undefined` and `null` are falsy; a string is truthy exactly when it is non-empty |
| Validation.TypeofFails | src/utils/validation.ts:54-75 | the nested ternary rejects exactly an absent property, or a value that the flag table (null by `allowNull`, undefined by `allowUndefined`, else `typeof`) does not admit |
| Validation.RegexFails | src/utils/validation.ts:87-110 | rejects exactly an absent property, a non-string, or a string the pattern does not match |
| Validation.RegexFlagsAreIgnored | src/utils/validation.ts:90-110 | the regex rule's `allowNull`/`allowUndefined` flags never change its verdict |
| Validation.EqualityFails | src/utils/validation.ts:123-127 | against a primitive, rejects exactly an absent property or a different value |
| Validation.Reject | src/utils/validation.ts:77-81 | a failing rule throws its own error when it has one, otherwise returns false |
| Validation.FirstFailure | src/utils/validation.ts:53-83 | the index found is the first failing check: all earlier checks pass |
| Validation.ValidateObjectResult | src/utils/validation.ts:45-137 | a non-object target gives false; throwing or accepting happens only for an object target |
| Validation.ValidateObject | src/utils/validation.ts:45-137 | the three loops compute the loop-free result (first failing rule in list order decides; non-objects give false) |
| Validation.ValidateObjectAcceptsIff | src/utils/validation.ts:45-137 | true exactly when the target is an object and every rule of every supplied list passes |
| Validation.ValidateObjectWithoutRules | src/utils/validation.ts:52 | absent or empty rule lists accept every object |
| Validation.ValidateObjectTypeofRuleDecides | src/utils/validation.ts:53-83 | the first failing typeof rule decides the outcome, before any regex or equality rule |
| Validation.ValidateObjectRegexRuleDecides | src/utils/validation.ts:85-119 | once every typeof rule passes, the first failing regex rule decides |
| Validation.ValidateObjectEqualityRuleDecides | src/utils/validation.ts:121-135 | once typeof and regex rules pass, the first failing equality rule decides |
| Validation.ValidateObjectThrowsRuleErrors | src/utils/validation.ts:77-79 | anything thrown is the error of a supplied rule that fails on an object target |
| Validation.NullPropertySamples | src/utils/validation.ts:58-74 | a null property fails a "string" rule without `allowNull`, passes with it, and passes an "object" rule either way |
| Validation.InvalidRequest | src/utils/validation.ts:148 | the unknown-key error is an `InvalidRequestError` with status 400 |
| Validation.InvalidProperty | src/utils/validation.ts:169 | the invalid-property error has the same name and status, and the message "`<name>` is invalid." |
| Validation.PartialStep | src/utils/validation.ts:152-216 | the callback skips an absent or non-string property, accepts a match, and otherwise throws the rule's error or "`<name>` is invalid." with status 400 |
| Validation.FirstDecisive | src/utils/validation.ts:151 | `.some` stops at the first rule that is not skipped |
| Validation.ValidatePartialResult | src/utils/validation.ts:139-219 | a non-object target gives false; an object with an own key no rule names throws `InvalidRequestError`; acceptance needs an object with only named keys |
| Validation.ValidatePartialObject | src/utils/validation.ts:139-219 | the key loop and the `.some` loop compute the loop-free result: unknown own key throws `InvalidRequestError`, else the first applicable rule decides, else false |
| Validation.PartialRejectsUnknownKey | src/utils/validation.ts:145-150 | any own key named by no rule throws "Request is invalid." with status 400 |
| Validation.PartialAcceptsIff | src/utils/validation.ts:139-219 | true exactly for objects without unknown keys whose first applicable rule matches |
| Validation.PartialWithoutApplicableRule | src/utils/validation.ts:151-218 | when every rule is skipped, the result is false and nothing is thrown |
| Validation.PartialIgnoresLaterRules | src/utils/validation.ts:151-218 | rules after the first applicable one are never consulted; appending rules changes nothing |
| Validation.PartialAcceptsInvalidLaterProperty | src/utils/validation.ts:138-219 | as written, a valid first property hides an invalid second one |
| Validation.FirstRaise | src/utils/validation.ts:138 | the index found is the first throwing rule: no earlier rule throws |
| Validation.AllPresentAcceptsIff | src/utils/validation.ts:138 | the reading the comment describes accepts exactly when some rule applies and no present property is invalid |
| Validation.AllPresentAgreesWithoutInvalidProperty | src/utils/validation.ts:138-219 | where no present property is invalid, the code and the commented reading agree |
| Patterns.MatchesName | src/utils/validation.ts:230 | every ten-digit phone string matches; strings shorter than 2 or longer than 36 characters never match |
| Patterns.MatchesPhone | src/utils/validation.ts:233 | matches exactly the `digitsOnly` strings of length 10 |
| Patterns.MatchesDigitsOnly | src/utils/validation.ts:236 | matches exactly the non-empty digit strings, of any length; a match is the zero-padded form of the number it denotes |
| Patterns.IsValidHumanName | src/utils/validation.ts:248-250 | true exactly for strings of 2 to 36 characters with no line terminator |
| Patterns.IsValidPhone | src/utils/validation.ts:262-265 | true exactly for strings of ten ASCII digits |
| Patterns.PhoneIsTenDigitNumber | src/utils/validation.ts:233-236 | a valid phone is a `digitsOnly` string and the ten-digit zero-padded form of the number it denotes |
| Patterns.TenDigitNumberIsPhone | src/utils/validation.ts:233 | every number below 10^10, zero-padded to ten digits, is a valid phone that reads back as that number |
| Patterns.SamplePhones | src/utils/validation.ts:262-265 | sample strings with nine digits or a dash, and a number, are rejected |
| Patterns.IsValidEmail | src/utils/validation.ts:252-255 | only strings of 6 to 254 characters pass, and for those the e-mail pattern decides |
| Patterns.EmailLengthGuard | src/utils/validation.ts:254 | strings of at most 5 or at least 255 characters fail whatever the pattern |
| Patterns.IsValidPassword | src/utils/validation.ts:257-260 | true exactly for strings the password pattern accepts |
| IsoPatterns.MatchesIsoDate | src/utils/validation.ts:241 | a match has exactly 24 characters with digits at every digit position |
| IsoPatterns.MatchesIsoDate15 | src/utils/validation.ts:244 | a match has at least 24 characters with digits at every digit position |
| IsoPatterns.IsoDateOfToIsoString | src/utils/validation.ts:241 | `ISO_Date` accepts the `toISOString` text of fields exactly when the fields are in its ranges (century 10/19/20/29, month-appropriate day with February 29 always, time of day) |
| IsoPatterns.IsoDateIsToIsoString | src/utils/date.ts:45-47 | every accepted string is such a `toISOString` text, up to the character before the milliseconds |
| IsoPatterns.IsoDate15Meaning | src/utils/validation.ts:244 | the 15-minute pattern accepts exactly an `ISO_Date` prefix with minutes 00/15/30/45 and zero seconds and milliseconds |
| IsoPatterns.SampleStrings | src/utils/validation.ts:239 | in 2023, February 29 passes and February 30 fails; 10:10 is no quarter hour |
| IsoPatterns.SampleRejectedStrings | src/utils/validation.ts:239-241 | April 31 and hour 24 fail the pattern |
| IsoPatterns.YearLeadAdmitsOtherCenturies | src/utils/validation.ts:240-241 | years 1000 and 2999 pass the pattern |
| IsoPatterns.UnescapedDotAdmitsAnySeparator | src/utils/validation.ts:241 | the sample "2021-09-17T12:15:00x000Z" passes both patterns and fails the corrected one |
| IsoPatterns.AnySeparatorAdmitted | src/utils/validation.ts:241 | in the `toISOString` text of any admitted fields, any character other than a line terminator may stand before the milliseconds |
| IsoPatterns.SeparatorIsFree | src/utils/validation.ts:241 | replacing the character before the milliseconds of any accepted string by a non-line-terminator keeps it accepted |
| IsoPatterns.MissingEndAnchorAdmitsTrailingText | src/utils/validation.ts:244 | the 15-minute pattern accepts trailing text |
| IsoPatterns.StrictIsoDateOfToIsoString | src/utils/validation.ts:238-241 | corrected pattern: accepts the `toISOString` text exactly for admitted fields in years 1900 to 2099 |
| IsoPatterns.StrictIsoDateIsToIsoString | src/utils/validation.ts:238-241 | corrected pattern: every accepted string is exactly a `toISOString` text |
| IsoPatterns.StrictIsoDate15Meaning | src/utils/validation.ts:243-244 | corrected 15-minute pattern: the corrected `ISO_Date` strings on a quarter hour |
| Dates.IsValidDateInstance | src/utils/date.ts:18-20 | accepted exactly for a Date whose time is not NaN, which is a truthy object; an invalid Date or a non-Date is rejected |
| Dates.IsIsoDateString | src/utils/date.ts:45-47 | an accepted string is non-empty and is the `toISOString` text of admitted fields, up to the character before the milliseconds |
| Dates.IsIsoDateString15 | src/utils/date.ts:63-65 | an accepted string starts with an `isISODateString` string whose minutes are 00/15/30/45 and seconds and milliseconds zero |
| Dates.IsDateRange | src/utils/date.ts:26-31 | true exactly for objects whose `start` and `end` are Dates with valid times, start strictly earlier |
| Dates.DateRangeIsStrict | src/utils/date.ts:18-31 | equal times or an invalid Date at either end are rejected |
| Dates.IsIsoDateRange | src/utils/date.ts:37-42 | true exactly for objects whose `start` and `end` are ISO strings that parse to strictly ordered instants |
| Dates.IsIsoDateRange15 | src/utils/date.ts:56-61 | the same over the 15-minute pattern |
| Dates.IsoDateRangeIsStrict | src/utils/date.ts:37-61 | whatever the parser, the same value at both ends is rejected |
| Dates.QuarterHourRangeIsIsoRange | src/utils/date.ts:56-65 | a 15-minute range of 24-character strings is an ISO range |
| Dates.IsReasonableYearNumber | src/utils/date.ts:68-70 | true exactly for the integers 2001 to 2049 |
| Dates.IsMonthNumber | src/utils/date.ts:73-75 | true exactly for the integers 1 to 12 |
| Dates.IsDayNumber | src/utils/date.ts:78-80 | true exactly for the integers 1 to 31 |
| Dates.IsoFieldsAreCalendarNumbers | src/utils/date.ts:45-80 | the month and day of an accepted ISO string pass `isMonthNumber` and `isDayNumber` |
| Dates.CalendarNumbersOfIntegers | src/utils/date.ts:67-80 | on integer numbers the three guards are exactly the ranges 2001-2049, 1-12 and 1-31 |
| Dates.SampleNumbers | src/utils/date.ts:68-80 | the bounds 2000, 2050, 0, 13, 32 are excluded and fractions rejected |
| Dates.Truncate | src/utils/date.ts:11 | truncation toward zero: the fractional part removed is below one and of the number's sign |
| Dates.TimeClip | src/utils/date.ts:11 | a time value exists exactly within ±8.64e15 ms, and it is the number truncated toward zero |
| Dates.AddMinutesToDate | src/utils/date.ts:10-12 | an invalid Date stays invalid; in range the time is `date.getTime() + minutes*60000` truncated toward zero, so whole minutes shift it by exactly 60000 ms each; out of range gives an invalid Date |
| Dates.WholeMinutesAreExact | src/utils/date.ts:11 | for whole minutes, `date.getTime() + minutes*60000` is an integer, so truncation leaves it unchanged |
| Dates.AddMinutesInverse | src/utils/date.ts:10-12 | adding m minutes and then -m gives back the original time |
| Dates.AddMinutesComposes | src/utils/date.ts:10-12 | adding a and then b minutes equals adding a + b |
| Dates.Pad | src/utils/date.ts:5 | `pad(n, s)` has exactly s characters for s > 0, and is `${n}` for s = 0 |
| Dates.FormatTimestamp | src/utils/date.ts:3-8 | the timestamp has 19 characters with '-', '-', ' ', ':', ':' at positions 4, 7, 10, 13, 16 |
| Dates.ZerosJoined | src/utils/date.ts:5 | `${new Array(s).fill(0)}` is s zeros separated by commas |
| Dates.PadTwoDigits | src/utils/date.ts:5 | `pad(n)` is the two-digit zero-padded form for 0 to 99 |
| Dates.PadFourDigits | src/utils/date.ts:5 | `pad(n, 4)` is the four-digit zero-padded form for 100 to 9999 |
| Dates.PadShowsCommas | src/utils/date.ts:5 | `pad(5, 4)` is "0,05" and `pad(42, 4)` is ",042" |
| Dates.PadZerosIsZeroPadded | src/utils/date.ts:5 | corrected pad: every number below 10^s becomes exactly s digits that read back as the number |
| Dates.TimestampIsStamp | src/utils/date.ts:3-8 | for years 100 to 9999 and in-range fields, the timestamp is the zero-padded `YYYY-MM-DD HH:MM:SS` text |
| Dates.StampReadsBack | src/utils/date.ts:4 | that text has its separators at fixed positions and each field reads back as its value |
| Dates.QuarterHourStringIsIsoString | src/utils/date.ts:45-65 | a 24-character 15-minute string is an `isISODateString` string |
| Digits.ZeroPadded | src/utils/date.ts:5 | the padded form has exactly the width and only digits |
| Digits.DecimalValueOfZeroPadded | src/utils/date.ts:5 | padding a number that fits and reading it back gives the number |
| Digits.ZeroPaddedOfDecimalValue | src/utils/validation.ts:233 | reading a digit string and padding it to its length gives the string back |
| Digits.NatToStringIsZeroPadded | src/utils/date.ts:5 | `${n}` of a number with exactly w digits is its w-wide padded form |
| Digits.ZeroPaddedIsZerosAndDecimal | src/utils/date.ts:5 | the padded form is zeros followed by `${n}` |

## Left out

- `isSameDay` (src/utils/date.ts:14-16) reads local calendar fields. Those depend on the host time zone, which is not modelled.
- `getTimestamp` reads the clock. `Dates.FormatTimestamp` takes the six calendar fields as parameters instead.
- `new Date(string)` in the ISO range guards is the engine's date parser. It is a parameter `parse`, so the range lemmas hold for every parser.
- The `email` and `password` patterns are parameters of `Patterns.IsValidEmail` and `Patterns.IsValidPassword`. The model does not spell out their regular expressions.
- Patterns.IsValidEmail: states the length guard and defers to the pattern. It does not state which addresses the RFC 5322-style pattern accepts.
- `RegExp.prototype.test` converts a non-string argument to a string. The model treats a non-string as not matching. In the code, a one-element array holding an ISO string, or an object with its own `toString`, would pass `isISODateString`.
- `value instanceof String` (String wrapper objects) is not distinguished from a primitive string.
- Properties inherited through the prototype chain are not modelled. This affects `for…in` in `validatePartialObject`, where an enumerable inherited key would also be checked. An own property named `hasOwnProperty` that shadows the method is not modelled either.
- NaN, the infinities and -0 are not modelled. Numbers are reals. Numbers are also unbounded, so `Number.isInteger` is a floor test.
- String length counts characters, not UTF-16 code units, so an astral character counts once. This affects the length bounds of `name` and `isValidEmail`. It also affects the ISO patterns: an astral character at position 19 (the unescaped `.`) is one character here, so the model accepts the string, while in JavaScript it is two code units and `ISO_Date` rejects it.
- Dates.AddMinutesToDate: the `minutes` argument is never NaN, and the floating-point rounding of `date.getTime() + minutes*60000` is not modelled.
- `for…in` (src/utils/validation.ts:145) visits only enumerable string-keyed properties. `Validation.KnownKeys` checks every own key. So for an object with a non-enumerable own key, or a symbol key, that no rule names, the model throws `InvalidRequestError` where the code goes on normally.
- The `&&` chains of `isDateRange`, `isISODateRange` and `isISODateRange_15minIncrements` (src/utils/date.ts:27, 38, 57) return the first falsy operand itself, such as `undefined`, `""` or `null`, not `false`. The model returns a `bool`, and that value has the same truthiness.
- `RegExp.prototype.test` on a regex with the `g` or `y` flag reads and advances the regex's `lastIndex`, so its verdict depends on earlier calls. A regex rule's `regex` is a pure `string -> bool` here, so the model does not capture rules built from such regexes.
- Equality rules whose `exactValue` is an object compare by reference. Validation.EqualityFails states its meaning only for primitive values.
- The rest of the repository (React components, stores, styles, configuration and the build setup) is not part of this model.

## Findings

| source | as written | input that shows it | evidently intended | confidence | as-written member | corrected member |
|---|---|---|---|---|---|---|
| src/utils/validation.ts:241 | `[12][90]` admits the centuries 10, 19, 20 and 29 | "1000-01-01T00:00:00.000Z" is accepted | years 19xx and 20xx only, as the comment at line 240 says | not executed; high | IsoPatterns.YearLeadAdmitsOtherCenturies | IsoPatterns.StrictIsoDateOfToIsoString |
| src/utils/validation.ts:241 | the unescaped `.` before the milliseconds matches any character | "2021-09-17T12:15:00x000Z" is accepted | a literal `.`, the "strict format" of `toISOString` | not executed; high | IsoPatterns.UnescapedDotAdmitsAnySeparator | IsoPatterns.StrictIsoDateIsToIsoString |
| src/utils/validation.ts:244 | `ISO_Date_15minIncrements` has no `$`, so trailing text is allowed | "2021-09-17T12:15:00.000Zjunk" is accepted | anchored at both ends like `ISO_Date` | not executed; high | IsoPatterns.MissingEndAnchorAdmitsTrailingText | IsoPatterns.StrictIsoDate15Meaning |
| src/utils/validation.ts:151-218 | `.some` returns true at the first matching property, so later properties are never checked | target {a: "ok", b: "bad"}, rules for a (always matches) then b (never matches): returns true | "all present must be valid" (comment at line 138): throws for b | not executed; medium | Validation.PartialAcceptsInvalidLaterProperty | Validation.AllPresentAcceptsIff |
| src/utils/date.ts:5 | the pad prefix is zeros joined by commas, which show through for `pad(n, 4)` with n below 100 | pad(5, 4) is "0,05" | "0005" | not executed; high (only years below 100 are affected) | Dates.PadShowsCommas | Dates.PadZerosIsZeroPadded |
