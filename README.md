# jiff-humanize formatter, modelled in Dafny

This project models the duration-to-English formatter of `jiff-humanize`
(`src/humantime.rs`). A `HumanTime` wraps a span of time and renders it in
English, in one of two accuracies:

- Rough accuracy: one approximate chunk, such as "a month" or "2 weeks".
- Precise accuracy: every non-zero unit from years down to nanoseconds, such
  as "1 hour, 2 minutes and 3 seconds".

The joined text is then wrapped by the tense: "in …" for the future,
"… ago" for the past.

Files:

- `wrappers.dfy` holds the `Option` type.
- `numerals.dfy` holds absolute value, Rust's truncating division and the
  decimal rendering of a count, with its round trip.
- `spans.dfy` models the eight span components the formatter reads, their
  common sign, and the comparison with the empty span.
- `humantime.dfy` models the source itself:
  - `Tense`, `Accuracy`, `TimePeriod`, the two rendering tables and the
    rough threshold table.
  - Tense derivation.
  - The ten `split_*` helpers and `normalize_split`.
  - `precise_period` as a method. It threads the remainder through the
    splits and appends each non-zero chunk to a sequence.
  - `to_text_en` as a method. It removes the first chunk, pops the last,
    folds the others with ", " and adds " and " before the last.
  - `locale_en` and the `Display` choice of accuracy.

  Each method is proved equal to a specification function: `Breakdown`
  for the splitter and `TextEn` for the text.
- `properties.dfy` states what the formatter promises about those functions:
  - rough thresholds, rounding and monotonicity;
  - sign blindness and tense;
  - the shape of the precise breakdown, and that it conserves the span's length;
  - the rendering tables, with precise text read back;
  - the joiner;
  - literal texts from the documentation and tests.

A span is its eight signed components: weeks, days, hours, minutes,
seconds, milliseconds, microseconds and nanoseconds. A day is 24 hours.
The rough selector and the tense read the span's length in nanoseconds.
The precise splitter reads the components one by one. Years (365 days) and
months (30 days) are carved out of the days component only, as
`split_years` and `split_months` do.

`precise_period` runs its ten splits as one loop over a unit table
(`Humantime.SplitUnit`, `Humantime.UnitPeriod`), in the source's order from
years down to nanoseconds. The source writes the ten steps out one after
another.

The source's own documentation says, under a FIXME, that 45 days should
read "1 month, 2 weeks and 1 day" precisely (`src/lib.rs:41-42`). The code
carves no weeks out of days and gives "1 month and 15 days", which the
documented assertion at `src/lib.rs:40` expects. The model follows the
code.

The precise column of `tests/present.rs` expects every component rebalanced
up into larger units. It expects minutes carved out of seconds (95 seconds
as "1 minute and 35 seconds", tests/present.rs:28-31). It expects days
carved out of hours (26 hours as "1 day and 2 hours", :44-45). It expects
weeks carved out of days (:52-57, :62-65), and months and years carved out
of weeks (:66-79). The code splits each component on its own, apart from
years and months out of days. The model reproduces the rows at :21-27,
:32-43, :46-51 and :58-61, and not the others.

## Model

| member | source | states |
|---|---|---|
| Numerals.TruncDivMagnitude | src/humantime.rs:266-274 | Rust's `/` on the days component rounds toward zero: the quotient's magnitude is the floor quotient of the magnitudes, the remainder keeps the dividend's sign, and negating the dividend negates the quotient |
| Numerals.NatToString | src/humantime.rs:74-90 | the `{}` rendering of a count is a non-empty digit string that starts with zero only for the count 0 |
| Numerals.NatToStringRoundTrip | src/humantime.rs:74-90 | the digits of a rendered count read back as the same count |
| Numerals.NatToStringInjective | src/humantime.rs:74-90 | two counts render the same exactly when they are equal |
| Numerals.NatToStringOne | src/humantime.rs:77-89 | only the count 1 renders as "1", the count the singular match arms single out |
| Spans.Sub | src/humantime.rs:267-330 | componentwise subtraction subtracts the lengths, and subtracting the empty span changes nothing |
| Spans.TotalNanos | src/humantime.rs:168 | the span's length in nanoseconds, with 24-hour days and 7-day weeks, standing in for `total`; no contract of its own: `Spans.TotalNanosNeg`, `Spans.SameSignMagnitude` and `Spans.Sub` state its behaviour |
| Spans.TotalNanosNeg | src/humantime.rs:166-181 | negating a span twice gives it back, and negating it negates its length |
| Spans.SameSignMagnitude | src/humantime.rs:168 | for a span of one sign, its length's magnitude is the sum of the components' magnitudes, zero only for the empty span, and of that sign |
| Spans.CompareIsSign | src/humantime.rs:170-175 | for a span of one sign, `compare` with the empty span reports that sign, and `Equal` exactly for the empty span |
| Humantime.ToTextPrecise | src/humantime.rs:71-93 | the precise rendering table; no contract of its own: `PreciseTextShape`, `PreciseTextParts` and `PreciseTextInjective` state it for the unit chunks, `MarkerTexts` for `Now` and `Eternity` |
| Humantime.ToTextRough | src/humantime.rs:95-116 | the rough rendering table; no contract of its own: `RoughTextShape` and `RoughNeverOneSecond` state it for the unit chunks, `MarkerTexts` for `Now` and `Eternity` |
| Humantime.ToText | src/humantime.rs:118-123 | the choice of table by accuracy; no contract of its own: `RoughTextIsOneFragment`, `PreciseOne`, `PreciseTwo` and `PreciseThree` state the texts it yields |
| Humantime.TotalSeconds | src/humantime.rs:181 | the whole seconds of the span's magnitude, rounded down: that many seconds fit in the magnitude and one more does not |
| Humantime.RoughBucket | src/humantime.rs:181-197 | the threshold table; no contract of its own: `RoughBucketApproximates`, `RoughSingularRows`, `RoughBucketMonotone` and `RoughThresholds` state its behaviour |
| Humantime.TenseOf | src/humantime.rs:166-178 | the tense of the span; no contract of its own: `TenseIsSign`, `RoughPresentIsNow`, `PreciseTenseOfSameSign` and `TenseNeg` state its behaviour |
| Humantime.RoughPeriod | src/humantime.rs:180-200 | the rough list holds exactly one period and never `Eternity` |
| Humantime.NormalizeSplit | src/humantime.rs:334-340 | the count is dropped exactly when it is zero, otherwise kept as its magnitude; the remainder passes through |
| Humantime.SplitYears | src/humantime.rs:265-269 | extracts the whole 365-day years of the days' magnitude, leaves the remainder of that division in the days with the same sign, and touches no other component |
| Humantime.SplitMonths | src/humantime.rs:272-276 | extracts the whole 30-day months of the days' magnitude, leaves the remainder of that division in the days with the same sign, and touches no other component |
| Humantime.SplitWeeks | src/humantime.rs:279-283 | extracts the weeks' magnitude when non-zero and clears the weeks only |
| Humantime.SplitDays | src/humantime.rs:286-290 | extracts the days' magnitude when non-zero and clears the days only |
| Humantime.SplitHours | src/humantime.rs:293-297 | extracts the hours' magnitude when non-zero and clears the hours only |
| Humantime.SplitMinutes | src/humantime.rs:300-304 | extracts the minutes' magnitude when non-zero and clears the minutes only |
| Humantime.SplitSeconds | src/humantime.rs:307-311 | extracts the seconds' magnitude when non-zero and clears the seconds only |
| Humantime.SplitMilliseconds | src/humantime.rs:314-318 | extracts the milliseconds' magnitude when non-zero and clears the milliseconds only |
| Humantime.SplitMicroseconds | src/humantime.rs:321-325 | extracts the microseconds' magnitude when non-zero and clears the microseconds only |
| Humantime.SplitNanoseconds | src/humantime.rs:328-332 | extracts the nanoseconds' magnitude when non-zero and clears the nanoseconds only |
| Humantime.UnitPeriod | src/humantime.rs:205-253 | the chunk pushed at step `i` of the cascade has the extracted count and the unit of that step, from years down to nanoseconds |
| Humantime.SplitUnitStep | src/humantime.rs:205-253 | each split of the cascade extracts exactly the count the unit table assigns to its unit and leaves the remainder the next step expects |
| Humantime.PrecisePeriod | src/humantime.rs:202-262 | the splitter's list is the table's non-zero chunks in order from years down, or `Seconds(0)` when there are none |
| Humantime.Periods | src/humantime.rs:143-146 | either accuracy yields at least one period, so `remove(0)` never fails |
| Humantime.ToTextEn | src/humantime.rs:142-164 | the text is the tense-wrapped join of the fragments: the first, then ", " and each middle one, then " and " and the last |
| Humantime.LocaleEn | src/humantime.rs:346-349 | `locale_en` renders with the tense derived from the span at the same accuracy |
| Humantime.Display | src/humantime.rs:352-361 | `{}` renders roughly and `{:#}` precisely, each with the derived tense |
| HumantimeProperties.RoughBucketApproximates | src/humantime.rs:181-196 | up to 10 seconds is `Now` and only then; 11 to 45 seconds is that many seconds; above 45 the bucket is a unit from minutes to years whose count is one (a singular row) or exactly `max(n / unit, 2)`, the whole units of its length in seconds (`S_MINUTE` to `S_YEAR`) raised to at least two |
| HumantimeProperties.RoughSingularRows | src/humantime.rs:182-193 | a count of one comes exactly from the singular rows, so every plural row has a count of at least two |
| HumantimeProperties.RoughBucketMonotone | src/humantime.rs:181-196 | a longer span never gets a smaller bucket: a lower unit, or the same unit with a count no larger |
| HumantimeProperties.RoughThresholds | src/humantime.rs:182-195 | the boundary rows: 10 s is now, 11 s and 45 s are seconds, 46 s and 90 s a minute, 91 s two minutes, 45 min is 45 minutes, 46 min an hour, 10 d a week, 11 d two weeks, 45 d a month, 46 d two months, 700 d two years |
| HumantimeProperties.RoughPeriodSignBlind | src/humantime.rs:181 | the rough period of a negated span is the same |
| HumantimeProperties.RoughPresentIsNow | src/humantime.rs:166-178 | with rough accuracy the tense is the present exactly when the rough period is `Now` |
| HumantimeProperties.TenseIsSign | src/humantime.rs:166-178 | outside the rough under-11-seconds window, the tense is the future, past or present exactly when the length is positive, negative or zero |
| HumantimeProperties.PreciseTenseOfSameSign | src/humantime.rs:170-175 | for a span of one sign, the precise tense is the present exactly for the empty span, otherwise that sign |
| HumantimeProperties.TenseNeg | src/humantime.rs:166-178 | negating the span swaps the past and the future and keeps the present |
| HumantimeProperties.UnitCountNeg | src/humantime.rs:338 | every count the table assigns is unchanged when the span is negated |
| HumantimeProperties.KeptUpToNeg | src/humantime.rs:338 | the chunks kept from any prefix of the table are unchanged when the span is negated |
| HumantimeProperties.BreakdownSignBlind | src/humantime.rs:338 | the precise list of a negated span is identical |
| HumantimeProperties.KeptUpToOrdered | src/humantime.rs:202-253 | chunks kept from the first `k` units have non-zero counts and strictly decreasing units, all larger than the units still to come |
| HumantimeProperties.KeptUpToEmpty | src/humantime.rs:257-259 | no chunk is kept exactly when every count in the prefix is zero |
| HumantimeProperties.NoCountsIsEmpty | src/humantime.rs:202-259 | every split yields no count only for the empty span, so the `Seconds(0)` fallback is reached exactly for it |
| HumantimeProperties.BreakdownWellFormed | src/humantime.rs:202-262 | the precise list is non-empty; it is the lone `Seconds(0)` exactly for the empty span; otherwise every count is non-zero; units strictly decrease, so each appears at most once |
| HumantimeProperties.KeptUpToNanos | src/humantime.rs:202-253 | dropping zero counts loses no time, since a zero-count chunk stands for no time: the kept chunks stand for the time of all the table's counts |
| HumantimeProperties.DaysCarving | src/humantime.rs:265-276 | years of 365 days, months of 30 days and the leftover days add back up to the days, with at most 12 months and fewer than 30 leftover days |
| HumantimeProperties.TableNanosIsMagnitude | src/humantime.rs:205-253 | the table's counts stand for the sum of the components' magnitudes |
| HumantimeProperties.BreakdownConservesLength | src/humantime.rs:202-262 | the precise list stands for the sum of the components' magnitudes, which is the magnitude of the length for a span of one sign |
| HumantimeProperties.SplitYearsMonths | src/humantime.rs:265-276 | years times 365 plus months times 30 plus the leftover days is the days' magnitude, with fewer than 30 left and at most 12 months; the leftover days keep the sign of the days, and a one-sign span stays one-sign |
| HumantimeProperties.RemainderUpToShape | src/humantime.rs:205-253 | after `k` splits the remainder has the units already split cleared, the leftover days in the days, and the other units untouched |
| HumantimeProperties.SplitsExhaustSpan | src/humantime.rs:250-255 | after the nanosecond split the remainder is the empty span |
| HumantimeProperties.PreciseTextShape | src/humantime.rs:71-93 | a precise chunk is its decimal count, a space and the unit word, with an "s" exactly when the count is not one and the unit is seconds or larger |
| HumantimeProperties.SubSecondTextShape | src/humantime.rs:74-76 | "ns", "µs" and "ms" follow the count and are never pluralised |
| HumantimeProperties.ClockTextShape | src/humantime.rs:77-82 | seconds, minutes and hours are singular for a count of one and plural otherwise |
| HumantimeProperties.CalendarTextShape | src/humantime.rs:83-90 | days, weeks, months and years are singular for a count of one and plural otherwise |
| HumantimeProperties.RoughTextShape | src/humantime.rs:95-116 | roughly, a single minute to year is "a" plus the unit, "an" only for the hour; seconds are always plural; nanoseconds, microseconds and milliseconds, and any count other than one, render as precisely |
| HumantimeProperties.MarkerTexts | src/humantime.rs:73-116 | `Now` reads "now" and `Eternity` reads "eternity", in both tables |
| HumantimeProperties.RoughNeverOneSecond | src/humantime.rs:192-194 | the rough table picks seconds only for more than ten, so the plural-only seconds row never renders one |
| HumantimeProperties.PreciseTextParts | src/humantime.rs:71-93 | a precise chunk is the digits of its count followed by a space and its unit word |
| HumantimeProperties.PreciseTextInjective | src/humantime.rs:71-93 | two unit chunks render the same precise text exactly when they are equal |
| HumantimeProperties.JoinAndSmall | src/humantime.rs:148-157 | one fragment is itself, two are "A and B", three are "A, B and C" |
| HumantimeProperties.CommaJoinCons | src/humantime.rs:151-153 | folding with ", " from the front is the first fragment, ", " and the fold of the rest |
| HumantimeProperties.JoinAndCons | src/humantime.rs:148-157 | a join is the first fragment then " and " and the last when two remain, otherwise the first, ", " and the join of the rest |
| HumantimeProperties.RoughTextIsOneFragment | src/humantime.rs:142-164 | a rough text is the rough rendering of the one bucket, wrapped by the tense |
| HumantimeProperties.RoughRow | src/humantime.rs:142-200 | a span's whole seconds, its bucket and that bucket's rough text determine its rough text in every tense |
| HumantimeProperties.PreciseOne | src/humantime.rs:148-164 | a one-chunk breakdown renders as that chunk's precise text, wrapped by the tense |
| HumantimeProperties.PreciseTwo | src/humantime.rs:148-164 | a two-chunk breakdown renders as "A and B", wrapped by the tense |
| HumantimeProperties.PreciseThree | src/humantime.rs:148-164 | a three-chunk breakdown renders as "A, B and C", wrapped by the tense |
| HumantimeProperties.FortyFiveDaysRough | src/lib.rs:39 | 45 days roughly, in the present, is "a month" |
| HumantimeProperties.FortyFiveDaysBreakdown | src/lib.rs:40 | 45 days splits into one month and 15 days |
| HumantimeProperties.FortyFiveDaysPrecise | src/lib.rs:40 | 45 days precisely, in the present, is "1 month and 15 days" |
| HumantimeProperties.EmptySpanRough | tests/present.rs:21 | the empty span roughly, with its own tense, is "now" |
| HumantimeProperties.EmptySpanPrecise | tests/present.rs:21 | the empty span precisely, with its own tense, is "0 seconds" |
| HumantimeProperties.FifteenSecondsAhead | tests/rough.rs:59 | 15 seconds with its own tense is "in 15 seconds" |
| HumantimeProperties.FifteenSecondsBehind | tests/rough.rs:66 | minus 15 seconds with its own tense is "15 seconds ago" |
| HumantimeProperties.NinetyFiveSeconds | tests/present.rs:28 | 95 seconds roughly, in the present, is "2 minutes" |
| HumantimeProperties.FortyFiveMinutes | tests/present.rs:34 | 45 minutes roughly is "45 minutes" |
| HumantimeProperties.FortySixMinutes | tests/present.rs:36 | 46 minutes roughly is "an hour" |
| HumantimeProperties.TenDays | tests/present.rs:54 | 10 days roughly is "a week" |
| HumantimeProperties.ElevenDays | tests/present.rs:56 | 11 days roughly is "2 weeks" |
| HumantimeProperties.HundredWeeksAhead | tests/rough.rs:383 | 100 weeks roughly, in the future, is "in 2 years" |
| HumantimeProperties.ThirtyDaysBehind | tests/rough.rs:306 | minus 30 days roughly, in the past, is "a month ago" |
| HumantimeProperties.SixDaysThirteenHoursBreakdown | tests/present.rs:50 | 6 days and 13 hours splits into those two chunks |
| HumantimeProperties.SixDaysThirteenHours | tests/present.rs:50 | 6 days and 13 hours precisely, in the present, is "6 days and 13 hours" |
| HumantimeProperties.HourMinutesSecondsBreakdown | src/humantime.rs:225-238 | 1 hour, 2 minutes and 3 seconds splits into those three chunks |
| HumantimeProperties.HourMinutesSeconds | src/humantime.rs:148-161 | 1 hour, 2 minutes and 3 seconds precisely, in the future, is "in 1 hour, 2 minutes and 3 seconds" |
| HumantimeProperties.OneSecondAgo | src/humantime.rs:142-178 | minus one second precisely, with its own tense, is "1 second ago" |

## Left out

- The clock-reading constructors `HumanTime::now` and the conversions from `jiff::Zoned`, `jiff::Timestamp` and `SystemTime` are left out: they read the wall clock (src/humantime.rs:134-138, 370-386). `From<jiff::Span>` is the `HumanTime` constructor itself. The empty span that `now` wraps is covered by `EmptySpanRough` and `EmptySpanPrecise`.
- The `Humanize` implementations are formatter plumbing over `Display` (src/humantime.rs:388-404), as is the padding in `Display`'s `f.pad`. The trait declaration and re-exports in `src/lib.rs` are not modelled.
- Errors are left out: the `Result` of every step only forwards errors from jiff's `total`, `compare` and `checked_sub`, which the integer span model cannot raise. The model is total, so `Display`'s `unwrap` never fails. `src/error.rs` is not part of this model.
- `total(Unit::Second)` is a floating-point division. It is modelled as the exact length in nanoseconds, with 24-hour days and 7-day weeks. The rough selector truncates its magnitude to whole seconds; the tense compares the exact magnitude with 11 seconds. Floating-point rounding on huge spans is not modelled.
- `checked_sub` is modelled componentwise. jiff's rebalancing between units and its rules for spans relative to a date are not modelled. As a result, a span built in one unit renders precisely in that unit (95 seconds as "95 seconds", 100 weeks as "100 weeks"), apart from years and months carved out of days.
- The years and months components of a span are not modelled. No split reads them; `total`, `compare` and `is_zero` do (src/humantime.rs:168-181, :255, :343), so a span with a years or months component is outside the model. Under componentwise `checked_sub` such a component would survive every split and fail the `debug_assert!` at src/humantime.rs:255.
- The narrowing casts `as i16` and `as i32` on counts, and `i64::abs` overflow at the minimum value, are not modelled. Counts are unbounded natural numbers, so the model does not show the wrap-around a huge span would cause.
- `Accuracy::is_rough` is an equality test, written inline where the tense reads it (src/humantime.rs:168). `Accuracy::is_precise` is not called in `src/humantime.rs` and is not modelled.
- `HumanTime::is_zero` is the predicate `Humantime.IsZeroTime`. It carries no contract of its own; `PreciseTenseOfSameSign` and `BreakdownWellFormed` state what depends on it.
- The precise rows of `tests/present.rs` that expect units rebalanced into larger ones (:28-31, :44-45, :52-57, :62-79) are left out, as described above. `EmptySpanPrecise` (:21) and `SixDaysThirteenHours` (:50) come from the rows the model reproduces.
