# DateRange in Dafny

A model of the PHP library `Kalani\DateRange`: a pair of dates with an
order check and a configurable renderer, plus the calculators that derive
numbers from a pair of dates.

- **Calculator** (`calculator.dfy`) computes numbers from an optional start and end:
  - elapsed hours, snapped to a granularity in minutes and then rounded to a number of decimals;
  - whole days;
  - months, counted from the start of the start's day to the end of the day two weeks after the end;
  - the start time as decimal hours.

  Each value is 0 when a date it needs is not a Carbon moment. PHP's `round()`
  is modelled exactly, as round-half-away-from-zero on rationals
  (`rounding.dfy`). A PHP float result is an exact decimal `Fixed(units, places)`.
- **ExampleCalculator** (`example_calculator.dfy`) overrides `hours()`. It
  rounds down to whole periods of `downTo` minutes. It also drops the first
  period past a whole hour. As written an empty range can come out
  negative, -0.25 hours with the defaults (see Findings); `HoursCorrected`
  is the intended variant.
- **DateRange** (`date_range.dfy`, `formatting.dfy`) is a class with a
  shared configuration object and two date fields.
  - `make()` clones the object, coerces both inputs and raises
    `DateOrderException` (`Failure(DateOrder)`) when the start is after the end.
  - `fullDay()` changes the Carbon objects in place. Start and end may be
    one object, because a Carbon input is kept by reference and an empty
    end repeats the start.
  - The renderer (`Formatting`) is pure. It works on the configuration's key
    set and the moments the fields hold:
    - `__get` splits names such as `start_short`, `short_title` or `range_url`;
    - a configured calculation closure is run when present;
    - a delimiter set is chosen, falling back to `range.default`;
    - a date pattern is chosen in this order: the named style, then the explicit default, then `styles.default`.
- **MockConfig** (`mock_config.dfy`) is the test configuration: a class
  holding a flat key map. `get` strips every `date-range::` and falls back
  to a default. `setup` replaces all keys.

Carbon is modelled as a class `Carbon` holding a civil moment `Instant`
(year, month, day, second of the day; UTC, no time zone). Comparisons use
`Stamp`, the seconds since 1970-01-01, and `CivilOrderIsStampOrder`
proves that this is the calendar order. Code the library calls but does not
contain is gathered in a `Host` value, passed as a parameter:
- Carbon's text parser;
- its timestamp conversion;
- its `format()` pattern language;
- PHP's number-to-text conversion;
- the invocation of configured closures.

PHP semantics follow PHP 5 and 7, the versions the library targets:
- loose `==`;
- string offsets on a string used as an array;
- `'abc' <> 'n/a'` and `0 == 'n/a'`.

`wrappers.dfy` holds the `Option`/`Result` types. `php.dfy` holds these PHP runtime functions:
- truthiness;
- string conversion;
- `strpos`, `substr`, `explode`, `str_replace` and `strtolower`;
- `is_numeric` on integer text.

## Model

| member | source | states |
|---|---|---|
| Calculator.Calculator.Has | src/Kalani/DateRange/Calculator.php:67-74 | the loop answers true exactly when every named field holds a Carbon moment |
| Calculator.Calculator.HasBoth | src/Kalani/DateRange/Calculator.php:19-20 | has(['start','end']) holds exactly when both dates are present |
| Calculator.Calculator.HasStart | src/Kalani/DateRange/Calculator.php:58-59 | has(['start']) holds exactly when the start is present, whatever end holds |
| Calculator.Calculator.Hours | src/Kalani/DateRange/Calculator.php:17-29 | 0 unless both dates are present; otherwise a non-negative decimal with the requested number of places |
| Calculator.HoursIsRoundedSnap | src/Kalani/DateRange/Calculator.php:22-28 | the snapped minutes s are within half a granule of the elapsed minutes; the result is s/60 hours rounded to the nearest unit of the last decimal place |
| Calculator.HoursMonotone | src/Kalani/DateRange/Calculator.php:22-28 | with a positive granularity, more elapsed minutes never give fewer hours |
| Calculator.Calculator.HoursRoundedToNearest | src/Kalani/DateRange/Calculator.php:31-34 | always equal to hours with the same arguments |
| Calculator.Calculator.Days | src/Kalani/DateRange/Calculator.php:36-42 | 0 without both dates; otherwise the largest whole number of days within the elapsed time |
| Calculator.Calculator.Months | src/Kalani/DateRange/Calculator.php:44-54 | 0 without both dates, and never negative; its value is given by MonthsValue |
| Calculator.MonthsValue | src/Kalani/DateRange/Calculator.php:44-54 | with e the date two weeks after the end: the calendar months from the start's date to e, less one when e's day of the month is before the start's; so an end at least half a month into its month counts that month. When e is before the start, the months run backwards from the start to e |
| Calculator.MonthsMonotone | src/Kalani/DateRange/Calculator.php:44-54 | on an ordered range, a later end never gives fewer months |
| Calculator.Calculator.Decimal | src/Kalani/DateRange/Calculator.php:56-65 | 0 without a start, whatever the end; otherwise tenths of an hour within half a tenth (3 minutes) of the start's clock time |
| Calculator.HoursExampleWhole | tests/CalculatorTest.php:20-25 | 10:00 to 14:00 is 4.00 hours |
| Calculator.HoursExampleQuarter | tests/CalculatorTest.php:30-45 | 10:00 to 14:12 in quarter hours is 4.25 |
| Calculator.DaysExample | tests/CalculatorTest.php:50-57 | 2016-01-01 10:00 to 2016-01-04 14:12 is 3 days |
| Calculator.MonthsExampleFirst | tests/CalculatorTest.php:73-81 | from 2016-01-01 10:00, an end on 1 February is 1 month |
| Calculator.MonthsExampleFifteenth | tests/CalculatorTest.php:73-81 | an end on 15 February is still 1 month |
| Calculator.MonthsExampleSixteenth | tests/CalculatorTest.php:73-81 | an end on 16 February, at midnight or 14:00, is 2 months |
| Calculator.DecimalExamples | tests/CalculatorTest.php:95-104 | 10:00, 10:30, 10:15, 10:14 and 22:14 give 10.0, 10.5, 10.3, 10.2 and 22.2 |
| ExampleCalculator.HoursOf | src/Kalani/DateRange/ExampleCalculator.php:19-37 | the result keeps the requested precision or, after the subtraction, two places |
| ExampleCalculator.Hours | src/Kalani/DateRange/ExampleCalculator.php:14-37 | 0 unless both dates are present; otherwise the code's hours of the elapsed minutes, which equal the corrected (floor-of-periods) hours on every range of at least a minute |
| ExampleCalculator.PeriodsAreFloor | src/Kalani/DateRange/ExampleCalculator.php:19-27 | for a range of at least one minute, the half-period offset and round-half-away make the period count the floor of diff / downTo |
| ExampleCalculator.DefaultHoursClosedForm | src/Kalani/DateRange/ExampleCalculator.php:19-37 | with 15-minute periods and 2 places, diff > 0 minutes gives 0.25 per whole period, less 0.25 exactly when diff is a multiple of 15 and one period past a whole hour |
| ExampleCalculator.DefaultHoursBounds | src/Kalani/DateRange/ExampleCalculator.php:9-13 | with the defaults the result never exceeds the elapsed time and is under half an hour short of it |
| ExampleCalculator.DefaultHoursDropsFirstPeriod | src/Kalani/DateRange/ExampleCalculator.php:29-34 | k hours and 15 minutes is reported as k hours |
| ExampleCalculator.QuarterHoursTable | tests/ExampleCalculatorTest.php:25-32 | 240, 270, 285, 255, 252 and 256 minutes in quarter hours give 4, 4.5, 4.75, 4, 4 and 4.25 |
| ExampleCalculator.TenMinuteHoursTable | tests/ExampleCalculatorTest.php:33-34 | 255 minutes in 10-minute periods give 4.17; 250 minutes give 4 |
| ExampleCalculator.ZeroLengthIsNegative | src/Kalani/DateRange/ExampleCalculator.php:19-27 | as written, a zero-length range gives -0.25 hours with the defaults |
| ExampleCalculator.ZeroLengthHalfHourPeriods | src/Kalani/DateRange/ExampleCalculator.php:19-34 | as written, a zero-length range in half-hour periods with 2 places gives -1.00 hours |
| ExampleCalculator.HoursOfCorrected | src/Kalani/DateRange/ExampleCalculator.php:19-37 | the corrected hours keep the requested precision or two places |
| ExampleCalculator.HoursCorrected | src/Kalani/DateRange/ExampleCalculator.php:14-37 | the intended hours(): 0 without both dates, ExampleCalculator.Hours on every range of at least a minute, and 0 hours on an empty range |
| ExampleCalculator.CorrectedAgreesOnNonEmpty | src/Kalani/DateRange/ExampleCalculator.php:19-37 | the corrected hours equal the code's on every range of at least a minute |
| ExampleCalculator.CorrectedEmptyIsZero | src/Kalani/DateRange/ExampleCalculator.php:19-27 | the corrected hours of an empty range are 0 for every period and precision |
| ExampleCalculator.CorrectedDefaultNonNegative | src/Kalani/DateRange/ExampleCalculator.php:9-13 | with the defaults the corrected hours are never negative |
| Rounding.RoundDiv | src/Kalani/DateRange/Calculator.php:26 | PHP round of n/d: within half of d of n, with an exact half resolved away from zero |
| Rounding.Round | src/Kalani/DateRange/Calculator.php:28 | round(n/d, places) as a decimal with that many places, nearest with halves away from zero |
| Rounding.RoundDivMonotone | src/Kalani/DateRange/Calculator.php:26 | rounding preserves order |
| Rounding.RoundDivExact | src/Kalani/DateRange/Calculator.php:26 | an exact quotient is returned unchanged |
| Rounding.Minus | src/Kalani/DateRange/ExampleCalculator.php:34 | exact difference of two decimals at the finer precision |
| Dates.CivilOrderIsStampOrder | src/Kalani/DateRange/DateRange.php:44 | Carbon's gt/lt/eq on timestamps agree with the calendar order of year, month, day and second |
| Dates.SameDateIsSameDayStart | src/Kalani/DateRange/DateRange.php:83-84 | two start-of-day moments are equal exactly when the moments share a calendar date |
| Dates.AddDaysStamp | src/Kalani/DateRange/Calculator.php:49-50 | addDays(n) moves the timestamp forward by n whole days |
| Dates.DiffInMinutes | src/Kalani/DateRange/Calculator.php:22 | diffInMinutes is the whole minutes in the absolute difference |
| Dates.DiffInDays | src/Kalani/DateRange/Calculator.php:41 | diffInDays is the whole days in the absolute difference |
| Dates.CivilMonthsMonotone | src/Kalani/DateRange/Calculator.php:51-53 | the month difference grows with the later moment |
| Dates.Carbon.StartOfDay | src/Kalani/DateRange/DateRange.php:94 | the object moves to 00:00:00 of its date |
| Dates.Carbon.EndOfDay | src/Kalani/DateRange/DateRange.php:95 | the object moves to 23:59:59 of its date |
| Php.Explode | src/Kalani/DateRange/DateRange.php:186 | explode yields at least one piece and no piece contains the separator |
| Php.ImplodeExplode | src/Kalani/DateRange/DateRange.php:186 | joining explode's pieces with the separator restores the string |
| Php.ExplodeFirstPieces | src/Kalani/DateRange/DateRange.php:180-186 | the first piece ends at the first separator strpos finds, and the second piece starts right after it |
| Php.RemoveAll | tests/MockConfig.php:11 | str_replace with '' never lengthens the key |
| Php.RemoveAllAbsent | tests/MockConfig.php:11 | a key without the namespace passes through unchanged |
| Php.RemoveAllLeading | tests/MockConfig.php:11 | a leading namespace is removed and the rest is processed on its own |
| Php.Lower | src/Kalani/DateRange/DateRange.php:125 | method names are compared case-insensitively, character by character |
| Php.ToText | src/Kalani/DateRange/DateRange.php:169-175 | `.` fails only on a closure and leaves a string as it is |
| MockConfig.Lookup | tests/MockConfig.php:13-17 | a stored non-null value, or the default when the key is missing or null |
| MockConfig.Fetch | tests/MockConfig.php:9-18 | the default or a non-null stored value; a key that does not hold the namespace is looked up as it is |
| MockConfig.MockConfig.constructor | tests/MockConfig.php:5-7 | the key set starts empty, so every get returns its default |
| MockConfig.MockConfig.Setup | tests/MockConfig.php:20-23 | the new key set is exactly the given one |
| MockConfig.MockConfig.Get | tests/MockConfig.php:9-18 | the value stored under the key with every namespace removed, when set and not null; the default otherwise |
| MockConfig.NamespacedKey | tests/MockConfig.php:11-14 | a colon-free key reads the same with or without the namespace in front |
| MockConfig.EveryNamespaceRemoved | tests/MockConfig.php:11 | every occurrence of the namespace is removed, not only the first: a colon-free key with the namespace written twice reads as the bare key |
| MockConfig.LookupIsFlat | tests/MockConfig.php:13 | keys are flat strings: a delimiter set stored under a key k (such as range.default) does not make k.member (range.default.only) resolvable |
| MockConfig.NullIsUnset | tests/MockConfig.php:13 | a key stored as null gives the default |
| MockConfig.SetupForgetsEarlierKeys | tests/MockConfig.php:20-23 | keys missing from the new set give the default |
| Formatting.ConfigKey | src/Kalani/DateRange/DateRange.php:232-235 | getConfig of a colon-free name is the flat lookup of that name |
| Formatting.FormatDate | src/Kalani/DateRange/DateRange.php:212-227 | fails exactly on a closure used as a value; a date always gives text |
| Formatting.NonDateRendering | src/Kalani/DateRange/DateRange.php:214-217 | a non-date gives none.<style> unless that is unset or loosely 'n/a', and itself otherwise; the explicit default plays no part |
| Formatting.StyleOverridesDefault | src/Kalani/DateRange/DateRange.php:219-221 | a truthy styles.<style> is used whatever default is passed |
| Formatting.DefaultOverridesStylesDefault | src/Kalani/DateRange/DateRange.php:223-224 | otherwise a truthy explicit default beats styles.default |
| Formatting.StylesDefaultIsLastResort | src/Kalani/DateRange/DateRange.php:226 | with neither, styles.default is the pattern |
| Formatting.LooselyEqual | src/Kalani/DateRange/DateRange.php:168 | every field equals itself; two dates are equal exactly when they are the same moment |
| Formatting.LooselyEqualSymmetric | src/Kalani/DateRange/DateRange.php:168 | loose equality does not depend on the order of the fields |
| Formatting.ApplyStyleToRange | src/Kalani/DateRange/DateRange.php:164-176 | the result is text, and every failure is fatal (a closure used as text) |
| Formatting.ApplyStyleToDate | src/Kalani/DateRange/DateRange.php:203-210 | fails whenever formatDate fails, and every failure is fatal |
| Formatting.OnlyPrefixOnDate | src/Kalani/DateRange/DateRange.php:203-210 | a truthy range.<style>.only is put in front of the single date as text; without one the date is exactly formatDate's result; a closure as prefix or date is fatal |
| Formatting.PrefixedDate | src/Kalani/DateRange/DateRange.php:205-207 | a date in a style whose `only` is the text p renders as p followed by formatDate's text |
| Formatting.GetDelimiters | src/Kalani/DateRange/DateRange.php:194-201 | range.<style> when truthy, range.default otherwise |
| Formatting.DefaultDelimiters | src/Kalani/DateRange/DateRange.php:194-201 | the style "default" uses range.default, set or not |
| Formatting.UnsetStyleBorrowsDefault | src/Kalani/DateRange/DateRange.php:196-200 | a style without a truthy delimiter set of its own uses the default set |
| Formatting.SetStyleIgnoresDefault | src/Kalani/DateRange/DateRange.php:196-198 | a style with a truthy delimiter set uses it, and changing range.default changes nothing |
| Formatting.DelimitersTruthyWithDefault | src/Kalani/DateRange/DateRange.php:194-201 | when range.default is truthy, every style has truthy delimiters |
| Formatting.SplitDelimitersFromStyle | src/Kalani/DateRange/DateRange.php:178-192 | the date style is the whole name, with that name's delimiters, or a non-empty underscore-free prefix ended by the first '_', with the delimiters of the piece that follows it |
| Formatting.SplitStyleAtUnderscore | src/Kalani/DateRange/DateRange.php:178-192 | "x_y" is date style x with the delimiters of y |
| Formatting.SplitStyleIgnoresThirdPiece | src/Kalani/DateRange/DateRange.php:186 | in "x_y_z" everything after y is ignored |
| Formatting.SplitStyleAt | src/Kalani/DateRange/DateRange.php:180-191 | x, '_' and a rest whose first piece is y: date style x, delimiters of y |
| Formatting.SplitStyleWhole | src/Kalani/DateRange/DateRange.php:180-184 | a style without '_', or with '_' at index 0, names both the date style and the delimiters |
| Formatting.RangeOfEqualEnds | src/Kalani/DateRange/DateRange.php:168-169 | loosely equal fields, dates or not, render as the `only` delimiter followed by the start as text; a closure in either is fatal |
| Formatting.RangeOfDistinctEnds | src/Kalani/DateRange/DateRange.php:171-175 | fields that are not loosely equal, dates or not, render as before, start, middle, end and after in that order; a closure in any of them is fatal |
| Formatting.EndKeyIsNotRead | src/config/config.php:85-107 | a delimiter set that names its closing piece 'end' adds nothing after the end date |
| Formatting.SplitName | src/Kalani/DateRange/DateRange.php:140-147 | the first of start, end and range that the name begins with, and the name past one more character; ('range', name) otherwise |
| Formatting.SplitValueFromProcess | src/Kalani/DateRange/DateRange.php:140-147 | the search loop returns what SplitName specifies |
| Formatting.SplitNameStart | src/Kalani/DateRange/DateRange.php:142-144 | start_<style> names style of the start date |
| Formatting.SplitNameRange | src/Kalani/DateRange/DateRange.php:142-144 | range_<style> names style of the range |
| Formatting.SplitNameExamples | src/Kalani/DateRange/DateRange.php:142-146 | short_title, short and title have no prefix; "endless" drops the 'l' and names style "ess" of the end |
| Formatting.Call | src/Kalani/DateRange/DateRange.php:153 | a configured value can be called exactly when it is a closure |
| Formatting.ExecuteClosure | src/Kalani/DateRange/DateRange.php:149-162 | a range calculation gets (start, end) when both are dates; a start or end calculation gets that date alone; none.calculations when a date it needs is not a Carbon; the only failure is a value that cannot be called |
| Formatting.CalculationSeesOnlyItsDate | src/Kalani/DateRange/DateRange.php:158-161 | a start or end calculation does not depend on the other field |
| Formatting.Derived | src/Kalani/DateRange/DateRange.php:123-137 | with a truthy calculation the only failure is one that cannot be called; otherwise every failure is fatal |
| Formatting.DerivedStyle | src/Kalani/DateRange/DateRange.php:130-137 | without a truthy calculation, the range or the named date is rendered in the split style |
| Formatting.DerivedCalculation | src/Kalani/DateRange/DateRange.php:128-132 | with a truthy calculations.<style>, the result is that calculation executed on the range or on the named date |
| Formatting.CalculationIgnoresOtherSettings | src/Kalani/DateRange/DateRange.php:130-132 | a truthy calculation decides the result alone |
| Formatting.RangeCalculationNeedsBothDates | src/Kalani/DateRange/DateRange.php:151-155 | a range calculation is not invoked unless both fields are dates |
| Formatting.StyledDate | tests/DateRangeTest.php:131-137 | a date in a style whose pattern is set renders that pattern |
| Formatting.StartStyleExample | tests/DateRangeTest.php:199-205 | start_<style> renders the start in that style alone: start_short with styles.short = 'x' is 'x' |
| Formatting.OnlyPrefixExample | tests/DateRangeTest.php:207-217 | range_short of a one-day range is 'prefix x' |
| Formatting.TwoDateRangeExample | tests/DateRangeTest.php:219-227 | range_<style> of two distinct dates is before, date, middle, date, after from range.default: range_short with 'a ', ' - ', ' b' is 'a x - x b' |
| Formatting.DateAndRangeStyleExample | tests/DateRangeTest.php:229-237 | x_y takes the date pattern from x and the `only` delimiter from y, as short_title does |
| Formatting.TitleExample | tests/DateRangeTest.php:239-247 | a style without '_' (title) takes both its pattern and its delimiters from its own name: `only` followed by the pattern |
| Formatting.FormatDateExamples | tests/DateRangeTest.php:139-158 | none.foo for a non-date; styles.default; an explicit default over styles.default |
| Formatting.FormatExamples | tests/DateRangeTest.php:160-189 | format of start and of a one-day range with default 'x' is 'x' |
| Formatting.NoneValueExample | tests/DateRangeTest.php:170-179 | a NONE range's start in style foo renders as 'n/a' |
| DateRange.Coerce | src/Kalani/DateRange/DateRange.php:48-63 | exactly the input NONE gives a plain value, none.default, while a Carbon is kept, a DateTime is copied, an integer or numeric text is read as a timestamp, and other text or null is parsed |
| DateRange.CoercedInputIsADate | src/Kalani/DateRange/DateRange.php:48-63 | every input other than NONE becomes a Carbon date whatever the configuration, and a Carbon keeps its own moment |
| DateRange.SameDay | src/Kalani/DateRange/DateRange.php:75-85 | true exactly when either field is not a date or both fall on the same calendar date |
| DateRange.Compare | src/Kalani/DateRange/DateRange.php:102-109 | Carbon's lt/gt/eq fail exactly when either side is not a date |
| DateRange.Overlap | src/Kalani/DateRange/DateRange.php:100-104 | start before the other's end and end after the other's start, with the fatal cases of the short-circuit |
| DateRange.Adjacent | src/Kalani/DateRange/DateRange.php:106-110 | start at the other's end or end at the other's start, with the fatal cases of the short-circuit |
| DateRange.OverlapSymmetric | tests/DateRangeTest.php:390-397 | on dates, overlapping does not depend on which range asks |
| DateRange.OverlapIsSharedInterior | src/Kalani/DateRange/DateRange.php:100-110 | ranges overlap exactly when they share a moment and are not adjacent |
| DateRange.AdjacentRangesDoNotOverlap | src/Kalani/DateRange/DateRange.php:100-110 | adjacent ranges never overlap |
| DateRange.JanuaryOrder | tests/DateRangeTest.php:399-430 | midnights of January 2014 are ordered by day |
| DateRange.OverlapWithFourthToEighth | tests/DateRangeTest.php:390-409 | [a, b] overlaps 4 to 8 January, from either side, exactly when a < 8 and b > 4 |
| DateRange.AdjacentToFourthToEighth | tests/DateRangeTest.php:414-430 | [a, b] is adjacent to 4 to 8 January exactly when a is the 8th or b is the 4th |
| DateRange.OverlapAndAdjacencyTables | tests/DateRangeTest.php:399-430 | the six overlap rows and four adjacency rows |
| DateRange.SameDayTable | tests/DateRangeTest.php:365-375 | the six same-day rows |
| DateRange.DateRange.constructor | src/Kalani/DateRange/DateRange.php:17-20 | both fields start out null |
| DateRange.DateRange.Clone | src/Kalani/DateRange/DateRange.php:24 | a shallow copy sharing the configuration and the Carbon objects |
| DateRange.DateRange.GetCarbonDate | src/Kalani/DateRange/DateRange.php:48-63 | the field Coerce prescribes, with a new Carbon where one is made |
| DateRange.DateRange.SetDates | src/Kalani/DateRange/DateRange.php:36-46 | both fields set, an empty end repeating the start input, two parsed inputs giving two Carbons; true exactly when they are in order |
| DateRange.DateRange.Make | src/Kalani/DateRange/DateRange.php:22-29 | a fresh range on the same configuration with the coerced inputs, or DateOrder exactly when both are dates and the start is later; this object is not changed |
| DateRange.DateRange.CanCompareDates | src/Kalani/DateRange/DateRange.php:237-241 | when it holds, both fields are Carbon objects and they are all the Carbons the range holds; otherwise a field holds a plain value |
| DateRange.DateRange.CanCompareMeansComparable | src/Kalani/DateRange/DateRange.php:237-241 | it holds exactly when comparing the two fields with Carbon is not fatal |
| DateRange.DateRange.IsSameDay | src/Kalani/DateRange/DateRange.php:75-85 | true exactly when either field is not a date or both share a calendar date |
| DateRange.DateRange.OnSameDay | src/Kalani/DateRange/DateRange.php:87-90 | the same answer as isSameDay |
| DateRange.DateRange.FullDay | src/Kalani/DateRange/DateRange.php:92-98 | start to 00:00:00, then end to 23:59:59, in place; one shared Carbon ends at 23:59:59; a non-date field is fatal after earlier changes |
| DateRange.DateRange.Overlaps | src/Kalani/DateRange/DateRange.php:100-104 | on dates, start < other.end and end > other.start |
| DateRange.DateRange.IsAdjacentTo | src/Kalani/DateRange/DateRange.php:106-110 | on dates, start = other.end or end = other.start |
| DateRange.DateRange.Format | src/Kalani/DateRange/DateRange.php:115-121 | exactly 'range' renders the range; 'start' and 'end' in any case render that one date |
| DateRange.DateRange.FormatIgnoresTargetCase | src/Kalani/DateRange/DateRange.php:115-121 | a target other than the exact 'range' gives the same result as its lower-case form |
| DateRange.DateRange.Get | src/Kalani/DateRange/DateRange.php:123-138 | a method name in any case wins; start and end give the fields; any other name is the calculation or rendering Derived gives |
| DateRange.FullDayOfParsedDate | tests/DateRangeTest.php:377-385 | a parsed date's range becomes 00:00:00 to 23:59:59 of that date |
| DateRange.FullDayOfSharedCarbon | src/Kalani/DateRange/DateRange.php:38-39 | a range made from one Carbon holds it twice, and fullDay leaves it at 23:59:59 |
| DateRange.LaterStartIsRejected | src/Kalani/DateRange/DateRange.php:44-45 | make('1/5/2014', '1/2/2014') fails with DateOrder; no swap |
| DateRange.NoneInput | tests/DateRangeTest.php:113-129 | make(NONE, null) with none.default = 'n/a' holds 'n/a' in both fields |

## Left out

- Time zones, daylight saving and microseconds: an `Instant` is a civil UTC moment to the second.
- Carbon's parser (`'now'`, `'1/2/14'`, `'4:20pm'`), `createFromTimestamp` and the `date()` pattern language: these are the `parse`, `fromTimestamp` and `format` functions of `Host`, left uninterpreted.
- Floating-point artefacts of PHP's `round()` and of `/`: every number is an exact decimal.
- Calculator.Calculator.Hours: requires a non-zero granularity (PHP divides by it) and a non-negative number of places.
- ExampleCalculator.Hours and ExampleCalculator.HoursOf: require a non-negative number of places; PHP's `round()` also accepts a negative precision, which is not modelled.
- ExampleCalculator.HoursOf: requires a positive period. With three or more places the first-period adjustment subtracts a two-place period from a finer value, so a 10-minute range in 10-minute periods gives -0.003 hours. The model keeps this as the code has it.
- DateRange.Coerce: `is_numeric` is modelled for integer text with an optional sign. Decimal, exponent and space-padded numerals are parsed instead.
- Closures stored in the configuration are opaque identities invoked through `Host.invoke`. String callables are not modelled.
- Formatting.LooselyEqual: two values that are not dates are compared by identity. Numeric strings are not compared as numbers, and a number is not compared with a Carbon.
- Php.Substr: `substr` past the end yields `""` (PHP 7 returns `false`, which renders the same).
- DateRange.DateRange.Get: the other methods reachable through `__get` (`fullDay`, `make`, `format` with no arguments, and the rest) are answered only by name (`Method(name)`). They are not called.
- DateRange.DateRange.Format: a target naming another method (for example `none`) is answered with `UnknownTarget`.
- DateRange.DateRange.Overlaps and DateRange.DateRange.IsAdjacentTo: the contract states the result only when all four fields are dates. The short-circuit and fatal cases are stated on DateRange.Overlap and DateRange.Adjacent.
- The test suite expects behaviour the code does not have. Each expectation below is modelled as the code behaves:
  - swapping out-of-order dates (tests/DateRangeTest.php:105-111): DateRange.LaterStartIsRejected;
  - a fourth argument to `format` (tests/DateRangeTest.php:170-179): Formatting.NoneValueExample;
  - `hours` through a DateRange (tests/DateRangeTest.php:432-453): DateRange has no calculator;
  - string conversion (tests/DateRangeTest.php:249-259): DateRange has no `__toString`.
- The shipped delimiter sets spell their closing piece `'end'`, while the renderer reads `'after'`. Formatting.EndKeyIsNotRead states the effect.
- The service provider, the build script and the configuration literal are not part of this model. In production the configuration is an Illuminate repository; MockConfig stands in for it here.

## Findings

| source | as written | input that shows it | evidently intended | confidence | as-written member | corrected member |
|---|---|---|---|---|---|---|
| src/Kalani/DateRange/ExampleCalculator.php:19-27 | the half-period offset is rounded half away from zero, so a zero-length range counts minus one period | start == end, default 15-minute periods: -0.25 hours | rounding down to whole periods gives 0 hours for an empty range (ExampleCalculator.CorrectedEmptyIsZero), and agrees with the code on every other range (ExampleCalculator.CorrectedAgreesOnNonEmpty); ExampleCalculator.Hours keeps the code as written | high (not executed) | ExampleCalculator.ZeroLengthIsNegative | ExampleCalculator.HoursCorrected |
