# Modern Digital Calendar, in Dafny

A model of the Modern Digital Calendar library: `ModernDigitalDate`, `ModernDigitalChronology`,
`ModernDigitalEra` and `MathUtils.narrowLong`, with proofs about them.

The calendar has these rules:

- A year has 13 months of 28 days. That is 364 days, or 52 weeks.
- One or two leap days follow the months: two when the matching ISO year is a Gregorian leap
  year. The leap days form "month 0" and belong to no week: their week, week of month and
  weekday are all 0.
- Years are counted from 1970 ISO (the proleptic year). The era BEFORE_EPOCH (BE) holds the
  years up to 0 and SINCE_EPOCH (SE) the rest.
- Every year starts on the ISO first of January and on a Monday.
- A date stores ten fields: era, year-of-era, year, month, week of year, week of month, day of
  year, day of month, weekday and epoch day. The epoch day counts days from 1970-01-01.

The Java date class is immutable, so a date is a Dafny `datatype` (`Dates.Date`) whose
constructors are functions. Mutation exists only inside single operations, and each of those
is a `method` proved equal to its specification function:

- `Dates.EpochDayToFields` fills a map.
- `Periods.CalculatePeriodBetween`, `Periods.Until` and `Periods.CalculateDateAfter` reassign
  locals.
- `Formatting.RenderFormatArg` loops over the renderers.
- `Formatting.FormatterStringToOutput` loops over the pattern.

Every error the Java code throws becomes the `Err` side of a `Result`:

- `InvalidDate` for a `DateTimeException` about a date;
- `InvalidEra` for a foreign era;
- `UnsupportedField` for an unsupported field;
- `InvalidFormat` for the one format error that `format` reports.

Modules, one per file:

| module | content |
|---|---|
| `JavaInt` | Java's int and long ranges, and its truncating `/`, `%` and `(int)` cast |
| `MathUtils` | `narrowLong` |
| `Eras` | the two eras and their names |
| `Outcomes` | errors and results |
| `IsoCalendar` | the proleptic Gregorian calendar (section 3.2.1 of ISO 8601:2004), standing in for `LocalDate.ofEpochDay` |
| `Chronology` | the chronology's rules, and the ordinal helpers of the date arithmetic |
| `ChronologyExamples` | the chronology tests' tables, proved on the model |
| `Dates` | construction, validation and queries |
| `DateExamples` | the date-creation tests' tables |
| `Periods` | `until`, `plus` and `minus` with periods |
| `PeriodExamples` | the period tests' rows |
| `JavaText` | the pieces of `String` and `Integer` the formatter uses |
| `Formatting` | the pattern formatter |

The main results:

- The two constructors agree (`Dates.FromEpochDayOfValid`, `Dates.FromEpochDayValid`).
- Epoch-day order is calendar order (`Dates.BeforeIsFieldOrder`).
- `start.plus(start.until(end)) == end` for every pair of ordered valid dates
  (`Periods.PlusUntil`).
- `end.minus(start.until(end)) == start` holds exactly when no borrowed month crosses a year
  end whose leap days the two directions count differently (`Periods.MinusUntil`). The source
  warns that these methods "may return inconsistent results", and this is that inconsistency,
  stated exactly.
- A formatted date never holds a quote or bracket (`Formatting.Format`).
- Every failure of the formatter is the one format error.

## Model

| member | source | states |
|---|---|---|
| JavaInt.NarrowingCast | src/main/java/net/xmercerweiss/mdc/ModernDigitalDate.java:713 | the `(int)` cast of a long lands in the int range, differs from its operand by a multiple of 2^32, and is the identity on ints |
| JavaInt.Quot | src/main/java/net/xmercerweiss/mdc/ModernDigitalDate.java:886-889 | Java's `/` for a positive divisor: the Euclidean quotient on non-negative operands, never positive on non-positive ones |
| JavaInt.Rem | src/main/java/net/xmercerweiss/mdc/ModernDigitalDate.java:886-889 | Java's `%` for a positive divisor: smaller than the divisor in magnitude and carrying the dividend's sign |
| JavaInt.QuotRem | src/main/java/net/xmercerweiss/mdc/ModernDigitalDate.java:886-889 | quotient and remainder rebuild the dividend exactly |
| JavaInt.QuotRemUnique | src/main/java/net/xmercerweiss/mdc/ModernDigitalDate.java:886-889 | any quotient and remainder of the dividend's sign with a remainder smaller than the divisor are Java's |
| MathUtils.NarrowLong | src/main/java/net/xmercerweiss/mdc/utils/MathUtils.java:29-37 | the result is an int; ints are kept, values below the range give Integer.MIN_VALUE and values above give Integer.MAX_VALUE |
| MathUtils.NarrowLongIdempotentMonotone | src/main/java/net/xmercerweiss/mdc/utils/MathUtils.java:29-37 | clamping twice is clamping once, and clamping preserves order |
| Eras.Value | src/main/java/net/xmercerweiss/mdc/ModernDigitalEra.java:13-36 | BEFORE_EPOCH is exactly the era of value 0 and SINCE_EPOCH exactly the era of value 1 |
| Eras.DisplayName | src/main/java/net/xmercerweiss/mdc/ModernDigitalEra.java:44-53 | a standalone style gives the same name as its plain style: full, short or narrow name |
| Eras.DisplayNameForLocale | src/main/java/net/xmercerweiss/mdc/ModernDigitalEra.java:38-42 | whatever the locale, the full, short or narrow name of the style |
| Eras.DefaultDisplayName | src/main/java/net/xmercerweiss/mdc/ModernDigitalEra.java:55-58 | the two-letter short name |
| Eras.DisplayNamesDistinct | src/main/java/net/xmercerweiss/mdc/ModernDigitalEra.java:13-14 | in every style the two eras are told apart, and narrow names are one character |
| IsoCalendar.OfEpochDay | src/main/java/net/xmercerweiss/mdc/ModernDigitalDate.java:883-885 | the ISO year and day of year of an epoch day: the day lies within that year's length, and counting from the year's first epoch day reaches the epoch day |
| IsoCalendar.OfEpochDayUnique | src/main/java/net/xmercerweiss/mdc/ModernDigitalDate.java:883-885 | every epoch day has exactly one (year, day of year) pair, so the decomposition is the ISO calendar's |
| IsoCalendar.YearStartStep | src/main/java/net/xmercerweiss/mdc/ModernDigitalDate.java:883-885 | consecutive ISO years start one Gregorian year length apart |
| IsoCalendar.YearStartMonotone | src/main/java/net/xmercerweiss/mdc/ModernDigitalDate.java:883-885 | ISO years start in increasing order |
| IsoCalendar.OfEpochDayYearBounds | src/main/java/net/xmercerweiss/mdc/ModernDigitalDate.java:883-885 | the year of an epoch day grows at most linearly with it, which bounds the year an epoch day in a long can have |
| Chronology.Range | src/main/java/net/xmercerweiss/mdc/ModernDigitalChronology.java:160-187 | exactly the thirteen date fields have a range; any other field is the unsupported-field error |
| Chronology.IsLeapYear | src/main/java/net/xmercerweiss/mdc/ModernDigitalChronology.java:126-131 | the Gregorian leap rule applied to the ISO year (proleptic year + 1970), for negative ISO years too |
| Chronology.LeapRuleOfNegation | src/main/java/net/xmercerweiss/mdc/ModernDigitalChronology.java:126-131 | taking the absolute value of the ISO year does not change whether the Gregorian rule holds |
| Chronology.LengthOfYear | src/main/java/net/xmercerweiss/mdc/ModernDigitalDate.java:490-495 | 365 or 366 days, the length of the matching ISO year |
| Chronology.ProlepticYear | src/main/java/net/xmercerweiss/mdc/ModernDigitalChronology.java:133-143 | succeeds exactly for this calendar's eras, otherwise the invalid-era error; not positive before the epoch, not negative since, and of the given year's magnitude |
| Chronology.EraOf | src/main/java/net/xmercerweiss/mdc/ModernDigitalChronology.java:145-150 | BEFORE_EPOCH exactly for values up to 0 |
| Chronology.ProlepticToEraYear | src/main/java/net/xmercerweiss/mdc/ModernDigitalDate.java:196-201 | the year within its era is the magnitude of the proleptic year |
| Chronology.EraOfValue | src/main/java/net/xmercerweiss/mdc/ModernDigitalChronology.java:145-150 | the era lookup inverts the era's value |
| Chronology.ProlepticYearRoundTrip | src/main/java/net/xmercerweiss/mdc/ModernDigitalChronology.java:133-150 | era and year-of-era recover a proleptic year, and a proleptic year recovers its year-of-era |
| Chronology.OrdinalDayOfYear | src/test/java/net/xmercerweiss/mdc/tests/ModernDigitalChronologyTest.java:237-277 | valid exactly for months 1-13 with days 1-28 and month 0 with days 1-2; months fill days 1-364 in order and the leap days are 365 and 366; invalid pairs give the invalid-date error |
| Chronology.OrdinalWeekOfYear | src/test/java/net/xmercerweiss/mdc/tests/ModernDigitalChronologyTest.java:279-313 | valid exactly for days 1-366; week w holds days 7w-6 to 7w, and the leap days are week 0 |
| Chronology.OrdinalWeekOfMonthDay | src/main/java/net/xmercerweiss/mdc/ModernDigitalDate.java:269 | valid exactly for (month, day) pairs, and the week of the ordinal day they name |
| Chronology.OrdinalDayOfWeek | src/main/java/net/xmercerweiss/mdc/ModernDigitalDate.java:303-306 | weekday 0 exactly for the leap days, otherwise 1-7 and congruent to the ordinal day modulo 7, so every year starts on a Monday |
| Chronology.WeekAndWeekday | src/main/java/net/xmercerweiss/mdc/ModernDigitalDate.java:267-306 | week and weekday together give back the ordinal day |
| Chronology.FirstEpochDayStep | src/test/java/net/xmercerweiss/mdc/tests/ModernDigitalChronologyTest.java:62-104 | consecutive years start one year length apart on the epoch-day line |
| Chronology.EpochDayOf | src/test/java/net/xmercerweiss/mdc/tests/ModernDigitalChronologyTest.java:221-235 | valid exactly for (month, day) pairs, and the first epoch day of the year plus the ordinal day less one |
| Chronology.EraEpochDayOf | src/main/java/net/xmercerweiss/mdc/ModernDigitalDate.java:307-310 | valid exactly for this calendar's eras and (month, day) pairs, and the epoch day of the era's proleptic year |
| ChronologyExamples.LeapYearTable | src/test/java/net/xmercerweiss/mdc/tests/ModernDigitalChronologyTest.java:42-60 | every entry of the leap-year table |
| ChronologyExamples.FirstEpochDayTable1 | src/test/java/net/xmercerweiss/mdc/tests/ModernDigitalChronologyTest.java:63-69 | the first epoch days of the years -100 to -14 in the table |
| ChronologyExamples.FirstEpochDayTable2 | src/test/java/net/xmercerweiss/mdc/tests/ModernDigitalChronologyTest.java:70-76 | the first epoch days of the years -11 to -5 in the table |
| ChronologyExamples.FirstEpochDayTable3 | src/test/java/net/xmercerweiss/mdc/tests/ModernDigitalChronologyTest.java:77-83 | the first epoch days of the years -4 to 2 in the table |
| ChronologyExamples.FirstEpochDayTable4 | src/test/java/net/xmercerweiss/mdc/tests/ModernDigitalChronologyTest.java:84-90 | the first epoch days of the years 3 to 9 in the table |
| ChronologyExamples.FirstEpochDayTable5 | src/test/java/net/xmercerweiss/mdc/tests/ModernDigitalChronologyTest.java:91-97 | the first epoch days of the years 10 to 22 in the table |
| ChronologyExamples.FirstEpochDayTable6 | src/test/java/net/xmercerweiss/mdc/tests/ModernDigitalChronologyTest.java:98-103 | the first epoch days of the years 23 to 100 in the table |
| ChronologyExamples.DayOfYearTable | src/test/java/net/xmercerweiss/mdc/tests/ModernDigitalChronologyTest.java:106-127 | every (month, day) to ordinal-day entry of the table |
| ChronologyExamples.InvalidMonthDayTable | src/test/java/net/xmercerweiss/mdc/tests/ModernDigitalChronologyTest.java:129-147 | every pair of the invalid list is rejected with the invalid-date error |
| ChronologyExamples.WeekOfYearTable | src/test/java/net/xmercerweiss/mdc/tests/ModernDigitalChronologyTest.java:149-184 | every ordinal-day to week entry of the table |
| ChronologyExamples.InvalidDayOfYearTable | src/test/java/net/xmercerweiss/mdc/tests/ModernDigitalChronologyTest.java:186-207 | every ordinal day of the invalid list is rejected |
| DateExamples.EpochDayRow1 | src/test/java/net/xmercerweiss/mdc/tests/ModernDigitalDateCreationTest.java:77-80 | epoch day -3653 gets the era, year of era, month and day of the table |
| DateExamples.EpochDayRow2 | src/test/java/net/xmercerweiss/mdc/tests/ModernDigitalDateCreationTest.java:81-84 | epoch day -731 gets the era, year of era, month and day of the table |
| DateExamples.EpochDayRow3 | src/test/java/net/xmercerweiss/mdc/tests/ModernDigitalDateCreationTest.java:85-88 | epoch day -366 gets the era, year of era, month and day of the table |
| DateExamples.EpochDayRow4 | src/test/java/net/xmercerweiss/mdc/tests/ModernDigitalDateCreationTest.java:89-92 | epoch day -365 gets the era, year of era, month and day of the table |
| DateExamples.EpochDayRow5 | src/test/java/net/xmercerweiss/mdc/tests/ModernDigitalDateCreationTest.java:93-96 | epoch day -183 gets the era, year of era, month and day of the table |
| DateExamples.EpochDayRow6 | src/test/java/net/xmercerweiss/mdc/tests/ModernDigitalDateCreationTest.java:97-100 | epoch day -1 gets the era, year of era, month and day of the table |
| DateExamples.EpochDayRow7 | src/test/java/net/xmercerweiss/mdc/tests/ModernDigitalDateCreationTest.java:101-104 | epoch day 0 gets the era, year of era, month and day of the table |
| DateExamples.EpochDayRow8 | src/test/java/net/xmercerweiss/mdc/tests/ModernDigitalDateCreationTest.java:105-108 | epoch day 1 gets the era, year of era, month and day of the table |
| DateExamples.EpochDayRow9 | src/test/java/net/xmercerweiss/mdc/tests/ModernDigitalDateCreationTest.java:109-112 | epoch day 364 gets the era, year of era, month and day of the table |
| DateExamples.EpochDayRow10 | src/test/java/net/xmercerweiss/mdc/tests/ModernDigitalDateCreationTest.java:113-116 | epoch day 365 gets the era, year of era, month and day of the table |
| DateExamples.EpochDayRow11 | src/test/java/net/xmercerweiss/mdc/tests/ModernDigitalDateCreationTest.java:117-120 | epoch day 730 gets the era, year of era, month and day of the table |
| DateExamples.EpochDayRow12 | src/test/java/net/xmercerweiss/mdc/tests/ModernDigitalDateCreationTest.java:121-124 | epoch day 731 gets the era, year of era, month and day of the table |
| DateExamples.EpochDayRow13 | src/test/java/net/xmercerweiss/mdc/tests/ModernDigitalDateCreationTest.java:125-128 | epoch day 1095 gets the era, year of era, month and day of the table |
| DateExamples.EpochDayRow14 | src/test/java/net/xmercerweiss/mdc/tests/ModernDigitalDateCreationTest.java:129-132 | epoch day 1096 gets the era, year of era, month and day of the table |
| DateExamples.EpochDayRow15 | src/test/java/net/xmercerweiss/mdc/tests/ModernDigitalDateCreationTest.java:133-136 | epoch day 3652 gets the era, year of era, month and day of the table |
| DateExamples.EpochDayRow16 | src/test/java/net/xmercerweiss/mdc/tests/ModernDigitalDateCreationTest.java:137-140 | epoch day 10956 gets the era, year of era, month and day of the table |
| DateExamples.EpochDayRow17 | src/test/java/net/xmercerweiss/mdc/tests/ModernDigitalDateCreationTest.java:141-144 | epoch day 10957 gets the era, year of era, month and day of the table |
| DateExamples.EpochDayRow18 | src/test/java/net/xmercerweiss/mdc/tests/ModernDigitalDateCreationTest.java:145-148 | epoch day 11322 gets the era, year of era, month and day of the table |
| DateExamples.EpochDayRow19 | src/test/java/net/xmercerweiss/mdc/tests/ModernDigitalDateCreationTest.java:149-152 | epoch day 11323 gets the era, year of era, month and day of the table |
| DateExamples.ValidFieldsRow1 | src/test/java/net/xmercerweiss/mdc/tests/ModernDigitalDateCreationTest.java:40-41 | the field constructor accepts the tuple and gives back its era, year of era, month and day |
| DateExamples.ValidFieldsRow2 | src/test/java/net/xmercerweiss/mdc/tests/ModernDigitalDateCreationTest.java:42 | the field constructor accepts the tuple and gives back its era, year of era, month and day |
| DateExamples.ValidFieldsRow3 | src/test/java/net/xmercerweiss/mdc/tests/ModernDigitalDateCreationTest.java:43 | the field constructor accepts the tuple and gives back its era, year of era, month and day |
| DateExamples.ValidFieldsRow4 | src/test/java/net/xmercerweiss/mdc/tests/ModernDigitalDateCreationTest.java:44 | the field constructor accepts the tuple and gives back its era, year of era, month and day |
| DateExamples.ValidFieldsRow5 | src/test/java/net/xmercerweiss/mdc/tests/ModernDigitalDateCreationTest.java:45 | the field constructor accepts the tuple and gives back its era, year of era, month and day |
| DateExamples.ValidFieldsRow6 | src/test/java/net/xmercerweiss/mdc/tests/ModernDigitalDateCreationTest.java:46 | the field constructor accepts the tuple and gives back its era, year of era, month and day |
| DateExamples.ValidFieldsRow7 | src/test/java/net/xmercerweiss/mdc/tests/ModernDigitalDateCreationTest.java:47 | the field constructor accepts the tuple and gives back its era, year of era, month and day |
| DateExamples.ValidFieldsRow8 | src/test/java/net/xmercerweiss/mdc/tests/ModernDigitalDateCreationTest.java:48 | the field constructor accepts the tuple and gives back its era, year of era, month and day |
| DateExamples.ValidFieldsRow9 | src/test/java/net/xmercerweiss/mdc/tests/ModernDigitalDateCreationTest.java:49 | the field constructor accepts the tuple and gives back its era, year of era, month and day |
| DateExamples.ValidFieldsRow10 | src/test/java/net/xmercerweiss/mdc/tests/ModernDigitalDateCreationTest.java:50 | the field constructor accepts the tuple and gives back its era, year of era, month and day |
| DateExamples.ValidFieldsRow11 | src/test/java/net/xmercerweiss/mdc/tests/ModernDigitalDateCreationTest.java:51 | the field constructor accepts the tuple and gives back its era, year of era, month and day |
| DateExamples.ValidFieldsRow12 | src/test/java/net/xmercerweiss/mdc/tests/ModernDigitalDateCreationTest.java:52 | the field constructor accepts the tuple and gives back its era, year of era, month and day |
| DateExamples.ValidFieldsRow13 | src/test/java/net/xmercerweiss/mdc/tests/ModernDigitalDateCreationTest.java:53 | the field constructor accepts the tuple and gives back its era, year of era, month and day |
| DateExamples.ValidFieldsRow14 | src/test/java/net/xmercerweiss/mdc/tests/ModernDigitalDateCreationTest.java:54 | the field constructor accepts the tuple and gives back its era, year of era, month and day |
| DateExamples.ValidFieldsRow15 | src/test/java/net/xmercerweiss/mdc/tests/ModernDigitalDateCreationTest.java:55 | the field constructor accepts the tuple and gives back its era, year of era, month and day |
| DateExamples.InvalidFieldsTable | src/test/java/net/xmercerweiss/mdc/tests/ModernDigitalDateCreationTest.java:58-74 | every tuple of the invalid list is rejected with the invalid-date error |
| Dates.ValidateFields | src/main/java/net/xmercerweiss/mdc/ModernDigitalDate.java:866-879 | passes exactly for this calendar's eras, a year-of-era from 0, a valid (month, day) pair and a second leap day only in a leap year; a foreign era is the invalid-era error, anything else the invalid-date error |
| Dates.Build | src/main/java/net/xmercerweiss/mdc/ModernDigitalDate.java:265-312 | keeps the year-of-era, month and day, makes year-of-era 0 SINCE_EPOCH, and derives the proleptic year from the era |
| Dates.Of | src/main/java/net/xmercerweiss/mdc/ModernDigitalDate.java:183-186 | succeeds exactly when the fields validate, with the validation's error otherwise; the date is valid and has the given fields |
| Dates.OfProleptic | src/main/java/net/xmercerweiss/mdc/ModernDigitalDate.java:196-201 | succeeds exactly for a year whose magnitude fits a long, a valid (month, day) pair and a second leap day only in a leap year; the date has that year, month and day |
| Dates.OfProlepticValid | src/main/java/net/xmercerweiss/mdc/ModernDigitalDate.java:196-201 | the dates it gives are valid |
| Dates.OfProlepticOfValid | src/main/java/net/xmercerweiss/mdc/ModernDigitalDate.java:196-201 | every valid date is the result for its own year, month and day |
| Dates.SplitDayOfYear | src/main/java/net/xmercerweiss/mdc/ModernDigitalDate.java:886-889 | splitting an ordinal day 1-366 gives the (month, day) pair that numbers it |
| Dates.SplitOrdinalDayOfYear | src/main/java/net/xmercerweiss/mdc/ModernDigitalDate.java:886-889 | numbering a (month, day) pair and splitting the number gives the pair back |
| Dates.SplitOutOfRange | src/main/java/net/xmercerweiss/mdc/ModernDigitalDate.java:886-889 | ordinal days outside 1-366 split into no valid pair |
| Dates.EpochDayToFields | src/main/java/net/xmercerweiss/mdc/ModernDigitalDate.java:881-897 | puts exactly the five fields; the day of year is within the year's length, counts from the year's first epoch day to the epoch day, and is the ordinal of the (month, day) put |
| Dates.OfEpochDay | src/main/java/net/xmercerweiss/mdc/ModernDigitalDate.java:223-226 | the epoch-day constructor: keeps the epoch day and gives a valid date for every epoch day a long holds, with year 0 in SINCE_EPOCH (the corrected era of line 321); the range exception of LocalDate.ofEpochDay is not modelled |
| Dates.FromEpochDayMatches | src/main/java/net/xmercerweiss/mdc/ModernDigitalDate.java:314-343 | the fields the epoch-day constructor completes are those of its year, day of year and (month, day) |
| Dates.FromEpochDayAsWritten | src/main/java/net/xmercerweiss/mdc/ModernDigitalDate.java:314-343 | the epoch-day constructor as written keeps the epoch day |
| Dates.EpochDayZeroEraAsWritten | src/main/java/net/xmercerweiss/mdc/ModernDigitalDate.java:321 | as written, epoch day 0 (year 0) gets era value 0, the field constructor gives 1 for year 0, and the date is not valid |
| Dates.FromEpochDay | src/main/java/net/xmercerweiss/mdc/ModernDigitalDate.java:314-343 | the epoch-day constructor with the field constructor's era rule keeps the epoch day |
| Dates.FromEpochDayValid | src/main/java/net/xmercerweiss/mdc/ModernDigitalDate.java:314-343 | in the model every epoch day a long holds gives a valid date with that epoch day; the Java code throws beyond LocalDate's epoch-day range, which is not modelled |
| Dates.CompletedFieldsValid | src/main/java/net/xmercerweiss/mdc/ModernDigitalDate.java:314-343 | the completed fields of any day of a year form a valid date |
| Dates.BuildOfDerived | src/main/java/net/xmercerweiss/mdc/ModernDigitalDate.java:265-312 | a date whose derived fields follow its era, year-of-era, month and day is the field constructor's |
| Dates.FromEpochDayOfValid | src/main/java/net/xmercerweiss/mdc/ModernDigitalDate.java:223-226 | the epoch-day constructor applied to a valid date's epoch day gives that date: the two constructors agree |
| Dates.ValidDateFacts | src/main/java/net/xmercerweiss/mdc/ModernDigitalDate.java:265-312 | a valid date's year fits a long, its day of year numbers its (month, day), and its epoch day counts from its year's first epoch day |
| Dates.EpochDayDeterminesDate | src/main/java/net/xmercerweiss/mdc/ModernDigitalDate.java:265-343 | two valid dates are equal exactly when their epoch days are |
| Dates.OfYearDayAsWritten | src/main/java/net/xmercerweiss/mdc/ModernDigitalDate.java:210-215 | as written, any date it gives has the requested year |
| Dates.OfYearDayAsWrittenRejects | src/main/java/net/xmercerweiss/mdc/ModernDigitalDate.java:210-215 | as written, the last day of every month (28k) and the first leap day (365) are rejected, while the corrected split accepts them |
| Dates.OfYearDay | src/main/java/net/xmercerweiss/mdc/ModernDigitalDate.java:210-215 | corrected: succeeds exactly for a year that fits and an ordinal day within the year's length, and gives a date with that year and ordinal day |
| Dates.LeapDayOfValid | src/main/java/net/xmercerweiss/mdc/ModernDigitalDate.java:770-773 | on a valid date a leap day is exactly one in week 0, with weekday 0, after the 364 days of the months |
| Dates.IsLeapDay | src/main/java/net/xmercerweiss/mdc/ModernDigitalDate.java:770-773 | a date is a leap day when its month is 0; on a valid date that is week 0, weekday 0 and a day of year past 364 (LeapDayOfValid) |
| Dates.IsLeapYearOf | src/main/java/net/xmercerweiss/mdc/ModernDigitalDate.java:407-411 | the Gregorian rule on the date's ISO year |
| Dates.LengthOfYearOf | src/main/java/net/xmercerweiss/mdc/ModernDigitalDate.java:490-495 | the year's length, which bounds a valid date's ordinal day |
| Dates.LengthOfMonthOf | src/main/java/net/xmercerweiss/mdc/ModernDigitalDate.java:476-484 | 28 for months 1-13, and the number of leap days (1 or 2) for month 0; bounds a valid date's day of month |
| Dates.GetQuarter | src/main/java/net/xmercerweiss/mdc/ModernDigitalDate.java:845-852 | 0 exactly for the leap days, otherwise the quarter of 13 weeks (and about three months) the date lies in |
| Dates.BeforeIsFieldOrder | src/main/java/net/xmercerweiss/mdc/ModernDigitalDate.java:375-401 | for valid dates, before on the epoch-day line is exactly earlier by (year, day of year) |
| Dates.FieldOrderIsBefore | src/main/java/net/xmercerweiss/mdc/ModernDigitalDate.java:375-401 | for valid dates, an earlier (year, day of year) is before |
| Dates.EarlierYearFirst | src/main/java/net/xmercerweiss/mdc/ModernDigitalDate.java:375-401 | any day of an earlier year is before any day of a later one |
| Dates.CompareExactlyOne | src/main/java/net/xmercerweiss/mdc/ModernDigitalDate.java:375-401 | exactly one of before, equal and after holds; before and after are converse; equal is equality of valid dates |
| Dates.IsAfter | src/main/java/net/xmercerweiss/mdc/ModernDigitalDate.java:376-379 | later on the epoch-day line; the converse of before, exclusive of equal (CompareExactlyOne) and later by (year, day of year) for valid dates (BeforeIsFieldOrder) |
| Dates.IsEqual | src/main/java/net/xmercerweiss/mdc/ModernDigitalDate.java:387-390 | the same epoch day; equality of valid dates (CompareExactlyOne) |
| Dates.IsBefore | src/main/java/net/xmercerweiss/mdc/ModernDigitalDate.java:398-401 | earlier on the epoch-day line; for valid dates exactly earlier by (year, day of year) (BeforeIsFieldOrder) |
| Dates.GetLong | src/main/java/net/xmercerweiss/mdc/ModernDigitalDate.java:451-457 | succeeds exactly for the ten stored fields, with the unsupported-field error otherwise; only date fields are read, and the era and epoch day are the stored ones |
| Dates.FieldsWithinRange | src/main/java/net/xmercerweiss/mdc/ModernDigitalChronology.java:160-187 | every stored field of a valid date lies in the range the chronology gives, except the epoch day |
| Dates.DerivedFieldsOfValid | src/main/java/net/xmercerweiss/mdc/ModernDigitalDate.java:265-312 | on a valid date every month holds four whole weeks starting on a Monday, and the leap days are in week 0, weekday 0 |
| Dates.WeeksOfMonthDay | src/main/java/net/xmercerweiss/mdc/ModernDigitalDate.java:267-306 | week of year, week of month and weekday of a day in months 1-13 in closed form |
| Dates.CompareToAsWritten | src/main/java/net/xmercerweiss/mdc/ModernDigitalDate.java:705-714 | as written, in the int range and of the right sign when the epoch days differ by an int |
| Dates.CompareToAsWrittenWraps | src/main/java/net/xmercerweiss/mdc/ModernDigitalDate.java:713 | as written, a date 2^31 days after another compares as earlier |
| Dates.CompareTo | src/main/java/net/xmercerweiss/mdc/ModernDigitalDate.java:705-714 | corrected: negative, zero or positive exactly when before, equal or after, and equal to the as-written result wherever that does not wrap |
| Periods.LastNonLeapDay | src/main/java/net/xmercerweiss/mdc/ModernDigitalDate.java:639 | the last day of month 13 of the year, not a leap day |
| Periods.LastNonLeapDayValid | src/main/java/net/xmercerweiss/mdc/ModernDigitalDate.java:639 | for a year that fits it is the field constructor's valid date |
| Periods.PeriodBetween | src/main/java/net/xmercerweiss/mdc/ModernDigitalDate.java:899-916 | counts the months from start to end less a borrowed month, keeps years and months of one sign, and for month days 1-28 gives 0-29 days, 28 or more only across a year end |
| Periods.CalculatePeriodBetween | src/main/java/net/xmercerweiss/mdc/ModernDigitalDate.java:899-916 | the imperative form, updating the month count and the days, computes PeriodBetween |
| Periods.Substitute | src/main/java/net/xmercerweiss/mdc/ModernDigitalDate.java:634-647 | a leap day becomes the last day of month 13 of its year; other dates are kept |
| Periods.SubstituteValid | src/main/java/net/xmercerweiss/mdc/ModernDigitalDate.java:634-647 | substituting keeps a date valid |
| Periods.Until | src/main/java/net/xmercerweiss/mdc/ModernDigitalDate.java:623-651 | reassigning start, end and the correction computes PeriodUntil |
| Periods.PeriodUntil | src/main/java/net/xmercerweiss/mdc/ModernDigitalDate.java:623-651 | until(date): months within -12..12 and of the years' sign, so the period is normalized; PlusUntil, UntilAntisymmetric and MinusUntil relate it to plus and minus |
| Periods.ScaledCorrection | src/main/java/net/xmercerweiss/mdc/ModernDigitalDate.java:648-650 | adding a days-only correction and scaling by the sign acts component by component |
| Periods.ResolveMonth | src/main/java/net/xmercerweiss/mdc/ModernDigitalDate.java:931-944 | the (year, month) reached has a month in 1-13 and the requested month count, for non-positive counts too |
| Periods.EpochDayAfter | src/main/java/net/xmercerweiss/mdc/ModernDigitalDate.java:918-950 | the epoch day reached: the leap-day substitution, years and months moving the (year, month) pair, then days and the correction on the epoch-day line |
| Periods.DateAfter | src/main/java/net/xmercerweiss/mdc/ModernDigitalDate.java:918-950 | the date reached has the epoch day EpochDayAfter gives |
| Periods.PlusPeriod | src/main/java/net/xmercerweiss/mdc/ModernDigitalDate.java:519-528 | plus(period): the date on the epoch day the period leads to, valid whenever that epoch day fits a long |
| Periods.MinusPeriod | src/main/java/net/xmercerweiss/mdc/ModernDigitalDate.java:557-566 | minus(period): the date on the epoch day the negated period leads to, valid whenever that epoch day fits a long |
| Periods.PlusZero | src/main/java/net/xmercerweiss/mdc/ModernDigitalDate.java:519-566 | the zero period leaves a valid date unchanged under plus and minus |
| Periods.EpochDayAfterZero | src/main/java/net/xmercerweiss/mdc/ModernDigitalDate.java:918-950 | the zero period leads a valid date to its own epoch day |
| Periods.FromEpochDayValidWhenFits | src/main/java/net/xmercerweiss/mdc/ModernDigitalDate.java:945-950 | the date calculateDateAfter builds is valid whenever its epoch day fits a long |
| Periods.CalculateDateAfter | src/main/java/net/xmercerweiss/mdc/ModernDigitalDate.java:918-950 | the imperative form with its correction computes DateAfter |
| Periods.ShiftByEqualPeriods | src/main/java/net/xmercerweiss/mdc/ModernDigitalDate.java:519-566 | plus and minus depend only on the three components of the period |
| Periods.NegatedShifts | src/main/java/net/xmercerweiss/mdc/ModernDigitalDate.java:557-566 | if a period leads forward from e to s and back, its negation leads from s to e and back |
| Periods.NegationsMatch | src/main/java/net/xmercerweiss/mdc/ModernDigitalDate.java:557-566 | two periods whose components sum to zero are each other's multipliedBy(-1) |
| Periods.MonthCountUnique | src/main/java/net/xmercerweiss/mdc/ModernDigitalDate.java:931-944 | a (year, month) pair with a month in 1-13 is fixed by its month count |
| Periods.EpochDayAfterPeriodBetween | src/main/java/net/xmercerweiss/mdc/ModernDigitalDate.java:899-950 | shifting a non-leap start by the period between it and a non-leap end reaches the end, in either order |
| Periods.EpochDayAfterSubstitute | src/main/java/net/xmercerweiss/mdc/ModernDigitalDate.java:925-930 | shifting a leap day is shifting the last day of month 13 and adding its day of month |
| Periods.EpochDayAfterMoreDays | src/main/java/net/xmercerweiss/mdc/ModernDigitalDate.java:946-948 | extra days in a period are extra days after the date reached |
| Periods.ValidEpochDayFromFields | src/main/java/net/xmercerweiss/mdc/ModernDigitalDate.java:265-312 | a valid date's epoch day follows from its substituted date and leap correction |
| Periods.EpochDayAfterUntil | src/main/java/net/xmercerweiss/mdc/ModernDigitalDate.java:623-651 | shifting a date by the period until a date not earlier reaches that date's epoch day |
| Periods.UntilForward | src/main/java/net/xmercerweiss/mdc/ModernDigitalDate.java:623-651 | from an earlier date, until is the period between the substituted dates plus the leap corrections |
| Periods.UntilSelf | src/main/java/net/xmercerweiss/mdc/ModernDigitalDate.java:623-651 | the period from a date to itself is zero |
| Periods.UntilSelfFields | src/main/java/net/xmercerweiss/mdc/ModernDigitalDate.java:623-651 | its three components are zero |
| Periods.BetweenSelf | src/main/java/net/xmercerweiss/mdc/ModernDigitalDate.java:899-916 | the period between a date and itself has three zero components |
| Periods.PlusUntil | src/main/java/net/xmercerweiss/mdc/ModernDigitalDate.java:519-651 | for valid dates with start not after end, start.plus(start.until(end)) is end |
| Periods.NegatedComponents | src/main/java/net/xmercerweiss/mdc/ModernDigitalDate.java:557-566 | multipliedBy(-1) negates every component |
| Periods.NegatedTwice | src/main/java/net/xmercerweiss/mdc/ModernDigitalDate.java:557-566 | negating twice gives the period back |
| Periods.UntilAntisymmetric | src/main/java/net/xmercerweiss/mdc/ModernDigitalDate.java:623-651 | a.until(b) is b.until(a) negated whenever the two differ in epoch day or are equal |
| Periods.EpochDayBeforePeriodBetween | src/main/java/net/xmercerweiss/mdc/ModernDigitalDate.java:557-566 | taking the period between two non-leap dates off the end reaches the start, off by exactly the leap days the borrowed month counts differently |
| Periods.BackAcrossYearEnd | src/main/java/net/xmercerweiss/mdc/ModernDigitalDate.java:903-910 | a borrowed month taking a start in month 13 back into its own year |
| Periods.ShiftedMonth | src/main/java/net/xmercerweiss/mdc/ModernDigitalDate.java:931-944 | a non-leap date shifted by a period lands in the month its month count names |
| Periods.BorrowedDays | src/main/java/net/xmercerweiss/mdc/ModernDigitalDate.java:903-910 | the days of a borrowed month: 28, plus the leap days of the previous year when the end is in month 1 |
| Periods.UntilInOrder | src/main/java/net/xmercerweiss/mdc/ModernDigitalDate.java:623-651 | towards a date not earlier, until is the period between the substituted dates with the leap corrections in days |
| Periods.UntilReversed | src/main/java/net/xmercerweiss/mdc/ModernDigitalDate.java:623-651 | towards an earlier date, until is the forward period negated component by component |
| Periods.EpochDayBeforeUntil | src/main/java/net/xmercerweiss/mdc/ModernDigitalDate.java:557-566 | end.minus(start.until(end)) reaches the start's epoch day moved by the drift |
| Periods.NegatedUntilShift | src/main/java/net/xmercerweiss/mdc/ModernDigitalDate.java:557-566 | taking until off the end is taking the period between the substituted dates off the substituted end, then the leap corrections |
| Periods.MinusUntil | src/main/java/net/xmercerweiss/mdc/ModernDigitalDate.java:557-651 | end.minus(start.until(end)) is the start exactly when no leap days are counted differently across a borrowed month |
| Periods.MinusUntilEpochDay | src/main/java/net/xmercerweiss/mdc/ModernDigitalDate.java:557-651 | the epoch day end.minus(start.until(end)) reaches |
| Periods.UntilFromLeapDay | src/main/java/net/xmercerweiss/mdc/ModernDigitalDate.java:634-640 | from a leap day, until is the period from the last day of month 13 less the leap day's day of month |
| Periods.UntilToLeapDay | src/main/java/net/xmercerweiss/mdc/ModernDigitalDate.java:641-647 | towards a leap day, until is the period to the last day of month 13 plus the leap day's day of month |
| PeriodExamples.FieldsAreOf | src/test/java/net/xmercerweiss/mdc/tests/ModernDigitalDateChronoPeriodTest.java:23-171 | the test's dates are the field constructor's results |
| PeriodExamples.Forward | src/test/java/net/xmercerweiss/mdc/tests/ModernDigitalDateChronoPeriodTest.java:174-213 | a row from an earlier start holds for until, plus and minus once its period is the period between |
| PeriodExamples.Backward | src/test/java/net/xmercerweiss/mdc/tests/ModernDigitalDateChronoPeriodTest.java:174-213 | a row from a later start holds once its period negates the reversed row |
| PeriodExamples.Reversed | src/test/java/net/xmercerweiss/mdc/tests/ModernDigitalDateChronoPeriodTest.java:174-213 | a reversed row holds when the forward row does with the negated period |
| PeriodExamples.Row1 | src/test/java/net/xmercerweiss/mdc/tests/ModernDigitalDateChronoPeriodTest.java:25-29 | for the valid dates of row 1, until gives the row's period, plus takes the start to the end and minus takes the end back |
| PeriodExamples.Row2 | src/test/java/net/xmercerweiss/mdc/tests/ModernDigitalDateChronoPeriodTest.java:32-36 | for the valid dates of row 2, until gives the row's period, plus takes the start to the end and minus takes the end back |
| PeriodExamples.Row3 | src/test/java/net/xmercerweiss/mdc/tests/ModernDigitalDateChronoPeriodTest.java:39-43 | for the valid dates of row 3, until gives the row's period, plus takes the start to the end and minus takes the end back |
| PeriodExamples.Row4 | src/test/java/net/xmercerweiss/mdc/tests/ModernDigitalDateChronoPeriodTest.java:46-50 | for the valid dates of row 4, until gives the row's period, plus takes the start to the end and minus takes the end back |
| PeriodExamples.Row5 | src/test/java/net/xmercerweiss/mdc/tests/ModernDigitalDateChronoPeriodTest.java:53-57 | for the valid dates of row 5, until gives the row's period, plus takes the start to the end and minus takes the end back |
| PeriodExamples.Row6 | src/test/java/net/xmercerweiss/mdc/tests/ModernDigitalDateChronoPeriodTest.java:60-64 | for the valid dates of row 6, until gives the row's period, plus takes the start to the end and minus takes the end back |
| PeriodExamples.Row7 | src/test/java/net/xmercerweiss/mdc/tests/ModernDigitalDateChronoPeriodTest.java:67-71 | for the valid dates of row 7, until gives the row's period, plus takes the start to the end and minus takes the end back |
| PeriodExamples.Row8 | src/test/java/net/xmercerweiss/mdc/tests/ModernDigitalDateChronoPeriodTest.java:74-78 | for the valid dates of row 8, until gives the row's period, plus takes the start to the end and minus takes the end back |
| PeriodExamples.Row9 | src/test/java/net/xmercerweiss/mdc/tests/ModernDigitalDateChronoPeriodTest.java:81-85 | for the valid dates of row 9, until gives the row's period, plus takes the start to the end and minus takes the end back |
| PeriodExamples.Row10 | src/test/java/net/xmercerweiss/mdc/tests/ModernDigitalDateChronoPeriodTest.java:88-92 | for the valid dates of row 10, until gives the row's period, plus takes the start to the end and minus takes the end back |
| PeriodExamples.Row11 | src/test/java/net/xmercerweiss/mdc/tests/ModernDigitalDateChronoPeriodTest.java:95-99 | for the valid dates of row 11, until gives the row's period, plus takes the start to the end and minus takes the end back |
| PeriodExamples.Row12 | src/test/java/net/xmercerweiss/mdc/tests/ModernDigitalDateChronoPeriodTest.java:102-106 | for the valid dates of row 12, until gives the row's period, plus takes the start to the end and minus takes the end back |
| PeriodExamples.Row13 | src/test/java/net/xmercerweiss/mdc/tests/ModernDigitalDateChronoPeriodTest.java:109-113 | for the valid dates of row 13, until gives the row's period, plus takes the start to the end and minus takes the end back |
| PeriodExamples.Row14 | src/test/java/net/xmercerweiss/mdc/tests/ModernDigitalDateChronoPeriodTest.java:116-120 | for the valid dates of row 14, until gives the row's period, plus takes the start to the end and minus takes the end back |
| PeriodExamples.Row15 | src/test/java/net/xmercerweiss/mdc/tests/ModernDigitalDateChronoPeriodTest.java:123-127 | for the valid dates of row 15, until gives the row's period, plus takes the start to the end and minus takes the end back |
| PeriodExamples.Row16 | src/test/java/net/xmercerweiss/mdc/tests/ModernDigitalDateChronoPeriodTest.java:130-134 | for the valid dates of row 16, until gives the row's period, plus takes the start to the end and minus takes the end back |
| PeriodExamples.Row17 | src/test/java/net/xmercerweiss/mdc/tests/ModernDigitalDateChronoPeriodTest.java:137-141 | for the valid dates of row 17, until gives the row's period, plus takes the start to the end and minus takes the end back |
| PeriodExamples.Row18 | src/test/java/net/xmercerweiss/mdc/tests/ModernDigitalDateChronoPeriodTest.java:144-148 | for the valid dates of row 18, until gives the row's period, plus takes the start to the end and minus takes the end back |
| PeriodExamples.Row19 | src/test/java/net/xmercerweiss/mdc/tests/ModernDigitalDateChronoPeriodTest.java:151-155 | for the valid dates of row 19, until gives the row's period, plus takes the start to the end and minus takes the end back |
| PeriodExamples.Row20 | src/test/java/net/xmercerweiss/mdc/tests/ModernDigitalDateChronoPeriodTest.java:158-162 | for the valid dates of row 20, until gives the row's period, plus takes the start to the end and minus takes the end back |
| PeriodExamples.Row21 | src/test/java/net/xmercerweiss/mdc/tests/ModernDigitalDateChronoPeriodTest.java:165-169 | for the valid dates of row 21, until gives the row's period, plus takes the start to the end and minus takes the end back |
| JavaText.Pieces | src/main/java/net/xmercerweiss/mdc/ModernDigitalDate.java:992-995 | at least one piece, no piece holds the separator, a string without one is its own piece |
| JavaText.JoinPieces | src/main/java/net/xmercerweiss/mdc/ModernDigitalDate.java:992-995 | joining the pieces with the separator gives the string back |
| JavaText.DropTrailingEmpty | src/main/java/net/xmercerweiss/mdc/ModernDigitalDate.java:992-995 | keeps a prefix ending in a non-empty piece and drops only empty pieces |
| JavaText.SplitPair | src/main/java/net/xmercerweiss/mdc/ModernDigitalDate.java:992-995 | two separator-free strings, the second non-empty, split back into the two |
| JavaText.SplitJoin | src/main/java/net/xmercerweiss/mdc/ModernDigitalDate.java:992-995 | split keeps a prefix of the pieces, drops only empty trailing pieces, and the pieces join back to the string |
| JavaText.Split | src/main/java/net/xmercerweiss/mdc/ModernDigitalDate.java:992-995 | String.split: a string without the separator is its own only piece; no piece holds the separator, and the last piece of a split string is not empty |
| JavaText.Digits | src/main/java/net/xmercerweiss/mdc/ModernDigitalDate.java:1038 | at least one decimal digit and no leading zero |
| JavaText.Decimal | src/main/java/net/xmercerweiss/mdc/ModernDigitalDate.java:1038 | String.valueOf: at least one character, with a leading minus exactly for negative values |
| JavaText.DecimalDigits | src/main/java/net/xmercerweiss/mdc/ModernDigitalDate.java:1038 | after its sign the decimal form is digits denoting the magnitude |
| JavaText.DigitsRoundTrip | src/main/java/net/xmercerweiss/mdc/ModernDigitalDate.java:1038 | the digits of a number denote that number |
| JavaText.ZeroPad | src/main/java/net/xmercerweiss/mdc/ModernDigitalDate.java:1040-1042 | the padded form is the width long when that is wider, the plain form otherwise, and starts with a minus exactly for negative values |
| JavaText.ParseInt | src/main/java/net/xmercerweiss/mdc/ModernDigitalDate.java:1034 | a parsed number lies in the int range |
| JavaText.ParseDecimal | src/main/java/net/xmercerweiss/mdc/ModernDigitalDate.java:1034-1038 | Integer.parseInt reads back String.valueOf for every int |
| JavaText.ParseZeroPad | src/main/java/net/xmercerweiss/mdc/ModernDigitalDate.java:1040-1042 | a zero-padded int parses back to itself |
| JavaText.PaddedValue | src/main/java/net/xmercerweiss/mdc/ModernDigitalDate.java:1036-1042 | padded and plain forms of every value parse alike |
| JavaText.PaddedOutOfRange | src/main/java/net/xmercerweiss/mdc/ModernDigitalDate.java:1034-1042 | neither form of a value outside the int range parses |
| JavaText.ZerosValue | src/main/java/net/xmercerweiss/mdc/ModernDigitalDate.java:1040-1042 | leading zeros do not change the value of a digit string |
| Formatting.FieldValue | src/main/java/net/xmercerweiss/mdc/ModernDigitalDate.java:1045-1055 | succeeds exactly for the stored fields, the quarter and the modified Julian day, with the stored value for stored fields; any other field is the format error |
| Formatting.FieldOfName | src/main/java/net/xmercerweiss/mdc/ModernDigitalDate.java:58-71 | the field-name table: every ChronoField it names is one the date stores, never the epoch day, so the formatter can read every named field (NamedFieldsReadable) |
| Formatting.NamedFieldsReadable | src/main/java/net/xmercerweiss/mdc/ModernDigitalDate.java:58-71 | every field the name table yields can be read |
| Formatting.ModifiedJulianDayShift | src/main/java/net/xmercerweiss/mdc/ModernDigitalDate.java:1051 | the modified Julian day counts the same days as the epoch day, 40587 at the epoch |
| Formatting.Lookup | src/main/java/net/xmercerweiss/mdc/ModernDigitalDate.java:1061 | an entry exactly for values within the table |
| Formatting.Prefix | src/main/java/net/xmercerweiss/mdc/ModernDigitalDate.java:1061 | substring(0, n) succeeds exactly for a present name at least n long, otherwise the format error |
| Formatting.MonthName | src/main/java/net/xmercerweiss/mdc/ModernDigitalDate.java:1057-1065 | full and short styles give the table entry, "null" outside months 0-13; the narrow name is the first letter of the full name and fails outside the table |
| Formatting.WeekdayName | src/main/java/net/xmercerweiss/mdc/ModernDigitalDate.java:1067-1076 | the full style gives the table entry, "null" outside weekdays 0-7; short and narrow are its first three and first characters and fail outside the table |
| Formatting.QuarterName | src/main/java/net/xmercerweiss/mdc/ModernDigitalDate.java:1078-1086 | full and short styles give the table entry, "null" outside quarters 0-4; the narrow style gives the number's decimal form |
| Formatting.ShortMonthNamesArePrefixes | src/main/java/net/xmercerweiss/mdc/ModernDigitalDate.java:73-105 | each short month name begins the full name of its month and has at least three letters |
| Formatting.WeekdayNamesLong | src/main/java/net/xmercerweiss/mdc/ModernDigitalDate.java:107-116 | every weekday name has at least four letters, so the short and narrow prefixes exist |
| Formatting.StyleName | src/main/java/net/xmercerweiss/mdc/ModernDigitalDate.java:1015 | the Java constant names of the six text styles |
| Formatting.StyleOfName | src/main/java/net/xmercerweiss/mdc/ModernDigitalDate.java:1015 | TextStyle.valueOf: a style is found only for its own constant name |
| Formatting.StyleOfNameInverts | src/main/java/net/xmercerweiss/mdc/ModernDigitalDate.java:1015 | valueOf inverts name() on every style |
| Formatting.SettingStyleReadsBack | src/main/java/net/xmercerweiss/mdc/ModernDigitalDate.java:1012-1017 | a style setting written as a constant name reads back as that style, and a setting naming no style gives FULL |
| Formatting.SettingWidthReadsBack | src/main/java/net/xmercerweiss/mdc/ModernDigitalDate.java:1031-1036 | a width setting written as an int's decimal form reads back as that int |
| Formatting.FormattedText | src/main/java/net/xmercerweiss/mdc/ModernDigitalDate.java:1009-1026 | the era's display name, the quarter's, month's and weekday's styled names in the style of the first setting; any other field is the format error |
| Formatting.NameTablesInjective | src/main/java/net/xmercerweiss/mdc/ModernDigitalDate.java:73-132 | distinct values have distinct names in every table |
| Formatting.SettingStyle | src/main/java/net/xmercerweiss/mdc/ModernDigitalDate.java:1012-1017 | the style named by the first setting, FULL when it is missing or names none |
| Formatting.SettingWidth | src/main/java/net/xmercerweiss/mdc/ModernDigitalDate.java:1031-1036 | the first setting as an int, -1 when it is missing or not an int |
| Formatting.FormattedValue | src/main/java/net/xmercerweiss/mdc/ModernDigitalDate.java:1028-1043 | succeeds exactly when the field can be read, otherwise the format error; the plain number for a width up to 0, otherwise the number zero-padded to the width, at least the width long and parsing as the plain number does |
| Formatting.RendererNamesExclusive | src/main/java/net/xmercerweiss/mdc/ModernDigitalDate.java:255-261 | no directive starts with two renderer names or with a renderer name and the ignored name, so the map's iteration order is irrelevant |
| Formatting.MatchingRenderer | src/main/java/net/xmercerweiss/mdc/ModernDigitalDate.java:984-991 | the renderer found starts the directive; none found means no renderer name does |
| Formatting.MatchingRendererExact | src/main/java/net/xmercerweiss/mdc/ModernDigitalDate.java:984-991 | a renderer is found exactly when its name starts the directive |
| Formatting.UnknownDirectiveFails | src/main/java/net/xmercerweiss/mdc/ModernDigitalDate.java:1002-1006 | a directive starting with no known name fails, one starting with the ignored name renders as nothing, and a rendered directive starts with a known name |
| Formatting.RenderArg | src/main/java/net/xmercerweiss/mdc/ModernDigitalDate.java:982-1007 | renderFormatArg: every failure of a directive is the format error |
| Formatting.RenderFormatArg | src/main/java/net/xmercerweiss/mdc/ModernDigitalDate.java:982-1007 | the loop over the renderers computes RenderArg |
| Formatting.DirectiveParts | src/main/java/net/xmercerweiss/mdc/ModernDigitalDate.java:990-995 | <renderer>(<inner>) is taken apart into its renderer and inner text |
| Formatting.DirectiveWithoutSettings | src/main/java/net/xmercerweiss/mdc/ModernDigitalDate.java:982-1001 | <renderer>(<field>) renders the named field with no settings, or fails for an unknown name |
| Formatting.DirectiveWithSetting | src/main/java/net/xmercerweiss/mdc/ModernDigitalDate.java:982-1001 | <renderer>(<field>,<setting>) renders the named field with that one setting |
| Formatting.FormatterStringToOutput | src/main/java/net/xmercerweiss/mdc/ModernDigitalDate.java:952-980 | the character loop computes Format |
| Formatting.Format | src/main/java/net/xmercerweiss/mdc/ModernDigitalDate.java:662-674 | a formatted date holds no quote or bracket, and every failure is the format error |
| Formatting.ScanAppend | src/main/java/net/xmercerweiss/mdc/ModernDigitalDate.java:958-979 | scanning a concatenation scans the second part from where the first stopped |
| Formatting.FailureEndsScan | src/main/java/net/xmercerweiss/mdc/ModernDigitalDate.java:662-674 | once a directive fails, the whole format fails with it |
| Formatting.ScanError | src/main/java/net/xmercerweiss/mdc/ModernDigitalDate.java:662-674 | a failing scan reports the format error |
| Formatting.StepError | src/main/java/net/xmercerweiss/mdc/ModernDigitalDate.java:959-978 | a failing character reports the format error |
| Formatting.IgnoredSection | src/main/java/net/xmercerweiss/mdc/ModernDigitalDate.java:959-964 | a bracketed section is dropped whatever it holds, even inside quotes |
| Formatting.IgnoredPrefix | src/main/java/net/xmercerweiss/mdc/ModernDigitalDate.java:959-964 | an open bracket ignores everything up to the closing one |
| Formatting.Quoted | src/main/java/net/xmercerweiss/mdc/ModernDigitalDate.java:965-968 | quoted text is copied verbatim without its quotes |
| Formatting.CopiedVerbatim | src/main/java/net/xmercerweiss/mdc/ModernDigitalDate.java:967-968 | inside quotes every ordinary character is output |
| Formatting.Collected | src/main/java/net/xmercerweiss/mdc/ModernDigitalDate.java:969-972 | outside quotes characters other than ')' go into the directive and output nothing |
| Formatting.Directive | src/main/java/net/xmercerweiss/mdc/ModernDigitalDate.java:969-977 | a ')' renders the collected directive, appends it and clears the buffer, or fails |
| Formatting.UnterminatedDirective | src/main/java/net/xmercerweiss/mdc/ModernDigitalDate.java:952-980 | a directive still open at the end of the pattern outputs nothing |
| Formatting.UnknownDirectiveScan | src/main/java/net/xmercerweiss/mdc/ModernDigitalDate.java:969-1006 | an unknown directive fails the scan when its ')' is read |
| Formatting.UnquotedTextFails | src/main/java/net/xmercerweiss/mdc/ModernDigitalDate.java:969-1006 | unquoted text joins the next directive, and the whole format fails |
| Formatting.SpacedDirective | src/main/java/net/xmercerweiss/mdc/ModernDigitalDate.java:984-1006 | a directive starting with a space starts with no known name |
| Formatting.NumbersAreText | src/main/java/net/xmercerweiss/mdc/ModernDigitalDate.java:1038-1042 | plain and padded numbers hold only digits and a sign |
| Formatting.MonthNameIsText | src/main/java/net/xmercerweiss/mdc/ModernDigitalDate.java:1057-1065 | month names and their prefixes hold only letters |
| Formatting.WeekdayNameIsText | src/main/java/net/xmercerweiss/mdc/ModernDigitalDate.java:1067-1076 | weekday names and their prefixes hold only letters |
| Formatting.QuarterNameIsText | src/main/java/net/xmercerweiss/mdc/ModernDigitalDate.java:1078-1086 | quarter names and numbers hold only text characters |
| Formatting.EraNameIsText | src/main/java/net/xmercerweiss/mdc/ModernDigitalEra.java:13-14 | era names hold only letters, spaces and signs |
| Formatting.RenderedIsText | src/main/java/net/xmercerweiss/mdc/ModernDigitalDate.java:982-1007 | what a directive renders holds no quote or bracket |
| Formatting.OutputHasNoControl | src/main/java/net/xmercerweiss/mdc/ModernDigitalDate.java:952-980 | the scan never outputs a quote or bracket |
| Formatting.ValidDateNames | src/main/java/net/xmercerweiss/mdc/ModernDigitalDate.java:73-132 | for a valid date the month, weekday, quarter and era always have a name, never "null" |
| Formatting.NamesInRange | src/main/java/net/xmercerweiss/mdc/ModernDigitalDate.java:73-132 | field values within the tables' ranges always have a name, never "null" |
| Formatting.ValidFieldRanges | src/main/java/net/xmercerweiss/mdc/ModernDigitalDate.java:845-852 | a valid date's month, weekday and quarter lie in the tables' ranges |
| Formatting.MonthNamePresent | src/main/java/net/xmercerweiss/mdc/ModernDigitalDate.java:73-105 | months 0-13 have a name in every style |
| Formatting.WeekdayNamePresent | src/main/java/net/xmercerweiss/mdc/ModernDigitalDate.java:107-116 | weekdays 0-7 have a name in every style |
| Formatting.QuarterNamePresent | src/main/java/net/xmercerweiss/mdc/ModernDigitalDate.java:118-132 | quarters 0-4 have a name in every style |

## Left out

- `now()` and the chronology's `dateNow` overloads read the system clock, so they are not modelled.
- `from(temporal)`, `until(temporal, unit)`, `plus(long, unit)` and `minus(long, unit)` depend on the chronology's unit conversions (`toInternalField`, `unitToPeriod`, `periodToUnit`). `CustomField`, `CustomUnit` and `ModernDigitalChronology.isSupported` are not part of this model, so these operations and `isSupported(TemporalUnit)` are left out.
- `isSupported(TemporalField)` is taken to accept exactly the ten stored fields (`Dates.IsStoredField`). The quarter and the modified Julian day are read through the explicit fallback of `getFormatFieldValue`.
- `format(DateTimeFormatter)` and `format(String)` both go through `DateTimeFormatter.toString()` and `ofPattern`, which are JDK code. The model starts from the pattern text that `toString()` yields (`Formatting.Format`). `toString()` of a date is left out for the same reason.
- `query`, `with(adjuster)`, `with(field, value)` and `atTime` are left out: they either throw unconditionally or hand back JDK objects.
- The AbstractChronology overrides that forward to the date class are not modelled separately: `date`, `dateYearDay`, `dateEpochDay`, `localDateTime`, `zonedDateTime`, `eras`, `period`, `epochSecond`, `getId`, `getCalendarType` and `getDisplayName`. Their date-producing cases are `Dates.Of`, `Dates.OfProleptic`, `Dates.OfYearDay` and `Dates.OfEpochDay`.
- The four-argument `long` overload of `epochDay` (ModernDigitalChronology.java:214-217) returns the constant 0 and is left out.
- `ordinalDayOfYear`, `ordinalWeekOfYear`, `ordinalDayOfWeek`, the three-argument `epochDay`, `prolepticToEraYear` and the chronology's constants are called by the date class and its tests but are not defined in ModernDigitalChronology.java. They are modelled from their call sites and from the test tables they must satisfy. `Chronology.EraEpochDayOf` models the era form.
- `equals`, `hashCode` and `Serializable` are left out. Datatype equality stands in for value equality of dates.
- `compareTo` returns -1 for two dates on the same epoch day from different chronologies. Only this calendar's dates are modelled, so that branch is absent from `Dates.CompareTo`.
- `get(field)` and the int getters (`getYear`, `getMonth`, ...) are `getLong` narrowed to int. `Dates.GetLong` models the value, and the narrowing is left out.
- Dates.OfEpochDay: does not model the `DateTimeException` that `LocalDate.ofEpochDay` (ModernDigitalDate.java:883) throws for an epoch day outside -365243219162 to 365241780471, the days of ISO years -999999999 to 999999999. The model gives a date for every epoch day. Within that range the `Math.toIntExact` calls of the constructor (lines 317-319) cannot overflow, so they throw nothing.
- Periods.DateAfter: does not model the same range exception, raised by the final `ofEpochDay` of `calculateDateAfter` (ModernDigitalDate.java:945-948). Periods.CalculateDateAfter, Periods.PlusPeriod and Periods.MinusPeriod likewise return a date for every epoch day reached.
- Chronology.IsLeapYear: does not model the `(int)` cast of `Math.abs(prolepticYear + 1970)` for years beyond the int range.
- Periods.PeriodBetween: does not model int overflow of the month count, which needs dates about 165 million years apart.
- Periods.CalculateDateAfter: does not model the `(int)` casts of the year and month, which wrap only for periods of more than 2^31 / 13 years.
- Java `int` and `long` parameters are unbounded integers in the model. Where a contract depends on the source's range it states it, as do `JavaInt.NarrowingCast` and the long bounds on years and epoch days.
- The model does not wrap every `int` operation. The overflows that are not modelled are listed on their own lines, such as the `Math.abs` case of `Chronology.ProlepticYear` below.
- Chronology.ProlepticYear: does not model `Math.abs(Integer.MIN_VALUE)` (ModernDigitalChronology.java:139-140). In Java that call returns -2^31, so SINCE_EPOCH with year-of-era -2^31 gives -2^31. The model gives +2^31, and its clause "not negative since the epoch" does not hold for Java at that one input.
- Formatting.RenderArg: strings are modelled as sequences of Unicode scalar values, not the UTF-16 code units of a Java `String`. Lengths and `substring` indices therefore differ whenever a directive holds a supplementary character. For example, `Value` followed by U+1F600 and `Year)` renders the year in the model, while Java's `substring` keeps the low surrogate, the field lookup misses, and `format` fails with the invalid-format error. Lone surrogates, which a Java `String` may hold, cannot be written in the model at all. The same applies to `Formatting.Format` and `JavaText.Split`.
- The null checks (`nullDateError`, `nullPeriodError`) are left out: the model has no null.
- `Integer.parseInt` is modelled for ASCII digits only. Non-ASCII Unicode digits, which the JDK also accepts, are left out.
- JavaText.ZeroPad: assumes a default format locale whose zero digit is '0'. `String.formatted` (ModernDigitalDate.java:1040-1042) formats with `Locale.getDefault(Locale.Category.FORMAT)`, and `java.util.Formatter` writes the padding and digits of `%0<w>d` with that locale's zero digit. So under a locale such as `th-TH-u-nu-thai`, Java pads the year 5 at width 4 with Thai digits where the model gives `0005`. Formatting.FormattedValue inherits this for widths above 0; the unpadded `String.valueOf` branch is ASCII in every locale.
- The iteration order of the renderer map and the ignored-name set is unspecified in Java. The model tries the renderers in a fixed order, and `Formatting.RendererNamesExclusive` shows that the order does not change the result.

## Findings

| source | as written | input that shows it | evidently intended | confidence | as-written member | corrected member |
|---|---|---|---|---|---|---|
| src/main/java/net/xmercerweiss/mdc/ModernDigitalDate.java:321 | the epoch-day constructor sets the era with `eraOf(prolepticYear)`, which is BEFORE_EPOCH for year 0 | `ofEpochDay(0)`: era value 0, while `of(BEFORE_EPOCH, 0, 1, 1)`, the same day, has SINCE_EPOCH (value 1) | year-of-era 0 is SINCE_EPOCH in both constructors, as in the field constructor at line 268 | not executed | Dates.EpochDayZeroEraAsWritten | Dates.FromEpochDayValid |
| src/main/java/net/xmercerweiss/mdc/ModernDigitalDate.java:212-213 | `ofYearDay` splits the day of year as `1 + dayOfYear / 28` and `dayOfYear % 28` | `ofYearDay(y, 28)` gives month 2, day 0 and throws; so does every multiple of 28. `ofYearDay(y, 365)` gives month 14. | the split of `epochDayToFields` (lines 886-889): `1 + (dayOfYear - 1) / 28`, `1 + (dayOfYear - 1) % 28`, and month 0 after day 364 | not executed | Dates.OfYearDayAsWrittenRejects | Dates.OfYearDay |
| src/main/java/net/xmercerweiss/mdc/ModernDigitalDate.java:713 | `compareTo` returns the difference of the epoch days cast to `int` | two dates 2^31 days apart: the later one compares as smaller | the sign of the difference, e.g. through `MathUtils.narrowLong` | not executed | Dates.CompareToAsWrittenWraps | Dates.CompareTo |
