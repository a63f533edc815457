/** A date of the Modern Digital Calendar (ModernDigitalDate.java): its two constructors,
    from (era, year-of-era, month, day) and from an epoch day, the validation of the first,
    and the read-only queries on a date. */
module Dates {
  import opened JavaInt
  import opened Eras
  import opened Outcomes
  import opened Chronology
  import opened MathUtils
  import IsoCalendar

  /** The stored fields of a date (the era enum and the FIELDS map of the source). */
  datatype Date = Date(
    era: Eras.Era,
    yearOfEra: int,
    year: int,               // proleptic year: years since 1970 ISO, negative before it
    monthOfYear: int,        // 0 for the leap days
    alignedWeekOfYear: int,  // 0 for the leap days
    alignedWeekOfMonth: int, // 0 for the leap days
    dayOfYear: int,
    dayOfMonth: int,
    dayOfWeek: int,          // ISO 8601 numbering, Monday 1; 0 for the leap days
    epochDay: int)

  /** `validateFields`: the checks the field constructor makes before it builds a date. */
  function ValidateFields(era: EraArg, yearOfEra: int, month: int, day: int): (r: Outcome)
    ensures r.Pass? <==>
      && era.Mdc? && 0 <= yearOfEra <= LongMax && IsMonthDay(month, day)
      && (month == 0 && day == 2 ==> IsLeapYear(ProlepticYear(era, yearOfEra).value))
    ensures r.Fail? ==> r.error == (if era.Mdc? then InvalidDate else InvalidEra)
  {
    var dayRange := Range(DayOfMonth).value;
    if !era.Mdc? then Fail(InvalidEra)
    else if !IsValidValue(Range(YearOfEra).value, yearOfEra) then Fail(InvalidDate)
    else if !IsValidValue(Range(MonthOfYear).value, month) then Fail(InvalidDate)
    else if !IsValidValue(dayRange, day) then Fail(InvalidDate)
    else if (month == 0 && day > dayRange.smallestMaximum)
         || (month == 0 && day > 1 && !IsLeapYear(ProlepticYear(era, yearOfEra).value))
    then Fail(InvalidDate)
    else Pass
  }

  /** The body of the field constructor, once the fields are validated: a year-of-era of 0
      is always SINCE_EPOCH, and every other field is derived from the four inputs. */
  function Build(era: Eras.Era, yearOfEra: int, month: int, day: int): (d: Date)
    requires yearOfEra >= 0 && IsMonthDay(month, day)
    ensures d.yearOfEra == yearOfEra && d.monthOfYear == month && d.dayOfMonth == day
    ensures d.era == (if yearOfEra == 0 then SinceEpoch else era)
    ensures d.year == ProlepticYear(Mdc(era), yearOfEra).value
  {
    var eraEnum := if yearOfEra == 0 then SinceEpoch else era;
    var weekOfYear := OrdinalWeekOfMonthDay(month, day).value;
    Date(
      eraEnum,
      yearOfEra,
      ProlepticYear(Mdc(eraEnum), yearOfEra).value,
      month,
      weekOfYear,
      Rem(weekOfYear - 1, 4) + 1,
      OrdinalDayOfYear(month, day).value,
      day,
      OrdinalDayOfWeek(month, day).value,
      EraEpochDayOf(Mdc(eraEnum), yearOfEra, month, day).value)
  }

  /** `of(era, yearOfEra, month, day)`: the field constructor. */
  function Of(era: EraArg, yearOfEra: int, month: int, day: int): (r: Result<Date>)
    ensures r.Ok? <==> ValidateFields(era, yearOfEra, month, day).Pass?
    ensures r.Err? ==> r.error == ValidateFields(era, yearOfEra, month, day).error
    ensures r.Ok? ==> Valid(r.value)
    ensures r.Ok? ==> && r.value.yearOfEra == yearOfEra && r.value.monthOfYear == month
                      && r.value.dayOfMonth == day
                      && r.value.era == (if yearOfEra == 0 then SinceEpoch else era.era)
                      && r.value.year == ProlepticYear(era, yearOfEra).value
  {
    match ValidateFields(era, yearOfEra, month, day)
    case Fail(e) => Err(e)
    case Pass => Ok(Build(era.era, yearOfEra, month, day))
  }

  /** `of(prolepticYear, month, day)`: era and year-of-era from a proleptic year. */
  function OfProleptic(prolepticYear: int, month: int, day: int): (r: Result<Date>)
    ensures r.Ok? <==> prolepticYear <= LongMax && -prolepticYear <= LongMax && IsMonthDay(month, day)
                       && (month == 0 && day == 2 ==> IsLeapYear(prolepticYear))
    ensures r.Ok? ==> r.value.year == prolepticYear && r.value.monthOfYear == month
                      && r.value.dayOfMonth == day
  {
    Of(Mdc(EraOf(prolepticYear)), ProlepticToEraYear(prolepticYear), month, day)
  }

  /** The dates of `of(prolepticYear, month, day)` are valid. */
  lemma OfProlepticValid(prolepticYear: int, month: int, day: int)
    requires OfProleptic(prolepticYear, month, day).Ok?
    ensures Valid(OfProleptic(prolepticYear, month, day).value)
  {
  }

  /** A valid date is the field constructor's result for its own year, month and day. */
  lemma OfProlepticOfValid(d: Date)
    requires Valid(d)
    ensures OfProleptic(d.year, d.monthOfYear, d.dayOfMonth) == Ok(d)
  {
    ValidDateFacts(d);
    OfProlepticValid(d.year, d.monthOfYear, d.dayOfMonth);
    var r := OfProleptic(d.year, d.monthOfYear, d.dayOfMonth).value;
    ValidDateFacts(r);
    EpochDayDeterminesDate(d, r);
  }

  /** A date is valid when it is the field constructor's result for its own era, year-of-era,
      month and day. */
  predicate Valid(d: Date) {
    && ValidateFields(Mdc(d.era), d.yearOfEra, d.monthOfYear, d.dayOfMonth).Pass?
    && d == Build(d.era, d.yearOfEra, d.monthOfYear, d.dayOfMonth)
  }

  /** The month an ordinal day falls in, as `epochDayToFields` computes it. */
  function MonthOfDayOfYear(dayOfYear: int): int {
    if dayOfYear > NonLeapDaysPerYear then 0 else 1 + Quot(dayOfYear - 1, 28)
  }

  /** The day of that month, as `epochDayToFields` computes it. */
  function DayOfMonthOfDayOfYear(dayOfYear: int): int {
    if MonthOfDayOfYear(dayOfYear) == 0 then dayOfYear - NonLeapDaysPerYear
    else 1 + Rem(dayOfYear - 1, 28)
  }

  /** Splitting an ordinal day gives the (month, day) pair that numbers it. */
  lemma SplitDayOfYear(dayOfYear: int)
    requires 1 <= dayOfYear <= DaysPerLeapYear
    ensures OrdinalDayOfYear(MonthOfDayOfYear(dayOfYear), DayOfMonthOfDayOfYear(dayOfYear)) == Ok(dayOfYear)
  {
    if dayOfYear <= NonLeapDaysPerYear {
      var q, r := (dayOfYear - 1) / 28, (dayOfYear - 1) % 28;
      assert dayOfYear - 1 == 28 * q + r;
    }
  }

  /** Numbering a (month, day) pair and splitting the number gives the pair back. */
  lemma SplitOrdinalDayOfYear(month: int, day: int)
    requires IsMonthDay(month, day)
    ensures MonthOfDayOfYear(OrdinalDayOfYear(month, day).value) == month
    ensures DayOfMonthOfDayOfYear(OrdinalDayOfYear(month, day).value) == day
  {
  }

  /** The fields the epoch-day constructor adds to those of `epochDayToFields`. */
  function CompleteFields(era: Eras.Era, prolepticYear: int, dayOfYear: int, month: int, day: int,
                          epochDay: int): Date
    requires IsMonthDay(month, day)
  {
    var weekOfYear := OrdinalWeekOfMonthDay(month, day).value;
    Date(
      era,
      ProlepticToEraYear(prolepticYear),
      prolepticYear,
      month,
      weekOfYear,
      Rem(weekOfYear - 1, 4) + 1,
      dayOfYear,
      day,
      OrdinalDayOfWeek(month, day).value,
      epochDay)
  }

  /** The epoch-day constructor as written: the era is `eraOf(prolepticYear)`, which is
      BEFORE_EPOCH for year 0. */
  function FromEpochDayAsWritten(epochDay: int): (d: Date)
    ensures d.epochDay == epochDay
  {
    var isoDate := IsoCalendar.OfEpochDay(epochDay);
    var prolepticYear := isoDate.year - IsoYearOffset;
    var dayOfYear := isoDate.dayOfYear;
    var month := MonthOfDayOfYear(dayOfYear);
    var day := DayOfMonthOfDayOfYear(dayOfYear);
    SplitDayOfYear(dayOfYear);
    CompleteFields(EraOf(prolepticYear), prolepticYear, dayOfYear, month, day, epochDay)
  }

  /** The epoch-day constructor with the field constructor's era rule: year 0 is SINCE_EPOCH. */
  function FromEpochDay(epochDay: int): (d: Date)
    ensures d.epochDay == epochDay
  {
    var d := FromEpochDayAsWritten(epochDay);
    d.(era := if d.yearOfEra == 0 then SinceEpoch else d.era)
  }

  /** Epoch day 0 is the first day of year 0 but, as written, of era BEFORE_EPOCH (value 0),
      where the field constructor gives SINCE_EPOCH for the same day. */
  lemma EpochDayZeroEraAsWritten()
    ensures FromEpochDayAsWritten(0).year == 0 && FromEpochDayAsWritten(0).yearOfEra == 0
    ensures Value(FromEpochDayAsWritten(0).era) == 0
    ensures Of(Mdc(BeforeEpoch), 0, 1, 1).Ok? && Value(Of(Mdc(BeforeEpoch), 0, 1, 1).value.era) == 1
    ensures !Valid(FromEpochDayAsWritten(0))
  {
    IsoCalendar.OfEpochDayUnique(0, 1970, 1);
  }

  /** A date whose derived fields are those of its era, year-of-era, month and day is the
      field constructor's result for them. */
  lemma BuildOfDerived(d: Date)
    requires d.yearOfEra >= 0 && IsMonthDay(d.monthOfYear, d.dayOfMonth)
    requires d.yearOfEra == 0 ==> d.era == SinceEpoch
    requires ProlepticYear(Mdc(d.era), d.yearOfEra) == Ok(d.year)
    requires d.alignedWeekOfYear == OrdinalWeekOfMonthDay(d.monthOfYear, d.dayOfMonth).value
    requires d.alignedWeekOfMonth == Rem(d.alignedWeekOfYear - 1, 4) + 1
    requires d.dayOfYear == OrdinalDayOfYear(d.monthOfYear, d.dayOfMonth).value
    requires d.dayOfWeek == OrdinalDayOfWeek(d.monthOfYear, d.dayOfMonth).value
    requires d.epochDay == FirstEpochDay(d.year) + d.dayOfYear - 1
    ensures d == Build(d.era, d.yearOfEra, d.monthOfYear, d.dayOfMonth)
  {
  }

  /** Every epoch day a `long` holds converts to a valid date that keeps that epoch day. */
  lemma FromEpochDayValid(epochDay: int)
    requires LongMin <= epochDay <= LongMax
    ensures Valid(FromEpochDay(epochDay)) && FromEpochDay(epochDay).epochDay == epochDay
  {
    var isoDate := IsoCalendar.OfEpochDay(epochDay);
    var y := isoDate.year - IsoYearOffset;
    var doy := isoDate.dayOfYear;
    IsoCalendar.OfEpochDayYearBounds(epochDay);
    assert -LongMax <= y <= LongMax;
    var m, dd := MonthOfDayOfYear(doy), DayOfMonthOfDayOfYear(doy);
    SplitDayOfYear(doy);
    FromEpochDayMatches(epochDay, y, doy, m, dd);
    var era := if ProlepticToEraYear(y) == 0 then SinceEpoch else EraOf(y);
    CompletedFieldsValid(era, y, doy, m, dd, epochDay);
  }

  /** The completed fields of a day of a year form a valid date. */
  lemma CompletedFieldsValid(era: Eras.Era, y: int, doy: int, m: int, dd: int, epochDay: int)
    requires -LongMax <= y <= LongMax && 1 <= doy <= LengthOfYear(y)
    requires FirstEpochDay(y) + doy - 1 == epochDay
    requires OrdinalDayOfYear(m, dd) == Ok(doy)
    requires era == if ProlepticToEraYear(y) == 0 then SinceEpoch else EraOf(y)
    ensures IsMonthDay(m, dd) && Valid(CompleteFields(era, y, doy, m, dd, epochDay))
  {
    var d := CompleteFields(era, y, doy, m, dd, epochDay);
    ProlepticYearRoundTrip(y, era, d.yearOfEra);
    assert ProlepticYear(Mdc(d.era), d.yearOfEra) == Ok(y);
    assert m == 0 && dd == 2 ==> IsLeapYear(y);
    BuildOfDerived(d);
  }

  /** Converting a valid date's epoch day gives the date back: the field constructor and the
      epoch-day constructor agree. */
  lemma FromEpochDayOfValid(d: Date)
    requires Valid(d)
    ensures FromEpochDay(d.epochDay) == d
  {
    var doy := d.dayOfYear;
    assert 1 <= doy <= LengthOfYear(d.year);
    assert IsoCalendar.YearStart(d.year + 1970) + doy - 1 == d.epochDay;
    IsoCalendar.OfEpochDayUnique(d.epochDay, d.year + 1970, doy);
    SplitOrdinalDayOfYear(d.monthOfYear, d.dayOfMonth);
  }

  /** What validity says about the stored fields: the year fits a `long`, and the day of the
      year and the epoch day follow from year, month and day. */
  lemma ValidDateFacts(d: Date)
    requires Valid(d)
    ensures IsMonthDay(d.monthOfYear, d.dayOfMonth) && -LongMax <= d.year <= LongMax
    ensures d.monthOfYear == 0 && d.dayOfMonth == 2 ==> IsLeapYear(d.year)
    ensures d.dayOfYear == if d.monthOfYear == 0 then NonLeapDaysPerYear + d.dayOfMonth
                           else DaysPerMonth * (d.monthOfYear - 1) + d.dayOfMonth
    ensures d.epochDay == FirstEpochDay(d.year) + d.dayOfYear - 1
  {
    ProlepticYearRoundTrip(d.year, d.era, d.yearOfEra);
  }

  /** Two valid dates on the same epoch day are the same date. */
  lemma EpochDayDeterminesDate(a: Date, b: Date)
    requires Valid(a) && Valid(b)
    ensures a.epochDay == b.epochDay <==> a == b
  {
    if a.epochDay == b.epochDay {
      FromEpochDayOfValid(a);
      FromEpochDayOfValid(b);
    }
  }

  /** `epochDayToFields`: the fields an epoch day fixes through the ISO calendar. The month
      and day it puts are the pair that numbers the day of the year. */
  method EpochDayToFields(epochDay: int) returns (fields: map<ChronoField, int>)
    ensures fields.Keys == {EpochDay, Year, DayOfYear, MonthOfYear, DayOfMonth}
    ensures fields[EpochDay] == epochDay
    ensures 1 <= fields[DayOfYear] <= LengthOfYear(fields[Year])
    ensures FirstEpochDay(fields[Year]) + fields[DayOfYear] - 1 == epochDay
    ensures OrdinalDayOfYear(fields[MonthOfYear], fields[DayOfMonth]) == Ok(fields[DayOfYear])
  {
    fields := map[];
    var isoDate := IsoCalendar.OfEpochDay(epochDay);
    var prolepticYear := isoDate.year - IsoYearOffset;
    var dayOfYear := isoDate.dayOfYear;
    var monthOfYear := if dayOfYear > NonLeapDaysPerYear then 0
                       else 1 + Quot(dayOfYear - 1, 28);
    var dayOfMonth := if monthOfYear == 0 then dayOfYear - NonLeapDaysPerYear
                      else 1 + Rem(dayOfYear - 1, 28);
    SplitDayOfYear(dayOfYear);
    fields := fields[EpochDay := epochDay];
    fields := fields[Year := prolepticYear];
    fields := fields[DayOfYear := dayOfYear];
    fields := fields[MonthOfYear := monthOfYear];
    fields := fields[DayOfMonth := dayOfMonth];
  }

  /** `ofEpochDay(epochDay)`: the epoch-day constructor, completing the fields of
      `epochDayToFields`. The era follows the field constructor's rule for year 0. */
  method OfEpochDay(epochDay: int) returns (date: Date)
    ensures date == FromEpochDay(epochDay) && date.epochDay == epochDay
    ensures LongMin <= epochDay <= LongMax ==> Valid(date)
  {
    var calculatedFields := EpochDayToFields(epochDay);
    var prolepticYear := calculatedFields[Year];
    var dayOfYear := calculatedFields[DayOfYear];
    var monthOfYear := calculatedFields[MonthOfYear];
    var dayOfMonth := calculatedFields[DayOfMonth];
    var weekOfYear := OrdinalWeekOfMonthDay(monthOfYear, dayOfMonth).value;
    var eraEnum := EraOf(prolepticYear);
    if ProlepticToEraYear(prolepticYear) == 0 {
      eraEnum := SinceEpoch;
    }
    calculatedFields := calculatedFields[Era := Value(eraEnum)];
    calculatedFields := calculatedFields[YearOfEra := ProlepticToEraYear(prolepticYear)];
    calculatedFields := calculatedFields[AlignedWeekOfYear := weekOfYear];
    calculatedFields := calculatedFields[AlignedWeekOfMonth := Rem(weekOfYear - 1, 4) + 1];
    calculatedFields := calculatedFields[DayOfWeek := OrdinalDayOfWeek(monthOfYear, dayOfMonth).value];
    date := Date(
      eraEnum,
      calculatedFields[YearOfEra],
      calculatedFields[Year],
      calculatedFields[MonthOfYear],
      calculatedFields[AlignedWeekOfYear],
      calculatedFields[AlignedWeekOfMonth],
      calculatedFields[DayOfYear],
      calculatedFields[DayOfMonth],
      calculatedFields[DayOfWeek],
      calculatedFields[EpochDay]);
    assert date == CompleteFields(eraEnum, prolepticYear, dayOfYear, monthOfYear, dayOfMonth, epochDay);
    FromEpochDayMatches(epochDay, prolepticYear, dayOfYear, monthOfYear, dayOfMonth);
    if LongMin <= epochDay <= LongMax {
      FromEpochDayValid(epochDay);
    }
  }

  /** The fields `epochDayToFields` puts are those of FromEpochDay. */
  lemma FromEpochDayMatches(epochDay: int, prolepticYear: int, dayOfYear: int, month: int, day: int)
    requires 1 <= dayOfYear <= LengthOfYear(prolepticYear)
    requires FirstEpochDay(prolepticYear) + dayOfYear - 1 == epochDay
    requires OrdinalDayOfYear(month, day) == Ok(dayOfYear)
    ensures IsMonthDay(month, day)
    ensures FromEpochDay(epochDay) == CompleteFields(
      if ProlepticToEraYear(prolepticYear) == 0 then SinceEpoch else EraOf(prolepticYear),
      prolepticYear, dayOfYear, month, day, epochDay)
  {
    IsoCalendar.OfEpochDayUnique(epochDay, prolepticYear + IsoYearOffset, dayOfYear);
    SplitOrdinalDayOfYear(month, day);
  }

  /** `ofYearDay(prolepticYear, dayOfYear)` as written: the month is `1 + dayOfYear / 28` and
      the day `dayOfYear % 28`, without the `- 1` that `epochDayToFields` applies. */
  function OfYearDayAsWritten(prolepticYear: int, dayOfYear: int): (r: Result<Date>)
    ensures r.Ok? ==> r.value.year == prolepticYear
  {
    OfProleptic(prolepticYear, 1 + Quot(dayOfYear, 28), Rem(dayOfYear, 28))
  }

  /** As written, every day of the year that is a multiple of 28 (the last day of a month)
      and the first leap day are rejected, although they are days of every year. */
  lemma OfYearDayAsWrittenRejects(prolepticYear: int, k: int)
    requires -LongMax <= prolepticYear <= LongMax && 1 <= k <= 13
    ensures OfYearDayAsWritten(prolepticYear, 28 * k).Err?
    ensures OfYearDay(prolepticYear, 28 * k).Ok?
    ensures OfYearDayAsWritten(prolepticYear, 365).Err?
    ensures OfYearDay(prolepticYear, 365).Ok?
  {
    assert Rem(28 * k, 28) == 0;
    assert Quot(365, 28) == 13;
  }

  /** `ofYearDay(prolepticYear, dayOfYear)` with the split of `epochDayToFields`. */
  function OfYearDay(prolepticYear: int, dayOfYear: int): (r: Result<Date>)
    ensures r.Ok? <==> && -LongMax <= prolepticYear <= LongMax
                       && 1 <= dayOfYear <= LengthOfYear(prolepticYear)
    ensures r.Ok? ==> r.value.year == prolepticYear && r.value.dayOfYear == dayOfYear
  {
    var month := MonthOfDayOfYear(dayOfYear);
    var day := DayOfMonthOfDayOfYear(dayOfYear);
    if 1 <= dayOfYear <= DaysPerLeapYear then
      SplitDayOfYear(dayOfYear);
      OfProleptic(prolepticYear, month, day)
    else
      assert !IsMonthDay(month, day) by { SplitOutOfRange(dayOfYear); }
      OfProleptic(prolepticYear, month, day)
  }

  /** Ordinal days outside 1 to 366 split into no valid (month, day) pair. */
  lemma SplitOutOfRange(dayOfYear: int)
    requires dayOfYear < 1 || dayOfYear > DaysPerLeapYear
    ensures !IsMonthDay(MonthOfDayOfYear(dayOfYear), DayOfMonthOfDayOfYear(dayOfYear))
  {
    if dayOfYear < 1 {
      var a := dayOfYear - 1;
      QuotRem(a, 28);
      var q, r := Quot(a, 28), Rem(a, 28);
      if q == -1 {
        assert DayOfMonthOfDayOfYear(dayOfYear) == dayOfYear - NonLeapDaysPerYear;
      } else if q == 0 {
        assert r == a && r <= -1;
      }
    }
  }

  /** `isLeapDay()`: leap days are month 0, the days outside every week. */
  predicate IsLeapDay(d: Date) {
    d.monthOfYear == 0
  }

  /** On a valid date the leap days are exactly the dates outside every week and after the
      364 days of the months. */
  lemma LeapDayOfValid(d: Date)
    requires Valid(d)
    ensures IsLeapDay(d) <==> d.alignedWeekOfYear == 0
    ensures IsLeapDay(d) <==> d.dayOfWeek == 0
    ensures IsLeapDay(d) <==> d.dayOfYear > NonLeapDaysPerYear
  {
    ValidDateFacts(d);
    DerivedFieldsOfValid(d);
  }

  /** `isLeapYear()` */
  function IsLeapYearOf(d: Date): (r: bool)
    ensures r == IsoCalendar.IsLeap(d.year + IsoYearOffset)
  {
    IsLeapYear(d.year)
  }

  /** `lengthOfYear()` */
  function LengthOfYearOf(d: Date): (n: int)
    ensures n == LengthOfYear(d.year)
    ensures Valid(d) ==> d.dayOfYear <= n
  {
    if IsLeapYearOf(d) then DaysPerLeapYear else DaysPerCommonYear
  }

  /** `lengthOfMonth()`: 28, or the number of leap days of the year for month 0. */
  function LengthOfMonthOf(d: Date): (n: int)
    ensures d.monthOfYear != 0 ==> n == DaysPerMonth
    ensures d.monthOfYear == 0 ==> n == (if IsLeapYearOf(d) then 2 else 1)
    ensures Valid(d) ==> 1 <= d.dayOfMonth <= n
  {
    if d.monthOfYear == 0 then LengthOfYearOf(d) - NonLeapDaysPerYear else DaysPerMonth
  }

  /** `getQuarter()`: quarters of 13 weeks, and quarter 0 for the leap days. */
  function GetQuarter(d: Date): (q: int)
    ensures Valid(d) ==> 0 <= q <= 4 && (q == 0 <==> IsLeapDay(d))
    ensures Valid(d) && q != 0 ==>
      13 * (q - 1) < d.alignedWeekOfYear <= 13 * q && 3 * (q - 1) < d.monthOfYear <= 3 * q + 1
  {
    if d.alignedWeekOfYear == 0 then 0 else Quot(d.alignedWeekOfYear - 1, 13) + 1
  }

  /** `isAfter`, `isEqual` and `isBefore` compare epoch days. */
  predicate IsAfter(a: Date, b: Date) { a.epochDay > b.epochDay }
  predicate IsBefore(a: Date, b: Date) { a.epochDay < b.epochDay }
  predicate IsEqual(a: Date, b: Date) { a.epochDay == b.epochDay }

  /** The epoch-day order of valid dates is the order of their (year, day-of-year) pairs. */
  lemma BeforeIsFieldOrder(a: Date, b: Date)
    requires Valid(a) && Valid(b)
    ensures IsBefore(a, b) <==> a.year < b.year || (a.year == b.year && a.dayOfYear < b.dayOfYear)
  {
    FieldOrderIsBefore(a, b);
    FieldOrderIsBefore(b, a);
  }

  lemma FieldOrderIsBefore(a: Date, b: Date)
    requires Valid(a) && Valid(b)
    ensures a.year < b.year || (a.year == b.year && a.dayOfYear < b.dayOfYear) ==> IsBefore(a, b)
  {
    ValidDateFacts(a);
    ValidDateFacts(b);
    if a.year < b.year {
      assert 1 <= a.dayOfYear <= LengthOfYear(a.year);
      EarlierYearFirst(a.year, a.dayOfYear, b.year, b.dayOfYear);
    }
  }

  /** Any day of an earlier year comes before any day of a later one. */
  lemma EarlierYearFirst(ya: int, da: int, yb: int, db: int)
    requires ya < yb && 1 <= da <= LengthOfYear(ya) && 1 <= db
    ensures FirstEpochDay(ya) + da - 1 < FirstEpochDay(yb) + db - 1
  {
    IsoCalendar.YearStartMonotone(ya + 1970, yb + 1970);
    assert FirstEpochDay(ya + 1) <= FirstEpochDay(yb);
    FirstEpochDayStep(ya);
  }

  /** Exactly one of the three comparisons holds, and for valid dates `isEqual` is equality. */
  lemma CompareExactlyOne(a: Date, b: Date)
    requires Valid(a) && Valid(b)
    ensures IsBefore(a, b) != (IsEqual(a, b) || IsAfter(a, b))
    ensures !(IsEqual(a, b) && IsAfter(a, b))
    ensures IsBefore(a, b) <==> IsAfter(b, a)
    ensures IsEqual(a, b) <==> a == b
  {
    EpochDayDeterminesDate(a, b);
  }

  /** The fields a date stores, which `isSupported` and `getLong` accept. */
  predicate IsStoredField(f: ChronoField) {
    f in {Era, YearOfEra, Year, MonthOfYear, AlignedWeekOfYear, AlignedWeekOfMonth, DayOfYear,
          DayOfMonth, DayOfWeek, EpochDay}
  }

  /** `getLong(field)`: the stored value of a supported field. */
  function GetLong(d: Date, f: ChronoField): (r: Result<int>)
    ensures r.Ok? <==> IsStoredField(f)
    ensures r.Err? ==> r.error == UnsupportedField
    ensures r.Ok? ==> IsDateField(f)
    ensures f == Era ==> r == Ok(Value(d.era))
    ensures f == EpochDay ==> r == Ok(d.epochDay)
  {
    match f
    case Era => Ok(Value(d.era))
    case YearOfEra => Ok(d.yearOfEra)
    case Year => Ok(d.year)
    case MonthOfYear => Ok(d.monthOfYear)
    case AlignedWeekOfYear => Ok(d.alignedWeekOfYear)
    case AlignedWeekOfMonth => Ok(d.alignedWeekOfMonth)
    case DayOfYear => Ok(d.dayOfYear)
    case DayOfMonth => Ok(d.dayOfMonth)
    case DayOfWeek => Ok(d.dayOfWeek)
    case EpochDay => Ok(d.epochDay)
    case _ => Err(UnsupportedField)
  }

  /** Every stored field of a valid date lies in the range the chronology gives for it (the
      epoch day stays within a `long` only as far as the year does). */
  lemma FieldsWithinRange(d: Date, f: ChronoField)
    requires Valid(d) && IsStoredField(f) && f != EpochDay
    ensures IsValidValue(Range(f).value, GetLong(d, f).value)
  {
  }

  /** The derived fields of a valid date: months start on a Monday and hold four whole
      weeks, and the leap days are in no week. */
  lemma DerivedFieldsOfValid(d: Date)
    requires Valid(d)
    ensures d.monthOfYear != 0 ==> d.alignedWeekOfMonth == 1 + (d.dayOfMonth - 1) / 7
    ensures d.monthOfYear != 0 ==> d.alignedWeekOfYear == 4 * (d.monthOfYear - 1) + d.alignedWeekOfMonth
    ensures d.monthOfYear != 0 ==> d.dayOfWeek == 1 + (d.dayOfMonth - 1) % 7
    ensures d.monthOfYear == 0 ==> d.alignedWeekOfMonth == 0 && d.alignedWeekOfYear == 0 && d.dayOfWeek == 0
  {
    if d.monthOfYear != 0 {
      WeeksOfMonthDay(d.monthOfYear, d.dayOfMonth);
    }
  }

  lemma WeeksOfMonthDay(month: int, day: int)
    requires IsMonthDay(month, day) && month != 0
    ensures var w := OrdinalWeekOfMonthDay(month, day).value;
      && w == 4 * (month - 1) + 1 + (day - 1) / 7
      && Rem(w - 1, 4) + 1 == 1 + (day - 1) / 7
      && OrdinalDayOfWeek(month, day).value == 1 + (day - 1) % 7
  {
    var k, j := month - 1, day - 1;
    assert OrdinalDayOfYear(month, day).value - 1 == 28 * k + j;
    assert (28 * k + j) / 7 == 4 * k + j / 7;
    assert (28 * k + j) % 7 == j % 7;
    assert (4 * k + j / 7) % 4 == j / 7;
  }

  /** `compareTo` as written: the difference of the epoch days cast to `int`, which wraps
      around once the dates are 2^31 days or more apart. */
  function CompareToAsWritten(a: Date, b: Date): (r: int)
    ensures IntMin <= r <= IntMax
    ensures IntMin <= a.epochDay - b.epochDay <= IntMax ==>
      (r < 0 <==> IsBefore(a, b)) && (r == 0 <==> IsEqual(a, b)) && (r > 0 <==> IsAfter(a, b))
  {
    if a.epochDay == b.epochDay then 0 else NarrowingCast(a.epochDay - b.epochDay)
  }

  /** Two dates 2^31 days apart (the later one in the year 5879610 when the earlier is the
      epoch) compare the wrong way round as written. */
  lemma CompareToAsWrittenWraps(a: Date, b: Date)
    requires a.epochDay == b.epochDay + 0x8000_0000
    ensures IsAfter(a, b) && CompareToAsWritten(a, b) < 0
  {
  }

  /** `compareTo` with the difference clamped to `int` by `narrowLong`, so that its sign is
      that of the difference. */
  function CompareTo(a: Date, b: Date): (r: int)
    ensures IntMin <= r <= IntMax
    ensures r < 0 <==> IsBefore(a, b)
    ensures r == 0 <==> IsEqual(a, b)
    ensures r > 0 <==> IsAfter(a, b)
    ensures IntMin <= a.epochDay - b.epochDay <= IntMax ==> r == CompareToAsWritten(a, b)
  {
    if a.epochDay == b.epochDay then 0 else NarrowLong(a.epochDay - b.epochDay)
  }
}
