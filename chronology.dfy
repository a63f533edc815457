/** The calendar rules of the Modern Digital Calendar (ModernDigitalChronology.java): the
    leap rule, the era/year mapping, the value-range table, and the ordinal helpers that
    place a (month, day) pair in the year, the week and the epoch-day line.
    A year has 13 months of 28 days (364 days, 52 weeks) followed by one leap day, or two
    in a Gregorian leap year, which form "month 0" and belong to no week. */
module Chronology {
  import opened JavaInt
  import opened Eras
  import opened Outcomes
  import IsoCalendar

  const IsoYearOffset: int := 1970
  const DaysPerWeek: int := 7
  const DaysPerMonth: int := 28
  const WeeksPerMonth: int := 4
  const WeeksPerQuarter: int := 13
  const MonthsPerYear: int := 13
  const NonLeapDaysPerYear: int := 364
  const DaysPerCommonYear: int := 365
  const DaysPerLeapYear: int := 366
  const MjdEpochOffsetInDays: int := 40587

  /** The `Era` a caller passes: one of this calendar's eras, or any other implementation. */
  datatype EraArg = Mdc(era: Era) | OtherEra

  /** The constants of java.time.temporal.ChronoField. */
  datatype ChronoField =
    | NanoOfSecond | NanoOfDay | MicroOfSecond | MicroOfDay | MilliOfSecond | MilliOfDay
    | SecondOfMinute | SecondOfDay | MinuteOfHour | MinuteOfDay | HourOfAmPm | ClockHourOfAmPm
    | HourOfDay | ClockHourOfDay | AmPmOfDay | DayOfWeek | AlignedDayOfWeekInMonth
    | AlignedDayOfWeekInYear | DayOfMonth | DayOfYear | EpochDay | AlignedWeekOfMonth
    | AlignedWeekOfYear | MonthOfYear | ProlepticMonth | YearOfEra | Year | Era | InstantSeconds
    | OffsetSeconds

  /** The fields the range table accepts: those of at least a day. */
  predicate IsDateField(f: ChronoField) {
    f in {Era, YearOfEra, Year, MonthOfYear, AlignedWeekOfYear, DayOfYear, ProlepticMonth,
          AlignedWeekOfMonth, DayOfMonth, DayOfWeek, AlignedDayOfWeekInMonth,
          AlignedDayOfWeekInYear, EpochDay}
  }

  /** java.time.temporal.ValueRange: a minimum and a maximum, each possibly varying between
      a smallest and a largest value. */
  datatype ValueRange = ValueRange(smallestMinimum: int, largestMinimum: int,
                                   smallestMaximum: int, largestMaximum: int)

  /** `ValueRange.of(min, max)` */
  function Fixed(min: int, max: int): ValueRange {
    ValueRange(min, min, max, max)
  }

  /** `ValueRange.of(min, maxSmallest, maxLargest)` */
  function VaryingMax(min: int, maxSmallest: int, maxLargest: int): ValueRange {
    ValueRange(min, min, maxSmallest, maxLargest)
  }

  /** `ValueRange.isValidValue` */
  predicate IsValidValue(r: ValueRange, v: int) {
    r.smallestMinimum <= v <= r.largestMaximum
  }

  /** `range(field)`: the value range of each date field; any other field fails. */
  function Range(f: ChronoField): (r: Result<ValueRange>)
    ensures r.Ok? <==> IsDateField(f)
    ensures r.Err? ==> r.error == UnsupportedField
  {
    match f
    case Era => Ok(Fixed(0, 1))
    case YearOfEra => Ok(Fixed(0, LongMax))
    case Year => Ok(Fixed(LongMin, LongMax))
    case MonthOfYear => Ok(Fixed(0, 13))
    case AlignedWeekOfYear => Ok(Fixed(0, 52))
    case DayOfYear => Ok(VaryingMax(1, 365, 366))
    case ProlepticMonth => Ok(Fixed(LongMin, LongMax))
    case AlignedWeekOfMonth => Ok(Fixed(0, 4))
    case DayOfMonth => Ok(VaryingMax(1, 2, 28))
    case DayOfWeek | AlignedDayOfWeekInMonth | AlignedDayOfWeekInYear => Ok(Fixed(0, 7))
    case EpochDay => Ok(Fixed(LongMin, LongMax))
    case _ => Err(UnsupportedField)
  }

  /** `isLeapYear`: the Gregorian rule applied to |prolepticYear + 1970|. */
  function IsLeapYear(prolepticYear: int): (leap: bool)
    ensures leap == IsoCalendar.IsLeap(prolepticYear + IsoYearOffset)
  {
    var isoYear := if prolepticYear + 1970 < 0 then -(prolepticYear + 1970) else prolepticYear + 1970;
    LeapRuleOfNegation(prolepticYear + 1970);
    isoYear % 400 == 0 || (isoYear % 100 != 0 && isoYear % 4 == 0)
  }

  /** A number and its negation are multiples of the same leap-rule divisors. */
  lemma LeapRuleOfNegation(y: int)
    ensures IsoCalendar.IsLeap(y) <==> (-y) % 400 == 0 || ((-y) % 100 != 0 && (-y) % 4 == 0)
    ensures IsoCalendar.IsLeap(y) <==> y % 400 == 0 || (y % 100 != 0 && y % 4 == 0)
  {
    MultipleOfNegation(y);
    IsoCalendar.DivisorChain(y);
  }

  lemma MultipleOfNegation(y: int)
    ensures y % 4 == 0 <==> (-y) % 4 == 0
    ensures y % 100 == 0 <==> (-y) % 100 == 0
    ensures y % 400 == 0 <==> (-y) % 400 == 0
  {
    NegatedMultiple(y, 4);
    NegatedMultiple(-y, 4);
    NegatedMultiple(y, 100);
    NegatedMultiple(-y, 100);
    NegatedMultiple(y, 400);
    NegatedMultiple(-y, 400);
  }

  lemma NegatedMultiple(y: int, k: int)
    requires k > 0
    ensures y % k == 0 ==> (-y) % k == 0
  {
    if y % k == 0 {
      var q := y / k;
      assert -y == k * -q;
      MultipleMod(-q, k);
    }
  }

  lemma MultipleMod(q: int, k: int)
    requires k > 0
    ensures (k * q) % k == 0
  {
    var r := (k * q) % k;
    var p := (k * q) / k;
    assert k * q == k * p + r && 0 <= r < k;
    assert k * (q - p) == r;
    if q - p >= 1 {
      MulAtLeast(k, q - p);
    } else if q - p <= -1 {
      MulAtLeast(k, p - q);
    }
  }

  /** The days in a year: 364 in the months plus one or two leap days. */
  function LengthOfYear(prolepticYear: int): (n: int)
    ensures n == IsoCalendar.LengthOfYear(prolepticYear + IsoYearOffset)
  {
    if IsLeapYear(prolepticYear) then DaysPerLeapYear else DaysPerCommonYear
  }

  /** `prolepticYear(era, yearOfEra)`: negative before the epoch; fails for a foreign era. */
  function ProlepticYear(era: EraArg, yearOfEra: int): (r: Result<int>)
    ensures r.Ok? <==> era.Mdc?
    ensures r.Err? ==> r.error == InvalidEra
    ensures r.Ok? ==> (if era.era == BeforeEpoch then r.value <= 0 else r.value >= 0)
    ensures r.Ok? ==> ProlepticToEraYear(r.value) == ProlepticToEraYear(yearOfEra)
  {
    match era
    case Mdc(BeforeEpoch) => Ok(-1 * ProlepticToEraYear(yearOfEra))
    case Mdc(SinceEpoch) => Ok(ProlepticToEraYear(yearOfEra))
    case OtherEra => Err(InvalidEra)
  }

  /** `eraOf(value)`: BEFORE_EPOCH for values up to 0, SINCE_EPOCH above. */
  function EraOf(eraValue: int): (e: Era)
    ensures e == BeforeEpoch <==> eraValue <= 0
  {
    if eraValue <= 0 then BeforeEpoch else SinceEpoch
  }

  /** `prolepticToEraYear`: the year counted within its era. */
  function ProlepticToEraYear(prolepticYear: int): (yearOfEra: int)
    ensures yearOfEra >= 0
    ensures yearOfEra == prolepticYear || yearOfEra == -prolepticYear
  {
    if prolepticYear < 0 then -prolepticYear else prolepticYear
  }

  /** The era lookup inverts the era's value. */
  lemma EraOfValue(e: Era)
    ensures EraOf(Value(e)) == e
  {
  }

  /** Era and year-of-era recover the proleptic year, and the proleptic year of an era and
      a non-negative year-of-era gives that year-of-era back. */
  lemma ProlepticYearRoundTrip(prolepticYear: int, era: Era, yearOfEra: int)
    requires yearOfEra >= 0
    ensures ProlepticYear(Mdc(EraOf(prolepticYear)), ProlepticToEraYear(prolepticYear)) == Ok(prolepticYear)
    ensures ProlepticToEraYear(ProlepticYear(Mdc(era), yearOfEra).value) == yearOfEra
  {
  }

  /** A (month, day) pair names a day of some year: months 1 to 13 have days 1 to 28, and
      the leap month 0 has days 1 and 2. */
  predicate IsMonthDay(month: int, day: int) {
    (1 <= month <= 13 && 1 <= day <= 28) || (month == 0 && 1 <= day <= 2)
  }

  /** `ordinalDayOfYear(month, day)`: months fill the first 364 days, leap days are 365 and 366. */
  function OrdinalDayOfYear(month: int, day: int): (r: Result<int>)
    ensures r.Ok? <==> IsMonthDay(month, day)
    ensures r.Err? ==> r.error == InvalidDate
    ensures r.Ok? ==> 1 <= r.value <= 366 && (month == 0 <==> r.value > NonLeapDaysPerYear)
    ensures r.Ok? && month == 0 ==> r.value - NonLeapDaysPerYear == day
    ensures r.Ok? && month != 0 ==>
      (r.value - 1) / DaysPerMonth == month - 1 && (r.value - 1) % DaysPerMonth == day - 1
  {
    if !IsMonthDay(month, day) then Err(InvalidDate)
    else if month == 0 then Ok(NonLeapDaysPerYear + day)
    else Ok((month - 1) * DaysPerMonth + day)
  }

  /** `ordinalWeekOfYear(dayOfYear)`: week w holds days 7w-6 to 7w; leap days are in week 0. */
  function OrdinalWeekOfYear(dayOfYear: int): (r: Result<int>)
    ensures r.Ok? <==> 1 <= dayOfYear <= DaysPerLeapYear
    ensures r.Err? ==> r.error == InvalidDate
    ensures r.Ok? ==> 0 <= r.value <= 52 && (r.value == 0 <==> dayOfYear > NonLeapDaysPerYear)
    ensures r.Ok? && r.value != 0 ==> 7 * r.value - 6 <= dayOfYear <= 7 * r.value
  {
    if dayOfYear < 1 || dayOfYear > DaysPerLeapYear then Err(InvalidDate)
    else if dayOfYear > NonLeapDaysPerYear then Ok(0)
    else Ok(1 + Quot(dayOfYear - 1, 7))
  }

  /** `ordinalWeekOfYear(month, day)`: the week of the day a (month, day) pair names. */
  function OrdinalWeekOfMonthDay(month: int, day: int): (r: Result<int>)
    ensures r.Ok? <==> IsMonthDay(month, day)
    ensures r.Ok? ==> r == OrdinalWeekOfYear(OrdinalDayOfYear(month, day).value)
  {
    match OrdinalDayOfYear(month, day)
    case Ok(dayOfYear) => OrdinalWeekOfYear(dayOfYear)
    case Err(e) => Err(e)
  }

  /** `ordinalDayOfWeek(month, day)`: ISO 8601 weekday numbering (section 3.2.2 of
      ISO 8601:2004), Monday 1 to Sunday 7, with every year starting on a Monday; leap days
      have weekday 0. */
  function OrdinalDayOfWeek(month: int, day: int): (r: Result<int>)
    ensures r.Ok? <==> IsMonthDay(month, day)
    ensures r.Ok? ==> 0 <= r.value <= 7 && (r.value == 0 <==> month == 0)
    ensures r.Ok? && month != 0 ==> (OrdinalDayOfYear(month, day).value - r.value) % DaysPerWeek == 0
  {
    match OrdinalDayOfYear(month, day)
    case Err(e) => Err(e)
    case Ok(dayOfYear) =>
      if dayOfYear > NonLeapDaysPerYear then Ok(0)
      else Ok(Rem(dayOfYear - 1, 7) + 1)
  }

  /** Week and weekday together locate every day of the 52 whole weeks. */
  lemma WeekAndWeekday(month: int, day: int)
    requires IsMonthDay(month, day) && month != 0
    ensures 7 * (OrdinalWeekOfMonthDay(month, day).value - 1) + OrdinalDayOfWeek(month, day).value
         == OrdinalDayOfYear(month, day).value
  {
    var doy := OrdinalDayOfYear(month, day).value;
    assert doy - 1 == 7 * ((doy - 1) / 7) + (doy - 1) % 7;
  }

  /** The first epoch day of a proleptic year: the Gregorian day count from 1970-01-01. */
  function FirstEpochDay(prolepticYear: int): int {
    IsoCalendar.YearStart(prolepticYear + 1970)
  }

  /** Consecutive years start one year length apart. */
  lemma FirstEpochDayStep(prolepticYear: int)
    ensures FirstEpochDay(prolepticYear + 1) == FirstEpochDay(prolepticYear) + LengthOfYear(prolepticYear)
  {
    IsoCalendar.YearStartStep(prolepticYear + IsoYearOffset);
  }

  /** `epochDay(prolepticYear, month, day)`: the epoch day a (year, month, day) names. */
  function EpochDayOf(prolepticYear: int, month: int, day: int): (r: Result<int>)
    ensures r.Ok? <==> IsMonthDay(month, day)
    ensures r.Ok? ==> r.value == FirstEpochDay(prolepticYear) + OrdinalDayOfYear(month, day).value - 1
  {
    match OrdinalDayOfYear(month, day)
    case Ok(dayOfYear) => Ok(FirstEpochDay(prolepticYear) + dayOfYear - 1)
    case Err(e) => Err(e)
  }

  /** `epochDay(era, yearOfEra, month, day)`: the same, for an era and a year within it. */
  function EraEpochDayOf(era: EraArg, yearOfEra: int, month: int, day: int): (r: Result<int>)
    ensures r.Ok? <==> era.Mdc? && IsMonthDay(month, day)
    ensures r.Ok? ==> r == EpochDayOf(ProlepticYear(era, yearOfEra).value, month, day)
  {
    match ProlepticYear(era, yearOfEra)
    case Ok(year) => EpochDayOf(year, month, day)
    case Err(e) => Err(e)
  }
}
