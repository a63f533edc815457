/** The period engine of a date (ModernDigitalDate.java): the (years, months, days) between
    two dates, with leap days moved onto the last day of month 13, and a date shifted by
    such a period. Months are all 28 days long, so a period is exact except where it crosses
    the leap days at the end of a year. */
module Periods {
  import opened JavaInt
  import opened Eras
  import opened Outcomes
  import opened Chronology
  import opened Dates

  /** java.time.Period: years, months and days, each kept apart. */
  datatype Period = Period(years: int, months: int, days: int)

  /** `Period.plus`: component-wise addition. */
  function Plus(p: Period, q: Period): Period {
    Period(p.years + q.years, p.months + q.months, p.days + q.days)
  }

  /** `Period.multipliedBy(scalar)`: each component scaled. */
  function MultipliedBy(p: Period, scalar: int): Period {
    Period(scalar * p.years, scalar * p.months, scalar * p.days)
  }

  /** `ModernDigitalDate.of(year, 13, 28)`: the last day of the year's months. */
  function LastNonLeapDay(year: int): (d: Date)
    ensures !IsLeapDay(d) && d.year == year && d.monthOfYear == 13 && d.dayOfMonth == 28
  {
    var yearOfEra := ProlepticToEraYear(year);
    Date(if yearOfEra == 0 then SinceEpoch else EraOf(year), yearOfEra, year, 13, 52, 4, 364, 28, 7,
         FirstEpochDay(year) + 363)
  }

  /** Within the years of a `long` it is the field constructor's date. */
  lemma LastNonLeapDayValid(year: int)
    requires -LongMax <= year <= LongMax
    ensures Valid(LastNonLeapDay(year)) && OfProleptic(year, 13, 28) == Ok(LastNonLeapDay(year))
  {
    ProlepticYearRoundTrip(year, BeforeEpoch, 0);
    var b := Build(EraOf(year), ProlepticToEraYear(year), 13, 28);
    assert b.alignedWeekOfYear == 52 && b.alignedWeekOfMonth == 4 && b.dayOfWeek == 7;
    assert b == LastNonLeapDay(year);
  }

  /** `calculatePeriodBetween(start, end)`: whole months from start to end, borrowing a month
      when the end's day of month is the smaller. A month borrowed across the turn of a year
      (end in month 1) also holds that year's leap days. */
  function PeriodBetween(start: Date, end: Date): (p: Period)
    ensures 13 * p.years + p.months
         == 13 * (end.year - start.year) + end.monthOfYear - start.monthOfYear
            - (if end.dayOfMonth < start.dayOfMonth then 1 else 0)
    ensures -13 < p.months < 13 && (p.years > 0 ==> p.months >= 0) && (p.years < 0 ==> p.months <= 0)
    ensures 1 <= start.dayOfMonth <= 28 && 1 <= end.dayOfMonth <= 28 ==>
      0 <= p.days <= 29 && (p.days >= 28 ==> end.monthOfYear == 1)
  {
    var totalMonths := 13 * (end.year - start.year) + end.monthOfYear - start.monthOfYear;
    var days := end.dayOfMonth - start.dayOfMonth;
    var borrow := days < 0;
    var borrowed := if !borrow then 0
                    else if end.monthOfYear != 1 then DaysPerMonth
                    else DaysPerMonth + (if IsLeapYear(end.year - 1) then 2 else 1);
    var months := if borrow then totalMonths - 1 else totalMonths;
    QuotRem(months, 13);
    Period(Quot(months, 13), Rem(months, 13), days + borrowed)
  }

  /** The imperative form of `calculatePeriodBetween`. */
  method CalculatePeriodBetween(start: Date, end: Date) returns (p: Period)
    ensures p == PeriodBetween(start, end)
  {
    var totalMonths := MonthsPerYear * (end.year - start.year);
    totalMonths := totalMonths + end.monthOfYear - start.monthOfYear;
    var days := end.dayOfMonth - start.dayOfMonth;
    if days < 0 {
      totalMonths := totalMonths - 1;
      days := days + DaysPerMonth;
      if end.monthOfYear == 1 {
        days := days + (if IsLeapYear(end.year - 1) then 2 else 1);
      }
    }
    p := Period(Quot(totalMonths, 13), Rem(totalMonths, 13), days);
  }

  /** The date `until` computes with in place of `d`: a leap day becomes the last day of
      month 13 of its year. */
  function Substitute(d: Date): (r: Date)
    ensures !IsLeapDay(r) && r.year == d.year
    ensures IsLeapDay(d) ==> r.monthOfYear == 13 && r.dayOfMonth == 28
    ensures !IsLeapDay(d) ==> r == d
  {
    if IsLeapDay(d) then LastNonLeapDay(d.year) else d
  }

  lemma SubstituteValid(d: Date)
    requires Valid(d)
    ensures Valid(Substitute(d))
  {
    ValidDateFacts(d);
    if IsLeapDay(d) {
      LastNonLeapDayValid(d.year);
    }
  }

  /** The days `until` adds back for a substituted leap day. */
  function LeapCorrection(d: Date): int {
    if IsLeapDay(d) then d.dayOfMonth else 0
  }

  /** `until(date)`: the period from `date` to `other`, computed from the earlier of the two
      and negated when `other` is not later. Leap days are substituted, and their days of
      month are corrected for in days. */
  function PeriodUntil(date: Date, other: Date): (p: Period)
    ensures -13 < p.months < 13
    ensures p.years > 0 ==> p.months >= 0
    ensures p.years < 0 ==> p.months <= 0
  {
    var dateFirst := IsBefore(date, other);
    var start := if dateFirst then date else other;
    var end := if dateFirst then other else date;
    var p := PeriodBetween(Substitute(start), Substitute(end));
    var signum := if dateFirst then 1 else -1;
    Period(signum * p.years, signum * p.months, signum * (p.days + LeapCorrection(end) - LeapCorrection(start)))
  }

  /** The imperative form of `until(date)`, reassigning start, end and the correction. */
  method Until(date: Date, other: Date) returns (p: Period)
    ensures p == PeriodUntil(date, other)
  {
    var start := if IsBefore(date, other) then date else other;
    var end := if IsBefore(date, other) then other else date;
    ghost var start0, end0 := start, end;
    var signum := if IsBefore(date, other) then 1 else -1;
    var correction := Period(0, 0, 0);
    if IsLeapDay(start) {
      correction := Plus(correction, Period(0, 0, -start.dayOfMonth));
      start := LastNonLeapDay(start.year);
    }
    assert start == Substitute(start0);
    assert correction.years == 0 && correction.months == 0 && correction.days == -LeapCorrection(start0);
    if IsLeapDay(end) {
      correction := Plus(correction, Period(0, 0, end.dayOfMonth));
      end := LastNonLeapDay(end.year);
    }
    assert end == Substitute(end0);
    assert correction.years == 0 && correction.months == 0;
    assert correction.days == LeapCorrection(end0) - LeapCorrection(start0);
    p := CalculatePeriodBetween(start, end);
    ghost var between := p;
    p := MultipliedBy(Plus(p, correction), signum);
    ScaledCorrection(between, correction, signum, LeapCorrection(start0), LeapCorrection(end0));
  }

  /** The corrected period scaled by the sign, component by component. */
  lemma ScaledCorrection(between: Period, correction: Period, signum: int, first: int, last: int)
    requires correction.years == 0 && correction.months == 0 && correction.days == last - first
    ensures MultipliedBy(Plus(between, correction), signum)
         == Period(signum * between.years, signum * between.months, signum * (between.days + last - first))
  {
  }

  /** The year and month `calculateDateAfter` lands on, `totalMonths` months (counting the
      starting month) into `year`; month 0 is never produced. */
  function ResolveMonth(year: int, totalMonths: int): (r: (int, int))
    ensures 1 <= r.1 <= 13
    ensures 13 * r.0 + r.1 == 13 * year + totalMonths
  {
    QuotRem(totalMonths, 13);
    QuotRem(totalMonths - 1, 13);
    if totalMonths <= 0 then
      (year + Quot(totalMonths, 13) - 1, Rem(totalMonths, 13) + MonthsPerYear)
    else
      (year + Quot(totalMonths - 1, 13), Rem(totalMonths - 1, 13) + 1)
  }

  /** The epoch day `calculateDateAfter(period)` lands on: a leap day counts as the last day
      of month 13 plus its day of month in days; years and months move the (year, month)
      pair, and the days are then added on the epoch-day line. The ensures reads the epoch-day
      formula of `EpochDayOf` off for callers; PlusUntil, MinusUntil and EpochDayAfterZero say
      what the epoch day reached means. */
  function EpochDayAfter(d: Date, p: Period): (e: int)
    requires IsMonthDay(d.monthOfYear, d.dayOfMonth)
    ensures var leap := IsLeapDay(d);
      var ym := ResolveMonth(d.year, 13 * p.years + p.months + (if leap then 13 else d.monthOfYear));
      e == FirstEpochDay(ym.0) + DaysPerMonth * (ym.1 - 1) + (if leap then 28 else d.dayOfMonth) - 1
           + p.days + LeapCorrection(d)
  {
    var leap := IsLeapDay(d);
    var day := if leap then 28 else d.dayOfMonth;
    var month := if leap then 13 else d.monthOfYear;
    var ym := ResolveMonth(d.year, 13 * p.years + p.months + month);
    EpochDayOf(ym.0, ym.1, day).value + p.days + LeapCorrection(d)
  }

  /** `calculateDateAfter(period)` */
  function DateAfter(d: Date, p: Period): (r: Date)
    requires IsMonthDay(d.monthOfYear, d.dayOfMonth)
    ensures r.epochDay == EpochDayAfter(d, p)
  {
    FromEpochDay(EpochDayAfter(d, p))
  }

  /** The imperative form of `calculateDateAfter`, updating month, day, year and correction. */
  method CalculateDateAfter(d: Date, p: Period) returns (r: Date)
    requires IsMonthDay(d.monthOfYear, d.dayOfMonth)
    ensures r == DateAfter(d, p)
  {
    var monthOfYear := d.monthOfYear;
    var dayOfMonth := d.dayOfMonth;
    var correction := 0;
    if monthOfYear == 0 {
      correction := correction + dayOfMonth;
      dayOfMonth := 28;
      monthOfYear := 13;
    }
    var totalMonths := MonthsPerYear * p.years + p.months + monthOfYear;
    var year := d.year;
    var month;
    if totalMonths <= 0 {
      year := year + Quot(totalMonths, 13) - 1;
      month := Rem(totalMonths, 13) + MonthsPerYear;
    } else {
      year := year + Quot(totalMonths - 1, 13);
      month := Rem(totalMonths - 1, 13) + 1;
    }
    assert year == ResolveMonth(d.year, totalMonths).0 && month == ResolveMonth(d.year, totalMonths).1;
    var epochDay := EpochDayOf(year, month, dayOfMonth).value + p.days + correction;
    assert epochDay == EpochDayAfter(d, p);
    r := OfEpochDay(epochDay);
  }

  /** `plus(period)`: the date on the epoch day the period leads to, valid wherever that
      epoch day fits a long. */
  function PlusPeriod(d: Date, p: Period): (r: Date)
    requires IsMonthDay(d.monthOfYear, d.dayOfMonth)
    ensures r.epochDay == EpochDayAfter(d, p)
    ensures LongMin <= r.epochDay <= LongMax ==> Valid(r)
  {
    FromEpochDayValidWhenFits(EpochDayAfter(d, p));
    DateAfter(d, p)
  }

  /** `minus(period)`: the date after the negated period. */
  function MinusPeriod(d: Date, p: Period): (r: Date)
    requires IsMonthDay(d.monthOfYear, d.dayOfMonth)
    ensures r.epochDay == EpochDayAfter(d, MultipliedBy(p, -1))
    ensures LongMin <= r.epochDay <= LongMax ==> Valid(r)
  {
    FromEpochDayValidWhenFits(EpochDayAfter(d, MultipliedBy(p, -1)));
    DateAfter(d, MultipliedBy(p, -1))
  }

  lemma FromEpochDayValidWhenFits(epochDay: int)
    ensures LongMin <= epochDay <= LongMax ==> Valid(FromEpochDay(epochDay))
  {
    if LongMin <= epochDay <= LongMax {
      FromEpochDayValid(epochDay);
    }
  }

  /** The zero period leaves a valid date where it is, forwards and backwards. */
  lemma PlusZero(d: Date)
    requires Valid(d)
    ensures IsMonthDay(d.monthOfYear, d.dayOfMonth)
    ensures PlusPeriod(d, Period(0, 0, 0)) == d && MinusPeriod(d, Period(0, 0, 0)) == d
  {
    assert MultipliedBy(Period(0, 0, 0), -1) == Period(0, 0, 0);
    EpochDayAfterZero(d);
    FromEpochDayOfValid(d);
  }

  lemma EpochDayAfterZero(d: Date)
    requires Valid(d)
    ensures IsMonthDay(d.monthOfYear, d.dayOfMonth) && EpochDayAfter(d, Period(0, 0, 0)) == d.epochDay
  {
    ValidEpochDayFromFields(d);
    var month := if IsLeapDay(d) then 13 else d.monthOfYear;
    var ym := ResolveMonth(d.year, month);
    MonthCountUnique(ym.0, ym.1, d.year, month);
  }

  /** `plus` and `minus` read only the three components of a period. */
  lemma ShiftByEqualPeriods(d: Date, p: Period, r: Period)
    requires IsMonthDay(d.monthOfYear, d.dayOfMonth)
    requires p.years == r.years && p.months == r.months && p.days == r.days
    ensures PlusPeriod(d, p) == PlusPeriod(d, r) && MinusPeriod(d, p) == MinusPeriod(d, r)
  {
  }

  /** When `u` leads from `e` forward to `s` and back, the negated period leads from `s` to
      `e` and back. */
  lemma NegatedShifts(s: Date, e: Date, p: Period, u: Period)
    requires IsMonthDay(s.monthOfYear, s.dayOfMonth) && IsMonthDay(e.monthOfYear, e.dayOfMonth)
    requires p.years + u.years == 0 && p.months + u.months == 0 && p.days + u.days == 0
    requires PlusPeriod(e, u) == s && MinusPeriod(s, u) == e
    ensures PlusPeriod(s, p) == e && MinusPeriod(e, p) == s
  {
    NegationsMatch(p, u);
    ShiftByEqualPeriods(e, MultipliedBy(p, -1), u);
    ShiftByEqualPeriods(s, p, MultipliedBy(u, -1));
  }

  lemma NegationsMatch(p: Period, u: Period)
    requires p.years + u.years == 0 && p.months + u.months == 0 && p.days + u.days == 0
    ensures MultipliedBy(p, -1).years == u.years && MultipliedBy(p, -1).months == u.months
    ensures MultipliedBy(p, -1).days == u.days
    ensures MultipliedBy(u, -1).years == p.years && MultipliedBy(u, -1).months == p.months
    ensures MultipliedBy(u, -1).days == p.days
  {
    NegatedComponents(p);
    NegatedComponents(u);
  }

  /** A (year, month) pair with the month in 1 to 13 is fixed by its month count. */
  lemma MonthCountUnique(y1: int, m1: int, y2: int, m2: int)
    requires 1 <= m1 <= 13 && 1 <= m2 <= 13 && 13 * y1 + m1 == 13 * y2 + m2
    ensures y1 == y2 && m1 == m2
  {
  }

  /** The epoch day of a day in one of the 13 months. */
  function MonthDayEpochDay(year: int, month: int, day: int): int {
    FirstEpochDay(year) + DaysPerMonth * (month - 1) + day - 1
  }

  /** Shifting a non-leap start by the period between it and a non-leap end lands on the
      end, whatever their order: the borrowed month has exactly the days counted for it,
      including the leap days of the year before when the end is in month 1. */
  lemma EpochDayAfterPeriodBetween(s: Date, e: Date)
    requires 1 <= s.monthOfYear <= 13 && 1 <= s.dayOfMonth <= 28
    requires 1 <= e.monthOfYear <= 13 && 1 <= e.dayOfMonth <= 28
    ensures EpochDayAfter(s, PeriodBetween(s, e)) == MonthDayEpochDay(e.year, e.monthOfYear, e.dayOfMonth)
  {
    var p := PeriodBetween(s, e);
    if e.dayOfMonth >= s.dayOfMonth {
      ShiftedMonth(s, p, e.year, e.monthOfYear);
      assert p.days == e.dayOfMonth - s.dayOfMonth;
    } else {
      BorrowedDays(s, e);
      if e.monthOfYear != 1 {
        ShiftedMonth(s, p, e.year, e.monthOfYear - 1);
      } else {
        ShiftedMonth(s, p, e.year - 1, 13);
        FirstEpochDayStep(e.year - 1);
      }
    }
  }

  /** Shifting a leap day is shifting the last day of month 13 and adding its day of month. */
  lemma EpochDayAfterSubstitute(d: Date, p: Period)
    requires IsMonthDay(d.monthOfYear, d.dayOfMonth)
    ensures EpochDayAfter(d, p) == EpochDayAfter(Substitute(d), p) + LeapCorrection(d)
  {
  }

  /** Extra days in a period are extra days after the shifted date. */
  lemma EpochDayAfterMoreDays(d: Date, p: Period, r: Period)
    requires IsMonthDay(d.monthOfYear, d.dayOfMonth)
    requires r.years == p.years && r.months == p.months
    ensures EpochDayAfter(d, r) == EpochDayAfter(d, p) + r.days - p.days
  {
  }

  /** The epoch day of a date in terms of the date `until` substitutes for it. */
  predicate EpochDayFromFields(d: Date) {
    var d' := Substitute(d);
    d.epochDay == MonthDayEpochDay(d'.year, d'.monthOfYear, d'.dayOfMonth) + LeapCorrection(d)
  }

  lemma ValidEpochDayFromFields(d: Date)
    requires Valid(d)
    ensures IsMonthDay(d.monthOfYear, d.dayOfMonth) && EpochDayFromFields(d)
  {
    ValidDateFacts(d);
  }

  lemma EpochDayAfterUntil(s: Date, e: Date)
    requires IsMonthDay(s.monthOfYear, s.dayOfMonth) && IsMonthDay(e.monthOfYear, e.dayOfMonth)
    requires EpochDayFromFields(e)
    requires IsBefore(s, e) || s == e
    ensures EpochDayAfter(s, PeriodUntil(s, e)) == e.epochDay
  {
    var s', e' := Substitute(s), Substitute(e);
    var p := PeriodBetween(s', e');
    var k := LeapCorrection(e) - LeapCorrection(s);
    var q := PeriodUntil(s, e);
    UntilInOrder(s, e);
    EpochDayAfterPeriodBetween(s', e');
    EpochDayAfterSubstitute(s, q);
    EpochDayAfterMoreDays(s', p, q);
  }

  lemma UntilForward(s: Date, e: Date)
    requires IsBefore(s, e)
    ensures PeriodUntil(s, e)
         == Plus(PeriodBetween(Substitute(s), Substitute(e)), Period(0, 0, LeapCorrection(e) - LeapCorrection(s)))
  {
  }

  /** The period from a date to itself is zero. */
  lemma UntilSelf(d: Date)
    ensures PeriodUntil(d, d) == Period(0, 0, 0)
    ensures PeriodBetween(Substitute(d), Substitute(d)) == Period(0, 0, 0)
  {
    UntilSelfFields(d);
    BetweenSelf(Substitute(d));
  }

  lemma UntilSelfFields(d: Date)
    ensures PeriodUntil(d, d).years == 0 && PeriodUntil(d, d).months == 0 && PeriodUntil(d, d).days == 0
  {
    BetweenSelf(Substitute(d));
  }

  lemma BetweenSelf(d: Date)
    ensures PeriodBetween(d, d).years == 0 && PeriodBetween(d, d).months == 0 && PeriodBetween(d, d).days == 0
  {
  }

  /** The period until a date that is not earlier leads there: `start.plus(start.until(end))`
      is `end` for every pair of valid dates with start not after end. */
  lemma PlusUntil(s: Date, e: Date)
    requires Valid(s) && Valid(e) && !IsBefore(e, s)
    ensures PlusPeriod(s, PeriodUntil(s, e)) == e
  {
    ValidEpochDayFromFields(s);
    ValidEpochDayFromFields(e);
    EpochDayDeterminesDate(s, e);
    EpochDayAfterUntil(s, e);
    FromEpochDayOfValid(e);
  }

  /** The period with every component negated, as `multipliedBy(-1)` makes it. */
  lemma NegatedComponents(p: Period)
    ensures MultipliedBy(p, -1).years == -p.years
    ensures MultipliedBy(p, -1).months == -p.months
    ensures MultipliedBy(p, -1).days == -p.days
  {
  }

  /** Negating twice gives the period back. */
  lemma NegatedTwice(p: Period)
    ensures MultipliedBy(MultipliedBy(p, -1), -1) == p
  {
    var r := MultipliedBy(MultipliedBy(p, -1), -1);
    assert r.years == p.years && r.months == p.months && r.days == p.days;
  }

  /** `a.until(b)` is `b.until(a)` negated whenever the two dates are ordered or the same. */
  lemma UntilAntisymmetric(a: Date, b: Date)
    requires a.epochDay != b.epochDay || a == b
    ensures PeriodUntil(b, a) == MultipliedBy(PeriodUntil(a, b), -1)
  {
    if a == b {
      UntilSelfFields(a);
      NegatedComponents(PeriodUntil(a, a));
    } else if IsBefore(b, a) {
      NegatedTwice(PeriodUntil(b, a));
    }
  }

  /** The drift of `end.minus(start.until(end))` away from `start`, for dates that are not
      leap days: a borrowed month counts the leap days before month 1 of the end's year when
      the period is added to the start, but the leap days of the start's own year when it is
      taken off the end. */
  function MinusDrift(s: Date, e: Date): int {
    var counted := if e.monthOfYear == 1 then LengthOfYear(e.year - 1) - NonLeapDaysPerYear else 0;
    var removed := if s.monthOfYear == 13 then LengthOfYear(s.year) - NonLeapDaysPerYear else 0;
    if e.dayOfMonth >= s.dayOfMonth then 0 else removed - counted
  }

  /** Shifting a non-leap end back by the period between a non-leap start and it lands on
      the start, off by exactly the drift. */
  lemma EpochDayBeforePeriodBetween(s: Date, e: Date)
    requires 1 <= s.monthOfYear <= 13 && 1 <= s.dayOfMonth <= 28
    requires 1 <= e.monthOfYear <= 13 && 1 <= e.dayOfMonth <= 28
    ensures EpochDayAfter(e, MultipliedBy(PeriodBetween(s, e), -1))
         == MonthDayEpochDay(s.year, s.monthOfYear, s.dayOfMonth) + MinusDrift(s, e)
  {
    var p := PeriodBetween(s, e);
    var q := MultipliedBy(p, -1);
    NegatedComponents(p);
    if e.dayOfMonth >= s.dayOfMonth {
      ShiftedMonth(e, q, s.year, s.monthOfYear);
      assert q.days == s.dayOfMonth - e.dayOfMonth;
    } else {
      BorrowedDays(s, e);
      if s.monthOfYear != 13 {
        ShiftedMonth(e, q, s.year, s.monthOfYear + 1);
      } else {
        BackAcrossYearEnd(s, e, q);
      }
    }
  }

  /** A borrowed month that takes a start in month 13 back into the start's year. */
  lemma BackAcrossYearEnd(s: Date, e: Date, q: Period)
    requires s.monthOfYear == 13 && 1 <= s.dayOfMonth <= 28
    requires 1 <= e.monthOfYear <= 13 && 1 <= e.dayOfMonth < s.dayOfMonth
    requires 13 * q.years + q.months == 13 * (s.year + 1 - e.year) + 1 - e.monthOfYear
    requires q.days == -PeriodBetween(s, e).days
    ensures EpochDayAfter(e, q) == MonthDayEpochDay(s.year, 13, s.dayOfMonth) + MinusDrift(s, e)
  {
    var counted := if e.monthOfYear == 1 then LengthOfYear(e.year - 1) - NonLeapDaysPerYear else 0;
    var length := LengthOfYear(s.year);
    assert MinusDrift(s, e) == length - NonLeapDaysPerYear - counted;
    BorrowedDays(s, e);
    assert q.days == s.dayOfMonth - e.dayOfMonth - DaysPerMonth - counted;
    ShiftedMonth(e, q, s.year + 1, 1);
    FirstEpochDayStep(s.year);
  }

  /** Shifting a non-leap date by a period lands in the month its month count names. */
  lemma ShiftedMonth(d: Date, p: Period, year: int, month: int)
    requires 1 <= d.monthOfYear <= 13 && 1 <= d.dayOfMonth <= 28 && 1 <= month <= 13
    requires 13 * year + month == 13 * d.year + 13 * p.years + p.months + d.monthOfYear
    ensures EpochDayAfter(d, p) == FirstEpochDay(year) + DaysPerMonth * (month - 1) + d.dayOfMonth - 1 + p.days
  {
    var ym := ResolveMonth(d.year, 13 * p.years + p.months + d.monthOfYear);
    MonthCountUnique(ym.0, ym.1, year, month);
  }

  /** The days of a period whose month was borrowed. */
  lemma BorrowedDays(s: Date, e: Date)
    requires e.dayOfMonth < s.dayOfMonth
    ensures PeriodBetween(s, e).days == e.dayOfMonth - s.dayOfMonth + DaysPerMonth
      + (if e.monthOfYear == 1 then LengthOfYear(e.year - 1) - NonLeapDaysPerYear else 0)
  {
  }

  /** The period from a date to one not earlier, leap days substituted and corrected for. */
  lemma UntilInOrder(s: Date, e: Date)
    requires IsBefore(s, e) || s == e
    ensures var p := PeriodBetween(Substitute(s), Substitute(e));
      && PeriodUntil(s, e).years == p.years && PeriodUntil(s, e).months == p.months
      && PeriodUntil(s, e).days == p.days + LeapCorrection(e) - LeapCorrection(s)
  {
    if IsBefore(s, e) {
      UntilForward(s, e);
    } else {
      UntilSelfFields(s);
      BetweenSelf(Substitute(s));
    }
  }

  /** The period back to an earlier date is the period forward from it, negated. */
  lemma UntilReversed(s: Date, e: Date)
    requires IsBefore(e, s)
    ensures PeriodUntil(s, e).years == -PeriodUntil(e, s).years
    ensures PeriodUntil(s, e).months == -PeriodUntil(e, s).months
    ensures PeriodUntil(s, e).days == -PeriodUntil(e, s).days
  {
  }

  /** `end.minus(start.until(end))` lands on the start's epoch day moved by the drift of the
      substituted dates. */
  lemma EpochDayBeforeUntil(s: Date, e: Date)
    requires IsMonthDay(s.monthOfYear, s.dayOfMonth) && IsMonthDay(e.monthOfYear, e.dayOfMonth)
    requires EpochDayFromFields(s)
    requires IsBefore(s, e) || s == e
    ensures EpochDayAfter(e, MultipliedBy(PeriodUntil(s, e), -1))
         == s.epochDay + MinusDrift(Substitute(s), Substitute(e))
  {
    var s', e' := Substitute(s), Substitute(e);
    NegatedUntilShift(s, e);
    EpochDayBeforePeriodBetween(s', e');
  }

  /** Taking the period off the end is taking the period between the substituted dates off
      the substituted end, then the leap corrections. */
  lemma NegatedUntilShift(s: Date, e: Date)
    requires IsMonthDay(e.monthOfYear, e.dayOfMonth)
    requires IsBefore(s, e) || s == e
    ensures EpochDayAfter(e, MultipliedBy(PeriodUntil(s, e), -1))
         == EpochDayAfter(Substitute(e), MultipliedBy(PeriodBetween(Substitute(s), Substitute(e)), -1))
            + LeapCorrection(s)
  {
    var s', e' := Substitute(s), Substitute(e);
    var p := PeriodBetween(s', e');
    var k := LeapCorrection(e) - LeapCorrection(s);
    var u := PeriodUntil(s, e);
    var q := MultipliedBy(u, -1);
    assert q.years == -p.years && q.months == -p.months && q.days == -p.days - k by {
      UntilInOrder(s, e);
      NegatedComponents(u);
    }
    NegatedComponents(p);
    EpochDayAfterSubstitute(e, q);
    EpochDayAfterMoreDays(e', MultipliedBy(p, -1), q);
  }

  /** `end.minus(start.until(end))` is the start exactly when no borrowed month crosses a
      year end whose leap days the two directions count differently. */
  lemma MinusUntil(s: Date, e: Date)
    requires Valid(s) && Valid(e) && !IsBefore(e, s)
    ensures MinusPeriod(e, PeriodUntil(s, e)) == s <==> MinusDrift(Substitute(s), Substitute(e)) == 0
  {
    MinusUntilEpochDay(s, e);
    FromEpochDayOfValid(s);
    var r := MinusPeriod(e, PeriodUntil(s, e));
    SameDaySameDate(FromEpochDay, r, s, MinusDrift(Substitute(s), Substitute(e)));
  }

  /** Two dates that are both `dateOf` of their own epoch days are the same exactly when
      their epoch days are. */
  lemma SameDaySameDate(dateOf: int -> Date, r: Date, s: Date, drift: int)
    requires r == dateOf(r.epochDay) && s == dateOf(s.epochDay)
    requires r.epochDay == s.epochDay + drift
    ensures r == s <==> drift == 0
  {
  }

  lemma MinusUntilEpochDay(s: Date, e: Date)
    requires Valid(s) && Valid(e) && !IsBefore(e, s)
    ensures IsMonthDay(e.monthOfYear, e.dayOfMonth)
    ensures MinusPeriod(e, PeriodUntil(s, e)).epochDay == s.epochDay + MinusDrift(Substitute(s), Substitute(e))
  {
    ValidEpochDayFromFields(s);
    ValidEpochDayFromFields(e);
    EpochDayDeterminesDate(s, e);
    EpochDayBeforeUntil(s, e);
  }

  /** A leap day's period to a later date is that of the last day of month 13 of its year,
      less the leap day's day of month. */
  lemma UntilFromLeapDay(a: Date, b: Date)
    requires IsLeapDay(a) && 1 <= a.dayOfMonth && EpochDayFromFields(a) && IsBefore(a, b)
    ensures PeriodUntil(a, b) == Plus(PeriodUntil(LastNonLeapDay(a.year), b), Period(0, 0, -a.dayOfMonth))
  {
    var l := LastNonLeapDay(a.year);
    UntilForward(a, b);
    UntilForward(l, b);
    var p := PeriodBetween(l, Substitute(b));
    var x := Plus(p, Period(0, 0, LeapCorrection(b) - a.dayOfMonth));
    var y := Plus(Plus(p, Period(0, 0, LeapCorrection(b))), Period(0, 0, -a.dayOfMonth));
    assert x.years == y.years && x.months == y.months && x.days == y.days;
  }

  /** A later date's period to a leap day is that to the last day of month 13 of the leap
      day's year, plus the leap day's day of month. */
  lemma UntilToLeapDay(a: Date, b: Date)
    requires IsLeapDay(b) && 1 <= b.dayOfMonth && EpochDayFromFields(b) && IsBefore(a, b)
    requires IsBefore(a, LastNonLeapDay(b.year))
    ensures PeriodUntil(a, b) == Plus(PeriodUntil(a, LastNonLeapDay(b.year)), Period(0, 0, b.dayOfMonth))
  {
    var l := LastNonLeapDay(b.year);
    UntilForward(a, b);
    UntilForward(a, l);
    var p := PeriodBetween(Substitute(a), l);
    var x := Plus(p, Period(0, 0, b.dayOfMonth - LeapCorrection(a)));
    var y := Plus(Plus(p, Period(0, 0, -LeapCorrection(a))), Period(0, 0, b.dayOfMonth));
    assert x.years == y.years && x.months == y.months && x.days == y.days;
  }
}
