/** The `until`, `plus` and `minus` cases of the period tests of a date
    (ModernDigitalDateChronoPeriodTest.java), evaluated on the model: for each pair of
    dates the period between them, the date the period leads to, and back. */
module PeriodExamples {
  import opened Outcomes
  import opened Chronology
  import opened Dates
  import opened Periods
  import ChronologyExamples

  /** `start.until(end)` is `p`, `start.plus(p)` is `end` and `end.minus(p)` is `start`. */
  predicate RowHolds(start: Date, end: Date, p: Period) {
    && IsMonthDay(start.monthOfYear, start.dayOfMonth)
    && IsMonthDay(end.monthOfYear, end.dayOfMonth)
    && PeriodUntil(start, end).years == p.years
    && PeriodUntil(start, end).months == p.months
    && PeriodUntil(start, end).days == p.days
    && PlusPeriod(start, p) == end
    && MinusPeriod(end, p) == start
  }

  /** `d` has the given proleptic year, month and day of month. */
  predicate HasFields(d: Date, year: int, month: int, day: int) {
    d.year == year && d.monthOfYear == month && d.dayOfMonth == day
  }

  /** `d` is `ModernDigitalDate.of(year, month, day)`. */
  predicate FieldsAre(d: Date, year: int, month: int, day: int) {
    Valid(d) && HasFields(d, year, month, day)
  }

  /** `s` comes before `e` by its year, or by its ordinal day within the same year. */
  predicate FieldsBefore(s: Date, e: Date) {
    || s.year < e.year
    || (&& s.year == e.year
        && OrdinalDayOfYear(s.monthOfYear, s.dayOfMonth).Ok?
        && OrdinalDayOfYear(e.monthOfYear, e.dayOfMonth).Ok?
        && OrdinalDayOfYear(s.monthOfYear, s.dayOfMonth).value < OrdinalDayOfYear(e.monthOfYear, e.dayOfMonth).value)
  }

  /** How a row from `s` to a later `e` computes: the period between the substituted dates,
      the leap corrections, and no drift back. */
  predicate ForwardShape(s: Date, e: Date, years: int, months: int, days: int) {
    && FieldsBefore(s, e)
    && PeriodBetween(Substitute(s), Substitute(e)).years == years
    && PeriodBetween(Substitute(s), Substitute(e)).months == months
    && PeriodBetween(Substitute(s), Substitute(e)).days + LeapCorrection(e) - LeapCorrection(s) == days
    && MinusDrift(Substitute(s), Substitute(e)) == 0
  }

  /** How a row from `s` to an earlier `e` computes: the negated forward row. */
  predicate BackwardShape(s: Date, e: Date, years: int, months: int, days: int) {
    && FieldsBefore(e, s)
    && PeriodBetween(Substitute(e), Substitute(s)).years + years == 0
    && PeriodBetween(Substitute(e), Substitute(s)).months + months == 0
    && PeriodBetween(Substitute(e), Substitute(s)).days + LeapCorrection(s) - LeapCorrection(e) + days == 0
    && MinusDrift(Substitute(e), Substitute(s)) == 0
  }

  /** The dates of the rows are exactly the field constructor's results. */
  lemma FieldsAreOf(d: Date, year: int, month: int, day: int)
    ensures FieldsAre(d, year, month, day) <==> OfProleptic(year, month, day) == Ok(d)
  {
    if FieldsAre(d, year, month, day) {
      OfProlepticOfValid(d);
    }
    if OfProleptic(year, month, day) == Ok(d) {
      OfProlepticValid(year, month, day);
    }
  }

  /** A row whose start is before its end holds once its period is the period between the
      substituted dates with the leap corrections, and the minus direction has no drift. */
  lemma Forward(s: Date, e: Date, years: int, months: int, days: int)
    requires Valid(s) && Valid(e) && ForwardShape(s, e, years, months, days)
    ensures RowHolds(s, e, Period(years, months, days))
  {
    var p := Period(years, months, days);
    BeforeIsFieldOrder(s, e);
    BeforeIsFieldOrder(e, s);
    ValidDateFacts(s);
    ValidDateFacts(e);
    UntilInOrder(s, e);
    PlusUntil(s, e);
    MinusUntil(s, e);
    ShiftByEqualPeriods(s, p, PeriodUntil(s, e));
    ShiftByEqualPeriods(e, p, PeriodUntil(s, e));
  }

  /** A row whose start is after its end: its period is the negated period of the reversed
      row, which then holds forward. */
  lemma Backward(s: Date, e: Date, years: int, months: int, days: int)
    requires Valid(s) && Valid(e) && BackwardShape(s, e, years, months, days)
    ensures RowHolds(s, e, Period(years, months, days))
  {
    BeforeIsFieldOrder(s, e);
    BeforeIsFieldOrder(e, s);
    ValidDateFacts(s);
    ValidDateFacts(e);
    UntilInOrder(e, s);
    PlusUntil(e, s);
    MinusUntil(e, s);
    Reversed(s, e, Period(years, months, days));
  }

  /** A row holds backward when its period negates the period of the reversed row, which
      holds forward. */
  lemma Reversed(s: Date, e: Date, p: Period)
    requires IsBefore(e, s)
    requires IsMonthDay(s.monthOfYear, s.dayOfMonth) && IsMonthDay(e.monthOfYear, e.dayOfMonth)
    requires var u := PeriodUntil(e, s);
      u.years + p.years == 0 && u.months + p.months == 0 && u.days + p.days == 0
    requires PlusPeriod(e, PeriodUntil(e, s)) == s && MinusPeriod(s, PeriodUntil(e, s)) == e
    ensures RowHolds(s, e, p)
  {
    UntilReversed(s, e);
    NegatedShifts(s, e, p, PeriodUntil(e, s));
  }

  lemma Row1(s: Date, e: Date)
    requires HasFields(s, 0, 1, 1) && HasFields(e, 30, 1, 1)
    ensures Valid(s) && Valid(e) ==> RowHolds(s, e, Period(30, 0, 0))
  {
    assert ForwardShape(s, e, 30, 0, 0);
    if Valid(s) && Valid(e) {
      Forward(s, e, 30, 0, 0);
    }
  }

  lemma Row2(s: Date, e: Date)
    requires HasFields(s, 0, 6, 15) && HasFields(e, 5, 9, 17)
    ensures Valid(s) && Valid(e) ==> RowHolds(s, e, Period(5, 3, 2))
  {
    assert ForwardShape(s, e, 5, 3, 2);
    if Valid(s) && Valid(e) {
      Forward(s, e, 5, 3, 2);
    }
  }

  lemma Row3(s: Date, e: Date)
    requires HasFields(s, -100, 6, 1) && HasFields(e, 0, 1, 1)
    ensures Valid(s) && Valid(e) ==> RowHolds(s, e, Period(99, 8, 0))
  {
    assert ForwardShape(s, e, 99, 8, 0);
    if Valid(s) && Valid(e) {
      Forward(s, e, 99, 8, 0);
    }
  }

  lemma Row4(s: Date, e: Date)
    requires HasFields(s, 20, 9, 25) && HasFields(e, 21, 9, 10)
    ensures Valid(s) && Valid(e) ==> RowHolds(s, e, Period(0, 12, 13))
  {
    assert ForwardShape(s, e, 0, 12, 13);
    if Valid(s) && Valid(e) {
      Forward(s, e, 0, 12, 13);
    }
  }

  lemma Row5(s: Date, e: Date)
    requires HasFields(s, 36, 10, 12) && HasFields(e, 40, 2, 7)
    ensures Valid(s) && Valid(e) ==> RowHolds(s, e, Period(3, 4, 23))
  {
    assert ForwardShape(s, e, 3, 4, 23);
    if Valid(s) && Valid(e) {
      Forward(s, e, 3, 4, 23);
    }
  }

  lemma Row6(s: Date, e: Date)
    requires HasFields(s, 0, 0, 1) && HasFields(e, 5, 0, 1)
    ensures Valid(s) && Valid(e) ==> RowHolds(s, e, Period(5, 0, 0))
  {
    assert ForwardShape(s, e, 5, 0, 0);
    if Valid(s) && Valid(e) {
      Forward(s, e, 5, 0, 0);
    }
  }

  lemma Row7(s: Date, e: Date)
    requires HasFields(s, 5, 13, 20) && HasFields(e, 6, 1, 1)
    ensures Valid(s) && Valid(e) ==> RowHolds(s, e, Period(0, 0, 10))
  {
    ChronologyExamples.LeapYearTable();
    assert ForwardShape(s, e, 0, 0, 10);
    if Valid(s) && Valid(e) {
      Forward(s, e, 0, 0, 10);
    }
  }

  lemma Row8(s: Date, e: Date)
    requires HasFields(s, 15, 13, 20) && HasFields(e, 16, 1, 19)
    ensures Valid(s) && Valid(e) ==> RowHolds(s, e, Period(0, 0, 28))
  {
    assert ForwardShape(s, e, 0, 0, 28);
    if Valid(s) && Valid(e) {
      Forward(s, e, 0, 0, 28);
    }
  }

  lemma Row9(s: Date, e: Date)
    requires HasFields(s, -100, 13, 20) && HasFields(e, -99, 1, 20)
    ensures Valid(s) && Valid(e) ==> RowHolds(s, e, Period(0, 1, 0))
  {
    assert ForwardShape(s, e, 0, 1, 0);
    if Valid(s) && Valid(e) {
      Forward(s, e, 0, 1, 0);
    }
  }

  lemma Row10(s: Date, e: Date)
    requires HasFields(s, 1, 1, 20) && HasFields(e, 1, 2, 20)
    ensures Valid(s) && Valid(e) ==> RowHolds(s, e, Period(0, 1, 0))
  {
    assert ForwardShape(s, e, 0, 1, 0);
    if Valid(s) && Valid(e) {
      Forward(s, e, 0, 1, 0);
    }
  }

  lemma Row11(s: Date, e: Date)
    requires HasFields(s, 1, 1, 20) && HasFields(e, 1, 2, 19)
    ensures Valid(s) && Valid(e) ==> RowHolds(s, e, Period(0, 0, 27))
  {
    assert ForwardShape(s, e, 0, 0, 27);
    if Valid(s) && Valid(e) {
      Forward(s, e, 0, 0, 27);
    }
  }

  lemma Row12(s: Date, e: Date)
    requires HasFields(s, 6, 13, 28) && HasFields(e, 7, 1, 1)
    ensures Valid(s) && Valid(e) ==> RowHolds(s, e, Period(0, 0, 3))
  {
    ChronologyExamples.LeapYearTable();
    assert ForwardShape(s, e, 0, 0, 3);
    if Valid(s) && Valid(e) {
      Forward(s, e, 0, 0, 3);
    }
  }

  lemma Row13(s: Date, e: Date)
    requires HasFields(s, 6, 0, 2) && HasFields(e, 7, 1, 1)
    ensures Valid(s) && Valid(e) ==> RowHolds(s, e, Period(0, 0, 1))
  {
    assert ForwardShape(s, e, 0, 0, 1);
    if Valid(s) && Valid(e) {
      Forward(s, e, 0, 0, 1);
    }
  }

  lemma Row14(s: Date, e: Date)
    requires HasFields(s, 6, 0, 1) && HasFields(e, 7, 1, 1)
    ensures Valid(s) && Valid(e) ==> RowHolds(s, e, Period(0, 0, 2))
  {
    ChronologyExamples.LeapYearTable();
    assert ForwardShape(s, e, 0, 0, 2);
    if Valid(s) && Valid(e) {
      Forward(s, e, 0, 0, 2);
    }
  }

  lemma Row15(s: Date, e: Date)
    requires HasFields(s, 5, 13, 28) && HasFields(e, 6, 1, 1)
    ensures Valid(s) && Valid(e) ==> RowHolds(s, e, Period(0, 0, 2))
  {
    ChronologyExamples.LeapYearTable();
    assert ForwardShape(s, e, 0, 0, 2);
    if Valid(s) && Valid(e) {
      Forward(s, e, 0, 0, 2);
    }
  }

  lemma Row16(s: Date, e: Date)
    requires HasFields(s, 5, 0, 1) && HasFields(e, 6, 1, 1)
    ensures Valid(s) && Valid(e) ==> RowHolds(s, e, Period(0, 0, 1))
  {
    ChronologyExamples.LeapYearTable();
    assert ForwardShape(s, e, 0, 0, 1);
    if Valid(s) && Valid(e) {
      Forward(s, e, 0, 0, 1);
    }
  }

  lemma Row17(s: Date, e: Date)
    requires HasFields(s, 30, 1, 1) && HasFields(e, 0, 1, 1)
    ensures Valid(s) && Valid(e) ==> RowHolds(s, e, Period(-30, 0, 0))
  {
    ChronologyExamples.LeapYearTable();
    assert BackwardShape(s, e, -30, 0, 0);
    if Valid(s) && Valid(e) {
      Backward(s, e, -30, 0, 0);
    }
  }

  lemma Row18(s: Date, e: Date)
    requires HasFields(s, 5, 9, 17) && HasFields(e, 0, 6, 15)
    ensures Valid(s) && Valid(e) ==> RowHolds(s, e, Period(-5, -3, -2))
  {
    assert BackwardShape(s, e, -5, -3, -2);
    if Valid(s) && Valid(e) {
      Backward(s, e, -5, -3, -2);
    }
  }

  lemma Row19(s: Date, e: Date)
    requires HasFields(s, 40, 10, 20) && HasFields(e, 36, 10, 1)
    ensures Valid(s) && Valid(e) ==> RowHolds(s, e, Period(-4, 0, -19))
  {
    assert BackwardShape(s, e, -4, 0, -19);
    if Valid(s) && Valid(e) {
      Backward(s, e, -4, 0, -19);
    }
  }

  lemma Row20(s: Date, e: Date)
    requires HasFields(s, 40, 2, 7) && HasFields(e, 36, 10, 12)
    ensures Valid(s) && Valid(e) ==> RowHolds(s, e, Period(-3, -4, -23))
  {
    assert BackwardShape(s, e, -3, -4, -23);
    if Valid(s) && Valid(e) {
      Backward(s, e, -3, -4, -23);
    }
  }

  lemma Row21(s: Date, e: Date)
    requires HasFields(s, 8, 0, 1) && HasFields(e, 7, 0, 1)
    ensures Valid(s) && Valid(e) ==> RowHolds(s, e, Period(-1, 0, 0))
  {
    assert BackwardShape(s, e, -1, 0, 0);
    if Valid(s) && Valid(e) {
      Backward(s, e, -1, 0, 0);
    }
  }
}
