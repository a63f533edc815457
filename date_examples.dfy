/** The tables of the date-creation tests (ModernDigitalDateCreationTest.java), evaluated on
    the model: the epoch days with the (era, year of era, month, day) of their dates, the
    field tuples the field constructor accepts and gives back, and those it rejects. */
module DateExamples {
  import opened Eras
  import opened Outcomes
  import opened Chronology
  import opened Dates

  /** Epoch day -3653 is day 1 of month 1 of year 10 of era 0. */
  lemma EpochDayRow1()
    ensures Value(FromEpochDay(-3653).era) == 0 && FromEpochDay(-3653).yearOfEra == 10
    ensures FromEpochDay(-3653).monthOfYear == 1 && FromEpochDay(-3653).dayOfMonth == 1
  {
    FromEpochDayMatches(-3653, -10, 1, 1, 1);
  }

  /** Epoch day -731 is day 1 of month 1 of year 2 of era 0. */
  lemma EpochDayRow2()
    ensures Value(FromEpochDay(-731).era) == 0 && FromEpochDay(-731).yearOfEra == 2
    ensures FromEpochDay(-731).monthOfYear == 1 && FromEpochDay(-731).dayOfMonth == 1
  {
    FromEpochDayMatches(-731, -2, 1, 1, 1);
  }

  /** Epoch day -366 is day 2 of month 0 of year 2 of era 0. */
  lemma EpochDayRow3()
    ensures Value(FromEpochDay(-366).era) == 0 && FromEpochDay(-366).yearOfEra == 2
    ensures FromEpochDay(-366).monthOfYear == 0 && FromEpochDay(-366).dayOfMonth == 2
  {
    FromEpochDayMatches(-366, -2, 366, 0, 2);
  }

  /** Epoch day -365 is day 1 of month 1 of year 1 of era 0. */
  lemma EpochDayRow4()
    ensures Value(FromEpochDay(-365).era) == 0 && FromEpochDay(-365).yearOfEra == 1
    ensures FromEpochDay(-365).monthOfYear == 1 && FromEpochDay(-365).dayOfMonth == 1
  {
    FromEpochDayMatches(-365, -1, 1, 1, 1);
  }

  /** Epoch day -183 is day 15 of month 7 of year 1 of era 0. */
  lemma EpochDayRow5()
    ensures Value(FromEpochDay(-183).era) == 0 && FromEpochDay(-183).yearOfEra == 1
    ensures FromEpochDay(-183).monthOfYear == 7 && FromEpochDay(-183).dayOfMonth == 15
  {
    FromEpochDayMatches(-183, -1, 183, 7, 15);
  }

  /** Epoch day -1 is day 1 of month 0 of year 1 of era 0. */
  lemma EpochDayRow6()
    ensures Value(FromEpochDay(-1).era) == 0 && FromEpochDay(-1).yearOfEra == 1
    ensures FromEpochDay(-1).monthOfYear == 0 && FromEpochDay(-1).dayOfMonth == 1
  {
    FromEpochDayMatches(-1, -1, 365, 0, 1);
  }

  /** Epoch day 0 is day 1 of month 1 of year 0 of era 1. */
  lemma EpochDayRow7()
    ensures Value(FromEpochDay(0).era) == 1 && FromEpochDay(0).yearOfEra == 0
    ensures FromEpochDay(0).monthOfYear == 1 && FromEpochDay(0).dayOfMonth == 1
  {
    FromEpochDayMatches(0, 0, 1, 1, 1);
  }

  /** Epoch day 1 is day 2 of month 1 of year 0 of era 1. */
  lemma EpochDayRow8()
    ensures Value(FromEpochDay(1).era) == 1 && FromEpochDay(1).yearOfEra == 0
    ensures FromEpochDay(1).monthOfYear == 1 && FromEpochDay(1).dayOfMonth == 2
  {
    FromEpochDayMatches(1, 0, 2, 1, 2);
  }

  /** Epoch day 364 is day 1 of month 0 of year 0 of era 1. */
  lemma EpochDayRow9()
    ensures Value(FromEpochDay(364).era) == 1 && FromEpochDay(364).yearOfEra == 0
    ensures FromEpochDay(364).monthOfYear == 0 && FromEpochDay(364).dayOfMonth == 1
  {
    FromEpochDayMatches(364, 0, 365, 0, 1);
  }

  /** Epoch day 365 is day 1 of month 1 of year 1 of era 1. */
  lemma EpochDayRow10()
    ensures Value(FromEpochDay(365).era) == 1 && FromEpochDay(365).yearOfEra == 1
    ensures FromEpochDay(365).monthOfYear == 1 && FromEpochDay(365).dayOfMonth == 1
  {
    FromEpochDayMatches(365, 1, 1, 1, 1);
  }

  /** Epoch day 730 is day 1 of month 1 of year 2 of era 1. */
  lemma EpochDayRow11()
    ensures Value(FromEpochDay(730).era) == 1 && FromEpochDay(730).yearOfEra == 2
    ensures FromEpochDay(730).monthOfYear == 1 && FromEpochDay(730).dayOfMonth == 1
  {
    FromEpochDayMatches(730, 2, 1, 1, 1);
  }

  /** Epoch day 731 is day 2 of month 1 of year 2 of era 1. */
  lemma EpochDayRow12()
    ensures Value(FromEpochDay(731).era) == 1 && FromEpochDay(731).yearOfEra == 2
    ensures FromEpochDay(731).monthOfYear == 1 && FromEpochDay(731).dayOfMonth == 2
  {
    FromEpochDayMatches(731, 2, 2, 1, 2);
  }

  /** Epoch day 1095 is day 2 of month 0 of year 2 of era 1. */
  lemma EpochDayRow13()
    ensures Value(FromEpochDay(1095).era) == 1 && FromEpochDay(1095).yearOfEra == 2
    ensures FromEpochDay(1095).monthOfYear == 0 && FromEpochDay(1095).dayOfMonth == 2
  {
    FromEpochDayMatches(1095, 2, 366, 0, 2);
  }

  /** Epoch day 1096 is day 1 of month 1 of year 3 of era 1. */
  lemma EpochDayRow14()
    ensures Value(FromEpochDay(1096).era) == 1 && FromEpochDay(1096).yearOfEra == 3
    ensures FromEpochDay(1096).monthOfYear == 1 && FromEpochDay(1096).dayOfMonth == 1
  {
    FromEpochDayMatches(1096, 3, 1, 1, 1);
  }

  /** Epoch day 3652 is day 1 of month 1 of year 10 of era 1. */
  lemma EpochDayRow15()
    ensures Value(FromEpochDay(3652).era) == 1 && FromEpochDay(3652).yearOfEra == 10
    ensures FromEpochDay(3652).monthOfYear == 1 && FromEpochDay(3652).dayOfMonth == 1
  {
    FromEpochDayMatches(3652, 10, 1, 1, 1);
  }

  /** Epoch day 10956 is day 1 of month 0 of year 29 of era 1. */
  lemma EpochDayRow16()
    ensures Value(FromEpochDay(10956).era) == 1 && FromEpochDay(10956).yearOfEra == 29
    ensures FromEpochDay(10956).monthOfYear == 0 && FromEpochDay(10956).dayOfMonth == 1
  {
    FromEpochDayMatches(10956, 29, 365, 0, 1);
  }

  /** Epoch day 10957 is day 1 of month 1 of year 30 of era 1. */
  lemma EpochDayRow17()
    ensures Value(FromEpochDay(10957).era) == 1 && FromEpochDay(10957).yearOfEra == 30
    ensures FromEpochDay(10957).monthOfYear == 1 && FromEpochDay(10957).dayOfMonth == 1
  {
    FromEpochDayMatches(10957, 30, 1, 1, 1);
  }

  /** Epoch day 11322 is day 2 of month 0 of year 30 of era 1. */
  lemma EpochDayRow18()
    ensures Value(FromEpochDay(11322).era) == 1 && FromEpochDay(11322).yearOfEra == 30
    ensures FromEpochDay(11322).monthOfYear == 0 && FromEpochDay(11322).dayOfMonth == 2
  {
    FromEpochDayMatches(11322, 30, 366, 0, 2);
  }

  /** Epoch day 11323 is day 1 of month 1 of year 31 of era 1. */
  lemma EpochDayRow19()
    ensures Value(FromEpochDay(11323).era) == 1 && FromEpochDay(11323).yearOfEra == 31
    ensures FromEpochDay(11323).monthOfYear == 1 && FromEpochDay(11323).dayOfMonth == 1
  {
    FromEpochDayMatches(11323, 31, 1, 1, 1);
  }

  /** The field constructor accepts era 1, year 0, month 1, day 1 and gives them back. */
  lemma ValidFieldsRow1()
    ensures Of(Mdc(SinceEpoch), 0, 1, 1).Ok?
    ensures var date := Of(Mdc(SinceEpoch), 0, 1, 1).value;
      && Value(date.era) == 1 && date.yearOfEra == 0 && date.monthOfYear == 1 && date.dayOfMonth == 1
  {
  }

  /** The field constructor accepts era 0, year 1, month 1, day 1 and gives them back. */
  lemma ValidFieldsRow2()
    ensures Of(Mdc(BeforeEpoch), 1, 1, 1).Ok?
    ensures var date := Of(Mdc(BeforeEpoch), 1, 1, 1).value;
      && Value(date.era) == 0 && date.yearOfEra == 1 && date.monthOfYear == 1 && date.dayOfMonth == 1
  {
  }

  /** The field constructor accepts era 1, year 0, month 0, day 1 and gives them back. */
  lemma ValidFieldsRow3()
    ensures Of(Mdc(SinceEpoch), 0, 0, 1).Ok?
    ensures var date := Of(Mdc(SinceEpoch), 0, 0, 1).value;
      && Value(date.era) == 1 && date.yearOfEra == 0 && date.monthOfYear == 0 && date.dayOfMonth == 1
  {
  }

  /** The field constructor accepts era 0, year 2, month 0, day 2 and gives them back. */
  lemma ValidFieldsRow4()
    ensures Of(Mdc(BeforeEpoch), 2, 0, 2).Ok?
    ensures var date := Of(Mdc(BeforeEpoch), 2, 0, 2).value;
      && Value(date.era) == 0 && date.yearOfEra == 2 && date.monthOfYear == 0 && date.dayOfMonth == 2
  {
  }

  /** The field constructor accepts era 1, year 1, month 1, day 1 and gives them back. */
  lemma ValidFieldsRow5()
    ensures Of(Mdc(SinceEpoch), 1, 1, 1).Ok?
    ensures var date := Of(Mdc(SinceEpoch), 1, 1, 1).value;
      && Value(date.era) == 1 && date.yearOfEra == 1 && date.monthOfYear == 1 && date.dayOfMonth == 1
  {
  }

  /** The field constructor accepts era 1, year 30, month 1, day 1 and gives them back. */
  lemma ValidFieldsRow6()
    ensures Of(Mdc(SinceEpoch), 30, 1, 1).Ok?
    ensures var date := Of(Mdc(SinceEpoch), 30, 1, 1).value;
      && Value(date.era) == 1 && date.yearOfEra == 30 && date.monthOfYear == 1 && date.dayOfMonth == 1
  {
  }

  /** The field constructor accepts era 1, year 50, month 12, day 28 and gives them back. */
  lemma ValidFieldsRow7()
    ensures Of(Mdc(SinceEpoch), 50, 12, 28).Ok?
    ensures var date := Of(Mdc(SinceEpoch), 50, 12, 28).value;
      && Value(date.era) == 1 && date.yearOfEra == 50 && date.monthOfYear == 12 && date.dayOfMonth == 28
  {
  }

  /** The field constructor accepts era 1, year 10, month 6, day 1 and gives them back. */
  lemma ValidFieldsRow8()
    ensures Of(Mdc(SinceEpoch), 10, 6, 1).Ok?
    ensures var date := Of(Mdc(SinceEpoch), 10, 6, 1).value;
      && Value(date.era) == 1 && date.yearOfEra == 10 && date.monthOfYear == 6 && date.dayOfMonth == 1
  {
  }

  /** The field constructor accepts era 1, year 30, month 13, day 14 and gives them back. */
  lemma ValidFieldsRow9()
    ensures Of(Mdc(SinceEpoch), 30, 13, 14).Ok?
    ensures var date := Of(Mdc(SinceEpoch), 30, 13, 14).value;
      && Value(date.era) == 1 && date.yearOfEra == 30 && date.monthOfYear == 13 && date.dayOfMonth == 14
  {
  }

  /** The field constructor accepts era 1, year 1000, month 13, day 28 and gives them back. */
  lemma ValidFieldsRow10()
    ensures Of(Mdc(SinceEpoch), 1000, 13, 28).Ok?
    ensures var date := Of(Mdc(SinceEpoch), 1000, 13, 28).value;
      && Value(date.era) == 1 && date.yearOfEra == 1000 && date.monthOfYear == 13 && date.dayOfMonth == 28
  {
  }

  /** The field constructor accepts era 0, year 5, month 10, day 28 and gives them back. */
  lemma ValidFieldsRow11()
    ensures Of(Mdc(BeforeEpoch), 5, 10, 28).Ok?
    ensures var date := Of(Mdc(BeforeEpoch), 5, 10, 28).value;
      && Value(date.era) == 0 && date.yearOfEra == 5 && date.monthOfYear == 10 && date.dayOfMonth == 28
  {
  }

  /** The field constructor accepts era 0, year 1, month 6, day 1 and gives them back. */
  lemma ValidFieldsRow12()
    ensures Of(Mdc(BeforeEpoch), 1, 6, 1).Ok?
    ensures var date := Of(Mdc(BeforeEpoch), 1, 6, 1).value;
      && Value(date.era) == 0 && date.yearOfEra == 1 && date.monthOfYear == 6 && date.dayOfMonth == 1
  {
  }

  /** The field constructor accepts era 0, year 10, month 13, day 17 and gives them back. */
  lemma ValidFieldsRow13()
    ensures Of(Mdc(BeforeEpoch), 10, 13, 17).Ok?
    ensures var date := Of(Mdc(BeforeEpoch), 10, 13, 17).value;
      && Value(date.era) == 0 && date.yearOfEra == 10 && date.monthOfYear == 13 && date.dayOfMonth == 17
  {
  }

  /** The field constructor accepts era 0, year 100, month 7, day 20 and gives them back. */
  lemma ValidFieldsRow14()
    ensures Of(Mdc(BeforeEpoch), 100, 7, 20).Ok?
    ensures var date := Of(Mdc(BeforeEpoch), 100, 7, 20).value;
      && Value(date.era) == 0 && date.yearOfEra == 100 && date.monthOfYear == 7 && date.dayOfMonth == 20
  {
  }

  /** The field constructor accepts era 0, year 1970, month 1, day 1 and gives them back. */
  lemma ValidFieldsRow15()
    ensures Of(Mdc(BeforeEpoch), 1970, 1, 1).Ok?
    ensures var date := Of(Mdc(BeforeEpoch), 1970, 1, 1).value;
      && Value(date.era) == 0 && date.yearOfEra == 1970 && date.monthOfYear == 1 && date.dayOfMonth == 1
  {
  }

  /** Every tuple of the invalid list is rejected with the invalid-date error. */
  lemma InvalidFieldsTable()
    ensures Of(Mdc(SinceEpoch), 0, 0, 0) == Err(InvalidDate)
    ensures Of(Mdc(SinceEpoch), 0, 0, 2) == Err(InvalidDate)
    ensures Of(Mdc(SinceEpoch), 0, 0, 3) == Err(InvalidDate)
    ensures Of(Mdc(SinceEpoch), 2, 0, 3) == Err(InvalidDate)
    ensures Of(Mdc(SinceEpoch), 0, 0, 4) == Err(InvalidDate)
    ensures Of(Mdc(SinceEpoch), 2, 0, 4) == Err(InvalidDate)
    ensures Of(Mdc(SinceEpoch), 0, 0, 28) == Err(InvalidDate)
    ensures Of(Mdc(SinceEpoch), 0, 1, 29) == Err(InvalidDate)
    ensures Of(Mdc(SinceEpoch), 0, 1, 31) == Err(InvalidDate)
    ensures Of(Mdc(SinceEpoch), 0, 2, 29) == Err(InvalidDate)
    ensures Of(Mdc(SinceEpoch), 0, 14, 1) == Err(InvalidDate)
    ensures Of(Mdc(BeforeEpoch), -1, 1, 1) == Err(InvalidDate)
    ensures Of(Mdc(SinceEpoch), -1, 1, 1) == Err(InvalidDate)
    ensures Of(Mdc(SinceEpoch), 0, -1, 1) == Err(InvalidDate)
    ensures Of(Mdc(BeforeEpoch), 1, 1, -10) == Err(InvalidDate)
  {
  }
}
