/** The tables of the chronology tests (ModernDigitalChronologyTest.java), evaluated on the
    model: the leap years, the first epoch day of a year, the ordinal day of a (month, day)
    pair, the invalid pairs, the week of an ordinal day and the invalid ordinal days. */
module ChronologyExamples {
  import opened Outcomes
  import opened Chronology
  /** `isLeapYear` on the years of the leap-year table. */
  lemma LeapYearTable()
    ensures !IsLeapYear(-70)
    ensures IsLeapYear(-10)
    ensures IsLeapYear(-6)
    ensures !IsLeapYear(-5)
    ensures !IsLeapYear(-4)
    ensures !IsLeapYear(-3)
    ensures IsLeapYear(-2)
    ensures !IsLeapYear(-1)
    ensures !IsLeapYear(0)
    ensures !IsLeapYear(1)
    ensures IsLeapYear(2)
    ensures !IsLeapYear(3)
    ensures !IsLeapYear(4)
    ensures !IsLeapYear(5)
    ensures IsLeapYear(6)
    ensures IsLeapYear(10)
    ensures IsLeapYear(30)
  {
  }

  /** `epochDay(year, 1, 1)` on the years -100 to -14 of the first-epoch-day table. */
  lemma FirstEpochDayTable1()
    ensures EpochDayOf(-100, 1, 1) == Ok(-36524)
    ensures EpochDayOf(-99, 1, 1) == Ok(-36159)
    ensures EpochDayOf(-98, 1, 1) == Ok(-35794)
    ensures EpochDayOf(-70, 1, 1) == Ok(-25567)
    ensures EpochDayOf(-22, 1, 1) == Ok(-8036)
    ensures EpochDayOf(-18, 1, 1) == Ok(-6575)
    ensures EpochDayOf(-14, 1, 1) == Ok(-5114)
  {
  }

  /** `epochDay(year, 1, 1)` on the years -11 to -5 of the first-epoch-day table. */
  lemma FirstEpochDayTable2()
    ensures EpochDayOf(-11, 1, 1) == Ok(-4018)
    ensures EpochDayOf(-10, 1, 1) == Ok(-3653)
    ensures EpochDayOf(-9, 1, 1) == Ok(-3287)
    ensures EpochDayOf(-8, 1, 1) == Ok(-2922)
    ensures EpochDayOf(-7, 1, 1) == Ok(-2557)
    ensures EpochDayOf(-6, 1, 1) == Ok(-2192)
    ensures EpochDayOf(-5, 1, 1) == Ok(-1826)
  {
  }

  /** `epochDay(year, 1, 1)` on the years -4 to 2 of the first-epoch-day table. */
  lemma FirstEpochDayTable3()
    ensures EpochDayOf(-4, 1, 1) == Ok(-1461)
    ensures EpochDayOf(-3, 1, 1) == Ok(-1096)
    ensures EpochDayOf(-2, 1, 1) == Ok(-731)
    ensures EpochDayOf(-1, 1, 1) == Ok(-365)
    ensures EpochDayOf(0, 1, 1) == Ok(0)
    ensures EpochDayOf(1, 1, 1) == Ok(365)
    ensures EpochDayOf(2, 1, 1) == Ok(730)
  {
  }

  /** `epochDay(year, 1, 1)` on the years 3 to 9 of the first-epoch-day table. */
  lemma FirstEpochDayTable4()
    ensures EpochDayOf(3, 1, 1) == Ok(1096)
    ensures EpochDayOf(4, 1, 1) == Ok(1461)
    ensures EpochDayOf(5, 1, 1) == Ok(1826)
    ensures EpochDayOf(6, 1, 1) == Ok(2191)
    ensures EpochDayOf(7, 1, 1) == Ok(2557)
    ensures EpochDayOf(8, 1, 1) == Ok(2922)
    ensures EpochDayOf(9, 1, 1) == Ok(3287)
  {
  }

  /** `epochDay(year, 1, 1)` on the years 10 to 22 of the first-epoch-day table. */
  lemma FirstEpochDayTable5()
    ensures EpochDayOf(10, 1, 1) == Ok(3652)
    ensures EpochDayOf(11, 1, 1) == Ok(4018)
    ensures EpochDayOf(14, 1, 1) == Ok(5113)
    ensures EpochDayOf(15, 1, 1) == Ok(5479)
    ensures EpochDayOf(18, 1, 1) == Ok(6574)
    ensures EpochDayOf(19, 1, 1) == Ok(6940)
    ensures EpochDayOf(22, 1, 1) == Ok(8035)
  {
  }

  /** `epochDay(year, 1, 1)` on the years 23 to 100 of the first-epoch-day table. */
  lemma FirstEpochDayTable6()
    ensures EpochDayOf(23, 1, 1) == Ok(8401)
    ensures EpochDayOf(30, 1, 1) == Ok(10957)
    ensures EpochDayOf(31, 1, 1) == Ok(11323)
    ensures EpochDayOf(98, 1, 1) == Ok(35794)
    ensures EpochDayOf(99, 1, 1) == Ok(36160)
    ensures EpochDayOf(100, 1, 1) == Ok(36525)
  {
  }

  /** `ordinalDayOfYear` on the pairs of the day-of-year table. */
  lemma DayOfYearTable()
    ensures OrdinalDayOfYear(1, 1) == Ok(1)
    ensures OrdinalDayOfYear(2, 1) == Ok(29)
    ensures OrdinalDayOfYear(2, 14) == Ok(42)
    ensures OrdinalDayOfYear(2, 17) == Ok(45)
    ensures OrdinalDayOfYear(3, 1) == Ok(57)
    ensures OrdinalDayOfYear(4, 1) == Ok(85)
    ensures OrdinalDayOfYear(5, 1) == Ok(113)
    ensures OrdinalDayOfYear(6, 1) == Ok(141)
    ensures OrdinalDayOfYear(7, 1) == Ok(169)
    ensures OrdinalDayOfYear(8, 1) == Ok(197)
    ensures OrdinalDayOfYear(9, 1) == Ok(225)
    ensures OrdinalDayOfYear(9, 10) == Ok(234)
    ensures OrdinalDayOfYear(10, 1) == Ok(253)
    ensures OrdinalDayOfYear(11, 1) == Ok(281)
    ensures OrdinalDayOfYear(12, 1) == Ok(309)
    ensures OrdinalDayOfYear(12, 17) == Ok(325)
    ensures OrdinalDayOfYear(13, 1) == Ok(337)
    ensures OrdinalDayOfYear(13, 23) == Ok(359)
    ensures OrdinalDayOfYear(0, 1) == Ok(365)
    ensures OrdinalDayOfYear(0, 2) == Ok(366)
  {
  }

  /** `ordinalDayOfYear` rejects every pair of the invalid-pair table. */
  lemma InvalidMonthDayTable()
    ensures OrdinalDayOfYear(0, 0) == Err(InvalidDate)
    ensures OrdinalDayOfYear(0, 3) == Err(InvalidDate)
    ensures OrdinalDayOfYear(0, 10) == Err(InvalidDate)
    ensures OrdinalDayOfYear(0, 28) == Err(InvalidDate)
    ensures OrdinalDayOfYear(1, 0) == Err(InvalidDate)
    ensures OrdinalDayOfYear(1, -1) == Err(InvalidDate)
    ensures OrdinalDayOfYear(1, 29) == Err(InvalidDate)
    ensures OrdinalDayOfYear(2, -5) == Err(InvalidDate)
    ensures OrdinalDayOfYear(13, -28) == Err(InvalidDate)
    ensures OrdinalDayOfYear(-1, -1) == Err(InvalidDate)
    ensures OrdinalDayOfYear(-1, 0) == Err(InvalidDate)
    ensures OrdinalDayOfYear(-1, 7) == Err(InvalidDate)
    ensures OrdinalDayOfYear(-2, 1) == Err(InvalidDate)
    ensures OrdinalDayOfYear(-6, 14) == Err(InvalidDate)
    ensures OrdinalDayOfYear(14, 1) == Err(InvalidDate)
    ensures OrdinalDayOfYear(15, 8) == Err(InvalidDate)
    ensures OrdinalDayOfYear(28, 1) == Err(InvalidDate)
  {
  }

  /** `ordinalWeekOfYear` on the days of the week-of-year table. */
  lemma WeekOfYearTable()
    ensures OrdinalWeekOfYear(1) == Ok(1)
    ensures OrdinalWeekOfYear(2) == Ok(1)
    ensures OrdinalWeekOfYear(7) == Ok(1)
    ensures OrdinalWeekOfYear(8) == Ok(2)
    ensures OrdinalWeekOfYear(14) == Ok(2)
    ensures OrdinalWeekOfYear(15) == Ok(3)
    ensures OrdinalWeekOfYear(21) == Ok(3)
    ensures OrdinalWeekOfYear(22) == Ok(4)
    ensures OrdinalWeekOfYear(28) == Ok(4)
    ensures OrdinalWeekOfYear(29) == Ok(5)
    ensures OrdinalWeekOfYear(36) == Ok(6)
    ensures OrdinalWeekOfYear(43) == Ok(7)
    ensures OrdinalWeekOfYear(50) == Ok(8)
    ensures OrdinalWeekOfYear(57) == Ok(9)
    ensures OrdinalWeekOfYear(64) == Ok(10)
    ensures OrdinalWeekOfYear(71) == Ok(11)
    ensures OrdinalWeekOfYear(78) == Ok(12)
    ensures OrdinalWeekOfYear(85) == Ok(13)
    ensures OrdinalWeekOfYear(92) == Ok(14)
    ensures OrdinalWeekOfYear(99) == Ok(15)
    ensures OrdinalWeekOfYear(106) == Ok(16)
    ensures OrdinalWeekOfYear(113) == Ok(17)
    ensures OrdinalWeekOfYear(120) == Ok(18)
    ensures OrdinalWeekOfYear(127) == Ok(19)
    ensures OrdinalWeekOfYear(134) == Ok(20)
    ensures OrdinalWeekOfYear(141) == Ok(21)
    ensures OrdinalWeekOfYear(148) == Ok(22)
    ensures OrdinalWeekOfYear(155) == Ok(23)
    ensures OrdinalWeekOfYear(162) == Ok(24)
    ensures OrdinalWeekOfYear(169) == Ok(25)
    ensures OrdinalWeekOfYear(176) == Ok(26)
    ensures OrdinalWeekOfYear(364) == Ok(52)
    ensures OrdinalWeekOfYear(365) == Ok(0)
    ensures OrdinalWeekOfYear(366) == Ok(0)
  {
  }

  /** `ordinalWeekOfYear` rejects every day of the invalid-day table. */
  lemma InvalidDayOfYearTable()
    ensures OrdinalWeekOfYear(-1000) == Err(InvalidDate)
    ensures OrdinalWeekOfYear(-365) == Err(InvalidDate)
    ensures OrdinalWeekOfYear(-100) == Err(InvalidDate)
    ensures OrdinalWeekOfYear(-50) == Err(InvalidDate)
    ensures OrdinalWeekOfYear(-25) == Err(InvalidDate)
    ensures OrdinalWeekOfYear(-10) == Err(InvalidDate)
    ensures OrdinalWeekOfYear(-5) == Err(InvalidDate)
    ensures OrdinalWeekOfYear(-4) == Err(InvalidDate)
    ensures OrdinalWeekOfYear(-3) == Err(InvalidDate)
    ensures OrdinalWeekOfYear(-2) == Err(InvalidDate)
    ensures OrdinalWeekOfYear(-1) == Err(InvalidDate)
    ensures OrdinalWeekOfYear(0) == Err(InvalidDate)
    ensures OrdinalWeekOfYear(367) == Err(InvalidDate)
    ensures OrdinalWeekOfYear(368) == Err(InvalidDate)
    ensures OrdinalWeekOfYear(369) == Err(InvalidDate)
    ensures OrdinalWeekOfYear(370) == Err(InvalidDate)
    ensures OrdinalWeekOfYear(400) == Err(InvalidDate)
    ensures OrdinalWeekOfYear(425) == Err(InvalidDate)
    ensures OrdinalWeekOfYear(500) == Err(InvalidDate)
    ensures OrdinalWeekOfYear(1000) == Err(InvalidDate)
  {
  }
}
