/** The proleptic Gregorian calendar of ISO 8601 (section 3.2.1 of ISO 8601:2004), the
    calendar of java.time.LocalDate: years are numbered with a year 0, the Gregorian leap
    rule applies to every year, and days are counted from 1970-01-01, epoch day 0.
    This module stands in for `LocalDate.ofEpochDay(...).getYear()` and `.getDayOfYear()`,
    which the epoch-day constructor of a date relies on. */
module IsoCalendar {
  const DaysPerCycle: int := 146097     // 400 Gregorian years
  const DaysPerCentury: int := 36524    // 100 years whose last is common
  const DaysPerOlympiad: int := 1461    // 4 years whose last is leap
  const DaysBeforeEpoch: int := 719162  // from 0001-01-01 to 1970-01-01

  /** The Gregorian leap rule. */
  predicate IsLeap(y: int) {
    y % 4 == 0 && (y % 100 != 0 || y % 400 == 0)
  }

  function LengthOfYear(y: int): int {
    if IsLeap(y) then 366 else 365
  }

  /** The number of days in ISO years 1 to m (for m < 0, minus the days in years m+1 to 0). */
  function DaysInYears(m: int): int {
    365 * m + m / 4 - m / 100 + m / 400
  }

  /** The epoch day of January 1st of ISO year y. */
  function YearStart(y: int): int {
    DaysInYears(y - 1) - DaysBeforeEpoch
  }

  lemma DivStep(y: int)
    ensures y / 4 - (y - 1) / 4 == (if y % 4 == 0 then 1 else 0)
    ensures y / 100 - (y - 1) / 100 == (if y % 100 == 0 then 1 else 0)
    ensures y / 400 - (y - 1) / 400 == (if y % 400 == 0 then 1 else 0)
  {
  }

  /** Consecutive years start exactly one year length apart. */
  lemma YearStartStep(y: int)
    ensures YearStart(y + 1) == YearStart(y) + LengthOfYear(y)
  {
    DivStep(y);
    DivisorChain(y);
    assert DaysInYears(y) - DaysInYears(y - 1)
        == 365 + (y / 4 - (y - 1) / 4) - (y / 100 - (y - 1) / 100) + (y / 400 - (y - 1) / 400);
  }

  lemma DivisorChain(y: int)
    ensures y % 400 == 0 ==> y % 100 == 0
    ensures y % 100 == 0 ==> y % 4 == 0
  {
    Multiple400(y);
    Multiple100(y);
  }

  lemma Multiple400(y: int)
    ensures y % 400 == 0 ==> y % 100 == 0
  {
    if y % 400 == 0 {
      assert y == 400 * (y / 400);
    }
  }

  lemma Multiple100(y: int)
    ensures y % 100 == 0 ==> y % 4 == 0
  {
    if y % 100 == 0 {
      assert y == 100 * (y / 100);
    }
  }

  /** Years start in strictly increasing order. */
  lemma {:induction false} YearStartMonotone(y: int, z: int)
    requires y < z
    ensures YearStart(y + 1) <= YearStart(z)
    decreases z - y
  {
    if y + 1 < z {
      YearStartMonotone(y, z - 1);
      YearStartStep(z - 1);
    }
  }

  /** The days in whole 400-, 100-, 4- and 1-year blocks. */
  lemma DaysInBlocks(a: int, c: int, f: int, g: int)
    requires 0 <= c <= 3 && 0 <= f <= 24 && 0 <= g <= 3
    ensures DaysInYears(400 * a + 100 * c + 4 * f + g)
         == DaysPerCycle * a + DaysPerCentury * c + DaysPerOlympiad * f + 365 * g
  {
    var m := 400 * a + 100 * c + 4 * f + g;
    assert m / 4 == 100 * a + 25 * c + f;
    assert m / 100 == 4 * a + c;
    assert m / 400 == a;
  }

  /** A year and an ordinal day within it, as `LocalDate` reports them. */
  datatype YearDay = YearDay(year: int, dayOfYear: int)

  /** The ISO year and day-of-year of an epoch day, by splitting the days since 0001-01-01
      into 400-year (146097-day), 100-year (36524-day), 4-year (1461-day) and 1-year blocks;
      the last 100-year block of a cycle and the last year of a 4-year block are one day
      longer, which is why those two counts are capped at 3. */
  function OfEpochDay(e: int): (d: YearDay)
    ensures 1 <= d.dayOfYear <= LengthOfYear(d.year)
    ensures YearStart(d.year) + d.dayOfYear - 1 == e
  {
    var n := e + 719162;
    var cycles := n / 146097;
    var r400 := n % 146097;
    var centuries := if r400 / 36524 == 4 then 3 else r400 / 36524;
    var r100 := r400 - 36524 * centuries;
    var olympiads := r100 / 1461;
    var r4 := r100 % 1461;
    var years := if r4 / 365 == 4 then 3 else r4 / 365;
    var r1 := r4 - 365 * years;
    BlocksFit(n, cycles, r400, centuries, r100, olympiads, r4, years, r1);
    YearDay(400 * cycles + 100 * centuries + 4 * olympiads + years + 1, r1 + 1)
  }

  lemma BlocksFit(n: int, cycles: int, r400: int, centuries: int, r100: int,
                  olympiads: int, r4: int, years: int, r1: int)
    requires n == 146097 * cycles + r400 && 0 <= r400 < 146097
    requires centuries == (if r400 / 36524 == 4 then 3 else r400 / 36524)
    requires r100 == r400 - 36524 * centuries
    requires r100 == 1461 * olympiads + r4 && 0 <= r4 < 1461
    requires years == (if r4 / 365 == 4 then 3 else r4 / 365)
    requires r1 == r4 - 365 * years
    ensures var m := 400 * cycles + 100 * centuries + 4 * olympiads + years;
      && 0 <= r1 < LengthOfYear(m + 1)
      && YearStart(m + 1) + r1 == n - 719162
  {
    BlockBounds(r400, centuries, r100, olympiads, r4, years, r1);
    DaysInBlocks(cycles, centuries, olympiads, years);
    if r1 == 365 {
      LastBlockDayIsLeap(cycles, centuries, olympiads);
    }
  }

  /** The block counts of a day within a 400-year cycle, and where its 366th year day falls. */
  lemma BlockBounds(r400: int, centuries: int, r100: int, olympiads: int, r4: int, years: int, r1: int)
    requires 0 <= r400 < 146097
    requires centuries == (if r400 / 36524 == 4 then 3 else r400 / 36524)
    requires r100 == r400 - 36524 * centuries
    requires r100 == 1461 * olympiads + r4 && 0 <= r4 < 1461
    requires years == (if r4 / 365 == 4 then 3 else r4 / 365)
    requires r1 == r4 - 365 * years
    ensures 0 <= centuries <= 3 && 0 <= olympiads <= 24 && 0 <= years <= 3 && 0 <= r1 <= 365
    ensures r1 == 365 ==> years == 3 && (olympiads == 24 ==> centuries == 3)
  {
    assert 0 <= r100 <= 36524;
  }

  /** The last year of a 4-year block is a leap year, also at the end of a 400-year cycle. */
  lemma LastBlockDayIsLeap(cycles: int, centuries: int, olympiads: int)
    requires 0 <= centuries <= 3 && 0 <= olympiads <= 24
    requires olympiads == 24 ==> centuries == 3
    ensures IsLeap(400 * cycles + 100 * centuries + 4 * olympiads + 4)
  {
    if olympiads == 24 {
      CycleEndIsLeap(cycles + 1);
    } else {
      InCenturyIsLeap(4 * cycles + centuries, olympiads + 1);
    }
  }

  lemma CycleEndIsLeap(c: int)
    ensures IsLeap(400 * c)
  {
    var y := 400 * c;
    assert y % 400 == 0;
    DivisorChain(y);
  }

  lemma InCenturyIsLeap(c: int, j: int)
    requires 1 <= j <= 24
    ensures IsLeap(100 * c + 4 * j)
  {
    var y := 100 * c + 4 * j;
    assert y == 4 * (25 * c + j);
    assert y % 4 == 0;
    CenturyRemainder(y, c, 4 * j);
  }

  /** The remainder modulo 100 is the unique one. */
  lemma CenturyRemainder(y: int, q: int, r: int)
    requires y == 100 * q + r && 0 <= r < 100
    ensures y % 100 == r
  {
    var q', r' := y / 100, y % 100;
    assert 100 * (q - q') == r' - r;
  }

  /** Each epoch day lies in exactly one year: the decomposition is the only one. */
  lemma OfEpochDayUnique(e: int, y: int, doy: int)
    requires 1 <= doy <= LengthOfYear(y)
    requires YearStart(y) + doy - 1 == e
    ensures OfEpochDay(e) == YearDay(y, doy)
  {
    var d := OfEpochDay(e);
    YearStartStep(y);
    YearStartStep(d.year);
    if d.year < y {
      YearStartMonotone(d.year, y);
    } else if y < d.year {
      YearStartMonotone(y, d.year);
    }
  }

  /** A year of m days counts at least 364 of them, whichever the sign of m. */
  lemma DaysInYearsBounds(m: int)
    ensures m >= 0 ==> DaysInYears(m) >= 364 * m
    ensures m < 0 ==> DaysInYears(m) <= 364 * m + 1
  {
  }

  /** The year of an epoch day grows at most linearly with the epoch day. */
  lemma OfEpochDayYearBounds(e: int)
    ensures OfEpochDay(e).year >= 1 ==> 364 * (OfEpochDay(e).year - 1) <= e + DaysBeforeEpoch
    ensures OfEpochDay(e).year < 1 ==> 364 * (OfEpochDay(e).year - 1) + 1 - DaysBeforeEpoch + 365 >= e
  {
    DaysInYearsBounds(OfEpochDay(e).year - 1);
  }
}
