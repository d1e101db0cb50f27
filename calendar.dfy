/**
 * Proleptic-Gregorian calendar arithmetic behind `Date.prototype.toISOString`
 * (section 21.4.1 of ECMA-262): the day number of a civil date, computed as the standard
 * defines it, and its inverse, computed by splitting a day number into 400-, 100-, 4- and
 * 1-year periods.
 */
module Calendar {

  /** ECMA-262 DayFromYear: days from 1970-01-01 to 1 January of year `y` (floor division). */
  function DayFromYear(y: int): int {
    365 * (y - 1970) + (y - 1969) / 4 - (y - 1901) / 100 + (y - 1601) / 400
  }

  predicate IsLeapYear(y: int) {
    y % 4 == 0 && (y % 100 != 0 || y % 400 == 0)
  }

  function DaysInYear(y: int): int {
    if IsLeapYear(y) then 366 else 365
  }

  function DaysInMonth(y: int, m: int): int
    requires 1 <= m <= 12
  {
    if m == 2 then (if IsLeapYear(y) then 29 else 28)
    else if m == 4 || m == 6 || m == 9 || m == 11 then 30
    else 31
  }

  /** The day-within-year at which month `m` starts (ECMA-262 MonthFromTime's table);
    * month 13 stands for the end of the year. */
  function DaysBeforeMonth(y: int, m: int): int
    requires 1 <= m <= 13
  {
    [0, 31, 59, 90, 120, 151, 181, 212, 243, 273, 304, 334, 365][m - 1]
      + (if m > 2 && IsLeapYear(y) then 1 else 0)
  }

  datatype Date = Date(year: int, month: int, day: int)

  predicate ValidDate(d: Date) {
    1 <= d.month <= 12 && 1 <= d.day <= DaysInMonth(d.year, d.month)
  }

  /** Days from 1970-01-01 to the date: MakeDay of ECMA-262 for an in-range month. */
  function DaysFromCivil(d: Date): int
    requires 1 <= d.month <= 12
  {
    DayFromYear(d.year) + DaysBeforeMonth(d.year, d.month) + d.day - 1
  }

  /** Consecutive months tile the year. */
  lemma MonthStep(y: int, m: int)
    requires 1 <= m <= 12
    ensures DaysBeforeMonth(y, m + 1) == DaysBeforeMonth(y, m) + DaysInMonth(y, m)
    ensures DaysBeforeMonth(y, 13) == DaysInYear(y) && DaysBeforeMonth(y, 1) == 0
  {
  }

  lemma {:induction false} MonthMonotone(y: int, m: int, m': int)
    requires 1 <= m < m' <= 13
    ensures DaysBeforeMonth(y, m) + DaysInMonth(y, m) <= DaysBeforeMonth(y, m')
    decreases m' - m
  {
    MonthStep(y, m);
    if m + 1 < m' {
      MonthMonotone(y, m + 1, m');
    }
  }

  /** Consecutive years tile the day line. */
  lemma DayFromYearStep(y: int)
    ensures DayFromYear(y + 1) == DayFromYear(y) + DaysInYear(y)
  {
    LeapDivisorStep4(y);
    LeapDivisorStep100(y);
    LeapDivisorStep400(y);
    var d4 := if y % 4 == 0 then 1 else 0;
    var d100 := if y % 100 == 0 then 1 else 0;
    var d400 := if y % 400 == 0 then 1 else 0;
    assert DayFromYear(y + 1) == DayFromYear(y) + 365 + d4 - d100 + d400;
    DivisorChain(y);
  }

  /** A multiple of 400 is a multiple of 100, and a multiple of 100 one of 4. */
  lemma DivisorChain(y: int)
    ensures y % 400 == 0 ==> y % 100 == 0
    ensures y % 100 == 0 ==> y % 4 == 0
  {
    if y % 400 == 0 {
      var k, d := y / 400, y / 100;
      assert y == 400 * k && y == 100 * d + y % 100;
      assert y % 100 == 100 * (4 * k - d);
    }
    if y % 100 == 0 {
      var k, d := y / 100, y / 4;
      assert y == 100 * k && y == 4 * d + y % 4;
      assert y % 4 == 4 * (25 * k - d);
    }
  }

  /** The count of fourth years steps up exactly at a multiple of 4. */
  lemma LeapDivisorStep4(y: int)
    ensures (y + 1 - 1969) / 4 == (y - 1969) / 4 + (if y % 4 == 0 then 1 else 0)
  {
    var t := y - 1968;
    assert t % 4 == y % 4;
  }

  /** The count of centuries steps up exactly at a multiple of 100. */
  lemma LeapDivisorStep100(y: int)
    ensures (y + 1 - 1901) / 100 == (y - 1901) / 100 + (if y % 100 == 0 then 1 else 0)
  {
    var t := y - 1900;
    assert t % 100 == y % 100;
  }

  /** The count of fourth centuries steps up exactly at a multiple of 400. */
  lemma LeapDivisorStep400(y: int)
    ensures (y + 1 - 1601) / 400 == (y - 1601) / 400 + (if y % 400 == 0 then 1 else 0)
  {
    var t := y - 1600;
    assert t % 400 == y % 400;
  }

  lemma {:induction false} DayFromYearMonotone(a: int, b: int)
    requires a <= b
    ensures DayFromYear(a) + 365 * (b - a) <= DayFromYear(b)
    decreases b - a
  {
    if a < b {
      DayFromYearMonotone(a, b - 1);
      DayFromYearStep(b - 1);
    }
  }

  /** DayFromYear on a year written as 1 + 400 era + 100 c + 4 q + y4. */
  lemma YearDecomposition(era: int, c: int, q: int, y4: int)
    requires 0 <= c <= 3 && 0 <= q <= 24 && 0 <= y4 <= 3
    ensures DayFromYear(1 + 400 * era + 100 * c + 4 * q + y4)
         == 146097 * era + 36524 * c + 1461 * q + 365 * y4 - 719162
  {
    var y := 1 + 400 * era + 100 * c + 4 * q + y4;
    assert (y - 1969) / 4 == 100 * era + 25 * c + q - 492;
    assert (y - 1901) / 100 == 4 * era + c - 19;
    assert (y - 1601) / 400 == era - 4;
  }

  /** The last day of a period is day 365 of its year only when that year is a leap year. */
  lemma LastDayIsLeap(era: int, c: int, q: int)
    requires 0 <= c <= 3 && 0 <= q <= 24 && (c < 3 ==> q < 24)
    ensures IsLeapYear(1 + 400 * era + 100 * c + 4 * q + 3)
  {
    var y := 1 + 400 * era + 100 * c + 4 * q + 3;
    assert y == 4 * (100 * era + 25 * c + q + 1);
    if q == 24 {
      assert y == 400 * (era + 1);
    } else {
      assert y % 100 == 4 * q + 4;
    }
  }

  /** The month containing day-within-year `doy`, searched from month `m` on. */
  function MonthContaining(y: int, doy: int, m: int): (r: int)
    requires 1 <= m <= 12 && DaysBeforeMonth(y, m) <= doy < DaysInYear(y)
    ensures m <= r <= 12
    ensures DaysBeforeMonth(y, r) <= doy < DaysBeforeMonth(y, r) + DaysInMonth(y, r)
    decreases 12 - m
  {
    MonthStep(y, m);
    if doy < DaysBeforeMonth(y, m) + DaysInMonth(y, m) then m
    else MonthContaining(y, doy, m + 1)
  }

  /** The civil date of a day number: a valid date whose day number is `z`. */
  function CivilFromDays(z: int): (d: Date)
    ensures ValidDate(d) && DaysFromCivil(d) == z
    ensures 400 * ((z + 719162) / 146097) < d.year <= 400 * ((z + 719162) / 146097) + 400
  {
    var n := z + 719162;             // days since 0001-01-01
    var era := n / 146097;           // whole 400-year periods
    var doe := n % 146097;
    var c := if doe / 36524 < 3 then doe / 36524 else 3;
    var doc := doe - 36524 * c;      // day within the 100-year period
    var q := doc / 1461;
    var doq := doc % 1461;           // day within the 4-year period
    var y4 := if doq / 365 < 3 then doq / 365 else 3;
    var doy := doq - 365 * y4;       // day within the year
    var year := 1 + 400 * era + 100 * c + 4 * q + y4;
    YearDecomposition(era, c, q, y4);
    assert doy < DaysInYear(year) by {
      if doy == 365 {
        LastDayIsLeap(era, c, q);
      }
    }
    MonthStep(year, 1);
    var m := MonthContaining(year, doy, 1);
    Date(year, m, doy - DaysBeforeMonth(year, m) + 1)
  }

  /** Lexicographic order on (year, month, day). */
  predicate DateLess(a: Date, b: Date) {
    a.year < b.year
    || (a.year == b.year && a.month < b.month)
    || (a.year == b.year && a.month == b.month && a.day < b.day)
  }

  /** A valid date's day number lies inside its year. */
  lemma DayWithinYear(d: Date)
    requires ValidDate(d)
    ensures DayFromYear(d.year) <= DaysFromCivil(d) < DayFromYear(d.year) + DaysInYear(d.year)
  {
    MonthStep(d.year, d.month);
    if d.month < 12 {
      MonthMonotone(d.year, d.month + 1, 13);
    }
  }

  /** Later dates have larger day numbers. */
  lemma DaysFromCivilMonotone(a: Date, b: Date)
    requires ValidDate(a) && ValidDate(b) && DateLess(a, b)
    ensures DaysFromCivil(a) < DaysFromCivil(b)
  {
    if a.year < b.year {
      DayWithinYear(a);
      DayWithinYear(b);
      DayFromYearStep(a.year);
      DayFromYearMonotone(a.year + 1, b.year);
    } else if a.month < b.month {
      MonthMonotone(a.year, a.month, b.month);
    }
  }

  /** Distinct day numbers give distinct dates, in the same order. */
  lemma CivilFromDaysMonotone(z1: int, z2: int)
    requires z1 < z2
    ensures DateLess(CivilFromDays(z1), CivilFromDays(z2))
  {
    var a, b := CivilFromDays(z1), CivilFromDays(z2);
    if !DateLess(a, b) {
      if a == b {
      } else {
        DaysFromCivilMonotone(b, a);
      }
    }
  }

  /** The inverse direction: a valid date is recovered from its day number. */
  lemma CivilRoundTrip(d: Date)
    requires ValidDate(d)
    ensures CivilFromDays(DaysFromCivil(d)) == d
  {
    var d' := CivilFromDays(DaysFromCivil(d));
    if d' != d {
      if DateLess(d, d') {
        DaysFromCivilMonotone(d, d');
      } else {
        DaysFromCivilMonotone(d', d);
      }
    }
  }
}
