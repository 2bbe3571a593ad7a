/**
 * The proleptic Gregorian calendar that ECMAScript Date objects use,
 * as a bijection between valid (year, month, day) triples and day numbers.
 * Day number 0 is 1970-01-01, as in the Day(t) operation of ECMA-262.
 */
module Calendar {

  datatype CivilDate = CivilDate(year: int, month: int, day: int)

  predicate IsLeapYear(y: int) {
    (y % 4 == 0 && y % 100 != 0) || y % 400 == 0
  }

  function YearLength(y: int): int {
    if IsLeapYear(y) then 366 else 365
  }

  function DaysInMonth(y: int, m: int): (n: int)
    requires 1 <= m <= 12
    ensures 28 <= n <= 31
    ensures m == 2 ==> (n == 29 <==> IsLeapYear(y))
  {
    if m == 2 then (if IsLeapYear(y) then 29 else 28)
    else if m == 4 || m == 6 || m == 9 || m == 11 then 30
    else 31
  }

  predicate ValidDate(d: CivilDate) {
    1 <= d.month <= 12 && 1 <= d.day <= DaysInMonth(d.year, d.month)
  }

  /** Days of the months before month m in a common year. */
  function CommonDaysBefore(m: int): int
    requires 1 <= m <= 12
  {
    if m == 1 then 0 else if m == 2 then 31 else if m == 3 then 59
    else if m == 4 then 90 else if m == 5 then 120 else if m == 6 then 151
    else if m == 7 then 181 else if m == 8 then 212 else if m == 9 then 243
    else if m == 10 then 273 else if m == 11 then 304 else 334
  }

  /** Days of year y that lie before the first of month m. */
  function DaysBeforeMonth(y: int, m: int): int
    requires 1 <= m <= 12
  {
    CommonDaysBefore(m) + (if m > 2 && IsLeapYear(y) then 1 else 0)
  }

  /** Days from 0001-01-01 to the first of January of year y (negative before year 1). */
  function DaysBeforeYear(y: int): int {
    var k := y - 1;
    365 * k + k / 4 - k / 100 + k / 400
  }

  /** DaysBeforeYear(1970): the distance between the two epochs. */
  const UnixEpochDays: int := 719162

  function DayNumber(d: CivilDate): int
    requires ValidDate(d)
  {
    DaysBeforeYear(d.year) + DaysBeforeMonth(d.year, d.month) + d.day - 1 - UnixEpochDays
  }

  /** The year holding the day that lies a days after 0001-01-01. */
  function YearOf(a: int): int {
    var k0 := (400 * a) / 146097;
    if a >= DaysBeforeYear(k0 + 2) then k0 + 2
    else if a >= DaysBeforeYear(k0 + 1) then k0 + 1
    else k0
  }

  /** The month holding day r (counted from 0) of year y. */
  function MonthOf(y: int, r: int): (m: int)
    ensures 1 <= m <= 12
  {
    var l := if IsLeapYear(y) then 1 else 0;
    if r < 31 then 1 else if r < 59 + l then 2 else if r < 90 + l then 3
    else if r < 120 + l then 4 else if r < 151 + l then 5 else if r < 181 + l then 6
    else if r < 212 + l then 7 else if r < 243 + l then 8 else if r < 273 + l then 9
    else if r < 304 + l then 10 else if r < 334 + l then 11 else 12
  }

  function FromDayNumber(n: int): CivilDate {
    var a := n + UnixEpochDays;
    var y := YearOf(a);
    var r := a - DaysBeforeYear(y);
    var m := MonthOf(y, r);
    CivilDate(y, m, r - DaysBeforeMonth(y, m) + 1)
  }

  // ---------------------------------------------------------------------------
  // Arithmetic facts about the closed forms

  lemma YearStep(y: int)
    ensures DaysBeforeYear(y + 1) == DaysBeforeYear(y) + YearLength(y)
  {
    var k := y - 1;
    assert y / 4 - k / 4 == (if y % 4 == 0 then 1 else 0);
    assert y / 100 - k / 100 == (if y % 100 == 0 then 1 else 0);
    assert y / 400 - k / 400 == (if y % 400 == 0 then 1 else 0);
  }

  /** 400 * DaysBeforeYear(y) stays within a few days of 146097 * (y - 1). */
  lemma YearBounds(y: int)
    ensures 146097 * (y - 1) - 800 < 400 * DaysBeforeYear(y) < 146097 * (y - 1) + 400
  {
    var k := y - 1;
    assert 4 * (k / 4) <= k < 4 * (k / 4) + 4;
    assert 100 * (k / 100) <= k < 100 * (k / 100) + 100;
    assert 400 * (k / 400) <= k < 400 * (k / 400) + 400;
  }

  lemma DaysBeforeYearMonotone(y: int, z: int)
    requires y < z
    ensures DaysBeforeYear(y + 1) <= DaysBeforeYear(z)
  {
    if z == y + 1 {
    } else if z == y + 2 {
      YearStep(y + 1);
    } else {
      YearBounds(y + 1);
      YearBounds(z);
    }
  }

  lemma YearOfCorrect(a: int)
    ensures DaysBeforeYear(YearOf(a)) <= a < DaysBeforeYear(YearOf(a) + 1)
  {
    var k0 := (400 * a) / 146097;
    assert 146097 * k0 <= 400 * a < 146097 * k0 + 146097;
    YearBounds(k0);
    YearBounds(k0 + 1);
    YearBounds(k0 + 2);
    YearBounds(k0 + 3);
  }

  lemma YearUnique(a: int, y: int)
    requires DaysBeforeYear(y) <= a < DaysBeforeYear(y + 1)
    ensures YearOf(a) == y
  {
    YearOfCorrect(a);
    hide YearOf, DaysBeforeYear;
    var z := YearOf(a);
    if z < y {
      DaysBeforeYearMonotone(z, y);
    } else if y < z {
      DaysBeforeYearMonotone(y, z);
    }
  }

  lemma MonthStep(y: int, m: int)
    requires 1 <= m <= 12
    ensures DaysBeforeMonth(y, m) + DaysInMonth(y, m) == if m == 12 then YearLength(y) else DaysBeforeMonth(y, m + 1)
  {
  }

  lemma MonthOfCorrect(y: int, r: int)
    requires 0 <= r < YearLength(y)
    ensures DaysBeforeMonth(y, MonthOf(y, r)) <= r < DaysBeforeMonth(y, MonthOf(y, r)) + DaysInMonth(y, MonthOf(y, r))
  {
  }

  lemma MonthUnique(y: int, m: int, r: int)
    requires 1 <= m <= 12
    requires DaysBeforeMonth(y, m) <= r < DaysBeforeMonth(y, m) + DaysInMonth(y, m)
    ensures MonthOf(y, r) == m
  {
  }

  // ---------------------------------------------------------------------------
  // The bijection

  /** Every day number names a valid date, and numbering it again gives back the day number. */
  lemma FromDayNumberInverse(n: int)
    ensures ValidDate(FromDayNumber(n))
    ensures DayNumber(FromDayNumber(n)) == n
  {
    hide YearOf, MonthOf, DaysBeforeYear;
    var a := n + UnixEpochDays;
    var y := YearOf(a);
    YearOfCorrect(a);
    YearStep(y);
    MonthOfCorrect(y, a - DaysBeforeYear(y));
  }

  lemma MonthWithinYear(y: int, m: int)
    requires 1 <= m <= 12
    ensures DaysBeforeMonth(y, m) + DaysInMonth(y, m) <= YearLength(y)
  {
  }

  /** Numbering a valid date and converting back gives back the date. */
  lemma DayNumberInverse(d: CivilDate)
    requires ValidDate(d)
    ensures FromDayNumber(DayNumber(d)) == d
  {
    hide YearOf, MonthOf, DaysBeforeYear;
    var y, m := d.year, d.month;
    var r := DaysBeforeMonth(y, m) + d.day - 1;
    var a := DaysBeforeYear(y) + r;
    assert a == DayNumber(d) + UnixEpochDays;
    assert YearOf(a) == y by {
      MonthWithinYear(y, m);
      YearStep(y);
      YearUnique(a, y);
    }
    assert MonthOf(y, r) == m by {
      MonthUnique(y, m, r);
    }
  }

  lemma DayNumberInjective(d: CivilDate, e: CivilDate)
    requires ValidDate(d) && ValidDate(e)
    ensures DayNumber(d) == DayNumber(e) <==> d == e
  {
    hide FromDayNumber, DaysBeforeYear;
    DayNumberInverse(d);
    DayNumberInverse(e);
  }

  /** The first of the month after (y, m) is the day after the last day of (y, m). */
  lemma MonthEndThenNext(y: int, m: int)
    requires 1 <= m <= 12
    ensures var next := if m < 12 then CivilDate(y, m + 1, 1) else CivilDate(y + 1, 1, 1);
      ValidDate(next) && DayNumber(next) == DayNumber(CivilDate(y, m, DaysInMonth(y, m))) + 1
  {
    hide DaysBeforeYear;
    MonthStep(y, m);
    YearStep(y);
  }
}
