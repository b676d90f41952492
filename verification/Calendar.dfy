/**
 The proleptic Gregorian calendar as a plain count of days, and what its 400-year cycle
 and the 28-year cycle of the years without exceptions make of it.
 */
module Calendar {

  predicate IsLeap(y: int) {
    y % 400 == 0 || (y % 4 == 0 && y % 100 != 0)
  }

  function YearLength(y: int): (n: int)
    ensures 365 <= n <= 366
  {
    if IsLeap(y) then 366 else 365
  }

  /** Days from 1 January 1970 to 1 January of year y, year by year. */
  function YearStart(y: int): int
    decreases if y >= 1970 then y - 1970 else 1970 - y
  {
    if y == 1970 then 0
    else if y > 1970 then YearStart(y - 1) + YearLength(y - 1)
    else YearStart(y + 1) - YearLength(y)
  }

  /** Leap years before year y, counted from a fixed year. */
  function LeapsBefore(y: int): int {
    (y - 1) / 4 - (y - 1) / 100 + (y - 1) / 400
  }

  lemma DivNext(n: int, d: int)
    requires d == 4 || d == 100 || d == 400
    ensures n / d - (n - 1) / d == if n % d == 0 then 1 else 0
  {
  }

  lemma OneMoreLeap(y: int)
    ensures LeapsBefore(y + 1) == LeapsBefore(y) + if IsLeap(y) then 1 else 0
  {
    DivNext(y, 4);
    DivNext(y, 100);
    DivNext(y, 400);
    Multiples(y);
  }

  lemma Multiples(y: int)
    ensures y % 400 == 0 ==> y % 100 == 0
    ensures y % 100 == 0 ==> y % 4 == 0
  {
  }

  lemma NextYear(y: int)
    ensures YearStart(y + 1) == YearStart(y) + YearLength(y)
  {
  }

  /** The day count in closed form. */
  lemma {:induction false} YearStartIs(y: int)
    ensures YearStart(y) == 365 * (y - 1970) + LeapsBefore(y) - 477
    decreases if y >= 1970 then y - 1970 else 1970 - y
  {
    if y > 1970 {
      YearStartIs(y - 1);
      hide LeapsBefore;
      OneMoreLeap(y - 1);
    } else if y < 1970 {
      YearStartIs(y + 1);
      hide LeapsBefore;
      OneMoreLeap(y);
    }
  }

  const DAYS_IN_CYCLE: int := 365 * 400 + 100 - 4 + 1

  lemma CyclesOfLeaps(y: int, k: int)
    ensures LeapsBefore(y + 400 * k) == LeapsBefore(y) + 97 * k
  {
    assert (y + 400 * k - 1) / 4 == (y - 1) / 4 + 100 * k;
    assert (y + 400 * k - 1) / 100 == (y - 1) / 100 + 4 * k;
    assert (y + 400 * k - 1) / 400 == (y - 1) / 400 + k;
  }

  /** Whole Gregorian cycles move the calendar by whole cycles of days. */
  lemma Cycles(y: int, k: int)
    ensures YearStart(y + 400 * k) == YearStart(y) + DAYS_IN_CYCLE * k
    ensures IsLeap(y + 400 * k) <==> IsLeap(y)
  {
    hide LeapsBefore, IsLeap, YearStart;
    YearStartIs(y);
    YearStartIs(y + 400 * k);
    CyclesOfLeaps(y, k);
    LeapCycles(y, k);
  }

  lemma LeapCycles(y: int, k: int)
    ensures IsLeap(y + 400 * k) <==> IsLeap(y)
  {
    SameRemainder(y, k, 400);
    SameRemainder(y, 4 * k, 100);
    SameRemainder(y, 100 * k, 4);
  }

  lemma SameRemainder(y: int, k: int, d: int)
    requires d == 4 || d == 100 || d == 400
    ensures (y + d * k) % d == y % d
  {
  }

  lemma {:induction false} YearsInOrder(y: int, z: int)
    requires y < z
    ensures YearStart(y) + YearLength(y) <= YearStart(z)
    decreases z - y
  {
    NextYear(y);
    if y + 1 < z {
      YearsInOrder(y + 1, z);
    }
  }

  // ---- days and dates ------------------------------------------------------

  function MonthLength(leap: bool, mon: int): (n: int)
    requires 0 <= mon < 12
    ensures 28 <= n <= 31
  {
    if mon == 1 then (if leap then 29 else 28)
    else if mon == 3 || mon == 5 || mon == 8 || mon == 10 then 30
    else 31
  }

  /** Days of the year before month mon. */
  function MonthStart(leap: bool, mon: nat): int
    requires mon <= 12
  {
    if mon == 0 then 0 else MonthStart(leap, mon - 1) + MonthLength(leap, mon - 1)
  }

  lemma MonthsAddUp(leap: bool)
    ensures var d := if leap then 1 else 0;
            && MonthStart(leap, 0) == 0 && MonthStart(leap, 1) == 31
            && forall m | 2 <= m <= 12 ::
                 MonthStart(leap, m) == [59, 90, 120, 151, 181, 212, 243, 273, 304, 334, 365][m - 2] + d
  {
    var d := if leap then 1 else 0;
    assert MonthStart(leap, 1) == 31;
    assert MonthStart(leap, 2) == 59 + d;
    assert MonthStart(leap, 3) == 90 + d;
    assert MonthStart(leap, 4) == 120 + d;
    assert MonthStart(leap, 5) == 151 + d;
    assert MonthStart(leap, 6) == 181 + d;
    assert MonthStart(leap, 7) == 212 + d;
    assert MonthStart(leap, 8) == 243 + d;
    assert MonthStart(leap, 9) == 273 + d;
    assert MonthStart(leap, 10) == 304 + d;
    assert MonthStart(leap, 11) == 334 + d;
    assert MonthStart(leap, 12) == 365 + d;
  }

  lemma {:induction false} MonthsInOrder(leap: bool, m: nat, n: nat)
    requires m < n <= 12
    ensures MonthStart(leap, m) + MonthLength(leap, m) <= MonthStart(leap, n)
    decreases n
  {
    if m + 1 < n {
      MonthsInOrder(leap, m, n - 1);
    }
  }

  /** The day of a date, the first day of a month being 1. */
  function DayNumber(y: int, mon: int, mday: int): int
    requires 0 <= mon < 12
  {
    YearStart(y) + MonthStart(IsLeap(y), mon) + mday - 1
  }

  predicate IsDate(y: int, mon: int, mday: int) {
    0 <= mon < 12 && 1 <= mday <= MonthLength(IsLeap(y), mon)
  }

  lemma WithinYear(y: int, mon: int, mday: int)
    requires IsDate(y, mon, mday)
    ensures YearStart(y) <= DayNumber(y, mon, mday) < YearStart(y) + YearLength(y)
  {
    MonthsAddUp(IsLeap(y));
    MonthsInOrder(IsLeap(y), mon, 12);
    if mon > 0 {
      MonthsInOrder(IsLeap(y), 0, mon);
    }
  }

  /** No two dates are the same day. */
  lemma DatesDiffer(y: int, mon: int, mday: int, y': int, mon': int, mday': int)
    requires IsDate(y, mon, mday) && IsDate(y', mon', mday')
    requires DayNumber(y, mon, mday) == DayNumber(y', mon', mday')
    ensures y == y' && mon == mon' && mday == mday'
  {
    hide YearStart, MonthStart, IsLeap;
    WithinYear(y, mon, mday);
    WithinYear(y', mon', mday');
    if y < y' {
      YearsInOrder(y, y');
    } else if y' < y {
      YearsInOrder(y', y);
    }
    if mon < mon' {
      MonthsInOrder(IsLeap(y), mon, mon');
    } else if mon' < mon {
      MonthsInOrder(IsLeap(y), mon', mon);
    }
  }

  /** 1 January 1970 was a Thursday; Sunday is 0. */
  function Weekday(day: int): int {
    (day + 4) % 7
  }

  /** 1 January 2000 was a Saturday, and each day is followed by the next of the week. */
  lemma WeekdaysAre(day: int)
    ensures Weekday(YearStart(2000)) == 6
    ensures 0 <= Weekday(day) < 7 && Weekday(day + 1) == if Weekday(day) == 6 then 0 else Weekday(day) + 1
  {
    YearStartIs(2000);
    hide YearStart;
  }
}
