/**
 64-bit times: from a broken-down date to seconds and back, with the shortcuts over
 Gregorian cycles, and the years that stand in for those a 32-bit time cannot hold.
 */
module Time64 {

  import opened Calendar

  datatype Tm = Tm(sec: int, min: int, hour: int, mday: int, mon: int, year: int, wday: int, yday: int)

  datatype Option<T> = None | Some(value: T)

  // ---- C integers ----------------------------------------------------------

  predicate InInt32(x: int) {
    -0x8000_0000 <= x < 0x8000_0000
  }

  predicate InInt64(x: int) {
    -0x8000_0000_0000_0000 <= x < 0x8000_0000_0000_0000
  }

  /** Conversion to a 32-bit int. */
  function ToInt32(x: int): (r: int)
    ensures InInt32(r)
    ensures InInt32(x) ==> r == x
  {
    (x + 0x8000_0000) % 0x1_0000_0000 - 0x8000_0000
  }

  /** Division rounds towards zero. */
  function CDiv(a: int, b: int): int
    requires b > 0
  {
    if a >= 0 then a / b else -(-a / b)
  }

  function CMod(a: int, b: int): int
    requires b > 0
  {
    a - b * CDiv(a, b)
  }

  // ---- tables --------------------------------------------------------------

  const DAYS_IN_MONTH: seq<seq<int>> :=
    [[31, 28, 31, 30, 31, 30, 31, 31, 30, 31, 30, 31],
     [31, 29, 31, 30, 31, 30, 31, 31, 30, 31, 30, 31]]

  const JULIAN_DAYS_BY_MONTH: seq<seq<int>> :=
    [[0, 31, 59, 90, 120, 151, 181, 212, 243, 273, 304, 334],
     [0, 31, 60, 91, 121, 152, 182, 213, 244, 274, 305, 335]]

  const LENGTH_OF_YEAR: seq<int> := [365, 366]

  const CHEAT_DAYS: int := 13879
  const CHEAT_YEARS: int := 108

  /** The row of the tables for year n, counted from 1900. */
  function LeapIndex(n: int): (i: int)
    ensures 0 <= i < 2
  {
    if IsLeap(n + 1900) then 1 else 0
  }

  lemma Tables(n: int, mon: int)
    requires 0 <= mon < 12
    ensures LENGTH_OF_YEAR[LeapIndex(n)] == YearLength(1900 + n)
    ensures DAYS_IN_MONTH[LeapIndex(n)][mon] == MonthLength(IsLeap(1900 + n), mon)
    ensures JULIAN_DAYS_BY_MONTH[LeapIndex(n)][mon] == MonthStart(IsLeap(1900 + n), mon)
  {
    hide IsLeap, MonthStart;
    MonthsAddUp(IsLeap(1900 + n));
  }

  lemma LengthTable(n: int)
    ensures LENGTH_OF_YEAR[LeapIndex(n)] == YearLength(1900 + n)
  {
  }

  // ---- what a date means ---------------------------------------------------

  /** Seconds since the start of 1970, on a plain count of days. */
  function Seconds(d: Tm): int
    requires 0 <= d.mon < 12
  {
    DayNumber(1900 + d.year, d.mon, d.mday) * 86400 + d.hour * 3600 + d.min * 60 + d.sec
  }

  /** Every field is in its range, and weekday and day of the year fit the date. */
  predicate Normal(d: Tm) {
    && 0 <= d.sec < 60 && 0 <= d.min < 60 && 0 <= d.hour < 24
    && IsDate(1900 + d.year, d.mon, d.mday)
    && d.wday == Weekday(DayNumber(1900 + d.year, d.mon, d.mday))
    && d.yday == MonthStart(IsLeap(1900 + d.year), d.mon) + d.mday - 1
  }

  lemma DaySplit(day: int, r: int, day': int, r': int)
    requires 0 <= r < 86400 && 0 <= r' < 86400 && day * 86400 + r == day' * 86400 + r'
    ensures day == day' && r == r'
  {
  }

  lemma ClockSplit(h: int, m: int, s: int, h': int, m': int, s': int)
    requires 0 <= s < 60 && 0 <= m < 60 && 0 <= s' < 60 && 0 <= m' < 60
    requires h * 3600 + m * 60 + s == h' * 3600 + m' * 60 + s'
    ensures h == h' && m == m' && s == s'
  {
  }

  /** A time has only one normal date. */
  lemma SecondsOnce(d: Tm, e: Tm)
    requires Normal(d) && Normal(e) && Seconds(d) == Seconds(e)
    ensures d == e
  {
    hide DayNumber, MonthStart, IsLeap, Weekday;
    DaySplit(DayNumber(1900 + d.year, d.mon, d.mday), d.hour * 3600 + d.min * 60 + d.sec,
             DayNumber(1900 + e.year, e.mon, e.mday), e.hour * 3600 + e.min * 60 + e.sec);
    ClockSplit(d.hour, d.min, d.sec, e.hour, e.min, e.sec);
    DatesDiffer(1900 + d.year, d.mon, d.mday, 1900 + e.year, e.mon, e.mday);
  }

  // ---- from a date to seconds ----------------------------------------------

  /** Days to 1 January of year n, counted from 1900, and a year of the same kind near 1970. */
  method DaysToYear(n: int) returns (days: int, origYear: int)
    requires InInt32(n)
    ensures days == YearStart(1900 + n)
    ensures IsLeap(1900 + origYear) <==> IsLeap(1900 + n)
  {
    hide IsLeap;
    days := 0;
    origYear := n;
    var cycles := 0;
    if origYear > 100 || origYear < -300 {
      cycles := ToInt32(CDiv(origYear - 100, 400));
      origYear := origYear - cycles * 400;
      days := days + cycles * DAYS_IN_CYCLE;
    }
    Cycles(1900 + origYear, cycles);
    ghost var base := days;
    if origYear > 70 {
      var year := 70;
      while year < origYear
        invariant 70 <= year <= origYear
        invariant days == base + YearStart(1900 + year)
      {
        LengthTable(year);
        NextYear(1900 + year);
        days := days + LENGTH_OF_YEAR[LeapIndex(year)];
        year := year + 1;
      }
    } else if origYear < 70 {
      var year := 69;
      LengthTable(year);
      NextYear(1900 + year);
      days := days - LENGTH_OF_YEAR[LeapIndex(year)];
      year := year - 1;
      while year >= origYear
        invariant origYear - 1 <= year
        invariant days == base + YearStart(1901 + year)
      {
        LengthTable(year);
        NextYear(1900 + year);
        days := days - LENGTH_OF_YEAR[LeapIndex(year)];
        year := year - 1;
      }
    }
  }

  /** The arithmetic on the clock fields is done in 32 bits, so callers keep them small. */
  predicate ClockFits(d: Tm) {
    && InInt32(d.mday) && InInt32(d.mday - 1) && InInt32(d.sec) && InInt32(d.hour * 60) && InInt32(d.hour * 60 * 60)
    && InInt32(d.min * 60)
  }

  lemma {:induction false} YearStartBound(y: int)
    ensures y >= 1970 ==> 0 <= YearStart(y) <= 366 * (y - 1970)
    ensures y <= 1970 ==> 366 * (y - 1970) <= YearStart(y) <= 0
    decreases if y >= 1970 then y - 1970 else 1970 - y
  {
    if y > 1970 {
      YearStartBound(y - 1);
    } else if y < 1970 {
      YearStartBound(y + 1);
    }
  }

  lemma SecondsFit(d: Tm)
    requires InInt32(d.year) && 0 <= d.mon < 12 && ClockFits(d)
    ensures InInt64(Seconds(d))
  {
    hide YearStart, MonthStart, IsLeap;
    YearStartBound(1900 + d.year);
    MonthsAddUp(IsLeap(1900 + d.year));
  }

  method Timegm64(d: Tm) returns (seconds: int)
    requires InInt32(d.year) && 0 <= d.mon < 12 && ClockFits(d)
    ensures seconds == Seconds(d) && InInt64(seconds)
  {
    hide YearStart, MonthStart, IsLeap;
    var days, origYear := DaysToYear(d.year);
    Tables(origYear, d.mon);
    SecondsFit(d);
    days := days + JULIAN_DAYS_BY_MONTH[LeapIndex(origYear)][d.mon];
    days := days + d.mday - 1;
    seconds := days * 60 * 60 * 24;
    seconds := seconds + d.hour * 60 * 60;
    seconds := seconds + d.min * 60;
    seconds := seconds + d.sec;
  }

  // ---- from seconds to a date ----------------------------------------------

  /** Splits a time into days, hours, minutes and seconds, none but the days negative. */
  method SplitTime(t: int) returns (sec: int, min: int, hour: int, tday: int)
    requires InInt64(t)
    ensures 0 <= sec < 60 && 0 <= min < 60 && 0 <= hour < 24
    ensures t == tday * 86400 + hour * 3600 + min * 60 + sec
  {
    var time := t;
    sec := ToInt32(CMod(time, 60));
    time := CDiv(time, 60);
    min := ToInt32(CMod(time, 60));
    time := CDiv(time, 60);
    hour := ToInt32(CMod(time, 24));
    time := CDiv(time, 24);
    tday := time;
    if sec < 0 {
      min, sec := min - 1, sec + 60;
    }
    if min < 0 {
      hour, min := hour - 1, min + 60;
    }
    if hour < 0 {
      tday, hour := tday - 1, hour + 24;
    }
  }

  method DayOfWeek(tday: int) returns (wday: int)
    ensures wday == Weekday(tday)
  {
    wday := ToInt32(CMod(tday + 4, 7));
    if wday < 0 {
      wday := wday + 7;
    }
  }

  lemma CheatIsRight()
    ensures YearStart(1970) == 0 && YearStart(1900 + CHEAT_YEARS) == CHEAT_DAYS
  {
    YearStartIs(2008);
  }

  /** The year that day m of year start falls in, where the day is not before that year. */
  method YearForward(m0: int, start: int) returns (m: int, year: int)
    requires 0 <= m0 < 0x8000_0000 * DAYS_IN_CYCLE
    ensures 0 <= m < YearLength(1900 + year)
    ensures YearStart(1900 + start) + m0 == YearStart(1900 + year) + m
  {
    hide IsLeap;
    m, year := m0, start;
    var cycles := ToInt32(CDiv(m, DAYS_IN_CYCLE));
    Cycles(1900 + year, cycles);
    if cycles != 0 {
      m := m - cycles * DAYS_IN_CYCLE;
      year := year + cycles * 400;
    }
    LengthTable(year);
    while m >= LENGTH_OF_YEAR[LeapIndex(year)]
      invariant 0 <= m && LENGTH_OF_YEAR[LeapIndex(year)] == YearLength(1900 + year)
      invariant YearStart(1900 + start) + m0 == YearStart(1900 + year) + m
      decreases m
    {
      NextYear(1900 + year);
      m := m - LENGTH_OF_YEAR[LeapIndex(year)];
      year := year + 1;
      LengthTable(year);
    }
  }

  /** The same where the day, counted from the end of year start, is before that end. */
  method YearBackward(m0: int, start: int) returns (m: int, year: int)
    requires -0x8000_0000 * DAYS_IN_CYCLE < m0 < 0
    ensures -YearLength(1900 + year) <= m < 0
    ensures YearStart(1901 + start) + m0 == YearStart(1901 + year) + m
  {
    hide IsLeap;
    m, year := m0, start;
    var cycles := ToInt32(CDiv(m, DAYS_IN_CYCLE) + 1);
    Cycles(1901 + year, cycles);
    if cycles != 0 {
      m := m - cycles * DAYS_IN_CYCLE;
      year := year + cycles * 400;
    }
    LengthTable(year);
    while m < -LENGTH_OF_YEAR[LeapIndex(year)]
      invariant m < 0 && LENGTH_OF_YEAR[LeapIndex(year)] == YearLength(1900 + year)
      invariant YearStart(1901 + start) + m0 == YearStart(1901 + year) + m
      decreases -m
    {
      NextYear(1900 + year);
      m := m + LENGTH_OF_YEAR[LeapIndex(year)];
      year := year - 1;
      LengthTable(year);
    }
  }

  method MonthForward(year: int, m0: int) returns (m: int, mon: int)
    requires 0 <= m0 < YearLength(1900 + year)
    ensures IsDate(1900 + year, mon, m + 1) && m0 == MonthStart(IsLeap(1900 + year), mon) + m
  {
    hide IsLeap;
    ghost var leap := IsLeap(1900 + year);
    MonthsAddUp(leap);
    m, mon := m0, 0;
    Tables(year, mon);
    while m >= DAYS_IN_MONTH[LeapIndex(year)][mon]
      invariant 0 <= mon < 12 && 0 <= m && m0 == MonthStart(leap, mon) + m
      invariant DAYS_IN_MONTH[LeapIndex(year)][mon] == MonthLength(leap, mon)
      decreases m
    {
      assert MonthStart(leap, mon + 1) == MonthStart(leap, mon) + MonthLength(leap, mon);
      m := m - DAYS_IN_MONTH[LeapIndex(year)][mon];
      mon := mon + 1;
      assert mon < 12;
      Tables(year, mon);
    }
  }

  method MonthBackward(year: int, m0: int) returns (m: int, mon: int)
    requires -YearLength(1900 + year) <= m0 < 0
    ensures IsDate(1900 + year, mon, m + 1)
    ensures YearLength(1900 + year) + m0 == MonthStart(IsLeap(1900 + year), mon) + m
  {
    hide IsLeap;
    ghost var leap := IsLeap(1900 + year);
    MonthsAddUp(leap);
    m, mon := m0, 11;
    Tables(year, mon);
    while m < -DAYS_IN_MONTH[LeapIndex(year)][mon]
      invariant 0 <= mon < 12 && m < 0 && YearLength(1900 + year) + m0 == MonthStart(leap, mon + 1) + m
      invariant DAYS_IN_MONTH[LeapIndex(year)][mon] == MonthLength(leap, mon)
      decreases -m
    {
      assert MonthStart(leap, mon + 1) == MonthStart(leap, mon) + MonthLength(leap, mon);
      m := m + DAYS_IN_MONTH[LeapIndex(year)][mon];
      mon := mon - 1;
      assert mon >= 0;
      Tables(year, mon);
    }
    m := m + DAYS_IN_MONTH[LeapIndex(year)][mon];
  }

  /** The date of day tday, its year counted from 1900. */
  method DateOfDay(tday: int) returns (year: int, mon: int, m: int)
    requires -0x4000_0000 * DAYS_IN_CYCLE < tday < 0x4000_0000 * DAYS_IN_CYCLE
    ensures IsDate(1900 + year, mon, m + 1) && DayNumber(1900 + year, mon, m + 1) == tday
  {
    hide IsLeap, YearStart, MonthStart;
    CheatIsRight();
    year, m := 70, tday;
    if m >= CHEAT_DAYS {
      year := CHEAT_YEARS;
      m := m - CHEAT_DAYS;
    }
    if m >= 0 {
      m, year := YearForward(m, year);
      m, mon := MonthForward(year, m);
    } else {
      year := year - 1;
      m, year := YearBackward(m, year);
      NextYear(1900 + year);
      m, mon := MonthBackward(year, m);
    }
  }

  /** The year that time t falls in, counted from 1900. */
  ghost predicate FallsIn(t: int, year: int) {
    YearStart(1900 + year) * 86400 <= t < YearStart(1901 + year) * 86400
  }

  /** The date of a time, unless its year does not fit in 32 bits. */
  method Gmtime64(t: int) returns (p: Option<Tm>)
    requires InInt64(t)
    ensures p.Some? ==> Normal(p.value) && Seconds(p.value) == t && InInt32(p.value.year)
    ensures p.None? ==> exists year :: FallsIn(t, year) && !InInt32(year)
  {
    hide IsLeap, YearStart, MonthStart;
    var sec, min, hour, tday := SplitTime(t);
    var wday := DayOfWeek(tday);
    var year, mon, m := DateOfDay(tday);
    if ToInt32(year) != year {
      WithinYear(1900 + year, mon, m + 1);
      NextYear(1900 + year);
      assert FallsIn(t, year);
      return None;
    }
    Tables(year, mon);
    p := Some(Tm(sec, min, hour, m + 1, mon, year, wday, JULIAN_DAYS_BY_MONTH[LeapIndex(year)][mon] + m));
  }

  // ---- round trips ---------------------------------------------------------

  /** A time falls in one year only, so that a date and an overflow exclude each other. */
  lemma NormalYear(d: Tm, year: int)
    requires Normal(d) && FallsIn(Seconds(d), year)
    ensures d.year == year
  {
    hide IsLeap, YearStart, MonthStart;
    WithinYear(1900 + d.year, d.mon, d.mday);
    NextYear(1900 + year);
    if d.year < year {
      YearsInOrder(1900 + d.year, 1900 + year);
    } else if year < d.year {
      YearsInOrder(1900 + year, 1900 + d.year);
    }
  }

  lemma DateOrOverflow(d: Tm)
    requires Normal(d)
    ensures (exists year :: FallsIn(Seconds(d), year) && !InInt32(year)) ==> !InInt32(d.year)
  {
    hide IsLeap, YearStart, MonthStart, Seconds, FallsIn, DayNumber, Weekday;
    if year :| FallsIn(Seconds(d), year) && !InInt32(year) {
      NormalYear(d, year);
    }
  }

  /** Every time that has a date comes back from it. */
  method TimeThereAndBack(t: int) returns (fits: bool, t': int)
    requires InInt64(t)
    ensures fits ==> t' == t
    ensures fits <==> exists d :: Normal(d) && Seconds(d) == t && InInt32(d.year)
  {
    hide IsLeap, YearStart, MonthStart, Seconds, FallsIn, DayNumber, Weekday;
    var p := Gmtime64(t);
    fits, t' := p.Some?, 0;
    if fits {
      NormalFits(p.value);
      t' := Timegm64(p.value);
    } else {
      forall d | Normal(d) && Seconds(d) == t
        ensures !InInt32(d.year)
      {
        DateOrOverflow(d);
      }
    }
  }

  lemma NormalFits(d: Tm)
    requires Normal(d)
    ensures 0 <= d.mon < 12 && ClockFits(d)
  {
  }

  /** Every normal date comes back from its time, weekday and day of the year included. */
  method DateThereAndBack(d: Tm) returns (p: Option<Tm>)
    requires Normal(d) && InInt32(d.year)
    ensures p == Some(d)
  {
    hide IsLeap, YearStart, MonthStart, Seconds, Normal, FallsIn;
    NormalFits(d);
    var t := Timegm64(d);
    p := Gmtime64(t);
    DateOrOverflow(d);
    SecondsOnce(p.value, d);
  }

  // ---- years that stand in for others --------------------------------------

  const MIN_SAFE_YEAR: int := 1971
  const MAX_SAFE_YEAR: int := 2037
  const SOLAR_CYCLE_LENGTH: int := 28

  const SAFE_YEARS_HIGH: seq<int> :=
    [2016, 2017, 2018, 2019, 2020, 2021, 2022, 2023, 2024, 2025, 2026, 2027, 2028, 2029,
     2030, 2031, 2032, 2033, 2034, 2035, 2036, 2037, 2010, 2011, 2012, 2013, 2014, 2015]

  const SAFE_YEARS_LOW: seq<int> :=
    [1996, 1997, 1998, 1971, 1972, 1973, 1974, 1975, 1976, 1977, 1978, 1979, 1980, 1981,
     1982, 1983, 1984, 1985, 1986, 1987, 1988, 1989, 1990, 1991, 1992, 1993, 1994, 1995]

  /** A year divisible by 100 that is no leap year. */
  predicate IsExceptionCentury(y: int) {
    CMod(y, 100) == 0 && CMod(y, 400) != 0
  }

  /** Each exception shifts the 28-year cycle by 16 years. */
  function CycleOffset(y: int): int {
    var diff := if y > 2000 then y - 2000 - 1 else y - 2000;
    (CDiv(diff, 100) - CDiv(diff, 400)) * 16
  }

  function YearCycle(y: int): int {
    var c := y + CycleOffset(y);
    var c1 := if y < MIN_SAFE_YEAR then c - 8 else c;
    var c2 := if IsExceptionCentury(y) then c1 + 11 else c1;
    if IsExceptionCentury(y - 1) then c2 + 17 else c2
  }

  /** A year that a 32-bit time can hold, with the calendar of year y. */
  function SafeYear(y: int): int {
    if MIN_SAFE_YEAR <= y <= MAX_SAFE_YEAR then y
    else
      var c := CMod(YearCycle(y), SOLAR_CYCLE_LENGTH);
      var i := if c < 0 then SOLAR_CYCLE_LENGTH + c else c;
      CycleIndex(YearCycle(y));
      if y < MIN_SAFE_YEAR then SAFE_YEARS_LOW[i] else SAFE_YEARS_HIGH[i]
  }

  lemma CycleIndex(c: int)
    ensures var r := CMod(c, SOLAR_CYCLE_LENGTH);
            var i := if r < 0 then SOLAR_CYCLE_LENGTH + r else r;
            0 <= i < 28 && i == c % 28
  {
  }

  /** The years of the tables follow the 28-year cycle. */
  lemma TablesCycle(i: int)
    requires 0 <= i < 28
    ensures (SAFE_YEARS_HIGH[i] - i) % 28 == 0 && 2010 <= SAFE_YEARS_HIGH[i] <= 2037
    ensures (SAFE_YEARS_LOW[i] - i - 8) % 28 == 0 && 1971 <= SAFE_YEARS_LOW[i] <= 1998
  {
    assert forall j | 0 <= j < 22 :: SAFE_YEARS_HIGH[j] == 2016 + j;
    assert forall j | 22 <= j < 28 :: SAFE_YEARS_HIGH[j] == 1988 + j;
    assert forall j | 0 <= j < 3 :: SAFE_YEARS_LOW[j] == 1996 + j;
    assert forall j | 3 <= j < 28 :: SAFE_YEARS_LOW[j] == 1968 + j;
  }

  /** Exceptions among the years before y, counted from 2000. */
  function Exceptions(y: int): int {
    (y - 1) / 100 - (y - 1) / 400 - 15
  }

  lemma OffsetCounts(y: int)
    ensures CycleOffset(y) == 16 * Exceptions(y)
  {
    if y > 2000 {
      DivAbove(y - 2001, 100, 20);
      DivAbove(y - 2001, 400, 5);
    } else {
      DivBelow(2000 - y, 100, 20);
      DivBelow(2000 - y, 400, 5);
    }
  }

  lemma DivAbove(d: int, c: int, q: int)
    requires d >= 0 && ((c == 100 && q == 20) || (c == 400 && q == 5))
    ensures (2000 + d) / c == q + d / c
  {
  }

  lemma DivBelow(n: int, c: int, q: int)
    requires n >= 0 && ((c == 100 && q == 20) || (c == 400 && q == 5))
    ensures (2000 - n - 1) / c == q - 1 - n / c
  {
  }

  lemma ExceptionIs(y: int)
    ensures IsExceptionCentury(y) <==> y % 100 == 0 && y % 400 != 0
  {
  }

  /** What is added for a year without a leap day, or after one, that the cycle would give one. */
  function Shift(y: int): int {
    if IsExceptionCentury(y) then 11 else if IsExceptionCentury(y - 1) then 17 else 0
  }

  /** The stand-in differs from the shifted year by whole 28-year cycles. */
  lemma SafeYearCycle(y: int) returns (k: int)
    requires y < MIN_SAFE_YEAR || MAX_SAFE_YEAR < y
    ensures SafeYear(y) == y + 16 * Exceptions(y) + Shift(y) + 28 * k
    ensures if y < MIN_SAFE_YEAR then 1971 <= SafeYear(y) <= 1998 else 2010 <= SafeYear(y) <= 2037
  {
    hide CycleOffset, Exceptions, CMod, IsExceptionCentury;
    OffsetCounts(y);
    NotBothExceptions(y);
    var c := YearCycle(y);
    CycleIndex(c);
    TablesCycle(c % 28);
    k := SameCycle(c, c % 28, SafeYear(y), if y < MIN_SAFE_YEAR then 8 else 0);
  }

  lemma NotBothExceptions(y: int)
    ensures !(IsExceptionCentury(y) && IsExceptionCentury(y - 1))
  {
  }

  lemma SameCycle(c: int, i: int, s: int, d: int) returns (k: int)
    requires i == c % 28 && (s - i - d) % 28 == 0
    ensures s == c + d + 28 * k
  {
    k := (s - i - d) / 28 - c / 28;
  }

  /** Between 1970 and 2038 every fourth year is a leap year. */
  lemma PlainYears(s: int)
    requires 1970 <= s <= 2038
    ensures IsLeap(s) <==> s % 4 == 0
    ensures YearStart(s) == 365 * (s - 1970) + (s - 1) / 4 - 492
  {
    hide YearStart, LeapsBefore;
    YearStartIs(s);
    PlainCenturies(s);
    PlainLeaps(s);
    Multiples(s);
  }

  lemma PlainLeaps(s: int)
    requires (s - 1) / 100 - (s - 1) / 400 == 15
    ensures LeapsBefore(s) == (s - 1) / 4 - 15
  {
  }

  lemma PlainCenturies(s: int)
    requires 1970 <= s <= 2038
    ensures (s - 1) / 100 - (s - 1) / 400 == 15 && (s % 100 == 0 <==> s % 400 == 0)
  {
    if s <= 2000 {
      assert (s - 1) / 100 == 19 && (s - 1) / 400 == 4;
    } else {
      assert (s - 1) / 100 == 20 && (s - 1) / 400 == 5;
    }
  }

  lemma LeapOrException(y: int)
    ensures IsLeap(y) <==> y % 4 == 0 && !IsExceptionCentury(y)
    ensures IsExceptionCentury(y) ==> y % 4 == 0
  {
    hide CMod;
    ExceptionIs(y);
    Multiples(y);
  }

  lemma ShiftedRemainder(y: int, e: int, w: int, k: int)
    ensures (y + 16 * e + w + 28 * k) % 4 == (y + w) % 4
    ensures (y + 16 * e + w + 28 * k - 1) % 4 == (y + w - 1) % 4
    ensures (y + 16 * e + w + 28 * k - 1) / 4 == (y + w - 1) / 4 + 4 * e + 7 * k
  {
    FoursOn(y + w, 4 * e + 7 * k);
    FoursOn(y + w - 1, 4 * e + 7 * k);
  }

  lemma FoursOn(x: int, k: int)
    ensures (x + 4 * k) % 4 == x % 4 && (x + 4 * k) / 4 == x / 4 + k
  {
  }

  lemma SafeLeaps(y: int, s: int, e: int, k: int)
    requires s == y + 16 * e + Shift(y) + 28 * k && MIN_SAFE_YEAR <= s <= MAX_SAFE_YEAR
    ensures IsLeap(s) <==> IsLeap(y)
    ensures IsLeap(s - 1) <==> IsLeap(y - 1)
  {
    hide CMod, YearStart, IsLeap;
    PlainYears(s);
    PlainYears(s - 1);
    LeapOrException(y);
    LeapOrException(y - 1);
    ShiftedRemainder(y, e, Shift(y), k);
  }

  lemma ShiftedWeek(y: int, w: int)
    requires w == 0 || (w == 11 && y % 4 == 0) || (w == 17 && (y - 1) % 4 == 0)
    ensures (w + (y + w - 1) / 4 - (y - 1) / 4) % 7 == 0
  {
  }

  lemma ShiftKinds(y: int)
    ensures Shift(y) == 0 || (Shift(y) == 11 && y % 4 == 0) || (Shift(y) == 17 && (y - 1) % 4 == 0)
  {
    hide IsExceptionCentury, IsLeap;
    LeapOrException(y);
    LeapOrException(y - 1);
  }

  lemma LeapsByExceptions(y: int)
    ensures LeapsBefore(y) == (y - 1) / 4 - Exceptions(y) - 15
  {
  }

  lemma SafeWeekday(y: int, s: int, k: int)
    requires s == y + 16 * Exceptions(y) + Shift(y) + 28 * k && MIN_SAFE_YEAR <= s <= MAX_SAFE_YEAR
    ensures (YearStart(y) - YearStart(s)) % 7 == 0
  {
    hide YearStart, IsLeap, Exceptions, Shift, LeapsBefore;
    var e, w := Exceptions(y), Shift(y);
    PlainYears(s);
    YearStartIs(y);
    LeapsByExceptions(y);
    ShiftKinds(y);
    ShiftedRemainder(y, e, w, k);
    ShiftedWeek(y, w);
    WeekSum(y, s, e, w, k, (y - 1) / 4, (y + w - 1) / 4);
  }

  lemma WeekSum(y: int, s: int, e: int, w: int, k: int, a: int, b: int)
    requires s == y + 16 * e + w + 28 * k && (w + b - a) % 7 == 0
    ensures (365 * (y - 1970) + (a - e - 15) - 477 - (365 * (s - 1970) + (b + 4 * e + 7 * k) - 492)) % 7 == 0
  {
    var q := (w + b - a) / 7;
    assert 365 * (y - 1970) + (a - e - 15) - 477 - (365 * (s - 1970) + (b + 4 * e + 7 * k) - 492)
        == 7 * (52 * (y - s) - 3 * e - 5 * k - q);
  }

  lemma SameWeekday(a: int, b: int)
    requires (a - b) % 7 == 0
    ensures Weekday(a) == Weekday(b)
  {
  }

  /**
   For every year: the stand-in is in the safe range, both are leap years or neither is,
   and so are the years before; and both begin, and end, on the same day of the week.
   */
  lemma SafeYearMatches(y: int)
    ensures MIN_SAFE_YEAR <= SafeYear(y) <= MAX_SAFE_YEAR
    ensures MIN_SAFE_YEAR <= y <= MAX_SAFE_YEAR ==> SafeYear(y) == y
    ensures y < MIN_SAFE_YEAR ==> SafeYear(y) <= MIN_SAFE_YEAR + 27
    ensures y > MAX_SAFE_YEAR ==> SafeYear(y) >= MAX_SAFE_YEAR - 27
    ensures IsLeap(SafeYear(y)) <==> IsLeap(y)
    ensures IsLeap(SafeYear(y) - 1) <==> IsLeap(y - 1)
    ensures Weekday(YearStart(SafeYear(y))) == Weekday(YearStart(y))
    ensures Weekday(YearStart(SafeYear(y) + 1)) == Weekday(YearStart(y + 1))
  {
    hide CMod, YearStart, IsLeap, Weekday, Exceptions;
    if y < MIN_SAFE_YEAR || MAX_SAFE_YEAR < y {
      var s := SafeYear(y);
      var k := SafeYearCycle(y);
      hide SafeYear, Shift;
      SafeLeaps(y, s, Exceptions(y), k);
      SafeWeekday(y, s, k);
      SameWeekday(YearStart(y), YearStart(s));
      NextYear(y);
      NextYear(s);
      SameWeekday(YearStart(y + 1), YearStart(s + 1));
    }
  }

  // ---- the distance between years ------------------------------------------

  const SECONDS_IN_CYCLE: int := DAYS_IN_CYCLE * 86400

  /** What the walk from right to left adds up, in days, before its sign is applied. */
  ghost function Walked(left: int, right: int): int {
    if left > right then YearStart(left) - YearStart(right)
    else YearStart(right + 1) - YearStart(left + 1)
  }

  /** The loop of the walk; downwards it counts the year it leaves, not the one it enters. */
  method WalkYears(left: int, right0: int, increment: int) returns (days: int)
    requires (increment == 1 && left >= right0) || (increment == -1 && left <= right0)
    ensures days == Walked(left, right0)
  {
    hide IsLeap;
    var right := right0;
    days := 0;
    while left != right
      invariant increment == 1 ==> right0 <= right <= left && days == YearStart(right) - YearStart(right0)
      invariant increment == -1 ==> left <= right <= right0 && days == YearStart(right0 + 1) - YearStart(right + 1)
      decreases if increment == 1 then left - right else right - left
    {
      LengthTable(right - 1900);
      NextYear(right);
      days := days + LENGTH_OF_YEAR[LeapIndex(right - 1900)];
      right := right + increment;
    }
  }

  lemma WalkedFrom(left: int, right: int, c: int)
    requires c <= 0 && left <= right
    ensures Walked(left + 400 * c, right) == Walked(left, right) - c * DAYS_IN_CYCLE
  {
    hide YearStart;
    Cycles(left + 1, c);
  }

  lemma WalkedTo(left: int, right: int, c: int)
    requires c >= 0 && right <= left - 400 * c && right < left
    ensures Walked(left - 400 * c, right) == Walked(left, right) - c * DAYS_IN_CYCLE
  {
    hide YearStart;
    Cycles(left, -c);
  }

  /**
   Seconds from the start of one year to the start of the other, by whole cycles and
   then by years.  Downwards it is exact only between years of the same kind.
   */
  method SecondsBetweenYears(left: int, right: int) returns (r: int)
    requires InInt32(left - 1900) && 1600 <= right <= 2400
    ensures r == 86400 * (YearStart(left) - YearStart(right)) <==> left >= right || (IsLeap(left) <==> IsLeap(right))
    ensures left < right ==> r == 86400 * (YearStart(left + 1) - YearStart(right + 1))
  {
    hide YearStart, IsLeap;
    var increment := if left > right then 1 else -1;
    var seconds, l := 0, left;
    if left > 2400 {
      var cycles := ToInt32(CDiv(left - 2400, 400));
      WalkedTo(left, right, cycles);
      l := l - cycles * 400;
      seconds := seconds + cycles * SECONDS_IN_CYCLE;
    } else if left < 1600 {
      var cycles := ToInt32(CDiv(left - 1600, 400));
      WalkedFrom(left, right, cycles);
      l := l + cycles * 400;
      seconds := seconds + cycles * SECONDS_IN_CYCLE;
    }
    var days := WalkYears(l, right, increment);
    seconds := seconds + days * 60 * 60 * 24;
    r := seconds * increment;
    NextYear(left);
    NextYear(right);
  }

  /** Between any year and its stand-in the distance is exact. */
  method SecondsToSafeYear(y: int) returns (r: int)
    requires InInt32(y - 1900)
    ensures r == 86400 * (YearStart(y) - YearStart(SafeYear(y)))
  {
    hide YearStart, IsLeap, SafeYear, Weekday;
    SafeYearMatches(y);
    r := SecondsBetweenYears(y, SafeYear(y));
  }

  /** Downwards to a year of the other kind, the distance is a day off. */
  method DayOffExample() returns (r: int)
    ensures r == -366 * 86400 && YearStart(1971) - YearStart(1972) == -365
  {
    hide YearStart;
    assert !IsLeap(1971) && IsLeap(1972);
    NextYear(1971);
    NextYear(1972);
    r := SecondsBetweenYears(1971, 1972);
  }
}
