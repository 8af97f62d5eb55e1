/**
 * gmtime and mktime: day counting by loops over years and months, against the closed
 * formula for seconds since the Epoch in section 4.16 of POSIX.1-2017 Base Definitions.
 */
module Calendar {

  const INT_MAX: int := 0x7FFF_FFFF
  const DAY: int := 86400

  datatype Tm = Tm(sec: int, min: int, hour: int, mday: int, mon: int, year: int, wday: int, yday: int, isdst: int)

  predicate IsLeapYear(year: int) { (year % 4 == 0 && year % 100 != 0) || year % 400 == 0 }

  function YearLength(year: int): int { if IsLeapYear(year) then 366 else 365 }

  function DaysInMonth(month: int, year: int): (n: int)
    requires 0 <= month < 12
    ensures 28 <= n <= 31
  {
    if month == 1 && IsLeapYear(year) then 29
    else [31, 28, 31, 30, 31, 30, 31, 31, 30, 31, 30, 31][month]
  }

  // ---------------------------------------------------------------- counting days

  /** Days from 1970-01-01 to January 1 of the year. */
  function DaysBeforeYear(year: int): (n: int)
    requires year >= 1970
    ensures n >= 0
    decreases year
  {
    if year == 1970 then 0 else DaysBeforeYear(year - 1) + YearLength(year - 1)
  }

  /** Days from January 1 to the first of the month. */
  function DaysBeforeMonth(month: int, year: int): (n: int)
    requires 0 <= month <= 12
    ensures n >= 0
  {
    if month == 0 then 0 else DaysBeforeMonth(month - 1, year) + DaysInMonth(month - 1, year)
  }

  /** The leap-year terms of the POSIX formula. */
  lemma {:induction false} DaysBeforeYearClosed(year: int)
    requires year >= 1970
    ensures DaysBeforeYear(year)
         == (year - 1970) * 365 + (year - 1969) / 4 - (year - 1901) / 100 + (year - 1601) / 400
    decreases year
  {
    if year > 1970 {
      DaysBeforeYearClosed(year - 1);
      FourthYears(year - 1);
      HundredthYears(year - 1);
      FourHundredthYears(year - 1);
    }
  }

  lemma FourthYears(y: int)
    ensures (y - 1968) / 4 == (y - 1969) / 4 + if y % 4 == 0 then 1 else 0
  {
  }

  lemma HundredthYears(y: int)
    ensures (y - 1900) / 100 == (y - 1901) / 100 + if y % 100 == 0 then 1 else 0
  {
  }

  lemma FourHundredthYears(y: int)
    ensures (y - 1600) / 400 == (y - 1601) / 400 + if y % 400 == 0 then 1 else 0
    ensures y % 400 == 0 ==> y % 100 == 0
    ensures y % 100 == 0 ==> y % 4 == 0
  {
  }

  /** The day of the year a month begins on, without the table: from March on, five months take 153 days. */
  function FirstOfMonth(month: int, year: int): (n: int)
    requires 0 <= month <= 12
  {
    if month == 0 then 0
    else if month == 1 then 31
    else 59 + (if IsLeapYear(year) then 1 else 0) + (153 * (month - 2) + 2) / 5
  }

  /** Adding up the table gives the closed form, and twelve months make a year. */
  lemma {:induction false} DaysBeforeMonthClosed(month: int, year: int)
    requires 0 <= month <= 12
    ensures DaysBeforeMonth(month, year) == FirstOfMonth(month, year)
    ensures month == 12 ==> DaysBeforeMonth(month, year) == YearLength(year)
  {
    if month > 0 {
      DaysBeforeMonthClosed(month - 1, year);
      MonthLength(month - 1, year);
    }
  }

  lemma MonthLength(month: int, year: int)
    requires 0 <= month < 12
    ensures FirstOfMonth(month, year) + DaysInMonth(month, year) == FirstOfMonth(month + 1, year)
  {
    assert month in {0, 1, 2, 3, 4, 5, 6, 7, 8, 9, 10, 11};
  }

  lemma {:induction false} YearsGrow(y: int, z: int)
    requires 1970 <= y < z
    ensures DaysBeforeYear(y) + YearLength(y) <= DaysBeforeYear(z)
    decreases z
  {
    if z > y + 1 {
      YearsGrow(y, z - 1);
    }
  }

  lemma {:induction false} MonthsGrow(m: int, n: int, year: int)
    requires 0 <= m < n <= 12
    ensures DaysBeforeMonth(m, year) + DaysInMonth(m, year) <= DaysBeforeMonth(n, year)
    decreases n
  {
    if n > m + 1 {
      MonthsGrow(m, n - 1, year);
    }
  }

  // ---------------------------------------------------------------- broken-down time

  /** Days from the Epoch to the date, as in the POSIX formula. */
  function PosixDays(t: Tm): int {
    t.yday + (t.year - 70) * 365 + (t.year - 69) / 4 - (t.year - 1) / 100 + (t.year + 299) / 400
  }

  /** Seconds since the Epoch as POSIX defines them. */
  function PosixSeconds(t: Tm): int {
    t.sec + t.min * 60 + t.hour * 3600 + t.yday * 86400
    + (t.year - 70) * 31536000 + ((t.year - 69) / 4) * 86400
    - ((t.year - 1) / 100) * 86400 + ((t.year + 299) / 400) * 86400
  }

  /** The Epoch was a Thursday. */
  function WeekDay(days: int): int { (days + 4) % 7 }

  /** Month and day of the month, counted from 0 and from 1, are those of the day of the year. */
  ghost predicate Dated(t: Tm) {
    && 0 <= t.mon < 12 && 1 <= t.mday
    && t.yday == FirstOfMonth(t.mon, t.year + 1900) + t.mday - 1
    && t.yday < FirstOfMonth(t.mon + 1, t.year + 1900)
  }

  /** Every field in range, weekday and day of the year consistent with the date. */
  ghost predicate Normal(t: Tm) {
    && 0 <= t.sec < 60 && 0 <= t.min < 60 && 0 <= t.hour < 24
    && t.year >= 70 && Dated(t)
    && t.wday == WeekDay(PosixDays(t))
    && t.isdst == 0
  }

  /** The same by the loops' own counting. */
  lemma NormalCounts(t: Tm)
    requires t.year >= 70
    ensures Dated(t) <==>
      && 0 <= t.mon < 12 && 1 <= t.mday <= DaysInMonth(t.mon, t.year + 1900)
      && t.yday == DaysBeforeMonth(t.mon, t.year + 1900) + t.mday - 1
    ensures PosixDays(t) == DayNumber(t)
  {
    DaysBeforeYearClosed(t.year + 1900);
    if 0 <= t.mon < 12 {
      DaysBeforeMonthClosed(t.mon, t.year + 1900);
      MonthLength(t.mon, t.year + 1900);
    }
  }

  function DayNumber(t: Tm): int
    requires t.year >= 70
  {
    DaysBeforeYear(t.year + 1900) + t.yday
  }

  lemma SecondsByDay(t: Tm)
    requires t.year >= 70
    ensures PosixSeconds(t) == DayNumber(t) * DAY + t.hour * 3600 + t.min * 60 + t.sec
  {
    DaysBeforeYearClosed(t.year + 1900);
  }

  lemma {:induction false} NormalYday(t: Tm)
    requires Normal(t)
    ensures 0 <= t.yday < YearLength(t.year + 1900)
  {
    var year := t.year + 1900;
    NormalCounts(t);
    DaysBeforeMonthClosed(12, year);
    MonthsGrow(t.mon, 12, year);
  }

  /** The year and the day of the year are determined by the day number. */
  lemma {:induction false} SameDaySameYear(t: Tm, u: Tm)
    requires Normal(t) && Normal(u) && DayNumber(t) == DayNumber(u)
    ensures t.year == u.year && t.yday == u.yday
  {
    NormalYday(t);
    NormalYday(u);
    if t.year < u.year {
      YearsGrow(t.year + 1900, u.year + 1900);
    } else if u.year < t.year {
      YearsGrow(u.year + 1900, t.year + 1900);
    }
  }

  lemma {:induction false} SameDaySameMonth(t: Tm, u: Tm)
    requires Normal(t) && Normal(u) && t.year == u.year && t.yday == u.yday
    ensures t.mon == u.mon && t.mday == u.mday
  {
    var year := t.year + 1900;
    MonthsApart(t.mon, t.mday, u.mon, u.mday, year, t.yday);
    MonthsApart(u.mon, u.mday, t.mon, t.mday, year, t.yday);
  }

  lemma {:induction false} MonthsApart(m: int, d: int, n: int, e: int, year: int, yday: int)
    requires 0 <= m < 12 && 0 <= n < 12 && 1 <= d && 1 <= e
    requires yday == FirstOfMonth(m, year) + d - 1 < FirstOfMonth(m + 1, year)
    requires yday == FirstOfMonth(n, year) + e - 1 < FirstOfMonth(n + 1, year)
    ensures m >= n
  {
    if m < n {
      DaysBeforeMonthClosed(m, year);
      DaysBeforeMonthClosed(n, year);
      MonthLength(m, year);
      MonthsGrow(m, n, year);
    }
  }

  lemma SameClock(a: int, t: Tm, b: int, u: Tm)
    requires 0 <= t.sec < 60 && 0 <= t.min < 60 && 0 <= t.hour < 24
    requires 0 <= u.sec < 60 && 0 <= u.min < 60 && 0 <= u.hour < 24
    requires a * DAY + t.hour * 3600 + t.min * 60 + t.sec == b * DAY + u.hour * 3600 + u.min * 60 + u.sec
    ensures a == b && t.hour == u.hour && t.min == u.min && t.sec == u.sec
  {
  }

  /** A second of the Epoch has one normal broken-down time. */
  lemma {:induction false} NormalIsUnique(t: Tm, u: Tm)
    requires Normal(t) && Normal(u) && PosixSeconds(t) == PosixSeconds(u)
    ensures t == u
  {
    SecondsByDay(t);
    SecondsByDay(u);
    SameClock(DayNumber(t), t, DayNumber(u), u);
    SameDaySameYear(t, u);
    SameDaySameMonth(t, u);
  }

  // ---------------------------------------------------------------- the conversions

  /** The dates mktime refuses. */
  predicate Refused(t: Tm) { t.year < 70 || t.mon < 0 || t.mon > 11 || t.mday < 1 || t.mday > 31 }

  /**
   * mktime: a refused date gives -1 and is left alone. An accepted one is completed and gives
   * its POSIX seconds, which are -1 too for the clock one second before the Epoch.
   */
  method Mktime(t: Tm) returns (result: int, t': Tm)
    ensures Refused(t) ==> result == -1 && t' == t
    ensures !Refused(t) ==>
      && t'.yday == FirstOfMonth(t.mon, t.year + 1900) + t.mday - 1
      && t' == t.(yday := t'.yday, wday := WeekDay(PosixDays(t.(yday := t'.yday))), isdst := 0)
      && result == PosixSeconds(t')
    ensures result == -1 <==> Refused(t) || PosixSeconds(t') == -1
  {
    var year, month, mday := t.year + 1900, t.mon, t.mday;
    if year < 1970 || month < 0 || month > 11 || mday < 1 || mday > 31 {
      return -1, t;
    }
    var days := 0;
    for y := 1970 to year
      invariant days == DaysBeforeYear(y)
    {
      days := days + if IsLeapYear(y) then 366 else 365;
    }
    for m := 0 to month
      invariant days == DaysBeforeYear(year) + DaysBeforeMonth(m, year)
    {
      days := days + DaysInMonth(m, year);
    }
    days := days + (mday - 1);
    result := days * 86400 + t.hour * 3600 + t.min * 60 + t.sec;
    var yday := 0;
    for m := 0 to month
      invariant yday == DaysBeforeMonth(m, year)
    {
      yday := yday + DaysInMonth(m, year);
    }
    yday := yday + (mday - 1);
    t' := t.(wday := (days + 4) % 7, yday := yday, isdst := 0);
    CountedDays(t', days, yday);
  }

  /** What the loops have counted, in closed form. */
  lemma CountedDays(t: Tm, days: int, yday: int)
    requires t.year >= 70 && 0 <= t.mon < 12 && t.yday == yday
    requires yday == DaysBeforeMonth(t.mon, t.year + 1900) + t.mday - 1
    requires days == DaysBeforeYear(t.year + 1900) + yday
    ensures yday == FirstOfMonth(t.mon, t.year + 1900) + t.mday - 1 && days == PosixDays(t)
    ensures PosixSeconds(t) == days * 86400 + t.hour * 3600 + t.min * 60 + t.sec
  {
    DaysBeforeYearClosed(t.year + 1900);
    DaysBeforeMonthClosed(t.mon, t.year + 1900);
  }

  lemma EpochLessOne(t: Tm)
    requires t.sec == -1 && t.min == 0 && t.hour == 0 && t.year == 70 && t.yday == 0
    ensures PosixSeconds(t) == -1
  {
  }

  /** The result -1 does not tell a refused date: 1970-01-01 00:00:-1 is accepted, and completed. */
  method MinusOneIsAmbiguous(t: Tm) returns (result: int, t': Tm)
    requires t == Tm(-1, 0, 0, 1, 0, 70, 0, 0, 0)
    ensures !Refused(t) && result == -1 && t' == t.(wday := t'.wday)
  {
    result, t' := Mktime(t);
    EpochLessOne(t');
  }

  /** gmtime for a non-negative time; a negative one yields NULL. */
  method Gmtime(time: int) returns (ok: bool, t: Tm)
    ensures ok <==> time >= 0
    ensures ok ==> Normal(t) && PosixSeconds(t) == time
  {
    if time < 0 {
      return false, Tm(0, 0, 0, 0, 0, 0, 0, 0, 0);
    }
    var days, rem := time / 86400, time % 86400;
    var hour := rem / 3600;
    rem := rem % 3600;
    var min, sec := rem / 60, rem % 60;
    ghost var dayNumber := days;
    var wday := (days + 4) % 7;
    var year := 1970;
    while days >= YearLength(year)
      invariant year >= 1970 && days >= 0
      invariant dayNumber == DaysBeforeYear(year) + days
      decreases days
    {
      days := days - YearLength(year);
      year := year + 1;
    }
    var yday, month := days, 0;
    DaysBeforeMonthClosed(12, year);
    while month < 12
      invariant 0 <= month < 12 && days >= 0
      invariant yday == DaysBeforeMonth(month, year) + days
      decreases 12 - month
    {
      var dmon := DaysInMonth(month, year);
      if days < dmon {
        break;
      }
      days := days - dmon;
      month := month + 1;
    }
    t := Tm(sec, min, hour, days + 1, month, year - 1900, wday, yday, 0);
    SecondsByDay(t);
    NormalCounts(t);
    ok := true;
  }

  // ---------------------------------------------------------------- round trips

  /** mktime inverts gmtime at every non-negative time. */
  method GmtimeThenMktime(time: int) returns (back: int)
    requires time >= 0
    ensures back == time
  {
    var _, t := Gmtime(time);
    var t';
    back, t' := Mktime(t);
    assert t' == t;
  }

  /** gmtime inverts mktime on every normal date, weekday and day of the year included. */
  method MktimeThenGmtime(t: Tm) returns (back: Tm)
    requires Normal(t)
    ensures back == t
  {
    var time, t' := Mktime(t);
    assert t' == t;
    NormalYday(t);
    SecondsByDay(t);
    var ok;
    ok, back := Gmtime(time);
    NormalIsUnique(t, back);
  }

  /** Even when only the date and the clock are given, mktime completes and gmtime restores them. */
  method MktimeCompletes(t: Tm) returns (back: Tm)
    requires t.year >= 70 && 0 <= t.mon < 12
    requires 1 <= t.mday <= FirstOfMonth(t.mon + 1, t.year + 1900) - FirstOfMonth(t.mon, t.year + 1900)
    requires 0 <= t.sec < 60 && 0 <= t.min < 60 && 0 <= t.hour < 24
    ensures Normal(back) && back == t.(wday := back.wday, yday := back.yday, isdst := 0)
  {
    var time, t' := Mktime(t);
    back := MktimeThenGmtime(t');
  }

  /** The year fits in an int exactly up to the end of the year INT_MAX. */
  lemma {:induction false} YearFitsInt(t: Tm)
    requires Normal(t)
    ensures t.year + 1900 <= INT_MAX <==> PosixSeconds(t) < DaysBeforeYear(INT_MAX + 1) * DAY
  {
    var year := t.year + 1900;
    SecondsByDay(t);
    NormalYday(t);
    if year <= INT_MAX {
      YearsGrow(year, INT_MAX + 1);
    } else if year > INT_MAX + 1 {
      YearsGrow(INT_MAX + 1, year);
    }
  }
}
