/** Calendar arithmetic (pmon/time.c). Times are seconds from the start of 1970, over all
    integers; days are counted from 1 January 1970. */
module Calendar {

  const SECS_PER_DAY := 86400
  const SECS_PER_HOUR := 3600
  const SECS_PER_MIN := 60
  const EPOCH_YEAR := 1970
  const TM_YEAR_BASE := 1900
  const EPOCH_WDAY := 4

  // ------------------------------------------------------------ the calendar

  predicate Leap(y: int) {
    y % 4 == 0 && (y % 100 != 0 || y % 400 == 0)
  }

  function YearLength(y: int): int {
    if Leap(y) then 366 else 365
  }

  function MonthLength(leap: bool, m: int): (n: int)
    requires 0 <= m < 12
    ensures 28 <= n <= 31
  {
    if m == 1 then (if leap then 29 else 28)
    else if m == 3 || m == 5 || m == 8 || m == 10 then 30
    else 31
  }

  /** The day number of 1 January of year `y`, counting year by year from 1970. */
  function DaysToYear(y: int): int
    decreases if y >= EPOCH_YEAR then y - EPOCH_YEAR else EPOCH_YEAR - y
  {
    if y == EPOCH_YEAR then 0
    else if y > EPOCH_YEAR then DaysToYear(y - 1) + YearLength(y - 1)
    else DaysToYear(y + 1) - YearLength(y)
  }

  /** How many days of a year come before month `m`. */
  function DaysToMonth(leap: bool, m: int): (n: int)
    requires 0 <= m <= 12
    ensures n >= 0
    decreases m
  {
    if m == 0 then 0 else DaysToMonth(leap, m - 1) + MonthLength(leap, m - 1)
  }

  /** The days before each month, from March on shifted by the leap day. */
  function Before(m: int): int
    requires 0 <= m <= 12
  {
    if m == 0 then 0 else if m == 1 then 31 else if m == 2 then 59 else if m == 3 then 90
    else if m == 4 then 120 else if m == 5 then 151 else if m == 6 then 181 else if m == 7 then 212
    else if m == 8 then 243 else if m == 9 then 273 else if m == 10 then 304 else if m == 11 then 334
    else 365
  }

  lemma {:induction false} DaysBefore(leap: bool, m: int)
    requires 0 <= m <= 12
    ensures DaysToMonth(leap, m) == Before(m) + if m >= 2 && leap then 1 else 0
    decreases m
  {
    if m > 0 {
      DaysBefore(leap, m - 1);
    }
  }

  lemma {:induction false} MonthsFillYear(y: int)
    ensures DaysToMonth(Leap(y), 12) == YearLength(y)
  {
    DaysBefore(Leap(y), 12);
  }

  // ------------------------------------------------------------ broken-down time

  /** A broken-down time: month and year day count from zero, years from 1900. */
  datatype Tm = Tm(sec: int, min: int, hour: int, mday: int, mon: int, year: int, wday: int, yday: int)

  function Year(tm: Tm): int {
    tm.year + TM_YEAR_BASE
  }

  predicate ValidDate(tm: Tm) {
    0 <= tm.mon < 12 && 1 <= tm.mday <= MonthLength(Leap(Year(tm)), tm.mon)
  }

  predicate ValidClock(tm: Tm) {
    0 <= tm.hour < 24 && 0 <= tm.min < 60 && 0 <= tm.sec < 60
  }

  function DayNumber(tm: Tm): int
    requires 0 <= tm.mon <= 12
  {
    DaysToYear(Year(tm)) + DaysToMonth(Leap(Year(tm)), tm.mon) + tm.mday - 1
  }

  /** Every field is in range, and the fields denote the time `t`. */
  predicate Denotes(tm: Tm, t: int) {
    && ValidDate(tm) && ValidClock(tm)
    && DayNumber(tm) * SECS_PER_DAY + tm.hour * SECS_PER_HOUR + tm.min * SECS_PER_MIN + tm.sec == t
    && tm.yday == DaysToMonth(Leap(Year(tm)), tm.mon) + tm.mday - 1
    && tm.wday == (EPOCH_WDAY + DayNumber(tm)) % 7
  }

  /** C's division and remainder truncate toward zero. */
  function TruncDiv(a: int, b: int): int
    requires b > 0
  {
    if a >= 0 then a / b else -(-a / b)
  }

  function TruncMod(a: int, b: int): int
    requires b > 0
  {
    if a >= 0 then a % b else -(-a % b)
  }

  // ------------------------------------------------------------ from seconds to date

  /** The whole days and the rest of a time, the rest brought into one day. */
  method SplitDays(clock: int, offset: int) returns (days: int, rem: int)
    ensures days * SECS_PER_DAY + rem == clock + offset
    ensures 0 <= rem < SECS_PER_DAY
  {
    days := TruncDiv(clock, SECS_PER_DAY);
    rem := TruncMod(clock, SECS_PER_DAY);
    rem := rem + offset;
    while rem < 0
      invariant days * SECS_PER_DAY + rem == clock + offset
      decreases -rem
    {
      rem := rem + SECS_PER_DAY;
      days := days - 1;
    }
    while rem >= SECS_PER_DAY
      invariant days * SECS_PER_DAY + rem == clock + offset && rem >= 0
      decreases rem
    {
      rem := rem - SECS_PER_DAY;
      days := days + 1;
    }
  }

  /** The year a day number falls in, and the day of that year. */
  method FindYear(total: int) returns (y: int, days: int)
    ensures 0 <= days < YearLength(y) && DaysToYear(y) + days == total
  {
    y := EPOCH_YEAR;
    days := total;
    if days >= 0 {
      while days >= YearLength(y)
        invariant y >= EPOCH_YEAR && days >= 0 && DaysToYear(y) + days == total
        decreases days
      {
        days := days - YearLength(y);
        y := y + 1;
      }
    } else {
      y := y - 1;
      days := days + YearLength(y);
      while days < 0
        invariant y < EPOCH_YEAR && days < YearLength(y) && DaysToYear(y) + days == total
        decreases -days
      {
        y := y - 1;
        days := days + YearLength(y);
      }
    }
  }

  method FindMonth(leap: bool, yday: int) returns (mon: int, days: int)
    requires 0 <= yday < DaysToMonth(leap, 12)
    ensures 0 <= mon < 12 && 0 <= days < MonthLength(leap, mon) && DaysToMonth(leap, mon) + days == yday
  {
    mon := 0;
    days := yday;
    while days >= MonthLength(leap, mon)
      invariant 0 <= mon < 12 && days >= 0 && DaysToMonth(leap, mon) + days == yday
      decreases 12 - mon
    {
      days := days - MonthLength(leap, mon);
      mon := mon + 1;
    }
  }

  /** Hours, minutes and seconds of a time of day. */
  method SplitClock(rem: int) returns (hour: int, min: int, sec: int)
    requires 0 <= rem < SECS_PER_DAY
    ensures 0 <= hour < 24 && 0 <= min < 60 && 0 <= sec < 60
    ensures hour * SECS_PER_HOUR + min * SECS_PER_MIN + sec == rem
  {
    hour := rem / SECS_PER_HOUR;
    var rest := rem % SECS_PER_HOUR;
    min := rest / SECS_PER_MIN;
    sec := rest % SECS_PER_MIN;
  }

  method WeekDay(days: int) returns (wday: int)
    ensures wday == (EPOCH_WDAY + days) % 7
  {
    wday := TruncMod(EPOCH_WDAY + days, 7);
    if wday < 0 {
      wday := wday + 7;
    }
  }

  /** Every time, before or after 1970 and with any offset, comes out with its fields in range
      and denoting the shifted time. */
  method Offtime(clock: int, offset: int) returns (tm: Tm)
    ensures Denotes(tm, clock + offset)
  {
    var days, rem := SplitDays(clock, offset);
    var hour, min, sec := SplitClock(rem);
    var wday := WeekDay(days);
    var y, yday := FindYear(days);
    MonthsFillYear(y);
    var mon, mday := FindMonth(Leap(y), yday);
    tm := Tm(sec, min, hour, mday + 1, mon, y - TM_YEAR_BASE, wday, yday);
    assert Year(tm) == y;
    assert DayNumber(tm) == days;
  }

  // ------------------------------------------------------------ one date for each time

  lemma {:induction false} YearsGrow(y: int, z: int)
    requires y < z
    ensures DaysToYear(y) + YearLength(y) <= DaysToYear(z)
    decreases z - y
  {
    if y + 1 < z {
      YearsGrow(y, z - 1);
    }
  }

  lemma {:induction false} MonthsGrow(leap: bool, m: int, n: int)
    requires 0 <= m < n <= 12
    ensures DaysToMonth(leap, m) + MonthLength(leap, m) <= DaysToMonth(leap, n)
    decreases n - m
  {
    if m + 1 < n {
      MonthsGrow(leap, m, n - 1);
    }
  }

  lemma {:induction false} DayInYear(tm: Tm)
    requires ValidDate(tm)
    ensures 0 <= DayNumber(tm) - DaysToYear(Year(tm)) < YearLength(Year(tm))
  {
    MonthsFillYear(Year(tm));
    MonthsGrow(Leap(Year(tm)), tm.mon, 12);
  }

  lemma {:induction false} SameDay(a: Tm, b: Tm)
    requires ValidDate(a) && ValidDate(b) && DayNumber(a) == DayNumber(b)
    ensures a.year == b.year && a.mon == b.mon && a.mday == b.mday
  {
    DayInYear(a);
    DayInYear(b);
    if a.year < b.year {
      YearsGrow(Year(a), Year(b));
    } else if b.year < a.year {
      YearsGrow(Year(b), Year(a));
    } else if a.mon < b.mon {
      MonthsGrow(Leap(Year(a)), a.mon, b.mon);
    } else if b.mon < a.mon {
      MonthsGrow(Leap(Year(a)), b.mon, a.mon);
    }
  }

  /** A time has one broken-down form. */
  lemma {:induction false} DenotesOnce(a: Tm, b: Tm, t: int)
    requires Denotes(a, t) && Denotes(b, t)
    ensures a == b
  {
    assert DayNumber(a) == t / SECS_PER_DAY == DayNumber(b);
    SameDay(a, b);
  }

  // ------------------------------------------------------------ from date to seconds

  /** gmmktime rejects these. */
  predicate Refused(tm: Tm) {
    tm.sec > 61 || tm.min > 59 || tm.hour > 23 || tm.mday > 31 || tm.mon > 12 || tm.year < 70
  }

  function Seconds(tm: Tm): int
    requires tm.mon <= 12
  {
    var months := if tm.mon <= 0 then 0 else DaysToMonth(Leap(Year(tm)), tm.mon);
    (DaysToYear(Year(tm)) + months + tm.mday - 1) * SECS_PER_DAY
      + tm.hour * SECS_PER_HOUR + tm.min * SECS_PER_MIN + tm.sec
  }

  method GmMkTime(tm: Tm) returns (secs: int)
    ensures secs == if Refused(tm) then -1 else Seconds(tm)
  {
    if tm.sec > 61 || tm.min > 59 || tm.hour > 23 || tm.mday > 31 || tm.mon > 12 || tm.year < 70 {
      return -1;
    }
    secs := tm.sec;
    secs := secs + tm.min * SECS_PER_MIN;
    secs := secs + tm.hour * SECS_PER_HOUR;
    secs := secs + (tm.mday - 1) * SECS_PER_DAY;
    ghost var clock := secs;
    var mn := 0;
    while mn < tm.mon
      invariant 0 <= mn && (mn <= tm.mon || mn == 0)
      invariant secs == clock + DaysToMonth(Leap(Year(tm)), mn) * SECS_PER_DAY
    {
      secs := secs + MonthLength(Leap(Year(tm)), mn) * SECS_PER_DAY;
      mn := mn + 1;
    }
    ghost var inYear := secs;
    var yr := EPOCH_YEAR;
    while yr < tm.year + TM_YEAR_BASE
      invariant EPOCH_YEAR <= yr <= Year(tm)
      invariant secs == inYear + DaysToYear(yr) * SECS_PER_DAY
    {
      secs := secs + YearLength(yr) * SECS_PER_DAY;
      yr := yr + 1;
    }
  }

  lemma {:induction false} YearFrom1970(tm: Tm, t: int)
    requires Denotes(tm, t) && t >= 0
    ensures tm.year >= 70
  {
    DayInYear(tm);
    if Year(tm) < EPOCH_YEAR {
      YearsGrow(Year(tm), EPOCH_YEAR);
    }
  }

  lemma {:induction false} TimeFrom1970(tm: Tm)
    requires ValidDate(tm) && ValidClock(tm) && tm.year >= 70
    ensures !Refused(tm) && Seconds(tm) >= 0
  {
    if Year(tm) > EPOCH_YEAR {
      YearsGrow(EPOCH_YEAR, Year(tm));
    }
  }

  /** gmtime then gmmktime gives the time back, for every time from 1970 on. */
  method SecondsRoundTrip(t: int) returns (t': int)
    requires t >= 0
    ensures t' == t
  {
    var tm := Offtime(t, 0);
    YearFrom1970(tm, t);
    t' := GmMkTime(tm);
  }

  /** gmmktime then gmtime gives back the date and the time of day, for every normalised date
      from 1970 on, and fills in the week day and year day. */
  method DateRoundTrip(tm: Tm) returns (tm': Tm)
    requires ValidDate(tm) && ValidClock(tm) && tm.year >= 70
    ensures tm' == tm.(wday := tm'.wday, yday := tm'.yday)
    ensures Denotes(tm', Seconds(tm))
  {
    TimeFrom1970(tm);
    var t := GmMkTime(tm);
    tm' := Offtime(t, 0);
    ghost var full := tm.(yday := DaysToMonth(Leap(Year(tm)), tm.mon) + tm.mday - 1,
                          wday := (EPOCH_WDAY + DayNumber(tm)) % 7);
    assert DayNumber(full) == DayNumber(tm);
    DenotesOnce(full, tm', t);
  }

  // ------------------------------------------------------------ the day of the week

  /** The number of leap years up to and including year `n`. */
  function LeapYears(n: int): int {
    n / 4 - n / 100 + n / 400
  }

  lemma {:induction false} Quarters(y: int)
    ensures y / 4 == (y - 1) / 4 + if y % 4 == 0 then 1 else 0
  {
  }

  lemma {:induction false} Centuries(y: int)
    ensures y / 100 == (y - 1) / 100 + if y % 100 == 0 then 1 else 0
    ensures y % 100 == 0 ==> y % 4 == 0
  {
  }

  lemma {:induction false} Cycles(y: int)
    ensures y / 400 == (y - 1) / 400 + if y % 400 == 0 then 1 else 0
    ensures y % 400 == 0 ==> y % 100 == 0
  {
  }

  lemma {:induction false} LeapYearsStep(y: int)
    ensures LeapYears(y) == LeapYears(y - 1) + if Leap(y) then 1 else 0
  {
    Quarters(y);
    Centuries(y);
    Cycles(y);
  }

  /** The day number of a new year in closed form. */
  lemma {:induction false} DaysToYearClosed(y: int)
    ensures DaysToYear(y) == 365 * (y - EPOCH_YEAR) + LeapYears(y - 1) - 477
    decreases if y >= EPOCH_YEAR then y - EPOCH_YEAR else EPOCH_YEAR - y
  {
    if y > EPOCH_YEAR {
      DaysToYearClosed(y - 1);
      LeapYearsStep(y - 1);
    } else if y < EPOCH_YEAR {
      DaysToYearClosed(y + 1);
      LeapYearsStep(y);
    }
  }

  /** The day number of the first of month `mon`, counted from one as in a rule. */
  function FirstOfMonth(year: int, mon: int): int
    requires 1 <= mon <= 12
  {
    DaysToYear(year) + DaysToMonth(Leap(year), mon - 1)
  }

  /** Zeller's congruence as transtime computes it. */
  function Zeller(year: int, mon: int): int {
    var m1 := (mon + 9) % 12 + 1;
    var yy0 := if mon <= 2 then year - 1 else year;
    var yy1, yy2 := yy0 / 100, yy0 % 100;
    var dow := TruncMod((26 * m1 - 2) / 10 + 1 + yy2 + yy2 / 4 + yy1 / 4 - 2 * yy1, 7);
    if dow < 0 then dow + 7 else dow
  }

  lemma {:induction false} Mod7(a: int, b: int, k: int)
    requires a + 7 * k == b
    ensures (var r := TruncMod(a, 7); if r < 0 then r + 7 else r) == b % 7
  {
    var q, r := b / 7 - k, b % 7;
    assert a == 7 * q + r;
    if a >= 0 {
      Rest7(a, q, r);
    } else if r == 0 {
      Rest7(-a, -q, 0);
    } else {
      Rest7(-a, -q - 1, 7 - r);
    }
  }

  lemma {:induction false} Rest7(a: int, q: int, r: int)
    requires a == 7 * q + r && 0 <= r < 7
    ensures a % 7 == r
  {
  }

  /** The century split of a year's share of days. */
  lemma {:induction false} CenturySplit(y: int)
    requires y >= 0
    ensures y == 100 * (y / 100) + y % 100
    ensures LeapYears(y) == 24 * (y / 100) + y % 100 / 4 + y / 100 / 4
  {
    var c, d := y / 100, y % 100;
    assert y / 4 == 25 * c + d / 4;
    assert y / 400 == c / 4;
  }

  /** Zeller's term for a month, with months numbered from March. */
  function MonthTerm(mon: int): int {
    (26 * ((mon + 9) % 12 + 1) - 2) / 10
  }

  /** The term grows like the days before the month, but for whole weeks. */
  lemma {:induction false} MonthTerms(mon: int)
    requires 1 <= mon <= 12
    ensures Before(mon - 1) - MonthTerm(mon) == if mon <= 2 then 28 * (mon - 2) else 28 * (mon - 1) + 1
  {
  }

  /** The days to the first of a month, counted from a year that begins in March. */
  lemma {:induction false} FirstOfMonthClosed(year: int, mon: int)
    requires year >= 1 && 1 <= mon <= 12
    ensures FirstOfMonth(year, mon) == Before(mon - 1) +
      if mon <= 2 then 365 * (year - 1) - 718685 + LeapYears(year - 1) - 477
      else 365 * year - 719050 + LeapYears(year) - 477
  {
    DaysToYearClosed(year);
    DaysBefore(Leap(year), mon - 1);
    LeapYearsStep(year);
  }

  /** The sum of Zeller's terms is the days to the month, but for whole weeks. */
  lemma {:induction false} ZellerWeeks(y: int, mon: int, c: int, d: int, d4: int, c4: int,
                                       leaps: int, term: int, before: int)
    requires y == 100 * c + d && leaps == 24 * c + d4 + c4
    requires before - term == if mon <= 2 then 28 * (mon - 2) else 28 * (mon - 1) + 1
    ensures var weeks := 5218 * c + 52 * d + if mon <= 2 then 4 * (mon - 2) - 102737 else 4 * (mon - 1) - 102789;
      term + 1 + d + d4 + c4 - 2 * c + 7 * weeks
      == EPOCH_WDAY + before + 365 * y + leaps - 477 - if mon <= 2 then 718685 else 719050
  {
  }

  /** The sum that Zeller's congruence reduces. */
  function ZellerSum(year: int, mon: int): int {
    var yy0 := if mon <= 2 then year - 1 else year;
    MonthTerm(mon) + 1 + yy0 % 100 + yy0 % 100 / 4 + yy0 / 100 / 4 - 2 * (yy0 / 100)
  }

  lemma {:induction false} ZellerReduces(year: int, mon: int)
    requires year >= 1 && 1 <= mon <= 12
    ensures Zeller(year, mon) == var r := TruncMod(ZellerSum(year, mon), 7); if r < 0 then r + 7 else r
  {
  }

  lemma {:induction false} ZellerCounts(year: int, mon: int) returns (weeks: int)
    requires year >= 1 && 1 <= mon <= 12
    ensures ZellerSum(year, mon) + 7 * weeks == EPOCH_WDAY + FirstOfMonth(year, mon)
  {
    var yy0 := if mon <= 2 then year - 1 else year;
    var c, d := yy0 / 100, yy0 % 100;
    FirstOfMonthClosed(year, mon);
    CenturySplit(yy0);
    MonthTerms(mon);
    weeks := 5218 * c + 52 * d + if mon <= 2 then 4 * (mon - 2) - 102737 else 4 * (mon - 1) - 102789;
    ZellerWeeks(yy0, mon, c, d, d / 4, c / 4, LeapYears(yy0), MonthTerm(mon), Before(mon - 1));
  }

  /** Zeller's congruence gives the same week day as counting days from 1970. */
  lemma {:induction false} ZellerIsWeekDay(year: int, mon: int)
    requires year >= 1 && 1 <= mon <= 12
    ensures Zeller(year, mon) == (EPOCH_WDAY + FirstOfMonth(year, mon)) % 7
  {
    ZellerReduces(year, mon);
    var weeks := ZellerCounts(year, mon);
    Mod7(ZellerSum(year, mon), EPOCH_WDAY + FirstOfMonth(year, mon), weeks);
  }

  // ------------------------------------------------------------ when a rule takes effect

  datatype Rule = None | Julian(day: int, time: int) | DayOfYear(day: int, time: int)
                | MonthWeekDay(mon: int, week: int, day: int, time: int)

  /** In a month of `length` days that begins on day number `first` counted from a Sunday, day
      `d`, from zero, is the `week`-th that falls on week day `day`, or the last if there is no
      such. */
  predicate Nth(first: int, length: int, week: int, day: int, d: int) {
    && 0 <= d < length
    && (first + d) % 7 == day
    && d / 7 <= week - 1
    && (d / 7 < week - 1 ==> d + 7 >= length)
  }

  lemma {:induction false} NthOnce(first: int, length: int, week: int, day: int, d: int, e: int)
    requires Nth(first, length, week, day, d) && Nth(first, length, week, day, e)
    ensures d == e
  {
    assert d % 7 == e % 7;
    assert d == 7 * (d / 7) + d % 7 && e == 7 * (e / 7) + e % 7;
  }

  /** Only the fifth can be missing, and then the last is the fourth. */
  lemma {:induction false} NthMeans(first: int, length: int, week: int, day: int, d: int)
    requires 28 <= length <= 31 && 1 <= week <= 5 && Nth(first, length, week, day, d)
    ensures week <= 4 ==> d / 7 == week - 1
    ensures week == 5 ==> d + 7 >= length
  {
  }

  predicate NthDay(year: int, mon: int, week: int, day: int, d: int)
    requires 1 <= mon <= 12
  {
    Nth(EPOCH_WDAY + FirstOfMonth(year, mon), MonthLength(Leap(year), mon - 1), week, day, d)
  }

  /** The day of the year that a rule names, from zero. */
  ghost predicate RuleDay(year: int, rule: Rule, n: int) {
    match rule
    case None => false
    case Julian(day, _) => n == day - 1 + if Leap(year) && day >= 60 then 1 else 0
    case DayOfYear(day, _) => n == day
    case MonthWeekDay(mon, week, day, _) =>
      && 1 <= mon <= 12
      && exists d :: NthDay(year, mon, week, day, d) && n == DaysToMonth(Leap(year), mon - 1) + d
  }

  /** The first such week day of the month, then week by week while the month lasts. */
  method PickDay(ghost first: int, dow: int, length: int, week: int, day: int) returns (d: int)
    requires dow == first % 7 && 28 <= length && 1 <= week <= 5 && 0 <= day < 7
    ensures Nth(first, length, week, day, d)
  {
    d := day - dow;
    if d < 0 {
      d := d + 7;
    }
    assert (first + d) % 7 == day;
    var i := 1;
    while i < week
      invariant 1 <= i <= week && 0 <= d < length
      invariant (first + d) % 7 == day && d / 7 == i - 1
    {
      if d + 7 >= length {
        break;
      }
      assert (first + d + 7) % 7 == (first + d) % 7;
      d := d + 7;
      i := i + 1;
    }
  }

  method FindRuleDay(year: int, mon: int, week: int, day: int) returns (d: int)
    requires year >= 1 && 1 <= mon <= 12 && 1 <= week <= 5 && 0 <= day < 7
    ensures NthDay(year, mon, week, day, d)
  {
    ZellerIsWeekDay(year, mon);
    d := PickDay(EPOCH_WDAY + FirstOfMonth(year, mon), Zeller(year, mon),
                 MonthLength(Leap(year), mon - 1), week, day);
  }

  /** Adds up the months before a rule's month. */
  method MonthStart(janFirst: int, leap: bool, mon: int) returns (value: int)
    requires 1 <= mon <= 12
    ensures value == janFirst + DaysToMonth(leap, mon - 1) * SECS_PER_DAY
  {
    value := janFirst;
    var i := 0;
    while i < mon - 1
      invariant 0 <= i <= mon - 1
      invariant value == janFirst + DaysToMonth(leap, i) * SECS_PER_DAY
    {
      value := value + MonthLength(leap, i) * SECS_PER_DAY;
      i := i + 1;
    }
  }

  /** transtime: the start of the day the rule names, the transition time and the offset. */
  method TransTime(janFirst: int, year: int, rule: Rule, offset: int) returns (t: int)
    requires rule.MonthWeekDay? ==>
      year >= 1 && 1 <= rule.mon <= 12 && 1 <= rule.week <= 5 && 0 <= rule.day < 7
    ensures rule.None? ==> t == -1
    ensures !rule.None? ==>
      exists n :: RuleDay(year, rule, n) && t == janFirst + n * SECS_PER_DAY + rule.time + offset
  {
    var leap := Leap(year);
    var value := janFirst;
    ghost var n := 0;
    match rule {
      case None =>
        return -1;
      case Julian(day, _) =>
        value := janFirst + (day - 1) * SECS_PER_DAY;
        if leap && day >= 60 {
          value := value + SECS_PER_DAY;
        }
        n := day - 1 + if leap && day >= 60 then 1 else 0;
      case DayOfYear(day, _) =>
        value := janFirst + day * SECS_PER_DAY;
        n := day;
      case MonthWeekDay(mon, week, day, _) =>
        value := MonthStart(janFirst, leap, mon);
        var d := FindRuleDay(year, mon, week, day);
        value := value + d * SECS_PER_DAY;
        n := DaysToMonth(leap, mon - 1) + d;
    }
    t := value + rule.time + offset;
    assert RuleDay(year, rule, n);
  }

  /** A Julian day rule names the same date in every year, as if there were no 29 February. */
  lemma {:induction false} JulianSkipsLeapDay(year: int, rule: Rule, mon: int, d: int, n: int)
    requires rule.Julian? && RuleDay(year, rule, n)
    requires 0 <= mon < 12 && 0 <= d < MonthLength(false, mon) && DaysToMonth(false, mon) + d == rule.day - 1
    ensures n == DaysToMonth(Leap(year), mon) + d
  {
    DaysBefore(false, mon);
    DaysBefore(Leap(year), mon);
  }
}
