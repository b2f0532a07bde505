/** Day counts and civil dates of the time library (aos/ctime.c). */
module Calendar {

  const SECSPERMIN := 60
  const MINSPERHOUR := 60
  const HOURSPERDAY := 24
  const DAYSPERWEEK := 7
  const SECSPERHOUR := 3600
  const SECSPERDAY := 86400
  const MONSPERYEAR := 12
  const TM_YEAR_BASE := 1900
  const EPOCH_YEAR := 1970
  const EPOCH_WDAY := 4

  /** struct tm */
  datatype Tm = Tm(year: int, mon: int, mday: int, hour: int,
      min: int, sec: int, wday: int, yday: int, isdst: int, gmtoff: int)

  /** The quotient and the remainder of C, which truncate towards zero. */
  function Quot(a: int, b: int): int
    requires b > 0
  {
    if a >= 0 then a / b else -((-a) / b)
  }

  function Rem(a: int, b: int): int
    requires b > 0
  {
    if a >= 0 then a % b else -((-a) % b)
  }

  predicate IsLeap(y: int) {
    (Rem(y, 4) == 0 && Rem(y, 100) != 0) || Rem(y, 400) == 0
  }

  function YearLength(y: int): (n: int)
    ensures 365 <= n <= 366
  {
    if IsLeap(y) then 366 else 365
  }

  /** mon_lengths */
  function MonthLength(leap: bool, m: int): (n: int)
    ensures 28 <= n <= 31
  {
    if m == 1 then (if leap then 29 else 28)
    else if m == 3 || m == 5 || m == 8 || m == 10 then 30
    else 31
  }

  // ----- the civil calendar, counted in closed form -----

  /** Days of a year before a month. */
  function DaysBeforeMonth(leap: bool, m: int): int {
    var feb := if leap then 1 else 0;
    if m <= 0 then 0 else if m == 1 then 31 else if m == 2 then 59 + feb
    else if m == 3 then 90 + feb else if m == 4 then 120 + feb else if m == 5 then 151 + feb
    else if m == 6 then 181 + feb else if m == 7 then 212 + feb else if m == 8 then 243 + feb
    else if m == 9 then 273 + feb else if m == 10 then 304 + feb else if m == 11 then 334 + feb
    else 365 + feb
  }

  /** Leap days up to the end of a year of the Gregorian calendar. */
  function LeapDays(y: int): int {
    y / 4 - y / 100 + y / 400
  }

  /** Days from the epoch to the first of January of a year. */
  function DaysBeforeYear(y: int): int {
    365 * (y - EPOCH_YEAR) + LeapDays(y - 1) - LeapDays(EPOCH_YEAR - 1)
  }

  /** Days from the epoch to day mday of a month; mday may be any number. */
  function DayOf(y: int, m: int, mday: int): int {
    DaysBeforeYear(y) + DaysBeforeMonth(IsLeap(y), m) + mday - 1
  }

  predicate IsDate(y: int, m: int, mday: int) {
    0 <= m < 12 && 1 <= mday <= MonthLength(IsLeap(y), m)
  }

  predicate IsClock(h: int, min: int, s: int) {
    0 <= h < 24 && 0 <= min < 60 && 0 <= s < 60
  }

  /** The fields are those of a date and a time of day. */
  predicate IsTime(tm: Tm) {
    IsDate(tm.year + TM_YEAR_BASE, tm.mon, tm.mday) && IsClock(tm.hour, tm.min, tm.sec)
  }

  /** The seconds from the epoch to the time of the fields, on the clock they are
      read from. */
  function Seconds(tm: Tm): int {
    DayOf(tm.year + TM_YEAR_BASE, tm.mon, tm.mday) * 86400 + tm.hour * 3600 + tm.min * 60 + tm.sec
  }

  function WeekdayOf(days: int): int {
    (days + EPOCH_WDAY) % 7
  }

  lemma RemIsZero(a: int, b: int)
    requires b == 4 || b == 100 || b == 400
    ensures Rem(a, b) == 0 <==> a % b == 0
  {
  }

  lemma StepOf(y: int, b: int)
    requires b == 4 || b == 100 || b == 400
    ensures y / b - (y - 1) / b == if y % b == 0 then 1 else 0
  {
  }

  /** A year follows the one before after its length. */
  lemma NextYear(y: int)
    ensures DaysBeforeYear(y + 1) == DaysBeforeYear(y) + YearLength(y)
  {
    RemIsZero(y, 4); RemIsZero(y, 100); RemIsZero(y, 400);
    StepOf(y, 4); StepOf(y, 100); StepOf(y, 400);
    LeapNesting(y);
  }

  lemma LeapNesting(y: int)
    ensures y % 400 == 0 ==> y % 100 == 0
    ensures y % 100 == 0 ==> y % 4 == 0
  {
    if y % 400 == 0 {
      var q := y / 400;
      assert y == 100 * (4 * q);
    }
    if y % 100 == 0 {
      var q := y / 100;
      assert y == 4 * (25 * q);
    }
  }

  lemma NextMonth(leap: bool, m: int)
    requires 0 <= m < 12
    ensures DaysBeforeMonth(leap, m + 1) == DaysBeforeMonth(leap, m) + MonthLength(leap, m)
  {
  }

  lemma YearOfDate(y: int, m: int, mday: int)
    requires IsDate(y, m, mday)
    ensures DaysBeforeYear(y) <= DayOf(y, m, mday) < DaysBeforeYear(y + 1)
  {
    hide DaysBeforeYear, IsLeap;
    NextYear(y);
    NextMonth(IsLeap(y), m);
  }

  lemma {:induction false} YearsAscend(y: int, z: int)
    requires y <= z
    ensures DaysBeforeYear(y) <= DaysBeforeYear(z)
    decreases z - y
  {
    hide DaysBeforeYear, IsLeap;
    if y < z {
      NextYear(z - 1);
      YearsAscend(y, z - 1);
    }
  }

  lemma {:induction false} MonthsAscend(leap: bool, m: int, n: int)
    requires 0 <= m <= n <= 12
    ensures DaysBeforeMonth(leap, m) <= DaysBeforeMonth(leap, n)
    decreases n - m
  {
  }

  /** tmcomp: the first field that differs decides. */
  function TmComp(a: Tm, b: Tm): int {
    if a.year != b.year then a.year - b.year
    else if a.mon != b.mon then a.mon - b.mon
    else if a.mday != b.mday then a.mday - b.mday
    else if a.hour != b.hour then a.hour - b.hour
    else if a.min != b.min then a.min - b.min
    else a.sec - b.sec
  }

  lemma DateAscends(y: int, m: int, d: int, y': int, m': int, d': int)
    requires IsDate(y, m, d) && IsDate(y', m', d')
    requires y < y' || (y == y' && (m < m' || (m == m' && d < d')))
    ensures DayOf(y, m, d) < DayOf(y', m', d')
  {
    hide DaysBeforeYear, IsLeap;
    if y < y' {
      YearOfDate(y, m, d);
      YearsAscend(y + 1, y');
      YearOfDate(y', m', d');
    } else if m < m' {
      NextMonth(IsLeap(y), m);
      MonthsAscend(IsLeap(y), m + 1, m');
    }
  }

  function ClockSeconds(tm: Tm): int {
    tm.hour * 3600 + tm.min * 60 + tm.sec
  }

  lemma ClockFits(tm: Tm)
    requires IsTime(tm)
    ensures 0 <= ClockSeconds(tm) < 86400
  {
  }

  /** tmcomp orders times as the seconds do, so the fields of a time are unique. */
  lemma TmCompIsOrder(a: Tm, b: Tm)
    requires IsTime(a) && IsTime(b)
    ensures TmComp(a, b) < 0 <==> Seconds(a) < Seconds(b)
    ensures TmComp(a, b) > 0 <==> Seconds(a) > Seconds(b)
  {
    if TmComp(a, b) < 0 { BeforeMeansLess(a, b); }
    if TmComp(a, b) > 0 { BeforeMeansLess(b, a); }
  }

  lemma BeforeMeansLess(a: Tm, b: Tm)
    requires IsTime(a) && IsTime(b) && TmComp(a, b) < 0
    ensures Seconds(a) < Seconds(b)
  {
    hide DayOf, IsLeap;
    ClockFits(a);
    ClockFits(b);
    if a.year != b.year || a.mon != b.mon || a.mday != b.mday {
      DateAscends(a.year + TM_YEAR_BASE, a.mon, a.mday, b.year + TM_YEAR_BASE, b.mon, b.mday);
    }
  }

  // ----- timesub -----

  /** The fields for t seconds from the epoch on a clock `offset` ahead. */
  ghost predicate FieldsOf(tm: Tm, t: int, offset: int) {
    && IsTime(tm) && Seconds(tm) == t + offset
    && tm.wday == WeekdayOf(DayOf(tm.year + TM_YEAR_BASE, tm.mon, tm.mday))
    && tm.yday == DaysBeforeMonth(IsLeap(tm.year + TM_YEAR_BASE), tm.mon) + tm.mday - 1
    && tm.gmtoff == offset
  }

  /** There is one date and time for every number of seconds. */
  lemma FieldsAreUnique(a: Tm, b: Tm, t: int, offset: int)
    requires FieldsOf(a, t, offset) && FieldsOf(b, t, offset)
    ensures a.(isdst := 0) == b.(isdst := 0)
  {
    hide DayOf, IsLeap;
    TmCompIsOrder(a, b);
  }

  lemma QuotRem(a: int, b: int)
    requires b > 0
    ensures a == Quot(a, b) * b + Rem(a, b) && -b < Rem(a, b) < b
  {
    if a >= 0 {
      assert a == (a / b) * b + a % b;
    } else {
      assert -a == ((-a) / b) * b + (-a) % b;
      assert -(((-a) / b) * b) == (-((-a) / b)) * b;
    }
  }

  /** The days and the seconds of the day of a time on a clock. */
  method SplitDays(t: int, offset: int) returns (days: int, rem: int)
    ensures days * 86400 + rem == t + offset && 0 <= rem < 86400
  {
    QuotRem(t, SECSPERDAY);
    days, rem := Quot(t, SECSPERDAY), Rem(t, SECSPERDAY);
    rem := rem + offset;
    while rem < 0
      invariant days * 86400 + rem == t + offset
      decreases -rem
    {
      rem, days := rem + SECSPERDAY, days - 1;
    }
    while rem >= SECSPERDAY
      invariant days * 86400 + rem == t + offset && 0 <= rem
      decreases rem
    {
      rem, days := rem - SECSPERDAY, days + 1;
    }
  }

  method FindYear(daycount: int) returns (y: int, yday: int)
    ensures 0 <= yday < YearLength(y) && DaysBeforeYear(y) + yday == daycount
  {
    hide DaysBeforeYear, IsLeap, YearLength;
    var days := daycount;
    y := EPOCH_YEAR;
    EpochIsZero();
    if days >= 0 {
      while days >= YearLength(y)
        invariant 0 <= days && DaysBeforeYear(y) + days == daycount
        decreases days
      {
        NextYear(y);
        days := days - YearLength(y);
        y := y + 1;
      }
    } else {
      y := y - 1;
      NextYear(y);
      days := days + YearLength(y);
      while days < 0
        invariant DaysBeforeYear(y) + days == daycount && days < YearLength(y)
        decreases -days
      {
        y := y - 1;
        NextYear(y);
        days := days + YearLength(y);
      }
    }
    yday := days;
  }

  lemma EpochIsZero()
    ensures DaysBeforeYear(EPOCH_YEAR) == 0
  {
  }

  method FindMonth(leap: bool, yday: int) returns (mon: int, mday: int)
    requires 0 <= yday < 365 + if leap then 1 else 0
    ensures 0 <= mon < 12 && 1 <= mday <= MonthLength(leap, mon) && DaysBeforeMonth(leap, mon) + mday - 1 == yday
  {
    hide MonthLength, DaysBeforeMonth;
    YearIsTwelve(leap);
    var days := yday;
    mon := 0;
    while days >= MonthLength(leap, mon)
      invariant 0 <= mon < 12 && 0 <= days && DaysBeforeMonth(leap, mon) + days == yday
      decreases days
    {
      NextMonth(leap, mon);
      days := days - MonthLength(leap, mon);
      mon := mon + 1;
    }
    mday := days + 1;
  }

  lemma YearIsTwelve(leap: bool)
    ensures DaysBeforeMonth(leap, 0) == 0 && DaysBeforeMonth(leap, 12) == 365 + if leap then 1 else 0
  {
  }

  /** timesub where there are no leap seconds */
  method Timesub(t: int, offset: int) returns (tm: Tm)
    ensures FieldsOf(tm, t, offset) && tm.isdst == 0
  {
    hide DaysBeforeYear, DaysBeforeMonth, IsLeap, MonthLength;
    var days, rem := SplitDays(t, offset);
    var hour := rem / SECSPERHOUR;
    var left := rem % SECSPERHOUR;
    var min, sec := left / SECSPERMIN, left % SECSPERMIN;
    QuotRem(EPOCH_WDAY + days, 7);
    var wday := Rem(EPOCH_WDAY + days, DAYSPERWEEK);
    if wday < 0 { wday := wday + DAYSPERWEEK; }
    WeekdayIs(days, wday);
    var y, yday := FindYear(days);
    var mon, mday := FindMonth(IsLeap(y), yday);
    tm := Tm(y - TM_YEAR_BASE, mon, mday, hour, min, sec, wday, yday, 0, offset);
  }

  lemma WeekdayIs(days: int, wday: int)
    requires wday == var r := Rem(EPOCH_WDAY + days, 7); if r < 0 then r + 7 else r
    ensures wday == WeekdayOf(days)
  {
  }
}
