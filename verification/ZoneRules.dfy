/** The transition rules of a POSIX TZ string (transtime and tzparse of
    aos/ctime.c). */
module ZoneRules {
  import opened Calendar

  /** The day part of struct rule. Months count from 1, Sunday is 0. */
  datatype Rule =
    | JulianDay(day: int)
    | DayOfYear(day: int)
    | MonthNthDayOfWeek(mon: int, week: int, day: int)

  /** What getrule accepts. */
  predicate IsRule(r: Rule) {
    match r
    case JulianDay(day) => 1 <= day <= 365
    case DayOfYear(day) => 0 <= day <= 365
    case MonthNthDayOfWeek(mon, week, day) => 1 <= mon <= 12 && 1 <= week <= 5 && 0 <= day <= 6
  }

  /** The day number a rule means in a year. A Julian day is the same date in every
      year; the n-th weekday of a month is the last one where there are fewer. */
  ghost predicate IsRuleDay(r: Rule, year: int, days: int) {
    match r
    case JulianDay(day) =>
      exists m, d :: IsDayOfCommonYear(day, m, d) && days == DayOf(year, m, d)
    case DayOfYear(day) => days == DaysBeforeYear(year) + day
    case MonthNthDayOfWeek(mon, week, day) =>
      var first := DayOf(year, mon - 1, 1);
      var past := first + MonthLength(IsLeap(year), mon - 1);
      && first <= days < past && WeekdayOf(days) == day
      && ((days - first) / 7 == week - 1 || ((days - first) / 7 < week - 1 && days + 7 >= past))
  }

  /** Day number `day` of a year without a leap day is day d of month m. */
  ghost predicate IsDayOfCommonYear(day: int, m: int, d: int) {
    0 <= m < 12 && 1 <= d <= MonthLength(false, m) && DaysBeforeMonth(false, m) + d == day
  }

  /** A rule means one day of a year. */
  lemma RuleDayIsUnique(r: Rule, year: int, a: int, b: int)
    requires IsRule(r) && IsRuleDay(r, year, a) && IsRuleDay(r, year, b)
    ensures a == b
  {
    hide IsLeap, DaysBeforeYear;
    match r
    case JulianDay(day) =>
      var m, d :| IsDayOfCommonYear(day, m, d) && a == DayOf(year, m, d);
      var m', d' :| IsDayOfCommonYear(day, m', d') && b == DayOf(year, m', d');
      OneDay(day, m, d, m', d');
    case DayOfYear(_) =>
    case MonthNthDayOfWeek(mon, week, day) =>
      OneWeekday(DayOf(year, mon - 1, 1), DayOf(year, mon - 1, 1) + MonthLength(IsLeap(year), mon - 1), week, a, b);
  }

  lemma OneWeekday(first: int, past: int, week: int, a: int, b: int)
    requires first <= a < past && first <= b < past && WeekdayOf(a) == WeekdayOf(b)
    requires (a - first) / 7 == week - 1 || ((a - first) / 7 < week - 1 && a + 7 >= past)
    requires (b - first) / 7 == week - 1 || ((b - first) / 7 < week - 1 && b + 7 >= past)
    ensures a == b
  {
  }

  lemma OneDay(day: int, m: int, d: int, m': int, d': int)
    requires IsDayOfCommonYear(day, m, d) && IsDayOfCommonYear(day, m', d')
    ensures m == m' && d == d'
  {
  }

  // ----- Zeller's congruence -----

  /** Days of the months from March on before the m1-th of them. */
  function FromMarch(m1: int): int {
    if m1 <= 10 then DaysBeforeMonth(false, m1 + 1) - 59 else DaysBeforeMonth(false, m1 - 11) + 306
  }

  lemma FirstOfMonth(year: int, mon: int)
    requires 1 <= mon <= 12
    ensures var m1, y0 := (mon + 9) % 12 + 1, if mon <= 2 then year - 1 else year;
            DayOf(year, mon - 1, 1) == DaysBeforeYear(y0 + 1) - 306 + FromMarch(m1)
  {
    hide IsLeap, DaysBeforeYear;
    NextYear(year);
    NextYear(year - 1);
  }

  lemma Centuries(y0: int)
    requires y0 >= 0
    ensures y0 / 4 == 25 * (y0 / 100) + (y0 % 100) / 4
    ensures y0 / 400 == (y0 / 100) / 4
  {
    var c, r := y0 / 100, y0 % 100;
    assert y0 == 100 * c + r;
  }

  function Zeller(m1: int, yy1: int, yy2: int): int {
    (26 * m1 - 2) / 10 + 1 + yy2 + yy2 / 4 + yy1 / 4 - 2 * yy1
  }

  lemma MonthsAgree(m1: int)
    requires 1 <= m1 <= 12
    ensures ((26 * m1 - 2) / 10 + 1 - FromMarch(m1) - 3) % 7 == 0
  {
  }

  /** Zeller's congruence gives the weekday that the day count gives. */
  lemma ZellerAgrees(year: int, mon: int)
    requires year >= 1 && 1 <= mon <= 12
    ensures var m1, y0 := (mon + 9) % 12 + 1, if mon <= 2 then year - 1 else year;
            WeekdayOf(DayOf(year, mon - 1, 1)) == Zeller(m1, y0 / 100, y0 % 100) % 7
  {
    hide DayOf, FromMarch, WeekdayOf, Zeller;
    var m1, y0 := (mon + 9) % 12 + 1, if mon <= 2 then year - 1 else year;
    FirstOfMonth(year, mon);
    Centuries(y0);
    MonthsAgree(m1);
    DaysFromZeller(y0, m1);
    SameWeekday(DayOf(year, mon - 1, 1), Zeller(m1, y0 / 100, y0 % 100), WeeksBetween(y0, m1));
  }

  function WeeksBetween(y0: int, m1: int): int {
    52 * y0 + 18 * (y0 / 100) - ((26 * m1 - 2) / 10 + 1 - FromMarch(m1) - 3) / 7 - 102781
  }

  lemma DaysFromZeller(y0: int, m1: int)
    requires y0 / 4 == 25 * (y0 / 100) + (y0 % 100) / 4 && y0 / 400 == (y0 / 100) / 4
    requires ((26 * m1 - 2) / 10 + 1 - FromMarch(m1) - 3) % 7 == 0
    ensures DaysBeforeYear(y0 + 1) - 306 + FromMarch(m1) + 4 ==
              Zeller(m1, y0 / 100, y0 % 100) + 7 * WeeksBetween(y0, m1)
  {
    hide FromMarch;
  }

  lemma SameWeekday(days: int, z: int, weeks: int)
    requires days + 4 == z + 7 * weeks
    ensures WeekdayOf(days) == z % 7
  {
  }

  // ----- transtime -----

  /** The time of day `time` on the day the rule means, moved by the offset. */
  ghost predicate TakesEffect(r: Rule, year: int, time: int, offset: int, value: int) {
    exists days :: IsRuleDay(r, year, days) && value == days * 86400 + time + offset
  }

  /** transtime: the time a rule takes effect in a year whose first day begins at
      janfirst. */
  method Transtime(janfirst: int, year: int, r: Rule, time: int, offset: int) returns (value: int)
    requires IsRule(r) && year >= 1 && janfirst == DaysBeforeYear(year) * 86400
    ensures TakesEffect(r, year, time, offset, value)
  {
    hide DaysBeforeYear, DaysBeforeMonth, IsLeap, MonthLength, IsRuleDay;
    ghost var days;
    match r {
      case JulianDay(day) =>
        value := janfirst + (day - 1) * SECSPERDAY;
        days := DaysBeforeYear(year) + day - 1;
        if IsLeap(year) && day >= 60 { value, days := value + SECSPERDAY, days + 1; }
        JulianIsThatDay(year, day);
      case DayOfYear(day) =>
        value := janfirst + day * SECSPERDAY;
        days := DaysBeforeYear(year) + day;
        assert IsRuleDay(r, year, days) by { DayOfYearIs(year, day); }
      case MonthNthDayOfWeek(mon, week, day) =>
        value := janfirst;
        MonthZero(IsLeap(year));
        for i := 0 to mon - 1
          invariant value == (DaysBeforeYear(year) + DaysBeforeMonth(IsLeap(year), i)) * 86400
        {
          NextMonth(IsLeap(year), i);
          value := value + MonthLength(IsLeap(year), i) * SECSPERDAY;
        }
        var d := NthWeekday(year, mon, week, day);
        days := DayOf(year, mon - 1, 1) + d;
        assert value == DayOf(year, mon - 1, 1) * 86400;
        value := value + d * SECSPERDAY;
    }
    value := value + time + offset;
  }

  lemma DayOfYearIs(year: int, day: int)
    ensures IsRuleDay(DayOfYear(day), year, DaysBeforeYear(year) + day)
  {
  }

  lemma MonthZero(leap: bool)
    ensures DaysBeforeMonth(leap, 0) == 0
  {
  }

  lemma JulianIsThatDay(year: int, day: int)
    requires 1 <= day <= 365
    ensures IsRuleDay(JulianDay(day), year, DaysBeforeYear(year) + day - 1 + if IsLeap(year) && day >= 60 then 1 else 0)
  {
    hide IsLeap, DaysBeforeYear;
    var m :| 0 <= m < 12 && DaysBeforeMonth(false, m) < day <= DaysBeforeMonth(false, m + 1);
    NextMonth(false, m);
    assert IsDayOfCommonYear(day, m, day - DaysBeforeMonth(false, m));
  }

  /** The day of the month, from 0, of the week-th weekday `day`, or of the last. */
  method NthWeekday(year: int, mon: int, week: int, day: int) returns (d: int)
    requires 1 <= mon <= 12 && 1 <= week <= 5 && 0 <= day <= 6 && year >= 1
    ensures IsRuleDay(MonthNthDayOfWeek(mon, week, day), year, DayOf(year, mon - 1, 1) + d)
  {
    hide DayOf, IsLeap, WeekdayOf, IsRuleDay, MonthLength, Zeller;
    var length := MonthLength(IsLeap(year), mon - 1);
    var m1 := (mon + 9) % 12 + 1;
    var yy0 := if mon <= 2 then year - 1 else year;
    var yy1, yy2 := yy0 / 100, yy0 % 100;
    ZellerAgrees(year, mon);
    QuotRem(Zeller(m1, yy1, yy2), 7);
    var dow := Rem(Zeller(m1, yy1, yy2), 7);
    if dow < 0 { dow := dow + DAYSPERWEEK; }
    EuclidRem(Zeller(m1, yy1, yy2), dow);
    d := day - dow;
    if d < 0 { d := d + DAYSPERWEEK; }
    ghost var first := DayOf(year, mon - 1, 1);
    FirstSuch(first, dow, day, d);
    var i := 1;
    while i < week && d + DAYSPERWEEK < length
      invariant 1 <= i <= week && 0 <= d < length && d / 7 == i - 1 && WeekdayOf(first + d) == day
      decreases week - i
    {
      WeekOn(first, d);
      d, i := d + DAYSPERWEEK, i + 1;
    }
    ThatIsIt(year, mon, week, day, d, i);
  }

  lemma WeekOn(first: int, d: int)
    ensures WeekdayOf(first + (d + 7)) == WeekdayOf(first + d) && (d + 7) / 7 == d / 7 + 1
  {
  }

  lemma ThatIsIt(year: int, mon: int, week: int, day: int, d: int, i: int)
    requires 1 <= i <= week && 0 <= d < MonthLength(IsLeap(year), mon - 1) && d / 7 == i - 1
    requires WeekdayOf(DayOf(year, mon - 1, 1) + d) == day
    requires i == week || d + 7 >= MonthLength(IsLeap(year), mon - 1)
    ensures IsRuleDay(MonthNthDayOfWeek(mon, week, day), year, DayOf(year, mon - 1, 1) + d)
  {
    hide DayOf, IsLeap, WeekdayOf, MonthLength;
  }

  lemma EuclidRem(z: int, dow: int)
    requires dow == var r := Rem(z, 7); if r < 0 then r + 7 else r
    ensures dow == z % 7
  {
  }

  lemma FirstSuch(first: int, dow: int, day: int, d: int)
    requires dow == WeekdayOf(first) && 0 <= day <= 6 && d == if day < dow then day - dow + 7 else day - dow
    ensures 0 <= d < 7 && WeekdayOf(first + d) == day
  {
  }

  // ----- the years of tzparse -----

  datatype Transition = Transition(at: int, kind: int)

  /** The two transitions of a year, the earlier one first. */
  ghost predicate IsYear(start: Rule, end: Rule, startTime: int, endTime: int, stdoffset: int, dstoffset: int,
      year: int, first: Transition, second: Transition) {
    exists b, f :: TakesEffect(start, year, startTime, stdoffset, b) && TakesEffect(end, year, endTime, dstoffset, f)
      && first == (if b > f then Transition(f, 1) else Transition(b, 0))
      && second == (if b > f then Transition(b, 0) else Transition(f, 1))
  }

  ghost predicate HasYear(ats: seq<Transition>, start: Rule, end: Rule, startTime: int, endTime: int,
      stdoffset: int, dstoffset: int, year: int) {
    && year >= EPOCH_YEAR && 2 * (year - EPOCH_YEAR) + 1 < |ats|
    && IsYear(start, end, startTime, endTime, stdoffset, dstoffset,
         year, ats[2 * (year - EPOCH_YEAR)], ats[2 * (year - EPOCH_YEAR) + 1])
  }

  /** The loop of tzparse over the years. */
  method Transitions(start: Rule, end: Rule, startTime: int, endTime: int, stdoffset: int,
      dstoffset: int) returns (ats: seq<Transition>)
    requires IsRule(start) && IsRule(end)
    ensures |ats| == 2 * (2037 - EPOCH_YEAR + 1)
    ensures forall y :: EPOCH_YEAR <= y <= 2037 ==>
              HasYear(ats, start, end, startTime, endTime, stdoffset, dstoffset, y)
  {
    hide DaysBeforeYear, TakesEffect, IsRule, YearLength;
    ats := [];
    var janfirst := 0;
    EpochIsZero();
    for year := EPOCH_YEAR to 2038
      invariant janfirst == DaysBeforeYear(year) * 86400 && |ats| == 2 * (year - EPOCH_YEAR)
      invariant forall y :: EPOCH_YEAR <= y < year ==>
                  HasYear(ats, start, end, startTime, endTime, stdoffset, dstoffset, y)
    {
      var starttime := Transtime(janfirst, year, start, startTime, stdoffset);
      var endtime := Transtime(janfirst, year, end, endTime, dstoffset);
      var before := ats;
      ats := ats + if starttime > endtime then [Transition(endtime, 1), Transition(starttime, 0)]
                   else [Transition(starttime, 0), Transition(endtime, 1)];
      assert IsYear(start, end, startTime, endTime, stdoffset, dstoffset, year, ats[|before|], ats[|before| + 1]);
      forall y | EPOCH_YEAR <= y < year ensures HasYear(ats, start, end, startTime, endTime, stdoffset, dstoffset, y) {
        assert HasYear(before, start, end, startTime, endTime, stdoffset, dstoffset, y);
      }
      NextYear(year);
      janfirst := janfirst + YearLength(year) * SECSPERDAY;
    }
  }
}
