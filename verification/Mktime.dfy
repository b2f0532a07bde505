/** mktime of aos/ctime.c in a zone with a single offset: the fields are brought
    into range, and the time they name is found by bisection. */
module Mktime {
  import opened Calendar

  /** A zone without transitions. */
  datatype Zone = Zone(gmtoff: int, isdst: int)

  const WRONG := -1

  // ----- normalize -----

  datatype Pair = Pair(tens: int, units: int)

  /** normalize */
  function Normalize(tens: int, units: int, base: int): Pair
    requires base > 0
  {
    if units >= base then Pair(tens + Quot(units, base), Rem(units, base))
    else if units < 0 then
      if units + base < 0 then
        Pair(tens - 1 - (1 + Quot(-(units + base), base)), base - Rem(-(units + base), base))
      else Pair(tens - 1, units + base)
    else Pair(tens, units)
  }

  /** The total stays the same and the units come into range, except that a
      multiple of the base below -base is left at base. */
  lemma NormalizeKeeps(tens: int, units: int, base: int)
    requires base > 0
    ensures var n := Normalize(tens, units, base);
            && n.tens * base + n.units == tens * base + units
            && 0 <= n.units <= base
            && (n.units == base <==> units < -base && units % base == 0)
  {
    var n := Normalize(tens, units, base);
    if units >= base {
      QuotRem(units, base);
      Spread(tens, units / base, base);
    } else if units < 0 {
      if units + base < 0 {
        var u := -(units + base);
        QuotRem(u, base);
        Spread(tens, -2 - u / base, base);
        ZeroRem(u, units, base);
      } else {
        Spread(tens, -1, base);
      }
    }
  }

  lemma Spread(tens: int, k: int, base: int)
    ensures (tens + k) * base == tens * base + k * base
  {
  }

  lemma ZeroRem(u: int, units: int, base: int)
    requires base > 0 && u == -(units + base) && u > 0
    ensures u % base == 0 <==> units % base == 0
    ensures (-2 - u / base) * base == -2 * base - (u - u % base)
  {
    var q := u / base;
    assert u == q * base + u % base;
    assert (-2 - q) * base == -2 * base - q * base;
    if u % base == 0 { MultipleOf(units, -q - 1, base); }
    if units % base == 0 {
      var p := units / base;
      assert units == p * base;
      MultipleOf(u, -p - 1, base);
    }
  }

  lemma MultipleOf(x: int, k: int, base: int)
    requires base > 0 && x == k * base
    ensures x % base == 0
  {
    var q, r := x / base, x % base;
    assert x == q * base + r && 0 <= r < base;
    assert r == (k - q) * base by { Spread(q, k - q, base); }
    OnlyZero(k - q, base);
  }

  lemma OnlyZero(j: int, base: int)
    requires base > 0 && 0 <= j * base < base
    ensures j == 0
  {
    AtLeast(j, base);
  }

  lemma AtLeast(j: int, base: int)
    requires base > 0
    ensures j >= 1 ==> j * base >= base
    ensures j <= -1 ==> j * base <= -base
  {
    if j >= 1 { assert (j - 1) * base >= 0; }
    if j <= -1 { assert (-1 - j) * base >= 0; }
  }

  // ----- bringing the fields into range -----

  /** What the fields of a struct tm name, however far out of range they are. */
  function Meaning(tm: Tm): int {
    DayOf(tm.year + tm.mon / 12 + TM_YEAR_BASE, tm.mon % 12, tm.mday) * 86400 + tm.hour * 3600 + tm.min * 60 + tm.sec
  }

  /** Seconds are carried into minutes only from 62 on, or below zero. */
  function CarrySec(tm: Tm): Tm {
    if tm.sec >= SECSPERMIN + 2 || tm.sec < 0 then
      var n := Normalize(tm.min, tm.sec, SECSPERMIN); tm.(min := n.tens, sec := n.units)
    else tm
  }

  function CarryMin(tm: Tm): Tm {
    var n := Normalize(tm.hour, tm.min, MINSPERHOUR); tm.(hour := n.tens, min := n.units)
  }

  function CarryHour(tm: Tm): Tm {
    var n := Normalize(tm.mday, tm.hour, HOURSPERDAY); tm.(mday := n.tens, hour := n.units)
  }

  function CarryMon(tm: Tm): Tm {
    var n := Normalize(tm.year, tm.mon, MONSPERYEAR); tm.(year := n.tens, mon := n.units)
  }

  function Carried(tm: Tm): Tm {
    CarryMon(CarryHour(CarryMin(CarrySec(tm))))
  }

  /** A minute or an hour that normalize leaves at its base. */
  predicate Stuck(tm: Tm) {
    var m := CarrySec(tm);
    var h := CarryMin(m);
    (m.min < -60 && m.min % 60 == 0) || (h.hour < -24 && h.hour % 24 == 0)
  }

  /** A month that normalize leaves at twelve, for which there is no month length. */
  predicate NoSuchMonth(tm: Tm) {
    tm.mon < -12 && tm.mon % 12 == 0
  }

  lemma CarriedKeeps(tm: Tm)
    requires !NoSuchMonth(tm)
    ensures var c := Carried(tm);
            && 0 <= c.mon < 12 && 0 <= c.hour <= 24 && 0 <= c.min <= 60 && 0 <= c.sec < 62
            && Seconds(c) == Meaning(tm)
            && (Stuck(tm) <==> c.hour == 24 || c.min == 60)
            && c.isdst == tm.isdst
  {
    hide Normalize, DayOf;
    NormalizeKeeps(tm.min, tm.sec, 60);
    var m := CarrySec(tm);
    NormalizeKeeps(m.hour, m.min, 60);
    var h := CarryMin(m);
    NormalizeKeeps(h.mday, h.hour, 24);
    NormalizeKeeps(tm.year, tm.mon, 12);
    DayShift(tm.year + tm.mon / 12 + TM_YEAR_BASE, tm.mon % 12, tm.mday, CarryHour(h).mday);
  }

  lemma DayShift(y: int, m: int, d: int, d': int)
    ensures DayOf(y, m, d') - DayOf(y, m, d) == d' - d
  {
  }

  /** The year that the loop over days below one comes to. */
  function YearBack(y: int, mday: int): int
    decreases if mday <= 0 then 1 - mday else 0
  {
    if mday > 0 then y else YearBack(y - 1, mday + YearLength(y - 1))
  }

  function Leap(y: int): int {
    if IsLeap(y) then 1 else 0
  }

  /** By how many days that loop is off: it takes off whole years by the length of
      the year before, whatever the month. */
  function Slip(y: int, mon: int, mday: int): int {
    if mon >= 2 then Leap(YearBack(y, mday)) - Leap(y) else 0
  }

  lemma MonthShift(y: int, z: int, m: int)
    requires 0 <= m < 12
    ensures DaysBeforeMonth(IsLeap(z), m) - DaysBeforeMonth(IsLeap(y), m) == if m >= 2 then Leap(z) - Leap(y) else 0
  {
    hide IsLeap;
  }

  /** The loop over days below one. */
  method TakeYears(tm: Tm) returns (r: Tm)
    requires 0 <= tm.mon < 12
    ensures var y := tm.year + TM_YEAR_BASE;
            && r == tm.(year := r.year, mday := r.mday) && r.mday > 0
            && DayOf(r.year + TM_YEAR_BASE, r.mon, r.mday) == DayOf(y, tm.mon, tm.mday) + Slip(y, tm.mon, tm.mday)
            && (tm.mday > 0 ==> r == tm)
  {
    hide IsLeap, DaysBeforeYear, DaysBeforeMonth, YearLength;
    r := tm;
    ghost var y := tm.year + TM_YEAR_BASE;
    while r.mday <= 0
      invariant r == tm.(year := r.year, mday := r.mday)
      invariant YearBack(r.year + TM_YEAR_BASE, r.mday) == YearBack(y, tm.mday)
      invariant DaysBeforeYear(r.year + TM_YEAR_BASE) + r.mday == DaysBeforeYear(y) + tm.mday
      invariant tm.mday > 0 ==> r == tm
      decreases 1 - r.mday
    {
      NextYear(r.year - 1 + TM_YEAR_BASE);
      r := r.(year := r.year - 1);
      r := r.(mday := r.mday + YearLength(r.year + TM_YEAR_BASE));
    }
    MonthShift(y, r.year + TM_YEAR_BASE, tm.mon);
  }

  /** The loop over days past the end of the month. */
  method TakeMonths(tm: Tm) returns (r: Tm)
    requires 0 <= tm.mon < 12 && tm.mday > 0
    ensures r == tm.(year := r.year, mon := r.mon, mday := r.mday)
    ensures IsDate(r.year + TM_YEAR_BASE, r.mon, r.mday)
    ensures DayOf(r.year + TM_YEAR_BASE, r.mon, r.mday) == DayOf(tm.year + TM_YEAR_BASE, tm.mon, tm.mday)
    ensures IsDate(tm.year + TM_YEAR_BASE, tm.mon, tm.mday) ==> r == tm
  {
    hide IsLeap, DaysBeforeYear, DaysBeforeMonth, MonthLength;
    r := tm;
    while r.mday > MonthLength(IsLeap(r.year + TM_YEAR_BASE), r.mon)
      invariant 0 <= r.mon < 12 && r.mday > 0 && r == tm.(year := r.year, mon := r.mon, mday := r.mday)
      invariant DayOf(r.year + TM_YEAR_BASE, r.mon, r.mday) == DayOf(tm.year + TM_YEAR_BASE, tm.mon, tm.mday)
      invariant IsDate(tm.year + TM_YEAR_BASE, tm.mon, tm.mday) ==> r == tm
      decreases r.mday
    {
      var y := r.year + TM_YEAR_BASE;
      NextMonth(IsLeap(y), r.mon);
      r := r.(mday := r.mday - MonthLength(IsLeap(y), r.mon), mon := r.mon + 1);
      if r.mon >= MONSPERYEAR {
        NextYear(y);
        YearIsTwelve(IsLeap(y));
        YearIsTwelve(IsLeap(y + 1));
        r := r.(mon := 0, year := r.year + 1);
      }
    }
  }

  /** The first half of time2. */
  method BringIntoRange(tm: Tm) returns (r: Tm)
    requires !NoSuchMonth(tm)
    ensures var c := Carried(tm);
            && IsDate(r.year + TM_YEAR_BASE, r.mon, r.mday) && r.isdst == tm.isdst
            && r.hour == c.hour && r.min == c.min && r.sec == c.sec
            && Seconds(r) == Meaning(tm) + Slip(c.year + TM_YEAR_BASE, c.mon, c.mday) * 86400
            && (IsTime(tm) ==> r == tm)
  {
    hide DayOf, Slip, IsLeap, MonthLength;
    r := tm;
    if r.sec >= SECSPERMIN + 2 || r.sec < 0 {
      var n := Normalize(r.min, r.sec, SECSPERMIN);
      r := r.(min := n.tens, sec := n.units);
    }
    var n := Normalize(r.hour, r.min, MINSPERHOUR);
    r := r.(hour := n.tens, min := n.units);
    n := Normalize(r.mday, r.hour, HOURSPERDAY);
    r := r.(mday := n.tens, hour := n.units);
    n := Normalize(r.year, r.mon, MONSPERYEAR);
    r := r.(year := n.tens, mon := n.units);
    CarriedKeeps(tm);
    r := TakeYears(r);
    r := TakeMonths(r);
  }

  /** The day is right exactly when the loop over days below one did not run, the
      month is January or February, or the two years are equally long. */
  lemma SlipIff(y: int, mon: int, mday: int)
    ensures Slip(y, mon, mday) == 0 <==> mday > 0 || mon < 2 || IsLeap(YearBack(y, mday)) == IsLeap(y)
    ensures -365 < mday <= 0 ==> YearBack(y, mday) == y - 1
  {
    hide IsLeap;
    if -365 < mday <= 0 { assert YearBack(y - 1, mday + YearLength(y - 1)) == y - 1; }
  }

  /** The day before the first of March 2000 comes out a day early: the 28th of
      February. */
  lemma DayZeroOfMarch()
    ensures var tm := Tm(100, 2, 0, 0, 0, 0, 0, 0, 0, 0);
            && Carried(tm) == tm && !Stuck(tm) && Slip(2000, 2, 0) == -1
            && Meaning(tm) - 86400 == Seconds(Tm(100, 1, 28, 0, 0, 0, 0, 0, 0, 0))
  {
    assert YearBack(2000, 0) == YearBack(1999, 365) == 1999;
    assert IsLeap(2000) && !IsLeap(1999);
  }

  /** Two hours taken off as minutes are not understood. */
  lemma MinusTwoHours()
    ensures var tm := Tm(100, 0, 1, 12, -120, 0, 0, 0, 0, 0); Stuck(tm) && Carried(tm).min == 60
  {
  }

  // ----- the bisection -----

  function Pow2(n: nat): (p: int)
    ensures p > 0
  {
    if n == 0 then 1 else 2 * Pow2(n - 1)
  }

  lemma {:induction false} Pow2Ascends(m: nat, n: nat)
    requires m <= n
    ensures Pow2(m) <= Pow2(n)
    decreases n
  {
    if m < n { Pow2Ascends(m, n - 1); }
  }

  /** A time_t of w bits. */
  predicate InRange(w: nat, t: int)
    requires w >= 1
  {
    -Pow2(w - 1) <= t < Pow2(w - 1)
  }

  /** What is kept of a sum that is at most one time_t too big. */
  function Wrap(w: nat, t: int): int
    requires w >= 1
  {
    if t >= Pow2(w - 1) then t - Pow2(w) else t
  }

  /** The loop that counts the bits. */
  method CountBits(w: nat) returns (bits: nat, t: int)
    requires w >= 2
    ensures bits == w - 1 && t < 0
  {
    bits, t := 0, 1;
    while t > 0
      invariant bits < w && (if bits < w - 1 then t == Pow2(bits) else t == -Pow2(w - 1))
      decreases w - bits
    {
      if bits + 1 < w - 1 { Pow2Ascends(bits + 2, w - 1); }
      bits, t := bits + 1, Wrap(w, 2 * t);
    }
  }

  /** localtime in the zone */
  method Localsub(zone: Zone, t: int) returns (tm: Tm)
    ensures FieldsOf(tm, t, zone.gmtoff) && tm.isdst == zone.isdst
  {
    var f := Timesub(t, zone.gmtoff);
    tm := f.(isdst := zone.isdst);
  }

  /** How far t may be off when the step of 2^bits is next. */
  ghost predicate Near(bits: int, d: int) {
    if bits >= 0 then -Pow2(bits) <= d < Pow2(bits) else d == 0
  }

  ghost predicate Reached(w: nat, bits: int, t: int)
    requires w >= 1
  {
    if bits >= 0 then Pow2(bits) - Pow2(w - 1) <= t <= Pow2(w - 1) - Pow2(bits) else InRange(w, t)
  }

  /** The second half of time2: the time the fields of y name, seconds left out. */
  method Bisect(w: nat, zone: Zone, y: Tm) returns (okay: bool, t: int)
    requires w >= 2 && y.sec == 0
    ensures okay <==> IsTime(y) && InRange(w, Seconds(y) - zone.gmtoff) && (y.isdst < 0 || y.isdst == zone.isdst)
    ensures okay ==> t == Seconds(y) - zone.gmtoff
  {
    hide Seconds, IsTime, Pow2, FieldsOf;
    var n, sign := CountBits(w);
    var bits: int := n;
    t := 0;
    ghost var target := Seconds(y) - zone.gmtoff;
    while true
      invariant -1 <= bits < w && Reached(w, bits, t)
      invariant IsTime(y) && InRange(w, target) ==> Near(bits, target - t)
      decreases bits
    {
      var mytm := Localsub(zone, t);
      var dir := TmComp(mytm, y);
      Compared(mytm, y, t, zone.gmtoff);
      if dir == 0 {
        ReachedIsInRange(w, bits, t);
        okay := y.isdst < 0 || mytm.isdst == y.isdst;
        return;
      }
      bits := bits - 1;
      if bits < -1 { return false, WRONG; }
      StepNearer(w, bits, t, target);
      if bits < 0 { t := t - 1; }
      else if dir > 0 { t := t - Pow2(bits); }
      else { t := t + Pow2(bits); }
    }
  }

  lemma Compared(mytm: Tm, y: Tm, t: int, offset: int)
    requires FieldsOf(mytm, t, offset)
    ensures TmComp(mytm, y) == 0 ==> IsTime(y) && Seconds(y) - offset == t
    ensures IsTime(y) && TmComp(mytm, y) > 0 ==> Seconds(y) - offset < t
    ensures IsTime(y) && TmComp(mytm, y) < 0 ==> Seconds(y) - offset > t
  {
    hide DayOf, IsLeap, MonthLength;
    if IsTime(y) { TmCompIsOrder(mytm, y); }
  }

  lemma ReachedIsInRange(w: nat, bits: int, t: int)
    requires w >= 1 && bits < w && Reached(w, bits, t)
    ensures InRange(w, t)
  {
  }

  /** One step of the bisection, from 2^(bits+1) to 2^bits. */
  lemma StepNearer(w: nat, bits: int, t: int, target: int)
    requires w >= 2 && -1 <= bits < w - 1 && Reached(w, bits + 1, t)
    ensures bits >= 0 ==> Reached(w, bits, t - Pow2(bits)) && Reached(w, bits, t + Pow2(bits))
    ensures bits < 0 ==> Reached(w, bits, t - 1)
    ensures Near(bits + 1, target - t) && target < t ==> Near(bits, target - if bits < 0 then t - 1 else t - Pow2(bits))
    ensures Near(bits + 1, target - t) && target > t ==> bits >= 0 && Near(bits, target - (t + Pow2(bits)))
  {
    if bits >= 0 { Pow2Ascends(bits, w - 1); }
  }

  // ----- mktime -----

  /** The fields that are looked for. */
  function Target(tm: Tm): int {
    var c := Carried(tm);
    Meaning(tm) + Slip(c.year + TM_YEAR_BASE, c.mon, c.mday) * 86400 - c.sec
  }

  /** When time2 finds a time: no field is stuck, the minute is representable and
      the kind of time is the zone's. */
  predicate Found(w: nat, zone: Zone, tm: Tm)
    requires w >= 1
  {
    !Stuck(tm) && InRange(w, Target(tm) - zone.gmtoff) && (tm.isdst < 0 || tm.isdst == zone.isdst)
  }

  /** time2 */
  method Time2(w: nat, zone: Zone, tm: Tm) returns (okay: bool, t: int, out: Tm)
    requires w >= 2 && !NoSuchMonth(tm)
    ensures okay <==> Found(w, zone, tm)
    ensures okay ==> t == Wrap(w, Target(tm) - zone.gmtoff + Carried(tm).sec)
    ensures okay ==> FieldsOf(out, t, zone.gmtoff) && out.isdst == zone.isdst
    ensures !okay ==> t == WRONG && out == tm
  {
    hide Carried, Meaning, Slip, Stuck, NoSuchMonth, Seconds, IsDate, FieldsOf;
    out := tm;
    var yourtm := BringIntoRange(tm);
    CarriedKeeps(tm);
    var saved := yourtm.sec;
    SecondsOff(yourtm);
    yourtm := yourtm.(sec := 0);
    okay, t := Bisect(w, zone, yourtm);
    if !okay { return false, WRONG, tm; }
    t := Wrap(w, t + saved);
    out := Localsub(zone, t);
  }

  lemma SecondsOff(tm: Tm)
    ensures Seconds(tm.(sec := 0)) == Seconds(tm) - tm.sec
  {
    hide DayOf;
  }

  /** Fields that leave the kind of time open are found as those of the zone's kind are;
      fields of the other kind are not found. Seconds up to 61 are no carry. */
  lemma KindOfTime(w: nat, zone: Zone, tm: Tm)
    requires w >= 2 && zone.isdst in {0, 1}
    ensures tm.isdst == -1 ==> (Found(w, zone, tm) <==> Found(w, zone, tm.(isdst := zone.isdst)))
    ensures tm.isdst == 1 - zone.isdst ==> !Found(w, zone, tm)
    ensures 0 <= tm.sec <= 61 ==> Carried(tm) == Carried(tm.(sec := 0)).(sec := tm.sec)
  {
    hide DayOf, Normalize, YearBack, Pow2;
  }

  /** mktime, by way of time1 */
  method Mktime(w: nat, zone: Zone, tm0: Tm) returns (t: int, out: Tm)
    requires w >= 2 && !NoSuchMonth(tm0)
    ensures var tm := if tm0.isdst > 1 then tm0.(isdst := 1) else tm0;
            if Found(w, zone, tm) then t == Wrap(w, Target(tm) - zone.gmtoff + Carried(tm).sec)
                && FieldsOf(out, t, zone.gmtoff)
            else t == WRONG && out == tm
  {
    hide Found, Target, Carried, FieldsOf;
    var tm := tm0;
    if tm.isdst > 1 { tm := tm.(isdst := 1); }
    var okay;
    okay, t, out := Time2(w, zone, tm);
  }

  /** For which fields mktime returns what they mean. */
  lemma MeansWhatItSays(w: nat, zone: Zone, tm: Tm)
    requires w >= 2 && !NoSuchMonth(tm) && Found(w, zone, tm)
    ensures var c := Carried(tm);
            Target(tm) + c.sec == Meaning(tm)
            <==>
            || c.mday > 0 || c.mon < 2
            || IsLeap(YearBack(c.year + TM_YEAR_BASE, c.mday)) == IsLeap(c.year + TM_YEAR_BASE)
  {
    hide Carried, Meaning, IsLeap, Slip;
    var c := Carried(tm);
    SlipIff(c.year + TM_YEAR_BASE, c.mon, c.mday);
  }

  /** mktime inverts localtime: from the fields of t it finds t, exactly when the
      start of that minute is representable; otherwise it fails. */
  method Inverts(w: nat, zone: Zone, t: int) returns (r: int)
    requires w >= 2 && InRange(w, t) && 0 <= zone.isdst <= 1
    ensures r == if InRange(w, t - (t + zone.gmtoff) % 60) then t else WRONG
  {
    hide FieldsOf, Found;
    var tm := Localsub(zone, t);
    var out;
    FieldsComeBack(w, zone, t, tm);
    r, out := Mktime(w, zone, tm);
  }

  /** The first second a time_t of 32 bits can hold is 52 seconds into its minute, which
      begins before all of them: mktime does not find it. */
  method FirstSecond() returns (r: int)
    ensures InRange(32, -0x8000_0000) && (-0x8000_0000) % 60 == 52 && !InRange(32, -0x8000_0000 - 52)
    ensures r == WRONG
  {
    hide Pow2;
    Powers();
    r := Inverts(32, Zone(0, 0), -0x8000_0000);
  }

  lemma FieldsComeBack(w: nat, zone: Zone, t: int, tm: Tm)
    requires w >= 2 && InRange(w, t) && FieldsOf(tm, t, zone.gmtoff) && tm.isdst == zone.isdst
    ensures !NoSuchMonth(tm) && (Found(w, zone, tm) <==> InRange(w, t - (t + zone.gmtoff) % 60))
    ensures Target(tm) - zone.gmtoff + Carried(tm).sec == t && Wrap(w, t) == t
  {
    hide DayOf, IsLeap, MonthLength, Carried, Meaning, NoSuchMonth, Stuck, IsDate;
    InRangeAlready(tm);
    SecondOfMinute(tm);
  }

  lemma InRangeAlready(tm: Tm)
    requires IsTime(tm)
    ensures !NoSuchMonth(tm) && !Stuck(tm) && Carried(tm) == tm && Meaning(tm) == Seconds(tm)
    ensures Slip(tm.year + TM_YEAR_BASE, tm.mon, tm.mday) == 0
  {
    hide DayOf, IsLeap, MonthLength;
    assert CarrySec(tm) == tm && CarryMin(tm) == tm && CarryHour(tm) == tm && CarryMon(tm) == tm;
  }

  lemma SecondOfMinute(tm: Tm)
    requires IsTime(tm)
    ensures Seconds(tm) % 60 == tm.sec
  {
    hide DayOf, IsDate;
    var d := DayOf(tm.year + TM_YEAR_BASE, tm.mon, tm.mday);
    assert Seconds(tm) == 60 * (d * 1440 + tm.hour * 60 + tm.min) + tm.sec;
  }

  // ----- years that fit an int -----

  const INT_MIN := -0x8000_0000
  const INT_MAX := 0x7fff_ffff

  /** The year, and the year counted from 1900, are ints. */
  predicate YearFits(tm: Tm) {
    INT_MIN <= tm.year && tm.year + TM_YEAR_BASE <= INT_MAX
  }

  lemma {:induction false} DaysOfYears(y: int)
    ensures y >= EPOCH_YEAR ==> 365 * (y - EPOCH_YEAR) <= DaysBeforeYear(y) <= 366 * (y - EPOCH_YEAR)
    ensures y <= EPOCH_YEAR ==> DaysBeforeYear(y) <= 365 * (y - EPOCH_YEAR)
    decreases if y >= EPOCH_YEAR then y - EPOCH_YEAR else EPOCH_YEAR - y
  {
    hide DaysBeforeYear, IsLeap;
    EpochIsZero();
    if y > EPOCH_YEAR {
      DaysOfYears(y - 1);
      NextYear(y - 1);
    }
    if y < EPOCH_YEAR {
      DaysOfYears(y + 1);
      NextYear(y);
    }
  }

  lemma Powers()
    ensures Pow2(31) == 0x8000_0000 && Pow2(55) == 0x80_0000_0000_0000 && Pow2(56) == 0x100_0000_0000_0000
  {
    assert Pow2(8) == 0x100;
    assert Pow2(16) == 0x1_0000;
    assert Pow2(24) == 0x100_0000;
    assert Pow2(32) == 0x1_0000_0000;
    assert Pow2(40) == 0x100_0000_0000;
    assert Pow2(48) == 0x1_0000_0000_0000;
  }

  /** For which widths of time_t every year on the way is an int, as the program
      counts them: up to 56 bits, on every clock less than a day off. */
  lemma YearsFitIff(w: nat, offset: int)
    requires w >= 2 && -SECSPERDAY <= offset <= SECSPERDAY
    ensures w <= 56 <==> forall t, tm :: InRange(w, t) && FieldsOf(tm, t, offset) ==> YearFits(tm)
  {
    hide InRange, FieldsOf, YearFits;
    if w <= 56 {
      forall t, tm | InRange(w, t) && FieldsOf(tm, t, offset) ensures YearFits(tm) {
        YearFitsUpTo56(w, t, offset, tm);
      }
    } else {
      var t, tm := YearPastInt(w, offset);
    }
  }

  lemma YearFitsUpTo56(w: nat, t: int, offset: int, tm: Tm)
    requires 2 <= w <= 56 && -SECSPERDAY <= offset <= SECSPERDAY && InRange(w, t) && FieldsOf(tm, t, offset)
    ensures YearFits(tm)
  {
    hide DaysBeforeYear, DayOf, IsLeap, MonthLength, Pow2;
    Powers();
    Pow2Ascends(w - 1, 55);
    var y := tm.year + TM_YEAR_BASE;
    YearOfDate(y, tm.mon, tm.mday);
    DaysOfYears(y);
    DaysOfYears(y + 1);
    ClockFits(tm);
  }

  lemma YearPastInt(w: nat, offset: int) returns (t: int, tm: Tm)
    requires w > 56 && -SECSPERDAY <= offset <= SECSPERDAY
    ensures InRange(w, t) && FieldsOf(tm, t, offset) && !YearFits(tm)
  {
    hide DaysBeforeYear, IsLeap, Pow2;
    var y := INT_MAX + 1;
    Powers();
    Pow2Ascends(56, w - 1);
    DaysOfYears(y);
    tm := Tm(y - TM_YEAR_BASE, 0, 1, 0, 0, 0, WeekdayOf(DayOf(y, 0, 1)), 0, 0, offset);
    t := Seconds(tm) - offset;
  }
}
