/** The calendar behind conflict-copy stamps (crates/core/src/merge.rs). */
module Calendar {
  import opened Bytes

  datatype Date = Date(year: int, month: int, day: int)

  /** Days since 1970-01-01 to a civil date, in closed form. Division rounds down. */
  function CivilFromDays(days: int): Date {
    var z := days + 719468;
    var era := z / 146097;
    var doe := z % 146097;
    var yoe := (doe - doe / 1460 + doe / 36524 - doe / 146096) / 365;
    var y := yoe + era * 400;
    var doy := doe - (365 * yoe + yoe / 4 - yoe / 100);
    var mp := (5 * doy + 2) / 153;
    var d := doy - (153 * mp + 2) / 5 + 1;
    var m := if mp < 10 then mp + 3 else mp - 9;
    Date(if m <= 2 then y + 1 else y, m, d)
  }

  // ---------- the Gregorian calendar, independently ----------

  predicate IsLeap(year: int) {
    year % 4 == 0 && (year % 100 != 0 || year % 400 == 0)
  }

  function DaysIn(year: int, month: int): int {
    if month == 2 then if IsLeap(year) then 29 else 28
    else if month in {4, 6, 9, 11} then 30 else 31
  }

  predicate IsDate(d: Date) {
    1 <= d.month <= 12 && 1 <= d.day <= DaysIn(d.year, d.month)
  }

  function Tomorrow(d: Date): Date {
    if d.day < DaysIn(d.year, d.month) then Date(d.year, d.month, d.day + 1)
    else if d.month < 12 then Date(d.year, d.month + 1, 1)
    else Date(d.year + 1, 1, 1)
  }

  // ---------- years counted from March ----------

  /** Days before year `y` of an era, years starting in March. */
  function YearStart(y: int): int {
    365 * y + y / 4 - y / 100 + y / 400
  }

  /** Days before month `m` of such a year, March being month 0. */
  function MonthStart(m: int): int {
    (153 * m + 2) / 5
  }

  /** February of the year that starts in March of `y` falls in `y + 1`. */
  function YearLength(y: int): int {
    if IsLeap(y + 1) then 366 else 365
  }

  lemma YearsFollow(y: int)
    ensures YearStart(y + 1) == YearStart(y) + YearLength(y)
  {
    QuotientSteps(y, 4);
    QuotientSteps(y, 100);
    QuotientSteps(y, 400);
    MultipleOf(y + 1, 100, 4);
    MultipleOf(y + 1, 400, 100);
  }

  lemma QuotientSteps(y: int, n: int)
    requires n > 0
    ensures (y + 1) / n == y / n + if (y + 1) % n == 0 then 1 else 0
  {
    var q, r := y / n, y % n;
    if r == n - 1 {
      assert y + 1 == n * (q + 1) + 0;
      DivisionIsUnique(y + 1, n, q + 1, 0);
    } else {
      assert y + 1 == n * q + (r + 1);
      DivisionIsUnique(y + 1, n, q, r + 1);
    }
  }

  lemma MultipleOf(y: int, n: int, k: int)
    requires (n == 100 && k == 4) || (n == 400 && k == 100)
    ensures y % n == 0 ==> y % k == 0
  {
    if y % n == 0 {
      if n == 100 {
        DivisionIsUnique(y, 4, 25 * (y / 100), 0);
      } else {
        DivisionIsUnique(y, 100, 4 * (y / 400), 0);
      }
    }
  }

  /** A day of an era, split by centuries, four-year cycles and years. The last day of an
      era, of a century that ends with a leap day, and of a cycle stay with their year. */
  lemma SplitEra(doe: int) returns (q: int, p: int, r: int, d: int)
    requires 0 <= doe < 146097
    ensures 0 <= q <= 3 && 0 <= p <= 24 && 0 <= r <= 3 && 0 <= d <= 365
    ensures doe == 36524 * q + 1461 * p + 365 * r + d
    ensures d == 365 ==> r == 3 && (p == 24 ==> q == 3)
  {
    q := if doe == 146096 then 3 else doe / 36524;
    var w := doe - 36524 * q;
    p := w / 1461;
    var x := w - 1461 * p;
    r := if x == 1460 then 3 else x / 365;
    d := x - 365 * r;
  }

  /** The closed form for the year within an era names the year whose days hold it. */
  lemma YearOfEra(doe: int, q: int, p: int, r: int, d: int)
    requires 0 <= doe < 146097
    requires 0 <= q <= 3 && 0 <= p <= 24 && 0 <= r <= 3 && 0 <= d <= 365
    requires doe == 36524 * q + 1461 * p + 365 * r + d
    requires d == 365 ==> r == 3 && (p == 24 ==> q == 3)
    ensures (doe - doe / 1460 + doe / 36524 - doe / 146096) / 365 == 100 * q + 4 * p + r
  {
    var s := 24 * q + p + 365 * r + d;
    var over := if s >= 1460 then 1 else 0;
    DivisionIsUnique(doe, 1460, 25 * q + p + over, s - 1460 * over);
    var last := if doe == 146096 then 1 else 0;
    DivisionIsUnique(doe, 146096, last, doe - 146096 * last);
    DivisionIsUnique(doe, 36524, q + last, doe - 36524 * (q + last));
    var y := 100 * q + 4 * p + r;
    DivisionIsUnique(doe - doe / 1460 + doe / 36524 - doe / 146096, 365, y, d - over);
  }

  /** The start of a year, from the parts of its number. */
  lemma StartFromParts(era: int, q: int, p: int, r: int)
    requires 0 <= q <= 3 && 0 <= p <= 24 && 0 <= r <= 3
    ensures var yoe := 100 * q + 4 * p + r;
            && yoe / 4 == 25 * q + p && yoe / 100 == q
            && YearStart(400 * era + yoe) == 146097 * era + 36524 * q + 1461 * p + 365 * r
            && YearLength(400 * era + yoe) == if r == 3 && (p == 24 ==> q == 3) then 366 else 365
  {
    var yoe := 100 * q + 4 * p + r;
    var y := 400 * era + yoe;
    DivisionIsUnique(yoe, 4, 25 * q + p, r);
    DivisionIsUnique(yoe, 100, q, 4 * p + r);
    DivisionIsUnique(y, 4, 100 * era + 25 * q + p, r);
    DivisionIsUnique(y, 100, 4 * era + q, 4 * p + r);
    DivisionIsUnique(y, 400, era, yoe);
    LeapFromParts(era, q, p, r);
  }

  lemma LeapFromParts(era: int, q: int, p: int, r: int)
    requires 0 <= q <= 3 && 0 <= p <= 24 && 0 <= r <= 3
    ensures IsLeap(400 * era + 100 * q + 4 * p + r + 1) <==> r == 3 && (p == 24 ==> q == 3)
  {
    var y := 400 * era + 100 * q + 4 * p + r + 1;
    if r < 3 {
      DivisionIsUnique(y, 4, 100 * era + 25 * q + p, r + 1);
    } else {
      DivisionIsUnique(y, 4, 100 * era + 25 * q + p + 1, 0);
      if p < 24 {
        DivisionIsUnique(y, 100, 4 * era + q, 4 * p + 4);
      } else {
        DivisionIsUnique(y, 100, 4 * era + q + 1, 0);
        if q < 3 {
          DivisionIsUnique(y, 400, era, 100 * q + 100);
        } else {
          DivisionIsUnique(y, 400, era + 1, 0);
        }
      }
    }
  }

  // ---------- days within a year ----------

  /** The date of day `doy` of the year that starts in March of `y`. */
  function FromMarch(y: int, doy: int): Date {
    var mp := (5 * doy + 2) / 153;
    var m := if mp < 10 then mp + 3 else mp - 9;
    Date(if m <= 2 then y + 1 else y, m, doy - MonthStart(mp) + 1)
  }

  lemma MonthOfDay(doy: int) returns (mp: int)
    requires 0 <= doy <= 365
    ensures mp == (5 * doy + 2) / 153 && 0 <= mp <= 11
    ensures MonthStart(mp) <= doy && (mp < 11 ==> doy < MonthStart(mp + 1))
  {
    mp := (5 * doy + 2) / 153;
  }

  /** Month lengths from March on; February takes what its year leaves. */
  lemma MonthLengths(y: int, mp: int)
    requires 0 <= mp <= 11
    ensures var m := if mp < 10 then mp + 3 else mp - 9;
            DaysIn(if m <= 2 then y + 1 else y, m) == (if mp < 11 then MonthStart(mp + 1) else YearLength(y)) - MonthStart(mp)
  {
    hide IsLeap;
    if mp == 0 {} else if mp == 1 {} else if mp == 2 {} else if mp == 3 {} else if mp == 4 {} else if mp == 5 {}
    else if mp == 6 {} else if mp == 7 {} else if mp == 8 {} else if mp == 9 {} else if mp == 10 {} else {}
  }

  lemma MarchDate(y: int, doy: int)
    requires 0 <= doy < YearLength(y)
    ensures IsDate(FromMarch(y, doy))
    ensures FromMarch(y, doy + 1) == Tomorrow(FromMarch(y, doy)) || doy + 1 == YearLength(y)
    ensures doy + 1 == YearLength(y) ==> FromMarch(y + 1, 0) == Tomorrow(FromMarch(y, doy))
  {
    MarchIsDate(y, doy);
    if doy + 1 < YearLength(y) {
      MarchGoesOn(y, doy);
    } else {
      MarchYearEnds(y, doy);
    }
  }

  lemma MarchIsDate(y: int, doy: int)
    requires 0 <= doy < YearLength(y)
    ensures IsDate(FromMarch(y, doy))
  {
    hide IsLeap;
    assert YearLength(y) in {365, 366};
    var mp := MonthOfDay(doy);
    MonthLengths(y, mp);
  }

  lemma MarchGoesOn(y: int, doy: int)
    requires 0 <= doy && doy + 1 < YearLength(y)
    ensures FromMarch(y, doy + 1) == Tomorrow(FromMarch(y, doy))
  {
    hide IsLeap;
    assert YearLength(y) in {365, 366};
    var mp := MonthOfDay(doy);
    var mp' := MonthOfDay(doy + 1);
    MonthLengths(y, mp);
    hide YearLength, DaysIn;
    assert mp' == mp || mp' == mp + 1;
    assert MonthStart(mp') == if mp' == mp then MonthStart(mp) else doy + 1;
  }

  lemma MarchYearEnds(y: int, doy: int)
    requires 0 <= doy && doy + 1 == YearLength(y)
    ensures FromMarch(y + 1, 0) == Tomorrow(FromMarch(y, doy))
  {
    hide IsLeap;
    assert YearLength(y) in {365, 366};
    var mp := MonthOfDay(doy);
    MonthLengths(y, mp);
    assert FromMarch(y + 1, 0) == Date(y + 1, 3, 1);
    assert mp == 11;
  }

  // ---------- the closed form ----------

  /** Every day lies in one year, and the closed form is its date in that year. */
  lemma Located(days: int) returns (y: int, doy: int)
    ensures 0 <= doy < YearLength(y) && YearStart(y) + doy == days + 719468
    ensures CivilFromDays(days) == FromMarch(y, doy)
  {
    var z := days + 719468;
    var era, doe := z / 146097, z % 146097;
    var q, p, r, d := SplitEra(doe);
    YearOfEra(doe, q, p, r, d);
    StartFromParts(era, q, p, r);
    hide YearLength, YearStart, MonthStart, IsLeap;
    y, doy := 100 * q + 4 * p + r + era * 400, d;
    assert y == 400 * era + (100 * q + 4 * p + r);
    assert CivilFromDays(days) == FromMarch(y, doy) by {
      SameForm(days, y, doy, era, doe, 100 * q + 4 * p + r);
    }
  }

  lemma SameForm(days: int, y: int, doy: int, era: int, doe: int, yoe: int)
    requires era == (days + 719468) / 146097 && doe == (days + 719468) % 146097
    requires yoe == (doe - doe / 1460 + doe / 36524 - doe / 146096) / 365
    requires y == yoe + era * 400 && doy == doe - (365 * yoe + yoe / 4 - yoe / 100)
    ensures CivilFromDays(days) == FromMarch(y, doy)
  {
  }

  lemma {:induction false} YearsIncrease(a: int, b: int)
    requires a <= b
    ensures YearStart(a) <= YearStart(b)
    decreases b - a
  {
    hide YearStart, YearLength;
    if a < b {
      YearsIncrease(a, b - 1);
      YearsFollow(b - 1);
      assert YearLength(b - 1) >= 0 by {
        LengthPositive(b - 1);
      }
    }
  }

  lemma LengthPositive(y: int)
    ensures YearLength(y) >= 365
  {
  }

  lemma SameYear(a: int, i: int, b: int, j: int)
    requires 0 <= i < YearLength(a) && 0 <= j < YearLength(b) && YearStart(a) + i == YearStart(b) + j
    ensures a == b && i == j
  {
    hide YearStart, YearLength;
    if a < b {
      YearsFollow(a);
      YearsIncrease(a + 1, b);
    } else if b < a {
      YearsFollow(b);
      YearsIncrease(b + 1, a);
    }
  }

  /** The day count of the epoch. */
  lemma EpochIsJanuaryFirst1970()
    ensures CivilFromDays(0) == Date(1970, 1, 1)
  {
    assert 719468 / 146097 == 4 && 719468 % 146097 == 135080;
    YearOfEra(135080, 3, 17, 1, 306);
    SameForm(0, 1969, 306, 4, 135080, 369);
    hide CivilFromDays;
    assert (5 * 306 + 2) / 153 == 10 && MonthStart(10) == 306;
  }

  /** For every day, before the epoch and after, the closed form yields a date of the
      Gregorian calendar and the next day its successor. */
  lemma NextDayIsTomorrow(days: int)
    ensures IsDate(CivilFromDays(days))
    ensures CivilFromDays(days + 1) == Tomorrow(CivilFromDays(days))
  {
    var y, doy := Located(days);
    var y', doy' := Located(days + 1);
    hide CivilFromDays, FromMarch, Tomorrow, IsDate, YearStart, YearLength;
    MarchDate(y, doy);
    YearsFollow(y);
    LengthPositive(y + 1);
    if doy + 1 < YearLength(y) {
      SameYear(y, doy + 1, y', doy');
    } else {
      SameYear(y + 1, 0, y', doy');
    }
  }

  // ---------- stamps ----------

  datatype Stamp = Stamp(date: Date, hour: int, minute: int, second: int)

  /** The fields of the stamp of a second since the epoch. */
  function StampOf(secs: int): Stamp {
    var tod := secs % 86400;
    Stamp(CivilFromDays(secs / 86400), tod / 3600, tod % 3600 / 60, tod % 60)
  }

  /** A stamp is a time of day on its date: the seconds since the epoch are the whole days up to
      the date, and the hours, minutes and seconds since its midnight. */
  lemma StampTellsTheSecond(secs: int) returns (days: int)
    ensures var s := StampOf(secs);
      && s.date == CivilFromDays(days) && secs == days * 86400 + s.hour * 3600 + s.minute * 60 + s.second
      && 0 <= s.hour < 24 && 0 <= s.minute < 60 && 0 <= s.second < 60
  {
    days := secs / 86400;
    var tod := secs % 86400;
    MinuteOfHour(tod);
    hide CivilFromDays;
  }

  lemma EpochIsMidnight()
    ensures StampOf(0) == Stamp(Date(1970, 1, 1), 0, 0, 0)
  {
    EpochIsJanuaryFirst1970();
    hide CivilFromDays;
  }

  predicate Earlier(a: Date, b: Date) {
    a.year < b.year || (a.year == b.year && (a.month < b.month || (a.month == b.month && a.day < b.day)))
  }

  predicate Before(a: Stamp, b: Stamp) {
    || Earlier(a.date, b.date)
    || (a.date == b.date && (a.hour < b.hour || (a.hour == b.hour
        && (a.minute < b.minute || (a.minute == b.minute && a.second < b.second)))))
  }

  lemma TomorrowIsLater(d: Date)
    requires IsDate(d)
    ensures Earlier(d, Tomorrow(d))
  {
  }

  lemma {:induction false} DaysIncrease(a: int, b: int)
    requires a < b
    ensures Earlier(CivilFromDays(a), CivilFromDays(b))
    decreases b - a
  {
    hide CivilFromDays, Tomorrow, IsDate;
    NextDayIsTomorrow(b - 1);
    TomorrowIsLater(CivilFromDays(b - 1));
    if a < b - 1 {
      DaysIncrease(a, b - 1);
    }
  }

  /** A later second has a later stamp, field by field; two seconds never share one. */
  lemma StampsIncrease(a: int, b: int)
    requires a < b
    ensures Before(StampOf(a), StampOf(b))
  {
    hide CivilFromDays, Earlier;
    if a / 86400 < b / 86400 {
      DaysIncrease(a / 86400, b / 86400);
    } else {
      assert a / 86400 == b / 86400;
      ClockIncreases(a % 86400, b % 86400);
    }
  }

  lemma ClockIncreases(s: int, t: int)
    requires 0 <= s < t < 86400
    ensures s / 3600 < t / 3600 || (s / 3600 == t / 3600
              && (s % 3600 / 60 < t % 3600 / 60 || (s % 3600 / 60 == t % 3600 / 60 && s % 60 < t % 60)))
  {
    MinuteOfHour(s);
    MinuteOfHour(t);
  }

  lemma MinuteOfHour(s: int)
    requires 0 <= s
    ensures s % 60 == s % 3600 % 60
  {
    DivisionIsUnique(s, 60, s / 3600 * 60 + s % 3600 / 60, s % 3600 % 60);
  }

  /** A clock before the epoch stamps as the epoch. */
  function ConflictStamp(now: int): Stamp {
    StampOf(if now < 0 then 0 else now)
  }

  lemma BeforeIsAsymmetric(a: Stamp, b: Stamp)
    ensures !(Before(a, b) && Before(b, a)) && !Before(a, a)
  {
  }

  /** The stamps of two clocks are ordered as the clocks are, exactly if the later one is
      past the epoch. */
  lemma StampsFollowTheClock(a: int, b: int)
    ensures Before(ConflictStamp(a), ConflictStamp(b)) <==> a < b && b > 0
  {
    hide Before, StampOf;
    var a', b' := if a < 0 then 0 else a, if b < 0 then 0 else b;
    BeforeIsAsymmetric(StampOf(a'), StampOf(b'));
    if a' < b' {
      StampsIncrease(a', b');
    } else if b' < a' {
      StampsIncrease(b', a');
    }
  }
}
