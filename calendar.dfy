/**
 * Proleptic Gregorian calendar arithmetic as Python's datetime and pandas do it:
 * ordinal day numbers (day 1 is 0001-01-01), the weekday and English day name
 * behind `dt.day_name()`, and the ISO 8601 week date behind `dt.isocalendar()`.
 */
module Calendar {

  /** A pandas Timestamp at minute precision (the parsed format carries no seconds). */
  datatype DateTime = DateTime(year: int, month: int, day: int, hour: int, minute: int)

  predicate IsLeapYear(y: int) { y % 4 == 0 && (y % 100 != 0 || y % 400 == 0) }

  function DaysInMonth(y: int, m: int): (n: int)
    requires 1 <= m <= 12
    ensures 28 <= n <= 31
  {
    if m == 2 then (if IsLeapYear(y) then 29 else 28)
    else if m == 4 || m == 6 || m == 9 || m == 11 then 30
    else 31
  }

  function DaysInYear(y: int): int { if IsLeapYear(y) then 366 else 365 }

  predicate ValidDate(y: int, m: int, d: int) { 1 <= y && 1 <= m <= 12 && 1 <= d <= DaysInMonth(y, m) }

  predicate ValidDateTime(dt: DateTime)
  {
    ValidDate(dt.year, dt.month, dt.day) && 0 <= dt.hour < 24 && 0 <= dt.minute < 60
  }

  /** Days in the years before year y (Python's `_days_before_year`). */
  function DaysBeforeYear(y: int): int
  {
    var p := y - 1;
    p * 365 + p / 4 - p / 100 + p / 400
  }

  /** Cumulative month lengths of a common year, indexed by month 1..13. */
  const CumulativeDays: seq<int> := [0, 0, 31, 59, 90, 120, 151, 181, 212, 243, 273, 304, 334, 365]

  /** Days in year y before the first of month m (Python's `_days_before_month`); m = 13 gives the year's length. */
  function DaysBeforeMonth(y: int, m: int): int
    requires 1 <= m <= 13
  {
    CumulativeDays[m] + (if m > 2 && IsLeapYear(y) then 1 else 0)
  }

  /** Python's `date.toordinal()`: 0001-01-01 is day 1. */
  function Ordinal(y: int, m: int, d: int): int
    requires 1 <= m <= 12
  {
    DaysBeforeYear(y) + DaysBeforeMonth(y, m) + d
  }

  function OrdinalOf(dt: DateTime): int
    requires 1 <= dt.month <= 12
  {
    Ordinal(dt.year, dt.month, dt.day)
  }

  function Jan1(y: int): int { DaysBeforeYear(y) + 1 }

  /** Python's `date.weekday()`: Monday is 0, Sunday is 6. */
  function Weekday(dt: DateTime): (w: int)
    requires 1 <= dt.month <= 12
    ensures 0 <= w < 7
  {
    (OrdinalOf(dt) + 6) % 7
  }

  const DayNames: seq<string> := ["Monday", "Tuesday", "Wednesday", "Thursday", "Friday", "Saturday", "Sunday"]

  /** pandas `Series.dt.day_name()` in its default English locale. */
  function DayName(dt: DateTime): (name: string)
    requires 1 <= dt.month <= 12
    ensures name in DayNames && name == DayNames[Weekday(dt)]
  {
    DayNames[Weekday(dt)]
  }

  /** The same clock time on the following calendar day. */
  function NextDay(dt: DateTime): (r: DateTime)
    requires ValidDateTime(dt)
    ensures ValidDateTime(r)
  {
    if dt.day < DaysInMonth(dt.year, dt.month) then dt.(day := dt.day + 1)
    else if dt.month < 12 then dt.(month := dt.month + 1, day := 1)
    else dt.(year := dt.year + 1, month := 1, day := 1)
  }

  /** Euclidean division by 7 is determined by any quotient and remainder that fit. */
  lemma DivMod7(n: int, q: int, r: int)
    requires 0 <= r < 7 && n == 7 * q + r
    ensures n / 7 == q && n % 7 == r
  {
  }

  /** Moving from year y - 1 to year y raises each quotient by one exactly when y is a multiple of the divisor. */
  lemma DivSteps(y: int)
    ensures y / 4 - (y - 1) / 4 == (if y % 4 == 0 then 1 else 0)
    ensures y / 100 - (y - 1) / 100 == (if y % 100 == 0 then 1 else 0)
    ensures y / 400 - (y - 1) / 400 == (if y % 400 == 0 then 1 else 0)
  {
  }

  /** The leap-year rule is exactly the step of the three quotients in `DaysBeforeYear`. */
  lemma LeapStep(y: int)
    ensures (y / 4 - (y - 1) / 4) - (y / 100 - (y - 1) / 100) + (y / 400 - (y - 1) / 400) == (if IsLeapYear(y) then 1 else 0)
  {
    DivSteps(y);
    var a, b, c := y % 4 == 0, y % 100 == 0, y % 400 == 0;
    if c { MultipleOf400(y); }
    if b { MultipleOf100(y); }
    assert IsLeapYear(y) == (a && (!b || c));
  }

  lemma MultipleOf400(y: int)
    requires y % 400 == 0
    ensures y % 100 == 0
  {
    var k := y / 400;
    assert y == 100 * (4 * k);
  }

  lemma MultipleOf100(y: int)
    requires y % 100 == 0
    ensures y % 4 == 0
  {
    var k := y / 100;
    assert y == 4 * (25 * k);
  }

  lemma YearLength(y: int)
    ensures DaysBeforeYear(y + 1) == DaysBeforeYear(y) + DaysInYear(y)
    ensures DaysBeforeMonth(y, 13) == DaysInYear(y)
  {
    LeapStep(y);
    assert DaysBeforeYear(y + 1) == y * 365 + y / 4 - y / 100 + y / 400;
    assert DaysBeforeYear(y) == (y - 1) * 365 + (y - 1) / 4 - (y - 1) / 100 + (y - 1) / 400;
  }

  lemma MonthLength(y: int, m: int)
    requires 1 <= m <= 12
    ensures DaysBeforeMonth(y, m) + DaysInMonth(y, m) == DaysBeforeMonth(y, m + 1)
  {
  }

  /** Each valid date falls inside its own year's run of ordinals. */
  lemma OrdinalInYear(dt: DateTime)
    requires ValidDateTime(dt)
    ensures Jan1(dt.year) <= OrdinalOf(dt) < Jan1(dt.year + 1)
  {
    YearLength(dt.year);
    MonthLength(dt.year, dt.month);
    assert DaysBeforeMonth(dt.year, dt.month + 1) <= DaysBeforeMonth(dt.year, 13);
  }

  /** The successor date is the next ordinal: NextDay and Ordinal agree on the calendar. */
  lemma {:induction false} OrdinalNextDay(dt: DateTime)
    requires ValidDateTime(dt)
    ensures OrdinalOf(NextDay(dt)) == OrdinalOf(dt) + 1
  {
    if dt.day == DaysInMonth(dt.year, dt.month) {
      MonthLength(dt.year, dt.month);
      if dt.month == 12 { YearLength(dt.year); }
    }
  }

  /** Day names advance Monday, Tuesday, ..., Sunday, Monday from one day to the next. */
  lemma WeekdayNextDay(dt: DateTime)
    requires ValidDateTime(dt)
    ensures Weekday(NextDay(dt)) == (Weekday(dt) + 1) % 7
  {
    OrdinalNextDay(dt);
    var o := OrdinalOf(dt) + 6;
    var q, r := o / 7, o % 7;
    if r == 6 {
      DivMod7(o + 1, q + 1, 0);
    } else {
      DivMod7(o + 1, q, r + 1);
    }
  }

  lemma {:induction false} Jan1Monotone(a: int, b: int)
    requires a <= b
    ensures Jan1(a) <= Jan1(b)
    decreases b - a
  {
    if a < b {
      YearLength(a);
      Jan1Monotone(a + 1, b);
    }
  }

  /** Python's `_isoweek1monday`: the Monday of the week holding the year's first Thursday. */
  function IsoWeek1Monday(y: int): (m: int)
    ensures (m + 6) % 7 == 0
    ensures Jan1(y) - 3 <= m <= Jan1(y) + 3
  {
    var first := Jan1(y);
    var wd := (first + 6) % 7;
    var q := (first + 6) / 7;
    if wd > 3 then
      DivMod7(first - wd + 7 + 6, q + 1, 0);
      first - wd + 7
    else
      DivMod7(first - wd + 6, q, 0);
      first - wd
  }

  datatype IsoDate = IsoDate(isoYear: int, week: int, weekday: int)

  /** Python's `date.isocalendar()`, which pandas' `dt.isocalendar()` reproduces. */
  function IsoCalendar(dt: DateTime): IsoDate
    requires ValidDateTime(dt)
  {
    IsoWeekDate(OrdinalOf(dt), dt.year)
  }

  /** The body of Python's `date.isocalendar()` for the day `today` of calendar year `y`. */
  function IsoWeekDate(today: int, y: int): IsoDate
  {
    var w1 := IsoWeek1Monday(y);
    var week := (today - w1) / 7;
    var day := (today - w1) % 7;
    if week < 0 then
      var w0 := IsoWeek1Monday(y - 1);
      IsoDate(y - 1, (today - w0) / 7 + 1, (today - w0) % 7 + 1)
    else if week >= 52 && today >= IsoWeek1Monday(y + 1) then
      IsoDate(y + 1, 1, day + 1)
    else
      IsoDate(y, week + 1, day + 1)
  }

  /**
   * Section 4.1.4 of ISO 8601:2004 (week date), stated through Thursdays: weeks run
   * Monday to Sunday, a week belongs to the year that holds its Thursday, and week 1
   * is the week that holds the year's first Thursday.
   */
  ghost predicate IsIsoWeek(ord: int, isoYear: int, week: int)
  {
    var thursday := ord - (ord + 6) % 7 + 3;
    Jan1(isoYear) <= thursday < Jan1(isoYear + 1) && week == (thursday - Jan1(isoYear)) / 7 + 1
  }

  /** From any day, the Thursday of its week is reached by counting whole weeks from a Monday. */
  lemma ThursdayOfWeek(ord: int, monday: int)
    requires (monday + 6) % 7 == 0
    ensures ord - (ord + 6) % 7 + 3 == monday + 7 * ((ord - monday) / 7) + 3
    ensures (ord - monday) % 7 == (ord + 6) % 7
  {
    var k, r := (ord - monday) / 7, (ord - monday) % 7;
    var j := (monday + 6) / 7;
    assert ord + 6 == 7 * (k + j) + r;
    DivMod7(ord + 6, k + j, r);
  }

  /** A day before the week-1 Monday of year y has its Thursday before January 1 of y. */
  lemma ThursdayBefore(ord: int, y: int)
    requires ord < IsoWeek1Monday(y)
    ensures ord - (ord + 6) % 7 + 3 < Jan1(y)
  {
    ThursdayOfWeek(ord, IsoWeek1Monday(y));
  }

  /** Counting weeks from the week-1 Monday of y gives the ISO week of a day whose Thursday lies in y. */
  lemma WeekFromMonday(ord: int, y: int)
    requires IsoWeek1Monday(y) <= ord
    requires ord - (ord + 6) % 7 + 3 < Jan1(y + 1)
    ensures IsIsoWeek(ord, y, (ord - IsoWeek1Monday(y)) / 7 + 1)
  {
    var m := IsoWeek1Monday(y);
    var w := (ord - m) / 7;
    ThursdayOfWeek(ord, m);
    DivMod7(7 * w + (m + 3 - Jan1(y)), w, m + 3 - Jan1(y));
  }

  /** The ISO week of a date is unique: the year and the week number are both determined. */
  lemma IsoWeekUnique(ord: int, y1: int, w1: int, y2: int, w2: int)
    requires IsIsoWeek(ord, y1, w1) && IsIsoWeek(ord, y2, w2)
    ensures y1 == y2 && w1 == w2
  {
    if y1 < y2 { Jan1Monotone(y1 + 1, y2); }
    if y2 < y1 { Jan1Monotone(y2 + 1, y1); }
  }

  /** Every ISO week number lies in 1..53, since a year has at most 366 days. */
  lemma IsoWeekRange(ord: int, y: int, w: int)
    requires IsIsoWeek(ord, y, w)
    ensures 1 <= w <= 53
  {
    YearLength(y);
  }

  /** A date before its year's week-1 Monday belongs to the last ISO week of the previous year. */
  lemma IsoWeekOfEarlyDate(today: int, y: int)
    requires Jan1(y) <= today < IsoWeek1Monday(y)
    ensures IsIsoWeek(today, y - 1, (today - IsoWeek1Monday(y - 1)) / 7 + 1)
  {
    YearLength(y - 1);
    ThursdayBefore(today, y);
    WeekFromMonday(today, y - 1);
  }

  /** A date on or after next year's week-1 Monday belongs to week 1 of the next year. */
  lemma IsoWeekOfLateDate(today: int, y: int)
    requires IsoWeek1Monday(y + 1) <= today < Jan1(y + 1)
    ensures IsIsoWeek(today, y + 1, 1)
  {
    var w2 := IsoWeek1Monday(y + 1);
    YearLength(y + 1);
    DivMod7(today - w2, 0, today - w2);
    WeekFromMonday(today, y + 1);
  }

  /** Any other date of year y belongs to the ISO week counted from y's week-1 Monday. */
  lemma IsoWeekOfMiddleDate(today: int, y: int)
    requires IsoWeek1Monday(y) <= today < Jan1(y + 1)
    requires (today - IsoWeek1Monday(y)) / 7 < 52 || today < IsoWeek1Monday(y + 1)
    ensures IsIsoWeek(today, y, (today - IsoWeek1Monday(y)) / 7 + 1)
  {
    YearLength(y);
    ThursdayOfWeek(today, IsoWeek1Monday(y));
    if today < IsoWeek1Monday(y + 1) {
      ThursdayBefore(today, y + 1);
    }
    WeekFromMonday(today, y);
  }

  /** The first branch of the isocalendar steps: a day before y's week-1 Monday. */
  lemma IsoWeekDateEarly(today: int, y: int)
    requires Jan1(y) <= today < Jan1(y + 1)
    requires (today - IsoWeek1Monday(y)) / 7 < 0
    ensures IsIsoWeek(today, IsoWeekDate(today, y).isoYear, IsoWeekDate(today, y).week)
    ensures IsoWeekDate(today, y).weekday == (today + 6) % 7 + 1
  {
    var w0 := IsoWeek1Monday(y - 1);
    assert IsoWeekDate(today, y) == IsoDate(y - 1, (today - w0) / 7 + 1, (today - w0) % 7 + 1);
    ThursdayOfWeek(today, IsoWeek1Monday(y));
    IsoWeekOfEarlyDate(today, y);
    ThursdayOfWeek(today, w0);
  }

  /** The second branch: a late-December day on or after next year's week-1 Monday. */
  lemma IsoWeekDateLate(today: int, y: int)
    requires Jan1(y) <= today < Jan1(y + 1)
    requires 52 <= (today - IsoWeek1Monday(y)) / 7 && IsoWeek1Monday(y + 1) <= today
    ensures IsIsoWeek(today, IsoWeekDate(today, y).isoYear, IsoWeekDate(today, y).week)
    ensures IsoWeekDate(today, y).weekday == (today + 6) % 7 + 1
  {
    var w1 := IsoWeek1Monday(y);
    assert IsoWeekDate(today, y) == IsoDate(y + 1, 1, (today - w1) % 7 + 1);
    ThursdayOfWeek(today, w1);
    IsoWeekOfLateDate(today, y);
  }

  /** The third branch: every other day, counted from y's week-1 Monday. */
  lemma IsoWeekDateMiddle(today: int, y: int)
    requires Jan1(y) <= today < Jan1(y + 1)
    requires 0 <= (today - IsoWeek1Monday(y)) / 7
    requires (today - IsoWeek1Monday(y)) / 7 < 52 || today < IsoWeek1Monday(y + 1)
    ensures IsIsoWeek(today, IsoWeekDate(today, y).isoYear, IsoWeekDate(today, y).week)
    ensures IsoWeekDate(today, y).weekday == (today + 6) % 7 + 1
  {
    var w1 := IsoWeek1Monday(y);
    assert IsoWeekDate(today, y) == IsoDate(y, (today - w1) / 7 + 1, (today - w1) % 7 + 1);
    ThursdayOfWeek(today, w1);
    IsoWeekOfMiddleDate(today, y);
  }

  /** The isocalendar steps on ordinals, for any day of calendar year y. */
  lemma IsoWeekDateIsIso8601(today: int, y: int)
    requires Jan1(y) <= today < Jan1(y + 1)
    ensures IsIsoWeek(today, IsoWeekDate(today, y).isoYear, IsoWeekDate(today, y).week)
    ensures IsoWeekDate(today, y).weekday == (today + 6) % 7 + 1
  {
    var w1 := IsoWeek1Monday(y);
    if (today - w1) / 7 < 0 {
      IsoWeekDateEarly(today, y);
    } else if (today - w1) / 7 >= 52 && today >= IsoWeek1Monday(y + 1) {
      IsoWeekDateLate(today, y);
    } else {
      IsoWeekDateMiddle(today, y);
    }
  }

  /**
   * Python's isocalendar algorithm yields the ISO 8601 week date: the week number of
   * the year that holds the date's Thursday, always in 1..53, and the ISO weekday.
   */
  lemma IsoCalendarIsIso8601(dt: DateTime)
    requires ValidDateTime(dt)
    ensures IsIsoWeek(OrdinalOf(dt), IsoCalendar(dt).isoYear, IsoCalendar(dt).week)
    ensures 1 <= IsoCalendar(dt).week <= 53
    ensures IsoCalendar(dt).weekday == Weekday(dt) + 1
  {
    var o := OrdinalOf(dt);
    var r := IsoCalendar(dt);
    assert r == IsoWeekDate(o, dt.year);
    assert Weekday(dt) == (o + 6) % 7;
    OrdinalInYear(dt);
    IsoWeekDateIsIso8601(o, dt.year);
    IsoWeekRange(o, r.isoYear, r.week);
  }
}
