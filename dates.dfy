/**
 * Cell-level date handling: `pd.to_datetime(..., errors='coerce')` with and without an
 * explicit format, and the `.dt` accessors the analyses read (`day_name()`, `hour`,
 * `strftime('%B')`, `isocalendar().week`).
 */
module Dates {
  import opened Wrappers
  import opened Calendar
  import opened Timestamps
  import opened Tables

  /** A cell that is a Timestamp or missing, which is what a datetime64 column holds. */
  predicate IsDateCell(v: Option<Value>) { v.None? || v.value.Stamp? }

  /**
   * `pd.to_datetime(cell, format='%d/%m/%Y %H:%M', errors='coerce')`: text is parsed in
   * the day-first layout, a Timestamp is kept, anything else becomes missing.
   */
  function StrictCoerce(v: Option<Value>): (r: Option<Value>)
    ensures IsDateCell(r)
    ensures v.Some? && v.value.Stamp? ==> r == v
    ensures v.Some? && v.value.Text? ==> (r.Some? <==> ParseDayFirst(v.value.text).Some?)
  {
    match v
    case Some(Text(s)) =>
      (match ParseDayFirst(s)
       case Some(dt) => Some(Stamp(dt))
       case None => None)
    case Some(Stamp(dt)) => v
    case _ => None
  }

  /**
   * `pd.to_datetime(cell, errors='coerce')` with no format: a Timestamp is kept, text is
   * read by pandas' format inference (passed in as infer), and every other cell, a number
   * included, is taken as missing.
   */
  function LooseCoerce(v: Option<Value>, infer: string -> Option<Instant>): (r: Option<Value>)
    ensures IsDateCell(r)
    ensures IsDateCell(v) ==> r == v
  {
    match v
    case Some(Text(s)) =>
      (match infer(s)
       case Some(dt) => Some(Stamp(dt))
       case None => None)
    case Some(Stamp(dt)) => v
    case _ => None
  }

  /** Coercing twice is coercing once: a date column is left as it is. */
  lemma StrictCoerceIdempotent(v: Option<Value>)
    ensures StrictCoerce(StrictCoerce(v)) == StrictCoerce(v)
  {
  }

  /** `.dt.day_name()`: the English weekday name of a Timestamp; missing otherwise. */
  function DayNameCell(v: Option<Value>): (r: Option<Value>)
    ensures r.Some? <==> v.Some? && v.value.Stamp?
    ensures r.Some? ==> r.value.Text? && r.value.text in DayNames
  {
    match v
    case Some(Stamp(dt)) => Some(Text(DayName(dt)))
    case _ => None
  }

  /** `.dt.hour`: the clock hour of a Timestamp; missing otherwise. */
  function HourCell(v: Option<Value>): (r: Option<Value>)
    ensures r.Some? <==> v.Some? && v.value.Stamp?
    ensures r.Some? ==> r.value.Number? && 0 <= r.value.n <= 23
  {
    match v
    case Some(Stamp(dt)) => Some(Number(dt.hour))
    case _ => None
  }

  /** `strftime('%B')` in the English locale. */
  const MonthNames: seq<string> := ["January", "February", "March", "April", "May", "June", "July",
                                    "August", "September", "October", "November", "December"]

  /** `.dt.strftime('%B')`: the month's name of a Timestamp; missing otherwise. */
  function MonthNameCell(v: Option<Value>): (r: Option<Value>)
    ensures r.Some? <==> v.Some? && v.value.Stamp?
    ensures r.Some? ==> r.value.Text? && r.value.text in MonthNames
  {
    match v
    case Some(Stamp(dt)) => Some(Text(MonthNames[dt.month - 1]))
    case _ => None
  }

  /** `.dt.isocalendar().week`: the ISO 8601 week number of a Timestamp; missing otherwise. */
  function WeekCell(v: Option<Value>): (r: Option<Value>)
    ensures r.Some? <==> v.Some? && v.value.Stamp?
    ensures r.Some? ==> r.value.Number? && 1 <= r.value.n <= 53
    ensures r.Some? ==> IsIsoWeek(OrdinalOf(v.value.at), IsoCalendar(v.value.at).isoYear, r.value.n)
  {
    match v
    case Some(Stamp(dt)) =>
      IsoCalendarIsIso8601(dt);
      Some(Number(IsoCalendar(dt).week))
    case _ => None
  }

  /** The difference of two Timestamps, in minutes. */
  function MinutesOf(dt: Instant): int
  {
    OrdinalOf(dt) * 1440 + dt.hour * 60 + dt.minute
  }

  /** `finished - started` for one row: a Timedelta, missing when either side is missing. */
  function DurationCell(started: Option<Value>, finished: Option<Value>): (r: Option<Value>)
    requires IsDateCell(started) && IsDateCell(finished)
    ensures r.None? <==> started.None? || finished.None?
    ensures r.Some? ==> r.value == Span(MinutesOf(finished.value.at) - MinutesOf(started.value.at))
  {
    match (started, finished)
    case (Some(Stamp(a)), Some(Stamp(b))) => Some(Span(MinutesOf(b) - MinutesOf(a)))
    case _ => None
  }

  /** A ticket finished at the same clock time on the next calendar day took exactly one day. */
  lemma DurationOfOneDay(dt: Instant)
    ensures DurationCell(Some(Stamp(dt)), Some(Stamp(NextDay(dt)))) == Some(Span(1440))
  {
    OrdinalNextDay(dt);
  }

  /** Cell-by-cell versions over a whole column. */
  function StrictColumn(col: seq<Option<Value>>): (r: seq<Option<Value>>)
    ensures |r| == |col| && forall i :: 0 <= i < |col| ==> r[i] == StrictCoerce(col[i])
  {
    seq(|col|, i requires 0 <= i < |col| => StrictCoerce(col[i]))
  }

  function LooseColumn(col: seq<Option<Value>>, infer: string -> Option<Instant>): (r: seq<Option<Value>>)
    ensures |r| == |col| && forall i :: 0 <= i < |col| ==> r[i] == LooseCoerce(col[i], infer)
  {
    seq(|col|, i requires 0 <= i < |col| => LooseCoerce(col[i], infer))
  }

  function DayNameColumn(col: seq<Option<Value>>): (r: seq<Option<Value>>)
    ensures |r| == |col| && forall i :: 0 <= i < |col| ==> r[i] == DayNameCell(col[i])
  {
    seq(|col|, i requires 0 <= i < |col| => DayNameCell(col[i]))
  }

  function HourColumn(col: seq<Option<Value>>): (r: seq<Option<Value>>)
    ensures |r| == |col| && forall i :: 0 <= i < |col| ==> r[i] == HourCell(col[i])
  {
    seq(|col|, i requires 0 <= i < |col| => HourCell(col[i]))
  }

  function MonthNameColumn(col: seq<Option<Value>>): (r: seq<Option<Value>>)
    ensures |r| == |col| && forall i :: 0 <= i < |col| ==> r[i] == MonthNameCell(col[i])
  {
    seq(|col|, i requires 0 <= i < |col| => MonthNameCell(col[i]))
  }

  function WeekColumn(col: seq<Option<Value>>): (r: seq<Option<Value>>)
    ensures |r| == |col| && forall i :: 0 <= i < |col| ==> r[i] == WeekCell(col[i])
  {
    seq(|col|, i requires 0 <= i < |col| => WeekCell(col[i]))
  }
}
