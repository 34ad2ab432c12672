/**
 * `pd.to_datetime(x, format='%d/%m/%Y %H:%M', errors='coerce')`: the start-time parser of
 * src/carregamento_dados.py and src/previsao_chamados.py. A string that does not match the
 * format, names a day the month does not have, or falls outside pandas' nanosecond
 * Timestamp range becomes missing (NaT) instead of raising.
 */
module Timestamps {
  import opened Wrappers
  import opened Order
  import opened Text
  import opened Calendar

  function Fields(dt: DateTime): seq<int> { [dt.year, dt.month, dt.day, dt.hour, dt.minute] }

  /** pandas' Timestamp bounds, 1677-09-21 00:12:43.145224193 and 2262-04-11 23:47:16.854775807, at minute precision. */
  const Earliest := DateTime(1677, 9, 21, 0, 13)
  const Latest := DateTime(2262, 4, 11, 23, 47)

  predicate InTimestampRange(dt: DateTime)
  {
    LexLe(Fields(Earliest), Fields(dt)) && LexLe(Fields(dt), Fields(Latest))
  }

  lemma TimestampYears(dt: DateTime)
    requires InTimestampRange(dt)
    ensures 1677 <= dt.year <= 2262
  {
  }

  predicate IsDigit(c: char) { '0' <= c <= '9' }

  function DigitValue(c: char): nat
    requires IsDigit(c)
  {
    (c as int) - ('0' as int)
  }

  predicate AllDigits(s: string) { forall i :: 0 <= i < |s| ==> IsDigit(s[i]) }

  function Decimal(s: string): nat
    requires AllDigits(s)
  {
    if s == [] then 0 else Decimal(s[..|s| - 1]) * 10 + DigitValue(s[|s| - 1])
  }

  /** The `%m`, `%H` and `%M` fields: one or two digits (the value's range is checked afterwards). */
  predicate ShortNumber(s: string) { 1 <= |s| <= 2 && AllDigits(s) }

  /** The `%d` field also accepts a space followed by a non-zero digit. */
  predicate DayNumber(s: string)
  {
    ShortNumber(s) || (|s| == 2 && s[0] == ' ' && '1' <= s[1] <= '9')
  }

  function DayValue(s: string): nat
    requires DayNumber(s)
  {
    if s[0] == ' ' then DigitValue(s[1]) else Decimal(s)
  }

  /** Splits s at the first occurrence of sep. */
  function SplitOnce(s: string, sep: char): (r: Option<(string, string)>)
    ensures r.Some? ==> s == r.value.0 + [sep] + r.value.1 && sep !in r.value.0
    ensures r.None? ==> sep !in s
  {
    if s == [] then None
    else if s[0] == sep then Some(([], s[1..]))
    else
      match SplitOnce(s[1..], sep)
      case None => None
      case Some((a, b)) => Some(([s[0]] + a, b))
  }

  lemma {:induction false} SplitOnceAt(a: string, sep: char, b: string)
    requires sep !in a
    ensures SplitOnce(a + [sep] + b, sep) == Some((a, b))
    decreases |a|
  {
    if a != [] {
      assert (a + [sep] + b)[1..] == a[1..] + [sep] + b;
      SplitOnceAt(a[1..], sep, b);
      assert [a[0]] + a[1..] == a;
    }
  }

  /** The checks after the fields are cut out: field shapes, value ranges and the Timestamp bounds. */
  function Assemble(d: string, m: string, y: string, h: string, mi: string): (r: Option<DateTime>)
    requires |y| == 4 && AllDigits(y)
    ensures r.Some? ==> ValidDateTime(r.value) && InTimestampRange(r.value)
  {
    if DayNumber(d) && ShortNumber(m) && ShortNumber(h) && ShortNumber(mi) then
      var dt := DateTime(Decimal(y), Decimal(m), DayValue(d), Decimal(h), Decimal(mi));
      if ValidDateTime(dt) && InTimestampRange(dt) then Some(dt) else None
    else None
  }

  /**
   * `dd/mm/yyyy hh:mm` read by pandas' strptime: the blank between year and hour is
   * one or more whitespace characters, as Python's `_strptime` compiles it.
   */
  function ParseDayFirst(s: string): (r: Option<DateTime>)
    ensures r.Some? ==> ValidDateTime(r.value) && InTimestampRange(r.value)
  {
    match SplitOnce(s, '/')
    case None => None
    case Some((d, rest)) =>
      match SplitOnce(rest, '/')
      case None => None
      case Some((m, tail)) => ParseClock(d, m, tail)
  }

  /** The part after the second '/': four year digits, whitespace, then `hh:mm`. */
  function ParseClock(d: string, m: string, tail: string): (r: Option<DateTime>)
    ensures r.Some? ==> ValidDateTime(r.value) && InTimestampRange(r.value)
  {
    if |tail| < 5 || !AllDigits(tail[..4]) || !IsSpace(tail[4]) then None
    else
      match SplitOnce(TrimStart(tail[4..]), ':')
      case None => None
      case Some((h, mi)) => Assemble(d, m, tail[..4], h, mi)
  }

  /** A string laid out as d/m/yyyy h:mi is judged on its five fields alone. */
  lemma ParseFields(d: string, m: string, y: string, h: string, mi: string)
    requires '/' !in d && '/' !in m && ':' !in h
    requires |y| == 4 && AllDigits(y)
    requires h != [] && !IsSpace(h[0])
    ensures ParseDayFirst(d + "/" + m + "/" + y + " " + h + ":" + mi) == Assemble(d, m, y, h, mi)
  {
    var tail := y + " " + h + ":" + mi;
    var rest := m + "/" + tail;
    assert d + "/" + m + "/" + y + " " + h + ":" + mi == d + ['/'] + rest;
    assert rest == m + ['/'] + tail;
    SplitOnceAt(d, '/', rest);
    SplitOnceAt(m, '/', tail);
    ClockFields(d, m, y, h, mi);
  }

  lemma ClockFields(d: string, m: string, y: string, h: string, mi: string)
    requires ':' !in h
    requires |y| == 4 && AllDigits(y)
    requires h != [] && !IsSpace(h[0])
    ensures ParseClock(d, m, y + " " + h + ":" + mi) == Assemble(d, m, y, h, mi)
  {
    var tail := y + " " + h + ":" + mi;
    assert tail[..4] == y && tail[4] == ' ';
    assert tail[4..] == " " + h + ":" + mi;
    assert LeadingSpaces(tail[4..]) == 1 by {
      assert tail[4..][1..] == h + ":" + mi;
    }
    assert TrimStart(tail[4..]) == h + [':'] + mi;
    SplitOnceAt(h, ':', mi);
  }

  function Digit(n: nat): (c: char)
    requires n < 10
    ensures IsDigit(c) && DigitValue(c) == n
  {
    ('0' as int + n) as char
  }

  function Pad2(n: nat): (s: string)
    requires n < 100
    ensures ShortNumber(s) && Decimal(s) == n
  {
    var s := [Digit(n / 10), Digit(n % 10)];
    assert s[..1] == [Digit(n / 10)] && s[..1][..0] == [];
    assert Decimal(s[..1]) == n / 10;
    assert Decimal(s) == n / 10 * 10 + n % 10;
    s
  }

  function Pad4(n: nat): (s: string)
    requires n < 10000
    ensures |s| == 4 && AllDigits(s) && Decimal(s) == n
  {
    var s := [Digit(n / 1000), Digit(n / 100 % 10), Digit(n / 10 % 10), Digit(n % 10)];
    assert s[..3] == [Digit(n / 1000), Digit(n / 100 % 10), Digit(n / 10 % 10)];
    assert s[..3][..2] == [Digit(n / 1000), Digit(n / 100 % 10)];
    assert s[..3][..2][..1] == [Digit(n / 1000)] && s[..3][..2][..1][..0] == [];
    assert Decimal(s[..3][..2][..1]) == n / 1000;
    assert Decimal(s[..3][..2]) == n / 1000 * 10 + n / 100 % 10 == n / 100;
    assert Decimal(s[..3]) == n / 100 * 10 + n / 10 % 10 == n / 10;
    assert Decimal(s) == n / 10 * 10 + n % 10;
    s
  }

  /** Five numbers written in the `dd/mm/yyyy hh:mm` layout, zero-padded, whether or not they name a date. */
  function Layout(day: nat, month: nat, year: nat, hour: nat, minute: nat): string
    requires day < 100 && month < 100 && year < 10000 && hour < 100 && minute < 100
  {
    Pad2(day) + "/" + Pad2(month) + "/" + Pad4(year) + " " + Pad2(hour) + ":" + Pad2(minute)
  }

  /**
   * Any five numbers in the layout parse to the Timestamp they name when it is a real date
   * and time inside pandas' bounds, and to missing otherwise (a day the month lacks, hour 24,
   * minute 60, a year outside 1677..2262).
   */
  lemma ParsePadded(day: nat, month: nat, year: nat, hour: nat, minute: nat)
    requires day < 100 && month < 100 && year < 10000 && hour < 100 && minute < 100
    ensures var dt := DateTime(year, month, day, hour, minute);
      ParseDayFirst(Layout(day, month, year, hour, minute)) == if ValidDateTime(dt) && InTimestampRange(dt) then Some(dt) else None
  {
    var d, m, y, h, mi := Pad2(day), Pad2(month), Pad4(year), Pad2(hour), Pad2(minute);
    assert '/' !in d && '/' !in m && ':' !in h by {
      assert forall k :: 0 <= k < 2 ==> IsDigit(d[k]) && IsDigit(m[k]);
    }
    assert !IsSpace(h[0]) by { assert IsDigit(h[0]); }
    ParseFields(d, m, y, h, mi);
    assert DayValue(d) == day by { assert d[0] != ' ' by { assert IsDigit(d[0]); } }
  }

  /** A Timestamp written back in the `dd/mm/yyyy hh:mm` layout, zero-padded. */
  function FormatDayFirst(dt: DateTime): string
    requires ValidDateTime(dt) && InTimestampRange(dt)
  {
    TimestampYears(dt);
    Layout(dt.day, dt.month, dt.year, dt.hour, dt.minute)
  }

  /** Every representable Timestamp survives a format-then-parse round trip unchanged. */
  lemma ParseFormatRoundTrip(dt: DateTime)
    requires ValidDateTime(dt) && InTimestampRange(dt)
    ensures ParseDayFirst(FormatDayFirst(dt)) == Some(dt)
  {
    TimestampYears(dt);
    ParsePadded(dt.day, dt.month, dt.year, dt.hour, dt.minute);
  }

  lemma FormatExample()
    ensures ValidDateTime(DateTime(2024, 3, 5, 14, 30)) && InTimestampRange(DateTime(2024, 3, 5, 14, 30))
    ensures FormatDayFirst(DateTime(2024, 3, 5, 14, 30)) == "05/03/2024 14:30"
  {
    SmallPads();
    LargePads();
    assert "05" + "/" + "03" + "/" + "2024" + " " + "14" + ":" + "30" == "05/03/2024 14:30";
  }

  lemma SmallPads()
    ensures Pad2(0) == "00" && Pad2(2) == "02" && Pad2(3) == "03" && Pad2(5) == "05"
  {
  }

  lemma LargePads()
    ensures Pad2(10) == "10" && Pad2(14) == "14" && Pad2(30) == "30" && Pad2(31) == "31"
    ensures Pad4(2024) == "2024"
  {
  }

  /** The day comes first: "05/03/2024 14:30" is the fifth of March. */
  lemma ParseDayFirstExample()
    ensures ParseDayFirst("05/03/2024 14:30") == Some(DateTime(2024, 3, 5, 14, 30))
  {
    FormatExample();
    ParseFormatRoundTrip(DateTime(2024, 3, 5, 14, 30));
  }

  /** A day the month does not have is coerced to missing: there is no 31 February. */
  lemma ParseImpossibleDay()
    ensures ParseDayFirst("31/02/2024 10:00") == None
  {
    ImpossibleDayLayout();
    ParsePadded(31, 2, 2024, 10, 0);
    assert !ValidDateTime(DateTime(2024, 2, 31, 10, 0));
  }

  lemma ImpossibleDayLayout()
    ensures Layout(31, 2, 2024, 10, 0) == "31/02/2024 10:00"
  {
    SmallPads();
    LargePads();
    assert "31" + "/" + "02" + "/" + "2024" + " " + "10" + ":" + "00" == "31/02/2024 10:00";
  }

}
