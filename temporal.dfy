/**
 * `chamados_por_temporalidade` (src/analise_temporal.py): the tickets per weekday and per
 * hour, each `value_counts().sort_index()` of a column the loader derived.
 */
module Temporal {
  import opened Wrappers
  import opened Order
  import opened Tables
  import opened Counts
  import opened Calendar
  import opened Listing
  import opened Loader

  datatype Series = Series(byDay: seq<Entry>, byHour: seq<Entry>)

  /** The two series, or the KeyError of the first column that is absent. */
  function ByPeriod(t: Table): (r: Result<Series, Error>)
    ensures r.Failure? <==> "Dia_Semana" !in t.columns || "Hora" !in t.columns
    ensures "Dia_Semana" !in t.columns ==> r == Failure(MissingColumn("Dia_Semana"))
    ensures "Dia_Semana" in t.columns && "Hora" !in t.columns ==> r == Failure(MissingColumn("Hora"))
  {
    if "Dia_Semana" !in t.columns then Failure(MissingColumn("Dia_Semana"))
    else if "Hora" !in t.columns then Failure(MissingColumn("Hora"))
    else Success(Series(SortedCounts(Column(t, "Dia_Semana")), SortedCounts(Column(t, "Hora"))))
  }

  /**
   * Only the two columns are read: tables with the same labels and the same
   * weekday and hour cells give the same series.
   */
  lemma ByPeriodReadsTwoColumns(t: Table, u: Table)
    requires t.columns == u.columns && |t.rows| == |u.rows|
    requires forall i :: 0 <= i < |t.rows| ==>
      Cell(t.rows[i], "Dia_Semana") == Cell(u.rows[i], "Dia_Semana") && Cell(t.rows[i], "Hora") == Cell(u.rows[i], "Hora")
    ensures ByPeriod(t) == ByPeriod(u)
  {
    assert Column(t, "Dia_Semana") == Column(u, "Dia_Semana");
    assert Column(t, "Hora") == Column(u, "Hora");
  }

  /**
   * Weekdays are listed in alphabetical order of their names, each with a count of at
   * least 1; the counts add up to the rows with a weekday.
   */
  lemma ByDayShape(t: Table)
    requires ByPeriod(t).Success?
    requires forall i :: 0 <= i < |t.rows| && Cell(t.rows[i], "Dia_Semana").Some? ==> Cell(t.rows[i], "Dia_Semana").value.Text?
    ensures var s := ByPeriod(t).value.byDay;
      (forall i :: 0 <= i < |s| ==> s[i].key.Text? && s[i].count >= 1) &&
      (forall i, j :: 0 <= i < j < |s| ==> StrLe(s[i].key.text, s[j].key.text)) &&
      Total(s) == PresentCount(Column(t, "Dia_Semana"))
  {
    TextsAscending(Column(t, "Dia_Semana"));
  }

  /**
   * Hours are listed in increasing order, each with a count of at least 1; the counts
   * add up to the rows with an hour.
   */
  lemma ByHourShape(t: Table)
    requires ByPeriod(t).Success?
    requires forall i :: 0 <= i < |t.rows| && Cell(t.rows[i], "Hora").Some? ==> Cell(t.rows[i], "Hora").value.Number?
    ensures var s := ByPeriod(t).value.byHour;
      (forall i :: 0 <= i < |s| ==> s[i].key.Number? && s[i].count >= 1) &&
      (forall i, j :: 0 <= i < j < |s| ==> s[i].key.n < s[j].key.n) &&
      Total(s) == PresentCount(Column(t, "Hora"))
  {
    NumbersAscending(Column(t, "Hora"));
  }

  /**
   * What the loader returns meets both shapes' conditions: the two columns exist, every
   * weekday is one of the seven English day names, every hour a number, and the two series
   * count the same tickets (those whose start parsed).
   */
  lemma LoadFeedsSeries(listing: seq<File>)
    requires LoadSpec(listing).Success?
    ensures SeriesReady(LoadSpec(listing).value)
  {
    var dfs, merged, renamed, t := LoadSteps(listing);
    DerivedFeedsSeries(t);
  }

  /** The conditions under which ByDayShape and ByHourShape describe the two series. */
  predicate SeriesReady(t: Table)
  {
    ByPeriod(t).Success? &&
    (forall i :: 0 <= i < |t.rows| && Cell(t.rows[i], "Dia_Semana").Some? ==>
      Cell(t.rows[i], "Dia_Semana").value.Text? && Cell(t.rows[i], "Dia_Semana").value.text in DayNames) &&
    (forall i :: 0 <= i < |t.rows| && Cell(t.rows[i], "Hora").Some? ==> Cell(t.rows[i], "Hora").value.Number?) &&
    Total(ByPeriod(t).value.byDay) == Total(ByPeriod(t).value.byHour)
  }

  lemma DerivedFeedsSeries(t: Table)
    ensures SeriesReady(Derive(t))
  {
    var r := Derive(t);
    assert "Dia_Semana" in r.columns && "Hora" in r.columns;
    var days, hours := Column(r, "Dia_Semana"), Column(r, "Hora");
    forall i | 0 <= i < |r.rows| && Cell(r.rows[i], "Dia_Semana").Some?
      ensures Cell(r.rows[i], "Dia_Semana").value.Text? && Cell(r.rows[i], "Dia_Semana").value.text in DayNames
    {
      DerivedRow(t, i);
    }
    forall i | 0 <= i < |r.rows| ensures (days[i].Some? <==> hours[i].Some?) && (hours[i].Some? ==> hours[i].value.Number?) {
      DerivedRow(t, i);
    }
    ByDayShape(r);
    ByHourShape(r);
    PresentCountAligned(days, hours);
  }

  /** One derived row: weekday and hour are present together, as a day name and a number. */
  lemma DerivedRow(t: Table, i: int)
    requires 0 <= i < |t.rows|
    ensures var r := Derive(t);
      var day, hour := Cell(r.rows[i], "Dia_Semana"), Cell(r.rows[i], "Hora");
      (day.Some? <==> hour.Some?) && (hour.Some? ==> hour.value.Number?) &&
      (day.Some? ==> day.value.Text? && day.value.text in DayNames)
  {
  }

  /** Alphabetical weekday order puts Friday first and Monday before Sunday. */
  lemma FridayFirst()
    ensures ValueLe(Text("Friday"), Text("Monday")) && !ValueLe(Text("Monday"), Text("Friday"))
    ensures ValueLe(Text("Monday"), Text("Sunday"))
  {
    TextOrder("Friday", "Monday");
    TextOrder("Monday", "Friday");
    TextOrder("Monday", "Sunday");
    assert Codes("Friday")[0] == 70 && Codes("Monday")[0] == 77 && Codes("Sunday")[0] == 83;
  }
}
