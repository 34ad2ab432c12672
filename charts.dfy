/**
 * The yearly charts (app/graficos.py): the chart-type check of `gerar_grafico` and the
 * series each `gerar_grafico_*` function computes before plotting. The month, weekday
 * and hour charts first write a derived column into the caller's DataFrame.
 */
module Charts {
  import opened Wrappers
  import opened Order
  import opened Calendar
  import opened Tables
  import opened Dates
  import opened Counts

  datatype Chart = Bar | Line

  /** `gerar_grafico`'s `tipo` branch: "bar" and "line" are drawn, anything else raises ValueError. */
  function ChartOf(tipo: string): (r: Result<Chart, Error>)
    ensures r == Success(Bar) <==> tipo == "bar"
    ensures r == Success(Line) <==> tipo == "line"
    ensures r.Failure? <==> tipo != "bar" && tipo != "line"
    ensures r.Failure? ==> r.error == InvalidChartType(tipo)
  {
    if tipo == "bar" then Success(Bar)
    else if tipo == "line" then Success(Line)
    else Failure(InvalidChartType(tipo))
  }

  /** The label the raw workbooks carry for the start time and for the catalog item. */
  const Started: string := "Iniciado em"
  const CatalogItem: string := "Item do Catálogo"

  /** How many items the catalog chart shows. */
  const CatalogTop: nat := 15

  /**
   * `gerar_grafico_item_catalogo_anual`: when the catalog column exists, its 15 most
   * frequent values; otherwise nothing is computed.
   */
  function CatalogSeries(t: Table): (r: Option<seq<Entry>>)
    ensures r.Some? <==> CatalogItem in t.columns
    ensures r.Some? ==> r.value == Top(Column(t, CatalogItem), CatalogTop) && |r.value| <= CatalogTop
  {
    if CatalogItem in t.columns then Some(Top(Column(t, CatalogItem), CatalogTop)) else None
  }

  /** A catalog value left out of the chart occurs no more often than any value shown. */
  lemma CatalogSeriesIsTop(t: Table, v: Value, i: nat)
    requires CatalogItem in t.columns
    requires i < |CatalogSeries(t).value| && Some(v) in Column(t, CatalogItem)
    requires v !in KeysOf(CatalogSeries(t).value)
    ensures Occurrences(Column(t, CatalogItem), v) <= CatalogSeries(t).value[i].count
  {
    TopIsTop(Column(t, CatalogItem), CatalogTop, i, v);
  }

  /** `pd.to_datetime(df['Iniciado em'], errors='coerce')`: the start times pandas could read. */
  function Starts(t: Table, infer: string -> Option<Instant>): (col: seq<Option<Value>>)
    ensures |col| == |t.rows| && forall i :: 0 <= i < |col| ==> IsDateCell(col[i])
  {
    LooseColumn(Column(t, Started), infer)
  }

  /** The rows whose start time was read. */
  function ReadStarts(t: Table, infer: string -> Option<Instant>): nat
  {
    PresentCount(Starts(t, infer))
  }

  // ---- Month chart ----

  /** `df['Mes']`: the month name of each start time. */
  function MonthColumn(t: Table, infer: string -> Option<Instant>): seq<Option<Value>>
  {
    MonthNameColumn(Starts(t, infer))
  }

  /**
   * `gerar_grafico_chamados_por_mes(df)`: writes 'Mes' into df and returns the plotted series.
   * Without the start column it raises KeyError; with two columns labelled so, `pd.to_datetime`
   * is handed a DataFrame and raises the duplicate-keys ValueError. Either way df is untouched.
   */
  method ChartByMonth(df: Frame, infer: string -> Option<Instant>) returns (r: Result<seq<Entry>, Error>)
    modifies df
    ensures Started !in old(df.columns) ==> r == Failure(MissingColumn(Started)) && df.Snapshot() == old(df.Snapshot())
    ensures Repeated(old(df.columns), Started) ==> r == Failure(DuplicateColumn(Started)) && df.Snapshot() == old(df.Snapshot())
    ensures Started in old(df.columns) && !Repeated(old(df.columns), Started) ==>
      df.Snapshot() == WithColumn(old(df.Snapshot()), "Mes", MonthColumn(old(df.Snapshot()), infer)) &&
      r == Success(SortedCounts(MonthColumn(old(df.Snapshot()), infer)))
  {
    if Started !in df.columns {
      return Failure(MissingColumn(Started));
    }
    if Repeated(df.columns, Started) {
      return Failure(DuplicateColumn(Started));
    }
    var months := MonthColumn(df.Snapshot(), infer);
    df.Assign("Mes", months);
    r := Success(SortedCounts(Column(df.Snapshot(), "Mes")));
    assert Column(df.Snapshot(), "Mes") == months;
  }

  /**
   * The month series lists each month that occurs once, with its number of tickets, in
   * string order of the month names (not calendar order); the counts add up to the
   * rows whose start time was read.
   */
  lemma MonthSeriesShape(t: Table, infer: string -> Option<Instant>)
    ensures var s := SortedCounts(MonthColumn(t, infer));
      (forall i :: 0 <= i < |s| ==> s[i].key.Text? && s[i].key.text in MonthNames && s[i].count >= 1) &&
      (forall i, j :: 0 <= i < j < |s| ==> StrLe(s[i].key.text, s[j].key.text)) &&
      Total(s) == ReadStarts(t, infer)
  {
    var col := MonthColumn(t, infer);
    var s := SortedCounts(col);
    TextsAscending(col);
    forall i | 0 <= i < |s| ensures s[i].key.text in MonthNames {
      var j := SortedKeyCell(col, i);
      assert col[j] == MonthNameCell(Starts(t, infer)[j]);
    }
    PresentCountAligned(col, Starts(t, infer));
  }

  /** In string order "April" comes before "January": the months are not in calendar order. */
  lemma MonthsNotInCalendarOrder()
    ensures ValueLe(Text("April"), Text("January")) && !ValueLe(Text("January"), Text("April"))
  {
    TextOrder("April", "January");
    TextOrder("January", "April");
    assert Codes("April")[0] == 65 && Codes("January")[0] == 74;
  }

  // ---- Weekday chart ----

  /** `ordem_dias`, Monday to Sunday. */
  function WeekOrder(): (labels: seq<Value>)
    ensures |labels| == 7 && forall i :: 0 <= i < 7 ==> labels[i] == Text(DayNames[i])
  {
    seq(7, i requires 0 <= i < 7 => Text(DayNames[i]))
  }

  /** `df['Dia_Semana']`: the weekday name of each start time. */
  function DayColumn(t: Table, infer: string -> Option<Instant>): seq<Option<Value>>
  {
    DayNameColumn(Starts(t, infer))
  }

  /** `df['Dia_Semana'].value_counts().reindex(ordem_dias, fill_value=0)`. */
  function DaySeries(col: seq<Option<Value>>): seq<Entry>
  {
    Reindex(ValueCounts(col), WeekOrder())
  }

  /**
   * `gerar_grafico_chamados_por_dia(df)`: writes 'Dia_Semana' into df and returns the plotted series.
   * Without the start column it raises KeyError; with two columns labelled so, `pd.to_datetime`
   * is handed a DataFrame and raises the duplicate-keys ValueError. Either way df is untouched.
   */
  method ChartByDay(df: Frame, infer: string -> Option<Instant>) returns (r: Result<seq<Entry>, Error>)
    modifies df
    ensures Started !in old(df.columns) ==> r == Failure(MissingColumn(Started)) && df.Snapshot() == old(df.Snapshot())
    ensures Repeated(old(df.columns), Started) ==> r == Failure(DuplicateColumn(Started)) && df.Snapshot() == old(df.Snapshot())
    ensures Started in old(df.columns) && !Repeated(old(df.columns), Started) ==>
      df.Snapshot() == WithColumn(old(df.Snapshot()), "Dia_Semana", DayColumn(old(df.Snapshot()), infer)) &&
      r == Success(DaySeries(DayColumn(old(df.Snapshot()), infer)))
  {
    if Started !in df.columns {
      return Failure(MissingColumn(Started));
    }
    if Repeated(df.columns, Started) {
      return Failure(DuplicateColumn(Started));
    }
    var days := DayColumn(df.Snapshot(), infer);
    df.Assign("Dia_Semana", days);
    r := Success(DaySeries(Column(df.Snapshot(), "Dia_Semana")));
    assert Column(df.Snapshot(), "Dia_Semana") == days;
  }

  lemma DayNamesDistinct()
    ensures forall i, j :: 0 <= i < j < 7 ==> WeekOrder()[i] != WeekOrder()[j]
  {
    forall i, j | 0 <= i < j < 7 ensures DayNames[i] != DayNames[j] {
      assert DayNames[i][0] != DayNames[j][0] || DayNames[i][1] != DayNames[j][1];
    }
  }

  /**
   * The weekday series always has seven lines, Monday to Sunday, each the number of
   * tickets started that day (0 for a day that does not occur); they add up to the rows
   * whose start time was read.
   */
  lemma DaySeriesShape(t: Table, infer: string -> Option<Instant>)
    ensures var s := DaySeries(DayColumn(t, infer));
      |s| == 7 &&
      (forall i :: 0 <= i < 7 ==> s[i] == Entry(Text(DayNames[i]), Occurrences(DayColumn(t, infer), Text(DayNames[i])))) &&
      Total(s) == ReadStarts(t, infer)
  {
    var col := DayColumn(t, infer);
    DayNamesDistinct();
    forall i | 0 <= i < |col| && col[i].Some? ensures col[i].value in WeekOrder() {
      var k :| 0 <= k < 7 && DayNames[k] == col[i].value.text;
      assert WeekOrder()[k] == col[i].value;
    }
    ReindexCoversColumn(col, WeekOrder());
    PresentCountAligned(col, Starts(t, infer));
  }

  // ---- Hour chart ----

  /** `df['Hora']`: the hour of each start time. */
  function HourColumnOf(t: Table, infer: string -> Option<Instant>): seq<Option<Value>>
  {
    HourColumn(Starts(t, infer))
  }

  /**
   * `gerar_grafico_chamados_por_hora(df)`: writes 'Hora' into df and returns the plotted series.
   * Without the start column it raises KeyError; with two columns labelled so, `pd.to_datetime`
   * is handed a DataFrame and raises the duplicate-keys ValueError. Either way df is untouched.
   */
  method ChartByHour(df: Frame, infer: string -> Option<Instant>) returns (r: Result<seq<Entry>, Error>)
    modifies df
    ensures Started !in old(df.columns) ==> r == Failure(MissingColumn(Started)) && df.Snapshot() == old(df.Snapshot())
    ensures Repeated(old(df.columns), Started) ==> r == Failure(DuplicateColumn(Started)) && df.Snapshot() == old(df.Snapshot())
    ensures Started in old(df.columns) && !Repeated(old(df.columns), Started) ==>
      df.Snapshot() == WithColumn(old(df.Snapshot()), "Hora", HourColumnOf(old(df.Snapshot()), infer)) &&
      r == Success(SortedCounts(HourColumnOf(old(df.Snapshot()), infer)))
  {
    if Started !in df.columns {
      return Failure(MissingColumn(Started));
    }
    if Repeated(df.columns, Started) {
      return Failure(DuplicateColumn(Started));
    }
    var hours := HourColumnOf(df.Snapshot(), infer);
    df.Assign("Hora", hours);
    r := Success(SortedCounts(Column(df.Snapshot(), "Hora")));
    assert Column(df.Snapshot(), "Hora") == hours;
  }

  /**
   * An hour series lists only the hours that occur, each in 0..23 with a count of at
   * least 1, in strictly increasing hour order; the counts add up to the present cells.
   */
  lemma HourSeriesShape(col: seq<Option<Value>>)
    requires forall i :: 0 <= i < |col| && col[i].Some? ==> col[i].value.Number? && 0 <= col[i].value.n <= 23
    ensures var s := SortedCounts(col);
      (forall i :: 0 <= i < |s| ==> s[i].key.Number? && 0 <= s[i].key.n <= 23 && s[i].count >= 1) &&
      (forall i, j :: 0 <= i < j < |s| ==> s[i].key.n < s[j].key.n) &&
      Total(s) == PresentCount(col)
  {
    var s := SortedCounts(col);
    NumbersAscending(col);
    forall i | 0 <= i < |s| ensures 0 <= s[i].key.n <= 23 {
      var j := SortedKeyCell(col, i);
    }
  }

  /** The hour chart's series: hours of the read start times, ascending, adding up to those rows. */
  lemma HourChartShape(t: Table, infer: string -> Option<Instant>)
    ensures var s := SortedCounts(HourColumnOf(t, infer));
      (forall i :: 0 <= i < |s| ==> s[i].key.Number? && 0 <= s[i].key.n <= 23 && s[i].count >= 1) &&
      (forall i, j :: 0 <= i < j < |s| ==> s[i].key.n < s[j].key.n) &&
      Total(s) == ReadStarts(t, infer)
  {
    HourSeriesShape(HourColumnOf(t, infer));
    PresentCountAligned(HourColumnOf(t, infer), Starts(t, infer));
  }
}
