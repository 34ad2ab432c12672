/**
 * `resumo_geral` (src/analise_geral.py): tickets per weekday and per hour, the share of
 * rated tickets, the time from start to finish of each ticket (after re-reading both
 * date columns in the caller's DataFrame), and the two charted series.
 */
module GeneralSummary {
  import opened Wrappers
  import opened Tables
  import opened Dates
  import opened Counts
  import opened Temporal

  const RatingColumn: string := "Avaliação"

  /** `avaliados` and `total`: tickets with a rating and all tickets. */
  datatype Rating = Rating(rated: nat, total: nat)

  /** What `resumo_geral` prints and plots, floating-point figures aside. */
  datatype Summary = Summary(
    byDay: seq<Entry>,
    byHour: seq<Entry>,
    rating: Option<Rating>,
    durations: Option<seq<Option<Value>>>,
    dayChart: seq<Entry>,
    hourChart: seq<Entry>)

  /** The rating block: only when the rating column exists. */
  function RatingOf(t: Table): (r: Option<Rating>)
    ensures r.Some? <==> RatingColumn in t.columns
    ensures r.Some? ==> r.value.rated == PresentCount(Column(t, RatingColumn)) && r.value.total == |t.rows|
    ensures r.Some? ==> r.value.rated <= r.value.total
  {
    if RatingColumn in t.columns then
      PresentPlusMissing(Column(t, RatingColumn));
      Some(Rating(PresentCount(Column(t, RatingColumn)), |t.rows|))
    else None
  }

  /** Whether the duration block runs: both date columns exist. */
  predicate HasDates(t: Table) { "Finalizado_em" in t.columns && "Iniciado_em" in t.columns }

  /** The DataFrame after line 28 alone: the start column re-read by `pd.to_datetime`. */
  function RereadStart(t: Table, infer: string -> Option<Instant>): (r: Table)
    ensures |r.rows| == |t.rows|
  {
    WithColumn(t, "Iniciado_em", LooseColumn(Column(t, "Iniciado_em"), infer))
  }

  /** The DataFrame after the duration block: both date columns re-read by `pd.to_datetime`. */
  function Reread(t: Table, infer: string -> Option<Instant>): (r: Table)
    ensures r.columns == t.columns && |r.rows| == |t.rows|
  {
    if HasDates(t) then
      var started := RereadStart(t, infer);
      WithColumn(started, "Finalizado_em", LooseColumn(Column(started, "Finalizado_em"), infer))
    else t
  }

  /** `tempo_medio = df['Finalizado_em'] - df['Iniciado_em']`, row by row, on date columns. */
  function Durations(t: Table): (r: seq<Option<Value>>)
    requires forall i :: 0 <= i < |t.rows| ==> IsDateCell(Cell(t.rows[i], "Iniciado_em")) && IsDateCell(Cell(t.rows[i], "Finalizado_em"))
    ensures |r| == |t.rows|
  {
    seq(|t.rows|, i requires 0 <= i < |t.rows| => DurationCell(Cell(t.rows[i], "Iniciado_em"), Cell(t.rows[i], "Finalizado_em")))
  }

  lemma RereadDates(t: Table, infer: string -> Option<Instant>)
    requires HasDates(t)
    ensures var r := Reread(t, infer);
      forall i :: 0 <= i < |t.rows| ==>
        Cell(r.rows[i], "Iniciado_em") == LooseCoerce(Cell(t.rows[i], "Iniciado_em"), infer) &&
        Cell(r.rows[i], "Finalizado_em") == LooseCoerce(Cell(t.rows[i], "Finalizado_em"), infer)
  {
  }

  /**
   * The summary; or the KeyError raised by the first line that reads an absent column; or,
   * once the duration block runs, the duplicate-keys ValueError of the first date column
   * (start, then finish) that labels two columns.
   */
  function Summarize(t: Table, infer: string -> Option<Instant>): (r: Result<Summary, Error>)
    ensures r.Failure? <==>
      ("Dia_Semana" !in t.columns || "Hora" !in t.columns ||
       (HasDates(t) && (Repeated(t.columns, "Iniciado_em") || Repeated(t.columns, "Finalizado_em"))))
    ensures "Dia_Semana" !in t.columns ==> r == Failure(MissingColumn("Dia_Semana"))
    ensures "Dia_Semana" in t.columns && "Hora" !in t.columns ==> r == Failure(MissingColumn("Hora"))
    ensures r.Failure? && r.error.DuplicateColumn? ==>
      HasDates(t) && (r.error.name == "Iniciado_em" || r.error.name == "Finalizado_em") && Repeated(t.columns, r.error.name) &&
      (r.error.name == "Finalizado_em" ==> !Repeated(t.columns, "Iniciado_em"))
    ensures r.Success? ==> r.value.rating == RatingOf(t) && (r.value.durations.Some? <==> HasDates(t))
  {
    if "Dia_Semana" !in t.columns then Failure(MissingColumn("Dia_Semana"))
    else if "Hora" !in t.columns then Failure(MissingColumn("Hora"))
    else if HasDates(t) && Repeated(t.columns, "Iniciado_em") then Failure(DuplicateColumn("Iniciado_em"))
    else if HasDates(t) && Repeated(t.columns, "Finalizado_em") then Failure(DuplicateColumn("Finalizado_em"))
    else
      var after := Reread(t, infer);
      var durations := if HasDates(t) then RereadDates(t, infer); Some(Durations(after)) else None;
      Success(Summary(ValueCounts(Column(t, "Dia_Semana")), SortedCounts(Column(t, "Hora")), RatingOf(t), durations,
                      SortedCounts(Column(after, "Dia_Semana")), SortedCounts(Column(after, "Hora"))))
  }

  /**
   * `resumo_geral(df)`: the caller's DataFrame keeps the re-read date columns; when the
   * finish column is the repeated one, line 28 has already re-read the start column.
   */
  method Summarise(df: Frame, infer: string -> Option<Instant>) returns (r: Result<Summary, Error>)
    modifies df
    ensures r == Summarize(old(df.Snapshot()), infer)
    ensures df.Snapshot() ==
      if r.Success? then Reread(old(df.Snapshot()), infer)
      else if r == Failure(DuplicateColumn("Finalizado_em")) then RereadStart(old(df.Snapshot()), infer)
      else old(df.Snapshot())
  {
    var t := df.Snapshot();
    if "Dia_Semana" !in df.columns {
      return Failure(MissingColumn("Dia_Semana"));
    }
    var byDay := ValueCounts(Column(t, "Dia_Semana"));
    if "Hora" !in df.columns {
      return Failure(MissingColumn("Hora"));
    }
    var byHour := SortedCounts(Column(t, "Hora"));
    var rating := RatingOf(t);
    var durations: Option<seq<Option<Value>>> := None;
    if HasDates(t) {
      if Repeated(df.columns, "Iniciado_em") {
        return Failure(DuplicateColumn("Iniciado_em"));
      }
      df.Assign("Iniciado_em", LooseColumn(Column(df.Snapshot(), "Iniciado_em"), infer));
      if Repeated(df.columns, "Finalizado_em") {
        return Failure(DuplicateColumn("Finalizado_em"));
      }
      df.Assign("Finalizado_em", LooseColumn(Column(df.Snapshot(), "Finalizado_em"), infer));
      assert df.Snapshot() == Reread(t, infer);
      RereadDates(t, infer);
      durations := Some(Durations(df.Snapshot()));
    }
    var after := df.Snapshot();
    r := Success(Summary(byDay, byHour, rating, durations,
                         SortedCounts(Column(after, "Dia_Semana")), SortedCounts(Column(after, "Hora"))));
  }

  /** A start column labelled twice makes line 28 raise, before anything is re-read. */
  lemma RepeatedStartExample(infer: string -> Option<Instant>)
    ensures Summarize(Table(["Dia_Semana", "Hora", "Iniciado_em", "Iniciado_em", "Finalizado_em"], []), infer)
      == Failure(DuplicateColumn("Iniciado_em"))
  {
    var t := Table(["Dia_Semana", "Hora", "Iniciado_em", "Iniciado_em", "Finalizado_em"], []);
    assert t.columns[2] == "Iniciado_em" && t.columns[3] == "Iniciado_em";
    assert Repeated(t.columns, "Iniciado_em");
  }

  /**
   * Each ticket's time to finish is its re-read finish minus its re-read start, in
   * minutes; missing when either is missing.
   */
  lemma DurationsPerRow(t: Table, infer: string -> Option<Instant>, i: nat)
    requires Summarize(t, infer).Success? && HasDates(t) && i < |t.rows|
    ensures var d := Summarize(t, infer).value.durations.value;
      var started := LooseCoerce(Cell(t.rows[i], "Iniciado_em"), infer);
      var finished := LooseCoerce(Cell(t.rows[i], "Finalizado_em"), infer);
      |d| == |t.rows| &&
      (d[i].None? <==> started.None? || finished.None?) &&
      (d[i].Some? ==> d[i].value == Span(MinutesOf(finished.value.at) - MinutesOf(started.value.at)))
  {
    RereadDates(t, infer);
  }

  /**
   * The charted series are the printed hour series and the weekday and hour series of
   * `chamados_por_temporalidade` on the same table: re-reading the date columns
   * leaves the weekday and hour columns as they were.
   */
  lemma ChartsMatchTemporal(t: Table, infer: string -> Option<Instant>)
    requires Summarize(t, infer).Success?
    ensures var s := Summarize(t, infer).value;
      ByPeriod(t).Success? && s.dayChart == ByPeriod(t).value.byDay && s.hourChart == ByPeriod(t).value.byHour &&
      s.hourChart == s.byHour
  {
    RereadKeeps(t, infer, "Dia_Semana");
    RereadKeeps(t, infer, "Hora");
  }

  /** Re-reading the date columns leaves every other column as it was. */
  lemma RereadKeeps(t: Table, infer: string -> Option<Instant>, c: string)
    requires c != "Iniciado_em" && c != "Finalizado_em"
    ensures Column(Reread(t, infer), c) == Column(t, c)
  {
  }

  /** The printed weekday series is in decreasing count order, the charted one in name order; same lines. */
  lemma DaySeriesSameLines(t: Table, infer: string -> Option<Instant>)
    requires Summarize(t, infer).Success?
    ensures var s := Summarize(t, infer).value;
      Descending(s.byDay) && multiset(s.dayChart) == multiset(s.byDay)
  {
    ChartsMatchTemporal(t, infer);
  }
}
