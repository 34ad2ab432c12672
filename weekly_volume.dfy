/**
 * `previsao_volume_chamados` (src/previsao_chamados.py): strip the caller's column labels,
 * parse the start times strictly, give up if any is missing, otherwise write each
 * ticket's ISO week and count the tickets per week.
 */
module WeeklyVolume {
  import opened Wrappers
  import opened Calendar
  import opened Text
  import opened ColumnNames
  import opened Tables
  import opened Dates
  import opened Counts

  const Started: string := "Iniciado em"

  /**
   * How the function ends: the two early returns, the ValueError `pd.to_datetime` raises
   * when two stripped labels are "Iniciado em" (it is then handed a DataFrame with
   * duplicate keys), or the weekly series it prints and plots.
   */
  datatype Outcome = NoStartColumn | DuplicateStart | InvalidStarts | Weekly(counts: seq<Entry>)

  /** `df.columns = df.columns.str.strip()`. */
  function Stripped(t: Table): (r: Table)
    ensures r.columns == StripAll(t.columns) && |r.rows| == |t.rows|
  {
    Relabel(t, StripAll(t.columns))
  }

  /** `df['Iniciado em'] = pd.to_datetime(..., format='%d/%m/%Y %H:%M', errors='coerce')`. */
  function Parsed(t: Table): (r: Table)
    ensures r.columns == t.columns + (if Started in t.columns then [] else [Started]) && |r.rows| == |t.rows|
  {
    WithColumn(t, Started, StrictColumn(Column(t, Started)))
  }

  /** `df['Semana'] = df['Iniciado em'].dt.isocalendar().week`. */
  function WithWeeks(t: Table): (r: Table)
    ensures |r.rows| == |t.rows|
  {
    WithColumn(t, "Semana", WeekColumn(Column(t, Started)))
  }

  /** The DataFrame the caller is left with, and how the function ends. */
  function Forecast(t: Table): (Table, Outcome)
  {
    var s := Stripped(t);
    if Started !in s.columns then (s, NoStartColumn)
    else if Repeated(s.columns, Started) then (s, DuplicateStart)
    else
      var p := Parsed(s);
      if None in Column(p, Started) then (p, InvalidStarts)
      else
        var w := WithWeeks(p);
        (w, Weekly(SortedCounts(Column(w, "Semana"))))
  }

  /** `previsao_volume_chamados(df)`, changing the caller's DataFrame step by step. */
  method ForecastVolume(df: Frame) returns (r: Outcome)
    modifies df
    ensures (df.Snapshot(), r) == Forecast(old(df.Snapshot()))
  {
    df.SetLabels(StripAll(df.columns));
    if Started !in df.columns {
      return NoStartColumn;
    }
    if Repeated(df.columns, Started) {
      return DuplicateStart;
    }
    df.Assign(Started, StrictColumn(Column(df.Snapshot(), Started)));
    if None in Column(df.Snapshot(), Started) {
      return InvalidStarts;
    }
    df.Assign("Semana", WeekColumn(Column(df.Snapshot(), Started)));
    r := Weekly(SortedCounts(Column(df.Snapshot(), "Semana")));
  }

  /**
   * The labels are stripped in every outcome; the function stops early exactly when no
   * label strips to "Iniciado em", and then nothing else has changed.
   */
  lemma NoStartExactly(t: Table)
    ensures Forecast(t).1 == NoStartColumn <==> forall c :: c in t.columns ==> Strip(c) != Started
    ensures Forecast(t).1 == NoStartColumn ==> Forecast(t).0 == Stripped(t)
  {
    var s := Stripped(t);
    StrippedHas(t.columns, Started);
    if Started !in s.columns {
      assert Forecast(t) == (s, NoStartColumn);
    } else {
      assert Forecast(t).1 != NoStartColumn;
    }
  }

  /**
   * The start column is read as a DataFrame, and `pd.to_datetime` raises, exactly when
   * two labels strip to "Iniciado em"; the caller's labels are stripped by then and
   * nothing else has changed.
   */
  lemma DuplicateStartExactly(t: Table)
    ensures Forecast(t).1 == DuplicateStart <==> exists i, j :: 0 <= i < j < |t.columns| && Strip(t.columns[i]) == Started && Strip(t.columns[j]) == Started
    ensures Forecast(t).1 == DuplicateStart ==> Forecast(t).0 == Stripped(t)
  {
    var s := Stripped(t);
    var names := StripAll(t.columns);
    if exists i, j :: 0 <= i < j < |t.columns| && Strip(t.columns[i]) == Started && Strip(t.columns[j]) == Started {
      var i, j :| 0 <= i < j < |t.columns| && Strip(t.columns[i]) == Started && Strip(t.columns[j]) == Started;
      assert names[i] == Started && names[j] == Started;
      assert Started in s.columns && Repeated(s.columns, Started);
    }
    if Forecast(t).1 == DuplicateStart {
      assert Repeated(names, Started);
      var i, j :| 0 <= i < j < |names| && names[i] == Started && names[j] == Started;
      assert Strip(t.columns[i]) == Started && Strip(t.columns[j]) == Started;
    }
  }

  /** "Iniciado em" beside "Iniciado em " (a trailing blank in the CSV header) raises. */
  lemma DuplicateStartForecastExample()
    ensures Forecast(Table(["Iniciado em", "Iniciado em "], [])) == (Table(["Iniciado em", "Iniciado em"], []), DuplicateStart)
  {
    var t := Table(["Iniciado em", "Iniciado em "], []);
    TrailingBlankStripped();
    StripUntrimmed(Started);
    assert Strip(t.columns[0]) == Started && Strip(t.columns[1]) == Started;
    DuplicateStartExactly(t);
    var s := Stripped(t);
    assert s.columns == [Started, Started] && s.rows == [];
  }

  lemma TrailingBlankStripped()
    ensures Strip("Iniciado em ") == Started
  {
    var s := "Iniciado em ";
    assert LeadingSpaces(s) == 0 by { assert s[0] == 'I'; }
    assert s[..|s| - 1] == Started;
    assert TrailingSpaces(Started) == 0 by { assert Started[|Started| - 1] == 'm'; }
    assert TrailingSpaces(s) == 1;
  }

  /** A label is among the stripped labels exactly when some label strips to it. */
  lemma StrippedHas(cols: seq<string>, x: string)
    ensures x in StripAll(cols) <==> exists c :: c in cols && Strip(c) == x
  {
    var names := StripAll(cols);
    if exists c :: c in cols && Strip(c) == x {
      var c :| c in cols && Strip(c) == x;
      var k :| 0 <= k < |cols| && cols[k] == c;
      assert names[k] == x;
    }
    if x in names {
      var k :| 0 <= k < |names| && names[k] == x;
      assert cols[k] in cols;
    }
  }

  /** The caller's labels end up stripped, whatever the outcome; a week column may follow them. */
  lemma LabelsStripped(t: Table)
    ensures |StripAll(t.columns)| <= |Forecast(t).0.columns| && Forecast(t).0.columns[..|t.columns|] == StripAll(t.columns)
  {
    var s := Stripped(t);
    if Started in s.columns {
      var p := Parsed(s);
      assert p.columns == s.columns;
      if None !in Column(p, Started) {
        var w := WithWeeks(p);
        assert w.columns == p.columns || w.columns == p.columns + ["Semana"];
      }
    }
  }

  /**
   * The second early return happens exactly when some start cell fails the strict
   * parse; by then the start column has already been overwritten with the parsed cells.
   */
  lemma InvalidStartsExactly(t: Table)
    requires Forecast(t).1 != NoStartColumn
    ensures var s := Stripped(t);
      Forecast(t).1 == InvalidStarts <==>
        !Repeated(s.columns, Started) && exists i :: 0 <= i < |t.rows| && StrictCoerce(Cell(s.rows[i], Started)).None?
    ensures Forecast(t).1 == InvalidStarts ==> Forecast(t).0 == Parsed(Stripped(t))
  {
    var s := Stripped(t);
    assert Started in s.columns;
    MissingStart(s);
  }

  /** Some start cell is missing after the strict parse exactly when some cell fails it. */
  lemma MissingStart(s: Table)
    ensures None in Column(Parsed(s), Started) <==> exists i :: 0 <= i < |s.rows| && StrictCoerce(Cell(s.rows[i], Started)).None?
  {
    var col := Column(Parsed(s), Started);
    ParsedStarts(s);
    if exists i :: 0 <= i < |s.rows| && StrictCoerce(Cell(s.rows[i], Started)).None? {
      var i :| 0 <= i < |s.rows| && StrictCoerce(Cell(s.rows[i], Started)).None?;
      assert col[i] == None;
    }
    if None in col {
      var i :| 0 <= i < |col| && col[i] == None;
      assert StrictCoerce(Cell(s.rows[i], Started)).None?;
    }
  }

  /** The start column after the strict parse: each cell is its own strict reading. */
  lemma ParsedStarts(s: Table)
    ensures var col := Column(Parsed(s), Started);
      |col| == |s.rows| && forall i :: 0 <= i < |s.rows| ==> col[i] == StrictCoerce(Cell(s.rows[i], Started))
  {
  }

  /** When the weekly series is reached, every start cell holds a Timestamp. */
  lemma AllStartsParsed(t: Table)
    requires Forecast(t).1.Weekly?
    ensures var p := Parsed(Stripped(t));
      Forecast(t).0 == WithWeeks(p) && Forecast(t).1.counts == SortedCounts(Column(WithWeeks(p), "Semana")) &&
      forall i :: 0 <= i < |t.rows| ==> Cell(p.rows[i], Started).Some? && Cell(p.rows[i], Started).value.Stamp?
  {
    var p := Parsed(Stripped(t));
    var starts := Column(p, Started);
    assert None !in starts;
    forall i | 0 <= i < |t.rows| ensures starts[i].Some? && starts[i].value.Stamp? {
      assert starts[i] in starts;
    }
  }

  /** When every start time parses, each ticket's week is the ISO 8601 week of its start. */
  lemma WeekOfEachTicket(t: Table)
    requires Forecast(t).1.Weekly?
    ensures Forecast(t).0 == WithWeeks(Parsed(Stripped(t)))
    ensures var p := Parsed(Stripped(t));
      forall i :: 0 <= i < |t.rows| ==>
        var start := Cell(p.rows[i], Started);
        start.Some? && start.value.Stamp? && Cell(WithWeeks(p).rows[i], "Semana") == Some(Number(IsoCalendar(start.value.at).week))
  {
    AllStartsParsed(t);
    WeekCells(Parsed(Stripped(t)));
  }

  /** With every start a Timestamp, each row's `Semana` cell is the ISO week of its start. */
  lemma WeekCells(p: Table)
    requires forall i :: 0 <= i < |p.rows| ==> Cell(p.rows[i], Started).Some? && Cell(p.rows[i], Started).value.Stamp?
    ensures forall i :: 0 <= i < |p.rows| ==>
      Cell(WithWeeks(p).rows[i], "Semana") == Some(Number(IsoCalendar(Cell(p.rows[i], Started).value.at).week))
  {
    forall i | 0 <= i < |p.rows|
      ensures Cell(WithWeeks(p).rows[i], "Semana") == Some(Number(IsoCalendar(Cell(p.rows[i], Started).value.at).week))
    {
      StampWeek(Cell(p.rows[i], Started));
    }
  }

  lemma StampWeek(v: Option<Value>)
    requires v.Some? && v.value.Stamp?
    ensures WeekCell(v) == Some(Number(IsoCalendar(v.value.at).week))
  {
  }

  /** A column of week numbers with no missing cell gives the shape of the weekly series. */
  lemma WeekCountsShape(weeks: seq<Option<Value>>)
    requires forall i :: 0 <= i < |weeks| ==> weeks[i].Some? && weeks[i].value.Number? && 1 <= weeks[i].value.n <= 53
    ensures var s := SortedCounts(weeks);
      (forall i :: 0 <= i < |s| ==> s[i].key.Number? && 1 <= s[i].key.n <= 53 && s[i].count >= 1) &&
      (forall i, j :: 0 <= i < j < |s| ==> s[i].key.n < s[j].key.n) &&
      Total(s) == |weeks|
  {
    NumbersAscending(weeks);
    var s := SortedCounts(weeks);
    forall i | 0 <= i < |s| ensures 1 <= s[i].key.n <= 53 {
      var j := SortedKeyCell(weeks, i);
    }
    PresentPlusMissing(weeks);
    NoneMissing(weeks);
  }

  /**
   * The weekly series lists each week that occurs once, in increasing week order, each
   * in 1..53 with a count of at least 1, adding up to all the tickets.
   */
  lemma WeeklyShape(t: Table)
    requires Forecast(t).1.Weekly?
    ensures var s := Forecast(t).1.counts;
      (forall i :: 0 <= i < |s| ==> s[i].key.Number? && 1 <= s[i].key.n <= 53 && s[i].count >= 1) &&
      (forall i, j :: 0 <= i < j < |s| ==> s[i].key.n < s[j].key.n) &&
      Total(s) == |t.rows|
  {
    AllStartsParsed(t);
    var p := Parsed(Stripped(t));
    var weeks := Column(WithWeeks(p), "Semana");
    forall i | 0 <= i < |weeks| ensures weeks[i].Some? && weeks[i].value.Number? && 1 <= weeks[i].value.n <= 53 {
      assert weeks[i] == WeekCell(Cell(p.rows[i], Started));
    }
    WeekCountsShape(weeks);
  }

  lemma {:induction false} NoneMissing(col: seq<Option<Value>>)
    requires forall i :: 0 <= i < |col| ==> col[i].Some?
    ensures MissingCount(col) == 0
    decreases |col|
  {
    if col != [] {
      NoneMissing(col[..|col| - 1]);
    }
  }
}
