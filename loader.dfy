/**
 * `carregar_dados` (src/carregamento_dados.py): read every `.csv` file of a directory
 * with the four date columns parsed strictly, stack them, rewrite the column labels,
 * coerce the date columns once more, and add the weekday name and the hour of the start.
 */
module Loader {
  import opened Wrappers
  import opened Text
  import opened Calendar
  import opened ColumnNames
  import opened Tables
  import opened Dates
  import opened Listing

  /** The `parse_dates` columns as they are labelled in the files. */
  const RawDateColumns: seq<string> := ["Iniciado em", "Assumido em", "Atualizado em", "Finalizado em"]

  /** The same columns after the labels are rewritten. */
  const DateColumns: seq<string> := ["Iniciado_em", "Assumido_em", "Atualizado_em", "Finalizado_em"]

  /** One row with the cells under cols run through the strict day-first parser. */
  function StrictCells(r: Row, cols: seq<string>): (s: Row)
    ensures forall c :: Cell(s, c) == if c in cols then StrictCoerce(Cell(r, c)) else Cell(r, c)
    decreases |cols|
  {
    if cols == [] then r
    else
      var s := StrictCells(SetCell(r, cols[0], StrictCoerce(Cell(r, cols[0]))), cols[1..]);
      assert forall c :: c in cols <==> c == cols[0] || c in cols[1..];
      s
  }

  /**
   * `pd.read_csv(path, sep=';', parse_dates=[...], date_parser=strict)` on the cells of one
   * file: a file lacking one of the four date columns raises; otherwise every row is kept
   * and its date cells become Timestamps or missing.
   */
  function ReadCsv(f: File): (r: Result<Table, Error>)
    ensures r.Failure? <==> exists c :: c in RawDateColumns && c !in f.table.columns
    ensures r.Success? ==> r.value.columns == f.table.columns && |r.value.rows| == |f.table.rows|
    ensures r.Success? ==> forall i :: 0 <= i < |f.table.rows| ==> r.value.rows[i] == StrictCells(f.table.rows[i], RawDateColumns)
  {
    if exists c :: c in RawDateColumns && c !in f.table.columns then
      Failure(MissingDateColumns(set c | c in RawDateColumns && c !in f.table.columns))
    else
      Success(Table(f.table.columns,
        seq(|f.table.rows|, i requires 0 <= i < |f.table.rows| => StrictCells(f.table.rows[i], RawDateColumns))))
  }

  /** The read loop: every file read in listing order; the first file that raises ends it. */
  function ReadAll(files: seq<File>): (r: Result<seq<Table>, Error>)
    ensures r.Success? <==> forall k :: 0 <= k < |files| ==> ReadCsv(files[k]).Success?
    ensures r.Success? ==> |r.value| == |files| && forall k :: 0 <= k < |files| ==> ReadCsv(files[k]) == Success(r.value[k])
    decreases |files|
  {
    if files == [] then Success([])
    else
      var init := files[..|files| - 1];
      assert forall k :: 0 <= k < |init| ==> init[k] == files[k];
      match ReadAll(init)
      case Failure(e) => Failure(e)
      case Success(ts) =>
        match ReadCsv(files[|files| - 1])
        case Failure(e) => Failure(e)
        case Success(t) => Success(ts + [t])
  }

  /**
   * `for col in datas: df[col] = pd.to_datetime(df[col], errors='coerce', dayfirst=True)`:
   * a label that is absent raises KeyError, and a label held by two columns makes `df[col]`
   * a DataFrame, which `to_datetime` refuses ("cannot assemble with duplicate keys").
   */
  function Recoerce(t: Table, cols: seq<string>): (r: Result<Table, Error>)
    ensures r.Failure? <==> exists c :: c in cols && (c !in t.columns || Repeated(t.columns, c))
    ensures r.Failure? ==> r.error.MissingColumn? || r.error.DuplicateColumn?
    ensures r.Failure? && r.error.MissingColumn? ==> r.error.name in cols && r.error.name !in t.columns
    ensures r.Failure? && r.error.DuplicateColumn? ==> r.error.name in cols && Repeated(t.columns, r.error.name)
    ensures r.Success? ==> r.value.columns == t.columns && |r.value.rows| == |t.rows|
    ensures r.Success? ==> forall i, d :: 0 <= i < |t.rows| ==>
      Cell(r.value.rows[i], d) == if d in cols then StrictCoerce(Cell(t.rows[i], d)) else Cell(t.rows[i], d)
    decreases |cols|
  {
    if cols == [] then Success(t)
    else if cols[0] !in t.columns then Failure(MissingColumn(cols[0]))
    else if Repeated(t.columns, cols[0]) then Failure(DuplicateColumn(cols[0]))
    else
      var next := WithColumn(t, cols[0], StrictColumn(Column(t, cols[0])));
      assert forall c :: c in cols <==> c == cols[0] || c in cols[1..];
      var r := Recoerce(next, cols[1..]);
      assert r.Success? ==> forall i, d :: 0 <= i < |t.rows| ==>
        Cell(r.value.rows[i], d) == if d in cols then StrictCoerce(Cell(t.rows[i], d)) else Cell(t.rows[i], d) by {
        if r.Success? {
          forall i, d | 0 <= i < |t.rows|
            ensures Cell(r.value.rows[i], d) == if d in cols then StrictCoerce(Cell(t.rows[i], d)) else Cell(t.rows[i], d)
          {
            var cells := StrictColumn(Column(t, cols[0]));
            assert cells[i] == StrictCoerce(Cell(t.rows[i], cols[0]));
            assert Cell(next.rows[i], d) == if d == cols[0] then cells[i] else Cell(t.rows[i], d);
            assert Cell(r.value.rows[i], d) == if d in cols[1..] then StrictCoerce(Cell(next.rows[i], d)) else Cell(next.rows[i], d);
            StrictCoerceIdempotent(Cell(t.rows[i], d));
          }
        }
      }
      r
  }

  /** `df['Dia_Semana'] = df['Iniciado_em'].dt.day_name()` then `df['Hora'] = df['Iniciado_em'].dt.hour`. */
  function Derive(t: Table): (r: Table)
    ensures |r.rows| == |t.rows| && forall c :: c in r.columns <==> c in t.columns || c == "Dia_Semana" || c == "Hora"
    ensures forall i, d :: 0 <= i < |t.rows| && d != "Dia_Semana" && d != "Hora" ==> Cell(r.rows[i], d) == Cell(t.rows[i], d)
    ensures forall i :: 0 <= i < |t.rows| ==>
      var start := Cell(t.rows[i], "Iniciado_em");
      var day, hour := Cell(r.rows[i], "Dia_Semana"), Cell(r.rows[i], "Hora");
      (day.Some? <==> start.Some? && start.value.Stamp?) && (hour.Some? <==> start.Some? && start.value.Stamp?) &&
      (hour.Some? ==> day == Some(Text(DayName(start.value.at))) && hour == Some(Number(start.value.at.hour)))
  {
    var withDay := WithColumn(t, "Dia_Semana", DayNameColumn(Column(t, "Iniciado_em")));
    WithColumn(withDay, "Hora", HourColumn(Column(withDay, "Iniciado_em")))
  }

  /** What `carregar_dados` returns, or the exception it raises. */
  function LoadSpec(listing: seq<File>): Result<Table, Error>
  {
    match ReadAll(WithSuffix(listing, ".csv"))
    case Failure(e) => Failure(e)
    case Success(dfs) =>
      if dfs == [] then Failure(NoObjectsToConcatenate)
      else
        var merged := Stack(dfs[0], dfs[1..]);
        var renamed := Relabel(merged, NormalizeAll(merged.columns));
        match Recoerce(renamed, DateColumns)
        case Failure(e) => Failure(e)
        case Success(t) => Success(Derive(t))
  }

  /** The read loop of `carregar_dados`, one file at a time. */
  method ReadFiles(files: seq<File>) returns (r: Result<seq<Table>, Error>)
    ensures r == ReadAll(files)
  {
    var dfs: seq<Table> := [];
    var i := 0;
    while i < |files|
      invariant 0 <= i <= |files|
      invariant ReadAll(files[..i]) == Success(dfs)
    {
      assert files[..i + 1][..i] == files[..i];
      var df := ReadCsv(files[i]);
      if df.Failure? {
        assert ReadAll(files[..i + 1]) == Failure(df.error);
        ReadAllStops(files, i + 1);
        return Failure(df.error);
      }
      dfs := dfs + [df.value];
      i := i + 1;
    }
    assert files[..i] == files;
    return Success(dfs);
  }

  /** The second coercion loop of `carregar_dados`, one column at a time. */
  method RecoerceColumns(t0: Table, cols: seq<string>) returns (r: Result<Table, Error>)
    ensures r == Recoerce(t0, cols)
  {
    var t := t0;
    var k := 0;
    while k < |cols|
      invariant 0 <= k <= |cols|
      invariant Recoerce(t0, cols) == Recoerce(t, cols[k..])
    {
      var col := cols[k];
      assert cols[k..][0] == col && cols[k..][1..] == cols[k + 1..];
      if col !in t.columns {
        return Failure(MissingColumn(col));
      }
      if Repeated(t.columns, col) {
        return Failure(DuplicateColumn(col));
      }
      t := WithColumn(t, col, StrictColumn(Column(t, col)));
      k := k + 1;
    }
    assert cols[k..] == [];
    return Success(t);
  }

  /** `carregar_dados(caminho_pasta)`, step by step as the source runs it. */
  method Load(listing: seq<File>) returns (r: Result<Table, Error>)
    ensures r == LoadSpec(listing)
  {
    var files := WithSuffix(listing, ".csv");
    var read := ReadFiles(files);
    if read.Failure? {
      return Failure(read.error);
    }
    var dfs := read.value;
    if dfs == [] {
      return Failure(NoObjectsToConcatenate);
    }
    var merged := Stack(dfs[0], dfs[1..]);
    var renamed := Relabel(merged, NormalizeAll(merged.columns));
    var coerced := RecoerceColumns(renamed, DateColumns);
    if coerced.Failure? {
      return Failure(coerced.error);
    }
    var t := coerced.value;
    t := WithColumn(t, "Dia_Semana", DayNameColumn(Column(t, "Iniciado_em")));
    t := WithColumn(t, "Hora", HourColumn(Column(t, "Iniciado_em")));
    return Success(t);
  }

  /** Once a prefix of the files fails to read, the whole read loop fails with the same error. */
  lemma {:induction false} ReadAllStops(files: seq<File>, n: nat)
    requires n <= |files| && ReadAll(files[..n]).Failure?
    ensures ReadAll(files) == ReadAll(files[..n])
    decreases |files| - n
  {
    if n < |files| {
      assert files[..n + 1][..n] == files[..n];
      ReadAllStops(files, n + 1);
    } else {
      assert files[..n] == files;
    }
  }

  lemma SpacesToUnderscores(raw: string, clean: string)
    requires |raw| == |clean| && raw != [] && !IsSpace(raw[0]) && !IsSpace(raw[|raw| - 1])
    requires forall i :: 0 <= i < |raw| ==> !IsParen(raw[i]) && clean[i] == if raw[i] == ' ' then '_' else raw[i]
    ensures Normalize(raw) == clean
  {
    SpacedLabel(raw);
  }

  /** The loader's rewrite maps each of the four labels the files carry to the label the analyses read. */
  lemma DateLabelsNormalize()
    ensures forall k :: 0 <= k < |RawDateColumns| ==> Normalize(RawDateColumns[k]) == DateColumns[k]
  {
    forall k | 0 <= k < |RawDateColumns| ensures Normalize(RawDateColumns[k]) == DateColumns[k] {
      if k == 0 { StartedLabel(); }
      else if k == 1 { TakenLabel(); }
      else if k == 2 { UpdatedLabel(); }
      else { FinishedLabel(); }
    }
  }

  lemma StartedLabel() ensures Normalize("Iniciado em") == "Iniciado_em" { SpacesToUnderscores("Iniciado em", "Iniciado_em"); }
  lemma TakenLabel() ensures Normalize("Assumido em") == "Assumido_em" { SpacesToUnderscores("Assumido em", "Assumido_em"); }
  lemma UpdatedLabel() ensures Normalize("Atualizado em") == "Atualizado_em" { SpacesToUnderscores("Atualizado em", "Atualizado_em"); }
  lemma FinishedLabel() ensures Normalize("Finalizado em") == "Finalizado_em" { SpacesToUnderscores("Finalizado em", "Finalizado_em"); }

  /** The renamed start label is already normal: a `.csv` column carrying it keeps it. */
  lemma PlainStartLabel()
    ensures Normalize("Iniciado_em") == "Iniciado_em"
  {
    var s := "Iniciado_em";
    assert forall i :: 0 <= i < |s| ==> 'A' <= s[i] <= 'z';
    NormalizeKeepsPlainName(s);
  }

  /** Labels holding the four raw date labels are rewritten into labels holding the four date columns. */
  lemma RenamedHasDateColumns(labels: seq<string>)
    requires forall c :: c in RawDateColumns ==> c in labels
    ensures forall c :: c in DateColumns ==> c in NormalizeAll(labels)
  {
    DateLabelsNormalize();
    var names := NormalizeAll(labels);
    forall k | 0 <= k < |DateColumns| ensures DateColumns[k] in names {
      assert RawDateColumns[k] in RawDateColumns;
      var j :| 0 <= j < |labels| && labels[j] == RawDateColumns[k];
      assert names[j] == DateColumns[k];
    }
  }

  /** The steps of a successful load, named. */
  lemma LoadSteps(listing: seq<File>) returns (dfs: seq<Table>, merged: Table, renamed: Table, t: Table)
    requires LoadSpec(listing).Success?
    ensures ReadAll(WithSuffix(listing, ".csv")) == Success(dfs) && dfs != []
    ensures merged == Stack(dfs[0], dfs[1..]) && renamed == Relabel(merged, NormalizeAll(merged.columns))
    ensures Recoerce(renamed, DateColumns) == Success(t) && LoadSpec(listing) == Success(Derive(t))
  {
    dfs := ReadAll(WithSuffix(listing, ".csv")).value;
    merged := Stack(dfs[0], dfs[1..]);
    renamed := Relabel(merged, NormalizeAll(merged.columns));
    t := Recoerce(renamed, DateColumns).value;
  }

  /** The labels of the stacked `.csv` files, computed from the files' labels alone. */
  function CsvLabels(csv: seq<File>): seq<string>
    requires csv != []
  {
    UnionAll(csv[0].table.columns, LabelsOf(TablesOf(csv[1..])))
  }

  /** Two different stacked labels are rewritten to the same date label. */
  predicate DateLabelClash(csv: seq<File>)
    requires csv != []
  {
    exists d :: d in DateColumns && Repeated(NormalizeAll(CsvLabels(csv)), d)
  }

  /**
   * `carregar_dados` raises exactly when the directory holds no `.csv` file (nothing to
   * concatenate), when some `.csv` file lacks one of the four date columns, or when the
   * rewrite of the labels turns two of them into the same date label.
   */
  lemma LoadFailsExactly(listing: seq<File>)
    ensures var csv := WithSuffix(listing, ".csv");
      LoadSpec(listing).Failure? <==>
        csv == [] || (exists f, c :: f in csv && c in RawDateColumns && c !in f.table.columns) || DateLabelClash(csv)
    ensures WithSuffix(listing, ".csv") == [] ==> LoadSpec(listing) == Failure(NoObjectsToConcatenate)
  {
    var csv := WithSuffix(listing, ".csv");
    match ReadAll(csv)
    case Failure(e) =>
      var k :| 0 <= k < |csv| && ReadCsv(csv[k]).Failure?;
      assert csv[k] in csv;
    case Success(dfs) =>
      ReadAllHasDates(csv, dfs);
      if dfs != [] {
        var merged := Stack(dfs[0], dfs[1..]);
        MergedHasDates(csv, dfs);
        RenamedHasDateColumns(merged.columns);
        MergedLabels(csv, dfs);
      }
  }

  /** Which exception a failed load raises: the reader's, or the second coercion's on a clash. */
  lemma LoadErrorKinds(listing: seq<File>)
    requires LoadSpec(listing).Failure? && WithSuffix(listing, ".csv") != []
    ensures var csv := WithSuffix(listing, ".csv"); var e := LoadSpec(listing).error;
      (e.MissingDateColumns? <==> exists f, c :: f in csv && c in RawDateColumns && c !in f.table.columns) &&
      (e.DuplicateColumn? <==> !exists f, c :: f in csv && c in RawDateColumns && c !in f.table.columns) &&
      (e.DuplicateColumn? ==> e.name in DateColumns && Repeated(NormalizeAll(CsvLabels(csv)), e.name))
  {
    var csv := WithSuffix(listing, ".csv");
    match ReadAll(csv)
    case Failure(e) =>
      var k :| 0 <= k < |csv| && ReadCsv(csv[k]).Failure?;
      assert csv[k] in csv;
      ReadAllError(csv);
    case Success(dfs) =>
      ReadAllHasDates(csv, dfs);
      var merged := Stack(dfs[0], dfs[1..]);
      MergedHasDates(csv, dfs);
      RenamedHasDateColumns(merged.columns);
      MergedLabels(csv, dfs);
  }

  /** After a successful read the stacked labels are the files' labels. */
  lemma MergedLabels(csv: seq<File>, dfs: seq<Table>)
    requires ReadAll(csv) == Success(dfs) && dfs != []
    ensures Stack(dfs[0], dfs[1..]).columns == CsvLabels(csv)
  {
    StackColumns(dfs[0], dfs[1..]);
    assert ReadCsv(csv[0]) == Success(dfs[0]);
    forall k | 0 <= k < |dfs| - 1 ensures LabelsOf(dfs[1..])[k] == LabelsOf(TablesOf(csv[1..]))[k] {
      assert ReadCsv(csv[k + 1]) == Success(dfs[k + 1]);
    }
    assert LabelsOf(dfs[1..]) == LabelsOf(TablesOf(csv[1..]));
  }

  /**
   * A `.csv` label other than a date label that the rewrite also turns into that date label
   * (say "Iniciado_em" beside "Iniciado em") makes the load raise in the second coercion.
   */
  lemma LoadRejectsRenamedClash(listing: seq<File>, f: File, c: string, k: nat)
    requires var csv := WithSuffix(listing, ".csv");
      forall g, e :: g in csv && e in RawDateColumns ==> e in g.table.columns
    requires f in WithSuffix(listing, ".csv") && c in f.table.columns
    requires k < |RawDateColumns| && c != RawDateColumns[k] && Normalize(c) == DateColumns[k]
    ensures LoadSpec(listing).Failure? && LoadSpec(listing).error.DuplicateColumn?
  {
    var csv := WithSuffix(listing, ".csv");
    var fi :| 0 <= fi < |csv| && csv[fi] == f;
    forall i | 0 <= i < |csv| ensures ReadCsv(csv[i]).Success? {
      assert csv[i] in csv;
    }
    var dfs := ReadAll(csv).value;
    var merged := Stack(dfs[0], dfs[1..]);
    var names := NormalizeAll(merged.columns);
    StackRows(dfs[0], dfs[1..]);
    assert ReadCsv(csv[fi]) == Success(dfs[fi]);
    assert c in merged.columns by {
      if fi > 0 { assert dfs[1..][fi - 1] == dfs[fi]; }
    }
    MergedHasDates(csv, dfs);
    assert RawDateColumns[k] in RawDateColumns;
    var p :| 0 <= p < |merged.columns| && merged.columns[p] == c;
    var q :| 0 <= q < |merged.columns| && merged.columns[q] == RawDateColumns[k];
    DateLabelsNormalize();
    assert names[p] == DateColumns[k] && names[q] == DateColumns[k];
    if p < q {
      assert Repeated(names, DateColumns[k]);
    } else {
      assert Repeated(names, DateColumns[k]);
    }
    MergedLabels(csv, dfs);
    assert DateColumns[k] in DateColumns;
    LoadFailsExactly(listing);
    LoadErrorKinds(listing);
  }

  /** A file carrying both "Iniciado em" and "Iniciado_em" cannot be loaded. */
  lemma DuplicateStartExample()
    ensures var f := File("a.csv", Table(["Iniciado em", "Assumido em", "Atualizado em", "Finalizado em", "Iniciado_em"], []));
      LoadSpec([f]).Failure? && LoadSpec([f]).error.DuplicateColumn?
  {
    var f := File("a.csv", Table(["Iniciado em", "Assumido em", "Atualizado em", "Finalizado em", "Iniciado_em"], []));
    assert EndsWith("a.csv", ".csv") by { assert "a.csv"[1..] == ".csv"; }
    assert WithSuffix([f], ".csv") == [f] by { assert [f][..0] == []; }
    PlainStartLabel();
    LoadRejectsRenamedClash([f], f, "Iniciado_em", 0);
  }

  /** After a successful read every `.csv` file has the four date columns. */
  lemma ReadAllHasDates(csv: seq<File>, dfs: seq<Table>)
    requires ReadAll(csv) == Success(dfs)
    ensures forall f, c :: f in csv && c in RawDateColumns ==> c in f.table.columns
  {
    forall f, c | f in csv && c in RawDateColumns ensures c in f.table.columns {
      var k :| 0 <= k < |csv| && csv[k] == f;
      assert ReadCsv(csv[k]).Success?;
    }
  }

  /** The stacked table has the four date columns: the first file already has them. */
  lemma MergedHasDates(csv: seq<File>, dfs: seq<Table>)
    requires ReadAll(csv) == Success(dfs) && dfs != []
    ensures forall c :: c in RawDateColumns ==> c in Stack(dfs[0], dfs[1..]).columns
  {
    var merged := Stack(dfs[0], dfs[1..]);
    StackLabelsPrefix(dfs[0], dfs[1..]);
    assert ReadCsv(csv[0]) == Success(dfs[0]);
    forall c | c in RawDateColumns ensures c in merged.columns {
      assert c in dfs[0].columns;
      var j :| 0 <= j < |dfs[0].columns| && dfs[0].columns[j] == c;
      assert merged.columns[..|dfs[0].columns|][j] == c;
    }
  }

  /** A failed read loop fails with the error of a file that lacks a date column. */
  lemma {:induction false} ReadAllError(files: seq<File>)
    requires ReadAll(files).Failure?
    ensures ReadAll(files).error.MissingDateColumns?
    decreases |files|
  {
    var init := files[..|files| - 1];
    if ReadAll(init).Failure? {
      ReadAllError(init);
    }
  }

  /** Stacking the tables read from the files: each row is the file's row with its date cells parsed. */
  lemma {:induction false} AllRowsRead(files: seq<File>, dfs: seq<Table>)
    requires |dfs| == |files| && forall k :: 0 <= k < |files| ==> ReadCsv(files[k]) == Success(dfs[k])
    ensures |AllRows(dfs)| == |AllRows(TablesOf(files))|
    ensures forall i :: 0 <= i < |AllRows(dfs)| ==> AllRows(dfs)[i] == StrictCells(AllRows(TablesOf(files))[i], RawDateColumns)
    decreases |files|
  {
    if files != [] {
      var ts := TablesOf(files);
      assert ts[1..] == TablesOf(files[1..]);
      assert ReadCsv(files[0]) == Success(dfs[0]);
      AllRowsRead(files[1..], dfs[1..]);
      assert AllRows(dfs) == dfs[0].rows + AllRows(dfs[1..]);
      assert AllRows(ts) == files[0].table.rows + AllRows(ts[1..]);
    }
  }

  /**
   * `carregar_dados` keeps every row of every `.csv` file, in listing order, including rows
   * whose start time is missing or unparseable (nothing is dropped).
   */
  lemma LoadKeepsEveryRow(listing: seq<File>)
    requires LoadSpec(listing).Success?
    ensures |LoadSpec(listing).value.rows| == TotalRows(TablesOf(WithSuffix(listing, ".csv")))
  {
    var csv := WithSuffix(listing, ".csv");
    var dfs, merged, renamed, t := LoadSteps(listing);
    StackRows(dfs[0], dfs[1..]);
    assert merged.rows == AllRows(dfs);
    AllRowsRead(csv, dfs);
    AllRowsLength(TablesOf(csv));
  }

  /** When "Iniciado_em" labels one column only, that column was the files' "Iniciado em". */
  lemma StartLabelFirst(csv: seq<File>, dfs: seq<Table>) returns (j: nat)
    requires ReadAll(csv) == Success(dfs) && dfs != []
    requires !Repeated(NormalizeAll(Stack(dfs[0], dfs[1..]).columns), "Iniciado_em")
    ensures var merged := Stack(dfs[0], dfs[1..]); var names := NormalizeAll(merged.columns);
      j < |merged.columns| && merged.columns[j] == "Iniciado em" && names[j] == "Iniciado_em" && "Iniciado_em" !in names[..j]
  {
    var merged := Stack(dfs[0], dfs[1..]);
    var names := NormalizeAll(merged.columns);
    MergedHasDates(csv, dfs);
    assert "Iniciado em" in RawDateColumns;
    var p :| 0 <= p < |merged.columns| && merged.columns[p] == "Iniciado em";
    StartedLabel();
    j := p;
    assert names[j] == "Iniciado_em";
    assert forall i :: 0 <= i < j ==> names[i] != names[j];
  }

  /** Before the second coercion, the "Iniciado_em" cell of each row is the parsed "Iniciado em" cell of the files. */
  lemma RenamedStartCells(csv: seq<File>, dfs: seq<Table>)
    requires ReadAll(csv) == Success(dfs) && dfs != []
    requires !Repeated(NormalizeAll(Stack(dfs[0], dfs[1..]).columns), "Iniciado_em")
    ensures var merged := Stack(dfs[0], dfs[1..]);
      var renamed := Relabel(merged, NormalizeAll(merged.columns));
      var source := AllRows(TablesOf(csv));
      |renamed.rows| == |source| &&
      forall i :: 0 <= i < |renamed.rows| ==> Cell(renamed.rows[i], "Iniciado_em") == StrictCoerce(Cell(source[i], "Iniciado em"))
  {
    var merged := Stack(dfs[0], dfs[1..]);
    var names := NormalizeAll(merged.columns);
    var renamed := Relabel(merged, names);
    var source := AllRows(TablesOf(csv));
    StackRows(dfs[0], dfs[1..]);
    assert merged.rows == AllRows(dfs);
    AllRowsRead(csv, dfs);
    var j := StartLabelFirst(csv, dfs);
    assert "Iniciado em" in RawDateColumns;
    forall i | 0 <= i < |renamed.rows|
      ensures Cell(renamed.rows[i], "Iniciado_em") == StrictCoerce(Cell(source[i], "Iniciado em"))
    {
      RelabelRowCell(merged.rows[i], merged.columns, names, j);
      assert Cell(merged.rows[i], "Iniciado em") == StrictCoerce(Cell(source[i], "Iniciado em"));
    }
  }

  /**
   * Row i of the loaded table starts at the strict day-first reading of the "Iniciado em"
   * cell of row i of the stacked files, and its "Dia_Semana" and "Hora" are that
   * Timestamp's weekday name and hour, both missing exactly when the start is missing.
   */
  lemma LoadStartColumns(listing: seq<File>)
    requires LoadSpec(listing).Success?
    ensures var rows := LoadSpec(listing).value.rows;
      var source := AllRows(TablesOf(WithSuffix(listing, ".csv")));
      |rows| == |source| &&
      forall i :: 0 <= i < |rows| ==>
        var start := StrictCoerce(Cell(source[i], "Iniciado em"));
        Cell(rows[i], "Iniciado_em") == start &&
        Cell(rows[i], "Dia_Semana") == DayNameCell(start) &&
        Cell(rows[i], "Hora") == HourCell(start)
  {
    var csv := WithSuffix(listing, ".csv");
    var source := AllRows(TablesOf(csv));
    var dfs, merged, renamed, t := LoadSteps(listing);
    var rows := LoadSpec(listing).value.rows;
    assert "Iniciado_em" in DateColumns;
    assert !Repeated(renamed.columns, "Iniciado_em");
    RenamedStartCells(csv, dfs);
    forall i | 0 <= i < |rows|
      ensures Cell(rows[i], "Iniciado_em") == StrictCoerce(Cell(source[i], "Iniciado em"))
    {
      StrictCoerceIdempotent(Cell(source[i], "Iniciado em"));
    }
  }
}
