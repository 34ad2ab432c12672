/**
 * `consolidar_dados_mensais` (app/main.py): every `.xlsx` file of the data directory,
 * in listing order, concatenated onto an initially empty DataFrame with a fresh index.
 */
module Consolidation {
  import opened Text
  import opened Tables
  import opened Listing

  /** The yearly workbook the report step writes into the same directory. */
  const ReportName: string := "dados_anuais.xlsx"

  /** The empty `pd.DataFrame()` the loop starts from. */
  const Empty: Table := Table([], [])

  /** What `consolidar_dados_mensais` returns, as written: every `.xlsx` table stacked. */
  function Consolidate(listing: seq<File>): Table
  {
    Stack(Empty, TablesOf(WithSuffix(listing, ".xlsx")))
  }

  /** The loop of `consolidar_dados_mensais`: one `pd.concat([df_total, df_mes])` per file. */
  method ConsolidateMonthly(listing: seq<File>) returns (total: Table)
    ensures total == Consolidate(listing)
  {
    var files := WithSuffix(listing, ".xlsx");
    total := Empty;
    var i := 0;
    while i < |files|
      invariant 0 <= i <= |files|
      invariant total == Stack(Empty, TablesOf(files[..i]))
    {
      assert TablesOf(files[..i + 1]) == TablesOf(files[..i]) + [files[i].table];
      StackSnoc(Empty, TablesOf(files[..i]), files[i].table);
      total := Append(total, files[i].table);
      i := i + 1;
    }
    assert files[..i] == files;
  }

  /** With no `.xlsx` file the result is the empty DataFrame, not an error. */
  lemma ConsolidateNothing(listing: seq<File>)
    requires forall f :: f in listing ==> !EndsWith(f.name, ".xlsx")
    ensures Consolidate(listing) == Empty
  {
    WithSuffixNone(listing, ".xlsx");
  }

  /**
   * The rows are the rows of the `.xlsx` files, unchanged, one file after the other in
   * listing order (so the count is the sum of the file row counts); the labels are those
   * of the files, each once, in order of first appearance.
   */
  lemma ConsolidateRows(listing: seq<File>)
    ensures var files := WithSuffix(listing, ".xlsx");
      Consolidate(listing).rows == AllRows(TablesOf(files)) &&
      |Consolidate(listing).rows| == TotalRows(TablesOf(files))
    ensures var files := WithSuffix(listing, ".xlsx");
      forall c :: c in Consolidate(listing).columns <==> exists f :: f in files && c in f.table.columns
    ensures Distinct(Consolidate(listing).columns)
  {
    ConsolidatedRows(listing);
    ConsolidateLabels(listing);
    ConsolidateDistinct(Empty, TablesOf(WithSuffix(listing, ".xlsx")));
  }

  /** The labels alone: those of the files. */
  lemma ConsolidateLabels(listing: seq<File>)
    ensures var files := WithSuffix(listing, ".xlsx");
      forall c :: c in Consolidate(listing).columns <==> exists f :: f in files && c in f.table.columns
  {
    var files := WithSuffix(listing, ".xlsx");
    var ts := TablesOf(files);
    forall c ensures c in Consolidate(listing).columns <==> exists f :: f in files && c in f.table.columns {
      StackLabel(Empty, ts, c);
      if exists k :: 0 <= k < |ts| && c in ts[k].columns {
        var k :| 0 <= k < |ts| && c in ts[k].columns;
        assert files[k] in files;
      }
      if exists f :: f in files && c in f.table.columns {
        var f :| f in files && c in f.table.columns;
        var k :| 0 <= k < |files| && files[k] == f;
        assert c in ts[k].columns;
      }
    }
  }

  /** The rows alone: the files' rows one block after the other. */
  lemma ConsolidatedRows(listing: seq<File>)
    ensures var ts := TablesOf(WithSuffix(listing, ".xlsx"));
      Consolidate(listing).rows == AllRows(ts) && |AllRows(ts)| == TotalRows(ts)
  {
    var ts := TablesOf(WithSuffix(listing, ".xlsx"));
    StackRowsOnly(Empty, ts);
    AllRowsLength(ts);
  }

  lemma {:induction false} ConsolidateDistinct(acc: Table, ts: seq<Table>)
    requires Distinct(acc.columns)
    ensures Distinct(Stack(acc, ts).columns)
    decreases |ts|
  {
    if ts != [] {
      ConsolidateDistinct(Append(acc, ts[0]), ts[1..]);
    }
  }

  /**
   * Row j of the k-th `.xlsx` file sits at position (rows of the files before it) + j,
   * unchanged; under a label that file lacks, its rows hold a missing value.
   */
  lemma ConsolidateBlock(listing: seq<File>, k: nat, j: nat, c: string)
    requires var files := WithSuffix(listing, ".xlsx"); k < |files| && j < |files[k].table.rows|
    ensures var files := WithSuffix(listing, ".xlsx"); var ts := TablesOf(files);
      var at := TotalRows(ts[..k]) + j;
      at < |Consolidate(listing).rows| && Consolidate(listing).rows[at] == files[k].table.rows[j] &&
      (WellFormed(files[k].table) && c !in files[k].table.columns ==> Cell(Consolidate(listing).rows[at], c).None?)
  {
    var files := WithSuffix(listing, ".xlsx");
    var ts := TablesOf(files);
    ConsolidatedRows(listing);
    AllRowsBlock(ts, k);
    var off := TotalRows(ts[..k]);
    assert AllRows(ts)[off..off + |ts[k].rows|][j] == ts[k].rows[j];
  }

  // ---- The report file is read back on the next run ----

  /**
   * The directory after the first report run: the yearly workbook, not there before,
   * written next to the monthly files.
   */
  function AfterReport(listing: seq<File>): seq<File>
    requires forall f :: f in listing ==> f.name != ReportName
  {
    listing + [File(ReportName, Consolidate(listing))]
  }

  lemma ReportIsWorkbook()
    ensures EndsWith(ReportName, ".xlsx")
  {
    assert ReportName[|ReportName| - 5..] == ".xlsx";
  }

  /**
   * As written, the `.xlsx` filter also picks up the yearly workbook, so consolidating
   * again after a report run returns every monthly row twice.
   */
  lemma SecondRunDoublesRows(listing: seq<File>)
    requires forall f :: f in listing ==> f.name != ReportName
    ensures Consolidate(AfterReport(listing)).rows == Consolidate(listing).rows + Consolidate(listing).rows
  {
    var report := File(ReportName, Consolidate(listing));
    ReportIsWorkbook();
    WithSuffixAppend(listing, [report], ".xlsx");
    var files := WithSuffix(listing, ".xlsx");
    assert WithSuffix([report], ".xlsx") == [report] by {
      assert [report][..0] == [];
    }
    assert WithSuffix(AfterReport(listing), ".xlsx") == files + [report];
    assert TablesOf(files + [report]) == TablesOf(files) + [report.table];
    ConsolidatedRows(listing);
    ConsolidatedRows(AfterReport(listing));
    AllRowsAppend(TablesOf(files), report.table);
  }

  /**
   * Wherever `os.listdir` places the yearly workbook, the next consolidation holds the
   * rows of the files before it, then every row of the first run, then the rows of the
   * files after it: each ticket twice, as a multiset.
   */
  lemma ReportAnywhereDoublesRows(listing: seq<File>, k: nat)
    requires k <= |listing|
    ensures var once := Consolidate(listing).rows;
      var again := Consolidate(listing[..k] + [File(ReportName, Consolidate(listing))] + listing[k..]).rows;
      again == Consolidate(listing[..k]).rows + once + Consolidate(listing[k..]).rows &&
      multiset(again) == multiset(once) + multiset(once) && |again| == 2 * |once|
  {
    var report := File(ReportName, Consolidate(listing));
    var a, b := listing[..k], listing[k..];
    assert listing == a + b;
    ReportIsWorkbook();
    assert WithSuffix([report], ".xlsx") == [report] by {
      assert [report][..0] == [];
    }
    WithSuffixAppend(a, b, ".xlsx");
    WithSuffixAppend(a, [report], ".xlsx");
    WithSuffixAppend(a + [report], b, ".xlsx");
    var fa, fb := WithSuffix(a, ".xlsx"), WithSuffix(b, ".xlsx");
    assert TablesOf(fa + fb) == TablesOf(fa) + TablesOf(fb);
    assert TablesOf(fa + [report] + fb) == TablesOf(fa) + [report.table] + TablesOf(fb);
    AllRowsConcat(TablesOf(fa), TablesOf(fb));
    AllRowsConcat(TablesOf(fa) + [report.table], TablesOf(fb));
    AllRowsAppend(TablesOf(fa), report.table);
    ConsolidatedRows(listing);
    ConsolidatedRows(a);
    ConsolidatedRows(b);
    ConsolidatedRows(a + [report] + b);
  }

  /** One monthly workbook with one row: the second run returns two rows. */
  lemma SecondRunExample(row: Row)
    ensures var listing := [File("janeiro.xlsx", Table([], [row]))];
      |Consolidate(listing).rows| == 1 && |Consolidate(AfterReport(listing)).rows| == 2
  {
    var listing := [File("janeiro.xlsx", Table([], [row]))];
    assert "janeiro.xlsx" != ReportName by { assert |"janeiro.xlsx"| != |ReportName|; }
    assert EndsWith("janeiro.xlsx", ".xlsx") by {
      assert "janeiro.xlsx"[7..] == ".xlsx";
    }
    assert WithSuffix(listing, ".xlsx") == listing by {
      assert listing[..0] == [];
    }
    ConsolidatedRows(listing);
    assert AllRows(TablesOf(listing)) == [row];
    SecondRunDoublesRows(listing);
  }

  /** The monthly workbooks only: `.xlsx` files other than the yearly one. */
  function MonthlyFiles(listing: seq<File>): (r: seq<File>)
    ensures |r| <= |listing|
    decreases |listing|
  {
    if listing == [] then []
    else
      var init := listing[..|listing| - 1];
      var last := listing[|listing| - 1];
      assert listing == init + [last];
      MonthlyFiles(init) + (if EndsWith(last.name, ".xlsx") && last.name != ReportName then [last] else [])
  }

  lemma {:induction false} MonthlyFilesAppend(a: seq<File>, b: seq<File>)
    ensures MonthlyFiles(a + b) == MonthlyFiles(a) + MonthlyFiles(b)
    decreases |b|
  {
    if b == [] {
      assert a + b == a;
    } else {
      var init := b[..|b| - 1];
      assert a + b == (a + init) + [b[|b| - 1]];
      assert (a + b)[..|a + b| - 1] == a + init;
      MonthlyFilesAppend(a, init);
    }
  }

  /** The monthly workbooks are exactly the `.xlsx` files not named like the yearly workbook. */
  lemma {:induction false} MonthlyFilesMembers(listing: seq<File>)
    ensures forall f :: f in MonthlyFiles(listing) <==> f in listing && EndsWith(f.name, ".xlsx") && f.name != ReportName
    decreases |listing|
  {
    if listing != [] {
      var init := listing[..|listing| - 1];
      assert listing == init + [listing[|listing| - 1]];
      MonthlyFilesMembers(init);
    }
  }

  /** Consolidation of the monthly workbooks only, leaving the yearly workbook out. */
  function ConsolidateMonths(listing: seq<File>): Table
  {
    Stack(Empty, TablesOf(MonthlyFiles(listing)))
  }

  /**
   * Leaving the yearly workbook out makes consolidation independent of earlier report
   * runs: wherever the workbook appears in the listing, and whatever it holds, the
   * result is the one without it.
   */
  lemma ConsolidateMonthsIgnoresReport(a: seq<File>, b: seq<File>, yearly: Table)
    ensures ConsolidateMonths(a + [File(ReportName, yearly)] + b) == ConsolidateMonths(a + b)
  {
    var report := File(ReportName, yearly);
    MonthlyFilesAppend(a + [report], b);
    MonthlyFilesAppend(a, [report]);
    MonthlyFilesAppend(a, b);
    assert MonthlyFiles([report]) == [] by {
      assert [report][..0] == [];
    }
    assert MonthlyFiles(a + [report] + b) == MonthlyFiles(a) + MonthlyFiles(b);
  }

  /** Consequently a second run after a report run returns the same table as the first. */
  lemma ConsolidateMonthsSecondRun(listing: seq<File>)
    ensures ConsolidateMonths(listing + [File(ReportName, ConsolidateMonths(listing))]) == ConsolidateMonths(listing)
  {
    ConsolidateMonthsIgnoresReport(listing, [], ConsolidateMonths(listing));
    assert listing + [File(ReportName, ConsolidateMonths(listing))] + [] == listing + [File(ReportName, ConsolidateMonths(listing))];
    assert listing + [] == listing;
  }
}
