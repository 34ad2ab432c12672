/**
 * The pandas DataFrame as the analyses use it: an ordered list of column labels and a
 * list of rows, each row mapping a label to its cell. A label absent from a row is a
 * missing cell (NaN or NaT), so a row carries no entry for a column it does not fill.
 */
module Tables {
  import opened Wrappers
  import opened Calendar

  /** A pandas Timestamp: a real calendar date and clock time. */
  type Instant = dt: DateTime | ValidDateTime(dt) witness DateTime(1970, 1, 1, 0, 0)

  /** A present cell: text, a whole number, a Timestamp, or a Timedelta in minutes. */
  datatype Value =
    | Text(text: string)
    | Number(n: int)
    | Stamp(at: Instant)
    | Span(minutes: int)

  type Row = map<string, Value>

  datatype Table = Table(columns: seq<string>, rows: seq<Row>)

  /** The exceptions the modelled code can raise. */
  datatype Error =
    | MissingColumn(name: string)               // KeyError from df[name]
    | MissingDateColumns(names: set<string>)    // read_csv: a parse_dates column is absent
    | NoObjectsToConcatenate                    // pd.concat of an empty list
    | InvalidChartType(tipo: string)            // gerar_grafico's ValueError
    | DuplicateColumn(name: string)             // to_datetime of a label held by two columns

  function Cell(r: Row, c: string): Option<Value> { if c in r then Some(r[c]) else None }

  /** Writes one cell; None makes it missing. */
  function SetCell(r: Row, c: string, v: Option<Value>): (s: Row)
    ensures Cell(s, c) == v
    ensures forall d :: d != c ==> Cell(s, d) == Cell(r, d)
  {
    match v
    case None => r - {c}
    case Some(x) => r[c := x]
  }

  predicate Distinct(labels: seq<string>)
  {
    forall i, j :: 0 <= i < j < |labels| ==> labels[i] != labels[j]
  }

  /** c labels two different columns, so `df[c]` is a DataFrame rather than a Series. */
  predicate Repeated(labels: seq<string>, c: string)
  {
    exists i, j :: 0 <= i < j < |labels| && labels[i] == c && labels[j] == c
  }

  /** Every cell a row holds is under one of the table's labels. */
  predicate WellFormed(t: Table)
  {
    forall i, c :: 0 <= i < |t.rows| && c in t.rows[i] ==> c in t.columns
  }

  /** `df[c]`: one cell per row, in row order. */
  function Column(t: Table, c: string): (col: seq<Option<Value>>)
    ensures |col| == |t.rows|
    ensures forall i :: 0 <= i < |t.rows| ==> col[i] == Cell(t.rows[i], c)
  {
    seq(|t.rows|, i requires 0 <= i < |t.rows| => Cell(t.rows[i], c))
  }

  /** `df[c] = cells`: the column is overwritten where it stands, or appended as the last one. */
  function WithColumn(t: Table, c: string, cells: seq<Option<Value>>): (r: Table)
    requires |cells| == |t.rows|
    ensures r.columns == if c in t.columns then t.columns else t.columns + [c]
    ensures |r.rows| == |t.rows|
    ensures forall i, d :: 0 <= i < |t.rows| ==> Cell(r.rows[i], d) == if d == c then cells[i] else Cell(t.rows[i], d)
  {
    Table(if c in t.columns then t.columns else t.columns + [c],
          seq(|t.rows|, i requires 0 <= i < |t.rows| => SetCell(t.rows[i], c, cells[i])))
  }

  lemma WithColumnWellFormed(t: Table, c: string, cells: seq<Option<Value>>)
    requires WellFormed(t) && |cells| == |t.rows|
    ensures WellFormed(WithColumn(t, c, cells))
  {
    var r := WithColumn(t, c, cells);
    forall i, d | 0 <= i < |r.rows| && d in r.rows[i] ensures d in r.columns {
      assert Cell(r.rows[i], d).Some?;
    }
  }

  /**
   * A row read under new labels, label to[i] taking the cell of from[i]. When two new
   * labels coincide, the first of them keeps its cell.
   */
  function RelabelRow(r: Row, from: seq<string>, to: seq<string>): (s: Row)
    requires |from| == |to|
    ensures forall d :: d in s ==> d in to
    decreases |from|
  {
    if from == [] then map[]
    else
      var rest := RelabelRow(r, from[1..], to[1..]);
      var s := SetCell(rest, to[0], Cell(r, from[0]));
      assert forall d :: d in s ==> d in to by {
        forall d | d in s ensures d in to {
          assert Cell(s, d).Some?;
          if d != to[0] { assert d in to[1..]; }
        }
      }
      s
  }

  /** Under the first occurrence of a new label sits the cell the old label at that position held. */
  lemma {:induction false} RelabelRowCell(r: Row, from: seq<string>, to: seq<string>, i: nat)
    requires |from| == |to| && i < |to| && to[i] !in to[..i]
    ensures Cell(RelabelRow(r, from, to), to[i]) == Cell(r, from[i])
    decreases i
  {
    if i > 0 {
      assert to[1..][i - 1] == to[i] && from[1..][i - 1] == from[i];
      assert to[1..][..i - 1] == to[1..i];
      assert to[0] in to[..i];
      RelabelRowCell(r, from[1..], to[1..], i - 1);
    }
  }

  /** `df.columns = names`: the cells stay in place and take the new labels by position. */
  function Relabel(t: Table, names: seq<string>): (r: Table)
    requires |names| == |t.columns|
    ensures r.columns == names && |r.rows| == |t.rows|
    ensures forall i :: 0 <= i < |t.rows| ==> r.rows[i] == RelabelRow(t.rows[i], t.columns, names)
  {
    Table(names, seq(|t.rows|, i requires 0 <= i < |t.rows| => RelabelRow(t.rows[i], t.columns, names)))
  }

  /** The labels of `pd.concat([a, b])`: a's labels, then those of b's that a lacks, in b's order. */
  function UnionColumns(a: seq<string>, b: seq<string>): (u: seq<string>)
    ensures |a| <= |u| && u[..|a|] == a
    ensures forall c :: c in u <==> c in a || c in b
    ensures Distinct(a) ==> Distinct(u)
    decreases |b|
  {
    if b == [] then a
    else
      var a' := if b[0] in a then a else a + [b[0]];
      var u := UnionColumns(a', b[1..]);
      assert u[..|a|] == u[..|a'|][..|a|];
      assert forall c :: c in b <==> c == b[0] || c in b[1..];
      u
  }

  /** `pd.concat([a, b], ignore_index=True)`: b's rows follow a's, every cell kept as it was. */
  function Append(a: Table, b: Table): Table
  {
    Table(UnionColumns(a.columns, b.columns), a.rows + b.rows)
  }

  /** Left fold of Append: `pd.concat(tables)` started from acc. */
  function Stack(acc: Table, ts: seq<Table>): Table
    decreases |ts|
  {
    if ts == [] then acc else Stack(Append(acc, ts[0]), ts[1..])
  }

  /** The labels of each table, in list order. */
  function LabelsOf(ts: seq<Table>): (ls: seq<seq<string>>)
    ensures |ls| == |ts| && forall k :: 0 <= k < |ts| ==> ls[k] == ts[k].columns
  {
    seq(|ts|, k requires 0 <= k < |ts| => ts[k].columns)
  }

  /** The labels `pd.concat` gives, computed from the label lists alone. */
  function UnionAll(acc: seq<string>, ls: seq<seq<string>>): seq<string>
    decreases |ls|
  {
    if ls == [] then acc else UnionAll(UnionColumns(acc, ls[0]), ls[1..])
  }

  /** The stacked labels depend on the tables' labels only, not on their rows. */
  lemma {:induction false} StackColumns(acc: Table, ts: seq<Table>)
    ensures Stack(acc, ts).columns == UnionAll(acc.columns, LabelsOf(ts))
    decreases |ts|
  {
    if ts != [] {
      assert LabelsOf(ts)[1..] == LabelsOf(ts[1..]);
      StackColumns(Append(acc, ts[0]), ts[1..]);
    }
  }

  /** The rows of several tables one after the other. */
  function AllRows(ts: seq<Table>): seq<Row>
    decreases |ts|
  {
    if ts == [] then [] else ts[0].rows + AllRows(ts[1..])
  }

  function TotalRows(ts: seq<Table>): nat
    decreases |ts|
  {
    if ts == [] then 0 else |ts[0].rows| + TotalRows(ts[1..])
  }

  lemma {:induction false} AllRowsLength(ts: seq<Table>)
    ensures |AllRows(ts)| == TotalRows(ts)
    decreases |ts|
  {
    if ts != [] { AllRowsLength(ts[1..]); }
  }

  lemma {:induction false} AllRowsAppend(ts: seq<Table>, t: Table)
    ensures AllRows(ts + [t]) == AllRows(ts) + t.rows
    decreases |ts|
  {
    if ts == [] {
      assert AllRows([t]) == t.rows + AllRows([]);
    } else {
      assert (ts + [t])[1..] == ts[1..] + [t];
      AllRowsAppend(ts[1..], t);
    }
  }

  /** The rows of two lists of tables, one after the other. */
  lemma {:induction false} AllRowsConcat(a: seq<Table>, b: seq<Table>)
    ensures AllRows(a + b) == AllRows(a) + AllRows(b)
    decreases |a|
  {
    if a != [] {
      assert (a + b)[1..] == a[1..] + b;
      AllRowsConcat(a[1..], b);
    } else {
      assert a + b == b;
    }
  }

  lemma {:induction false} TotalRowsAppend(ts: seq<Table>, t: Table)
    ensures TotalRows(ts + [t]) == TotalRows(ts) + |t.rows|
    decreases |ts|
  {
    if ts == [] {
      assert TotalRows([t]) == |t.rows| + TotalRows([]);
    } else {
      assert (ts + [t])[1..] == ts[1..] + [t];
      TotalRowsAppend(ts[1..], t);
    }
  }

  /**
   * Stacking keeps every row unchanged and in order: the accumulated rows first, then
   * each table's rows as one block, tables in list order. Labels grow by first appearance.
   */
  lemma StackRows(acc: Table, ts: seq<Table>)
    ensures Stack(acc, ts).rows == acc.rows + AllRows(ts)
    ensures forall c :: c in Stack(acc, ts).columns <==> c in acc.columns || exists k :: 0 <= k < |ts| && c in ts[k].columns
    ensures |acc.columns| <= |Stack(acc, ts).columns| && Stack(acc, ts).columns[..|acc.columns|] == acc.columns
  {
    StackRowsOnly(acc, ts);
    forall c ensures c in Stack(acc, ts).columns <==> c in acc.columns || exists k :: 0 <= k < |ts| && c in ts[k].columns {
      StackLabel(acc, ts, c);
    }
    StackLabelsPrefix(acc, ts);
  }

  lemma {:induction false} StackRowsOnly(acc: Table, ts: seq<Table>)
    ensures Stack(acc, ts).rows == acc.rows + AllRows(ts)
    decreases |ts|
  {
    if ts != [] {
      var next := Append(acc, ts[0]);
      StackRowsOnly(next, ts[1..]);
      assert acc.rows + (ts[0].rows + AllRows(ts[1..])) == next.rows + AllRows(ts[1..]);
    }
  }

  lemma {:induction false} StackLabel(acc: Table, ts: seq<Table>, c: string)
    ensures c in Stack(acc, ts).columns <==> c in acc.columns || exists k :: 0 <= k < |ts| && c in ts[k].columns
    decreases |ts|
  {
    if ts != [] {
      var next := Append(acc, ts[0]);
      StackLabel(next, ts[1..], c);
      assert c in next.columns <==> c in acc.columns || c in ts[0].columns;
      if exists k :: 0 <= k < |ts| && c in ts[k].columns {
        var k :| 0 <= k < |ts| && c in ts[k].columns;
        if k > 0 { assert c in ts[1..][k - 1].columns; }
      }
      if exists k :: 0 <= k < |ts[1..]| && c in ts[1..][k].columns {
        var k :| 0 <= k < |ts[1..]| && c in ts[1..][k].columns;
        assert c in ts[k + 1].columns;
      }
    }
  }

  lemma {:induction false} StackLabelsPrefix(acc: Table, ts: seq<Table>)
    ensures |acc.columns| <= |Stack(acc, ts).columns| && Stack(acc, ts).columns[..|acc.columns|] == acc.columns
    decreases |ts|
  {
    if ts != [] {
      var next := Append(acc, ts[0]);
      StackLabelsPrefix(next, ts[1..]);
      var u := Stack(acc, ts).columns;
      assert u[..|acc.columns|] == u[..|next.columns|][..|acc.columns|];
    }
  }

  /** Stacking one more table is one more Append at the end: the fold in loop form. */
  lemma {:induction false} StackSnoc(acc: Table, ts: seq<Table>, t: Table)
    ensures Stack(acc, ts + [t]) == Append(Stack(acc, ts), t)
    decreases |ts|
  {
    if ts == [] {
      assert ts + [t] == [t];
      assert [t][1..] == [];
    } else {
      assert (ts + [t])[0] == ts[0];
      assert (ts + [t])[1..] == ts[1..] + [t];
      StackSnoc(Append(acc, ts[0]), ts[1..], t);
    }
  }

  /**
   * The rows of table k form one contiguous block of the stacked rows, starting right
   * after the rows of the tables before it.
   */
  lemma {:induction false} AllRowsBlock(ts: seq<Table>, k: nat)
    requires k < |ts|
    ensures TotalRows(ts[..k]) + |ts[k].rows| <= |AllRows(ts)|
    ensures AllRows(ts)[TotalRows(ts[..k])..TotalRows(ts[..k]) + |ts[k].rows|] == ts[k].rows
    decreases k
  {
    AllRowsLength(ts);
    AllRowsLength(ts[1..]);
    if k == 0 {
      assert ts[..0] == [];
    } else {
      AllRowsBlock(ts[1..], k - 1);
      assert ts[1..][..k - 1] == ts[..k][1..];
      assert TotalRows(ts[..k]) == |ts[0].rows| + TotalRows(ts[1..][..k - 1]);
      var off := TotalRows(ts[1..][..k - 1]);
      assert AllRows(ts) == ts[0].rows + AllRows(ts[1..]);
      SliceOfSuffix(ts[0].rows, AllRows(ts[1..]), off, off + |ts[k].rows|);
    }
  }

  /** A slice past the end of a is a slice of b. */
  lemma SliceOfSuffix(a: seq<Row>, b: seq<Row>, lo: nat, hi: nat)
    requires lo <= hi <= |b|
    ensures (a + b)[|a| + lo..|a| + hi] == b[lo..hi]
  {
  }

  /** Stacking well-formed tables gives a well-formed table: a label absent from a table is missing in its rows. */
  lemma {:induction false} StackWellFormed(acc: Table, ts: seq<Table>)
    requires WellFormed(acc) && forall k :: 0 <= k < |ts| ==> WellFormed(ts[k])
    ensures WellFormed(Stack(acc, ts))
    decreases |ts|
  {
    if ts != [] {
      var next := Append(acc, ts[0]);
      assert WellFormed(ts[0]);
      forall i, c | 0 <= i < |next.rows| && c in next.rows[i] ensures c in next.columns {
        if i >= |acc.rows| { assert next.rows[i] == ts[0].rows[i - |acc.rows|]; }
      }
      forall k | 0 <= k < |ts[1..]| ensures WellFormed(ts[1..][k]) {
        assert ts[1..][k] == ts[k + 1];
      }
      StackWellFormed(next, ts[1..]);
    }
  }

  /** A DataFrame held by a caller and changed in place by the function it is passed to. */
  class Frame {
    var columns: seq<string>
    var rows: seq<Row>

    function Snapshot(): Table
      reads this
    {
      Table(columns, rows)
    }

    constructor (t: Table)
      ensures Snapshot() == t
    {
      columns := t.columns;
      rows := t.rows;
    }

    /** `df[c] = cells`. */
    method Assign(c: string, cells: seq<Option<Value>>)
      requires |cells| == |rows|
      modifies this
      ensures Snapshot() == WithColumn(old(Snapshot()), c, cells)
    {
      var t := WithColumn(Snapshot(), c, cells);
      columns, rows := t.columns, t.rows;
    }

    /** `df.columns = names`. */
    method SetLabels(names: seq<string>)
      requires |names| == |columns|
      modifies this
      ensures Snapshot() == Relabel(old(Snapshot()), names)
    {
      var t := Relabel(Snapshot(), names);
      columns, rows := t.columns, t.rows;
    }
  }
}
