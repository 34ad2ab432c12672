/**
 * The counting chains the analyses print and plot: `value_counts()`, `head(n)`,
 * `sort_index()`, `reindex(labels, fill_value=0)` and `isna().sum()` / `notna().sum()`.
 */
module Counts {
  import opened Wrappers
  import opened Order
  import opened Tables

  /** One line of a counts Series: a label and how often it occurs. */
  datatype Entry = Entry(key: Value, count: nat)

  /** How many cells of col hold v. */
  function Occurrences(col: seq<Option<Value>>, v: Value): nat
    decreases |col|
  {
    if col == [] then 0
    else Occurrences(col[..|col| - 1], v) + (if col[|col| - 1] == Some(v) then 1 else 0)
  }

  /** `col.notna().sum()`. */
  function PresentCount(col: seq<Option<Value>>): nat
    decreases |col|
  {
    if col == [] then 0
    else PresentCount(col[..|col| - 1]) + (if col[|col| - 1].Some? then 1 else 0)
  }

  /** `col.isna().sum()`. */
  function MissingCount(col: seq<Option<Value>>): nat
    decreases |col|
  {
    if col == [] then 0
    else MissingCount(col[..|col| - 1]) + (if col[|col| - 1].None? then 1 else 0)
  }

  /** Every cell is either present or missing. */
  lemma {:induction false} PresentPlusMissing(col: seq<Option<Value>>)
    ensures PresentCount(col) + MissingCount(col) == |col|
    decreases |col|
  {
    if col != [] { PresentPlusMissing(col[..|col| - 1]); }
  }

  /** Two columns that are missing at the same rows have the same number of present cells. */
  lemma {:induction false} PresentCountAligned(a: seq<Option<Value>>, b: seq<Option<Value>>)
    requires |a| == |b| && forall i :: 0 <= i < |a| ==> (a[i].Some? <==> b[i].Some?)
    ensures PresentCount(a) == PresentCount(b)
    decreases |a|
  {
    if a != [] {
      PresentCountAligned(a[..|a| - 1], b[..|b| - 1]);
    }
  }

  lemma {:induction false} OccurrencesAbsent(col: seq<Option<Value>>, v: Value)
    requires Some(v) !in col
    ensures Occurrences(col, v) == 0
    decreases |col|
  {
    if col != [] {
      assert forall x :: x in col[..|col| - 1] ==> x in col;
      OccurrencesAbsent(col[..|col| - 1], v);
    }
  }

  function KeysOf(s: seq<Entry>): (ks: seq<Value>)
    ensures |ks| == |s| && forall i :: 0 <= i < |s| ==> ks[i] == s[i].key
  {
    seq(|s|, i requires 0 <= i < |s| => s[i].key)
  }

  lemma KeysOfCons(x: Entry, s: seq<Entry>)
    ensures KeysOf([x] + s) == [x.key] + KeysOf(s)
  {
  }

  predicate DistinctKeys(s: seq<Entry>)
  {
    forall i, j :: 0 <= i < j < |s| ==> s[i].key != s[j].key
  }

  /** Counts never increase from one line to the next. */
  predicate Descending(s: seq<Entry>)
  {
    forall i, j :: 0 <= i < j < |s| ==> s[i].count >= s[j].count
  }

  /** The sum of the counts. */
  function Total(s: seq<Entry>): nat
    decreases |s|
  {
    if s == [] then 0 else s[0].count + Total(s[1..])
  }

  /** The count listed for k, or 0 when k is not listed (first match). */
  function CountOf(s: seq<Entry>, k: Value): nat
    decreases |s|
  {
    if s == [] then 0 else if s[0].key == k then s[0].count else CountOf(s[1..], k)
  }

  lemma {:induction false} CountOfAt(s: seq<Entry>, i: nat)
    requires i < |s| && DistinctKeys(s)
    ensures CountOf(s, s[i].key) == s[i].count
    decreases i
  {
    if i > 0 {
      assert s[0].key != s[i].key;
      assert s[1..][i - 1] == s[i];
      CountOfAt(s[1..], i - 1);
    }
  }

  lemma {:induction false} CountOfUnlisted(s: seq<Entry>, k: Value)
    requires k !in KeysOf(s)
    ensures CountOf(s, k) == 0
    decreases |s|
  {
    if s != [] {
      assert KeysOf(s)[0] == s[0].key;
      assert k !in KeysOf(s[1..]) by {
        forall i | 0 <= i < |s| - 1 ensures KeysOf(s[1..])[i] != k { assert KeysOf(s)[i + 1] == s[i + 1].key; }
      }
      CountOfUnlisted(s[1..], k);
    }
  }

  lemma {:induction false} TotalAppend(a: seq<Entry>, b: seq<Entry>)
    ensures Total(a + b) == Total(a) + Total(b)
    decreases |a|
  {
    if a == [] {
      assert a + b == b;
    } else {
      assert (a + b)[1..] == a[1..] + b;
      TotalAppend(a[1..], b);
    }
  }

  /** One more occurrence of v counted into a tally: its line goes up by one, or a new line is added last. */
  function Bump(s: seq<Entry>, v: Value): (r: seq<Entry>)
    ensures |r| == |s| || |r| == |s| + 1
    decreases |s|
  {
    if s == [] then [Entry(v, 1)]
    else if s[0].key == v then [Entry(v, s[0].count + 1)] + s[1..]
    else [s[0]] + Bump(s[1..], v)
  }

  lemma {:induction false} BumpCount(s: seq<Entry>, v: Value, k: Value)
    ensures CountOf(Bump(s, v), k) == CountOf(s, k) + (if k == v then 1 else 0)
    decreases |s|
  {
    if s != [] && s[0].key != v {
      BumpCount(s[1..], v, k);
    }
  }

  lemma {:induction false} BumpTotal(s: seq<Entry>, v: Value)
    ensures Total(Bump(s, v)) == Total(s) + 1
    decreases |s|
  {
    if s != [] && s[0].key != v {
      BumpTotal(s[1..], v);
    }
  }

  lemma {:induction false} BumpKeys(s: seq<Entry>, v: Value)
    ensures forall k :: k in KeysOf(Bump(s, v)) <==> k == v || k in KeysOf(s)
    decreases |s|
  {
    if s == [] {
      assert KeysOf([Entry(v, 1)]) == [v];
    } else {
      assert s == [s[0]] + s[1..];
      KeysOfConsHas(s[0], s[1..]);
      if s[0].key == v {
        assert Bump(s, v) == [Entry(v, s[0].count + 1)] + s[1..];
        KeysOfConsHas(Entry(v, s[0].count + 1), s[1..]);
      } else {
        assert Bump(s, v) == [s[0]] + Bump(s[1..], v);
        BumpKeys(s[1..], v);
        KeysOfConsHas(s[0], Bump(s[1..], v));
      }
    }
  }

  lemma KeysOfConsHas(x: Entry, s: seq<Entry>)
    ensures forall k :: k in KeysOf([x] + s) <==> k == x.key || k in KeysOf(s)
  {
    KeysOfCons(x, s);
  }

  lemma {:induction false} BumpMembers(s: seq<Entry>, v: Value)
    ensures forall y :: y in Bump(s, v) ==> y.key == v || y in s
    decreases |s|
  {
    if s != [] && s[0].key != v {
      BumpMembers(s[1..], v);
      assert forall y :: y in s[1..] ==> y in s;
    }
  }

  lemma {:induction false} BumpDistinct(s: seq<Entry>, v: Value)
    requires DistinctKeys(s)
    ensures DistinctKeys(Bump(s, v))
    decreases |s|
  {
    if s != [] {
      TailDistinct(s);
      if s[0].key == v {
        ConsDistinct(Entry(v, s[0].count + 1), s[1..]);
      } else {
        BumpDistinct(s[1..], v);
        BumpMembers(s[1..], v);
        ConsDistinct(s[0], Bump(s[1..], v));
      }
    }
  }

  lemma {:induction false} BumpPositive(s: seq<Entry>, v: Value)
    requires forall i :: 0 <= i < |s| ==> s[i].count >= 1
    ensures forall i :: 0 <= i < |Bump(s, v)| ==> Bump(s, v)[i].count >= 1
    decreases |s|
  {
    if s != [] && s[0].key != v {
      BumpPositive(s[1..], v);
    }
  }

  /**
   * The first pass of `value_counts()`: one line per distinct present value, in order
   * of first appearance, holding how often the value occurs. Missing cells are skipped.
   */
  function Tally(col: seq<Option<Value>>): (r: seq<Entry>)
    ensures DistinctKeys(r)
    ensures forall k :: CountOf(r, k) == Occurrences(col, k)
    ensures forall k :: k in KeysOf(r) <==> Some(k) in col
    ensures forall i :: 0 <= i < |r| ==> r[i].count >= 1
    ensures Total(r) == PresentCount(col)
    decreases |col|
  {
    if col == [] then []
    else
      var init := col[..|col| - 1];
      var s := Tally(init);
      assert forall x :: x in col <==> x in init || x == col[|col| - 1] by {
        assert col == init + [col[|col| - 1]];
      }
      match col[|col| - 1]
      case None => s
      case Some(v) =>
        BumpKeys(s, v);
        BumpTotal(s, v);
        BumpDistinct(s, v);
        BumpPositive(s, v);
        assert forall k :: CountOf(Bump(s, v), k) == Occurrences(col, k) by {
          forall k ensures CountOf(Bump(s, v), k) == Occurrences(col, k) { BumpCount(s, v, k); }
        }
        Bump(s, v)
  }

  /** Inserts e before the first line with a smaller-or-equal count. */
  function InsertByCount(e: Entry, s: seq<Entry>): (r: seq<Entry>)
    ensures multiset(r) == multiset(s) + multiset{e}
    ensures Descending(s) ==> Descending(r)
    decreases |s|
  {
    if s == [] || e.count >= s[0].count then [e] + s
    else
      var rest := InsertByCount(e, s[1..]);
      InsertedBehind(s, e, rest);
      assert Descending(s) ==> Descending([s[0]] + rest) by {
        if Descending(s) {
          DescendingTail(s);
          InsertedMembers(rest, s[1..], e);
          DescendingCons(s[0], rest);
        }
      }
      [s[0]] + rest
  }

  /** Putting back the first entry in front of a rearrangement of the others plus e. */
  lemma InsertedBehind(s: seq<Entry>, e: Entry, rest: seq<Entry>)
    requires s != [] && multiset(rest) == multiset(s[1..]) + multiset{e}
    ensures multiset([s[0]] + rest) == multiset(s) + multiset{e}
  {
    assert s == [s[0]] + s[1..];
  }

  lemma DescendingTail(s: seq<Entry>)
    requires Descending(s) && s != []
    ensures Descending(s[1..]) && forall y :: y in s[1..] ==> y.count <= s[0].count
  {
    forall i, j | 0 <= i < j < |s| - 1 ensures s[1..][i].count >= s[1..][j].count {
      assert s[i + 1].count >= s[j + 1].count;
    }
  }

  lemma DescendingCons(x: Entry, s: seq<Entry>)
    requires Descending(s) && forall y :: y in s ==> y.count <= x.count
    ensures Descending([x] + s)
  {
    var t := [x] + s;
    forall j | 1 <= j < |t| ensures t[0].count >= t[j].count {
      assert t[j] == s[j - 1] && s[j - 1] in s;
    }
    forall i, j | 1 <= i < j < |t| ensures t[i].count >= t[j].count {
      assert t[i] == s[i - 1] && t[j] == s[j - 1];
    }
  }

  /** Insertion sort by count, largest first; lines with equal counts keep their order. */
  function SortByCount(s: seq<Entry>): (r: seq<Entry>)
    ensures multiset(r) == multiset(s)
    ensures Descending(r)
    decreases |s|
  {
    if s == [] then []
    else
      assert s == [s[0]] + s[1..];
      InsertByCount(s[0], SortByCount(s[1..]))
  }

  lemma ConsDistinct(x: Entry, rest: seq<Entry>)
    requires DistinctKeys(rest) && forall y :: y in rest ==> y.key != x.key
    ensures DistinctKeys([x] + rest)
  {
    assert forall j :: 0 < j <= |rest| ==> ([x] + rest)[j] == rest[j - 1];
  }

  lemma TailDistinct(s: seq<Entry>)
    requires s != [] && DistinctKeys(s)
    ensures DistinctKeys(s[1..]) && forall y :: y in s[1..] ==> y.key != s[0].key
  {
    forall i, j | 0 <= i < j < |s| - 1 ensures s[1..][i].key != s[1..][j].key {
      assert s[i + 1].key != s[j + 1].key;
    }
  }

  /** An element of a rearrangement with one more element is that element or one of the originals. */
  lemma InsertedMembers(r: seq<Entry>, s: seq<Entry>, e: Entry)
    requires multiset(r) == multiset(s) + multiset{e}
    ensures forall y :: y in r ==> y == e || y in s
  {
    forall y | y in r ensures y == e || y in s {
      assert y in multiset(r);
    }
  }

  lemma {:induction false} InsertByCountDistinct(e: Entry, s: seq<Entry>)
    requires DistinctKeys(s) && forall y :: y in s ==> y.key != e.key
    ensures DistinctKeys(InsertByCount(e, s))
    decreases |s|
  {
    if s == [] || e.count >= s[0].count {
      ConsDistinct(e, s);
    } else {
      TailDistinct(s);
      InsertByCountDistinct(e, s[1..]);
      InsertedMembers(InsertByCount(e, s[1..]), s[1..], e);
      ConsDistinct(s[0], InsertByCount(e, s[1..]));
    }
  }

  /** Sorting by count keeps distinct labels distinct. */
  lemma {:induction false} SortByCountDistinct(s: seq<Entry>)
    requires DistinctKeys(s)
    ensures DistinctKeys(SortByCount(s))
    decreases |s|
  {
    if s != [] {
      TailDistinct(s);
      SortByCountDistinct(s[1..]);
      var r := SortByCount(s[1..]);
      forall y | y in r ensures y in s[1..] { assert y in multiset(r); }
      InsertByCountDistinct(s[0], r);
    }
  }

  lemma PermutationKeys(r: seq<Entry>, s: seq<Entry>)
    requires multiset(r) == multiset(s)
    ensures forall k :: k in KeysOf(r) <==> k in KeysOf(s)
    ensures forall i :: 0 <= i < |r| ==> r[i] in s
  {
    forall i | 0 <= i < |r| ensures r[i] in s { assert r[i] in multiset(s); }
    forall k | k in KeysOf(r) ensures k in KeysOf(s) {
      var i :| 0 <= i < |r| && KeysOf(r)[i] == k;
      assert r[i] in multiset(s);
      var j :| 0 <= j < |s| && s[j] == r[i];
      assert KeysOf(s)[j] == k;
    }
    forall k | k in KeysOf(s) ensures k in KeysOf(r) {
      var j :| 0 <= j < |s| && KeysOf(s)[j] == k;
      assert s[j] in multiset(r);
      var i :| 0 <= i < |r| && r[i] == s[j];
      assert KeysOf(r)[i] == k;
    }
  }

  lemma {:induction false} InsertByCountTotal(e: Entry, s: seq<Entry>)
    ensures Total(InsertByCount(e, s)) == e.count + Total(s)
    decreases |s|
  {
    if s != [] && e.count < s[0].count {
      InsertByCountTotal(e, s[1..]);
    }
  }

  /** Sorting by count changes no count: the total stays. */
  lemma {:induction false} SortByCountTotal(s: seq<Entry>)
    ensures Total(SortByCount(s)) == Total(s)
    decreases |s|
  {
    if s != [] {
      SortByCountTotal(s[1..]);
      InsertByCountTotal(s[0], SortByCount(s[1..]));
    }
  }

  /**
   * `col.value_counts()`: every distinct present value once, with its number of
   * occurrences, largest count first. Missing cells are not counted.
   */
  function ValueCounts(col: seq<Option<Value>>): (r: seq<Entry>)
    ensures DistinctKeys(r)
    ensures forall k :: k in KeysOf(r) <==> Some(k) in col
    ensures forall i :: 0 <= i < |r| ==> r[i].count == Occurrences(col, r[i].key) && r[i].count >= 1
    ensures Descending(r)
    ensures Total(r) == PresentCount(col)
  {
    SortByCountDistinct(Tally(col));
    PermutationKeys(SortByCount(Tally(col)), Tally(col));
    SortByCountTotal(Tally(col));
    SortedTallyCounts(col);
    SortByCount(Tally(col))
  }

  lemma SortedTallyCounts(col: seq<Option<Value>>)
    ensures forall i :: 0 <= i < |SortByCount(Tally(col))| ==>
      SortByCount(Tally(col))[i].count == Occurrences(col, SortByCount(Tally(col))[i].key) && SortByCount(Tally(col))[i].count >= 1
  {
    var t := Tally(col);
    var r := SortByCount(t);
    forall i | 0 <= i < |r| ensures r[i].count == Occurrences(col, r[i].key) && r[i].count >= 1 {
      assert r[i] in multiset(t);
      var j :| 0 <= j < |t| && t[j] == r[i];
      CountOfAt(t, j);
    }
  }

  /** `s.head(n)`: the first n lines; a negative n drops the last -n lines instead. */
  function Head(s: seq<Entry>, n: int): (r: seq<Entry>)
    ensures |r| <= |s| && r == s[..|r|]
    ensures |r| == if n >= 0 then (if n < |s| then n else |s|) else (if |s| + n > 0 then |s| + n else 0)
  {
    if n >= 0 then (if n < |s| then s[..n] else s)
    else (if |s| + n > 0 then s[..|s| + n] else [])
  }

  /** `col.value_counts().head(n)`: the n most frequent present values, with their counts. */
  function Top(col: seq<Option<Value>>, n: int): (r: seq<Entry>)
    ensures |r| <= |ValueCounts(col)| && r == ValueCounts(col)[..|r|]
    ensures n >= 0 ==> |r| <= n
    ensures n >= 0 && n <= |ValueCounts(col)| ==> |r| == n
    ensures n >= |ValueCounts(col)| ==> forall v :: Some(v) in col ==> v in KeysOf(r)
    ensures Descending(r) && DistinctKeys(r)
    ensures forall i :: 0 <= i < |r| ==> Some(r[i].key) in col && r[i].count == Occurrences(col, r[i].key) && r[i].count >= 1
  {
    var all := ValueCounts(col);
    var r := Head(all, n);
    PrefixSame(all, r);
    CountedPresent(col);
    r
  }

  /** A prefix keeps the order, the distinct keys and the entries of the whole. */
  lemma PrefixSame(all: seq<Entry>, r: seq<Entry>)
    requires |r| <= |all| && r == all[..|r|]
    ensures Descending(all) ==> Descending(r)
    ensures DistinctKeys(all) ==> DistinctKeys(r)
    ensures forall i :: 0 <= i < |r| ==> r[i] == all[i]
  {
  }

  /** Every line of `value_counts()` is a value present in the column. */
  lemma CountedPresent(col: seq<Option<Value>>)
    ensures forall i :: 0 <= i < |ValueCounts(col)| ==> Some(ValueCounts(col)[i].key) in col
  {
    var all := ValueCounts(col);
    forall i | 0 <= i < |all| ensures Some(all[i].key) in col {
      assert all[i].key in KeysOf(all);
    }
  }

  /** A present value left out of the top n occurs no more often than any value kept. */
  lemma TopIsTop(col: seq<Option<Value>>, n: int, i: nat, v: Value)
    requires i < |Top(col, n)|
    requires Some(v) in col && v !in KeysOf(Top(col, n))
    ensures Occurrences(col, v) <= Top(col, n)[i].count
  {
    var r := ValueCounts(col);
    var h := Head(r, n);
    var j := KeyIndex(r, v);
    PrefixLeavesOut(r, h, j);
  }


  lemma KeyIndex(s: seq<Entry>, v: Value) returns (j: nat)
    requires v in KeysOf(s)
    ensures j < |s| && s[j].key == v
  {
    var k :| 0 <= k < |s| && KeysOf(s)[k] == v;
    j := k;
  }

  lemma PrefixLeavesOut(r: seq<Entry>, h: seq<Entry>, j: nat)
    requires |h| <= |r| && h == r[..|h|] && j < |r| && r[j].key !in KeysOf(h)
    ensures |h| <= j
  {
  }

  /** The order of `sort_index()`: numbers, then strings by code point, then Timestamps, then Timedeltas. */
  function Encode(v: Value): seq<int>
  {
    match v
    case Number(n) => [0, n]
    case Text(s) => [1] + Codes(s)
    case Stamp(dt) => [2, dt.year, dt.month, dt.day, dt.hour, dt.minute]
    case Span(m) => [3, m]
  }

  predicate ValueLe(a: Value, b: Value) { LexLe(Encode(a), Encode(b)) }

  lemma EncodeInjective(a: Value, b: Value)
    requires Encode(a) == Encode(b)
    ensures a == b
  {
    assert Encode(a)[0] == Encode(b)[0];
    match a
    case Text(s) =>
      assert Codes(s) == Encode(a)[1..] == Encode(b)[1..] == Codes(b.text);
      CodesInjective(s, b.text);
    case Number(n) =>
      assert Encode(a)[1] == Encode(b)[1];
    case Span(m) =>
      assert Encode(a)[1] == Encode(b)[1];
    case Stamp(dt) =>
      assert Encode(b) == [2, b.at.year, b.at.month, b.at.day, b.at.hour, b.at.minute];
      assert dt.year == b.at.year && dt.month == b.at.month && dt.day == b.at.day;
      assert dt.hour == b.at.hour && dt.minute == b.at.minute;
  }

  /** Whole numbers sort by size. */
  lemma NumberOrder(a: int, b: int)
    ensures ValueLe(Number(a), Number(b)) <==> a <= b
  {
    assert Encode(Number(a))[1..] == [a] && Encode(Number(b))[1..] == [b];
    assert LexLe([a], [b]) <==> a <= b by { assert [a][1..] == [] && [b][1..] == []; }
  }

  /** Strings sort as Python compares them. */
  lemma TextOrder(s: string, t: string)
    ensures ValueLe(Text(s), Text(t)) <==> StrLe(s, t)
  {
    assert Encode(Text(s))[1..] == Codes(s) && Encode(Text(t))[1..] == Codes(t);
  }

  predicate Ascending(s: seq<Entry>)
  {
    forall i, j :: 0 <= i < j < |s| ==> ValueLe(s[i].key, s[j].key)
  }

  function InsertByKey(e: Entry, s: seq<Entry>): (r: seq<Entry>)
    ensures multiset(r) == multiset(s) + multiset{e}
    ensures Ascending(s) ==> Ascending(r)
    decreases |s|
  {
    if s == [] || ValueLe(e.key, s[0].key) then
      assert Ascending(s) ==> Ascending([e] + s) by {
        if Ascending(s) && s != [] {
          AscendingTail(s);
          forall y | y in s ensures ValueLe(e.key, y.key) {
            if y != s[0] { LexLeTransitive(Encode(e.key), Encode(s[0].key), Encode(y.key)); }
          }
          AscendingCons(e, s);
        }
      }
      [e] + s
    else
      var rest := InsertByKey(e, s[1..]);
      InsertedBehind(s, e, rest);
      LexLeTotal(Encode(e.key), Encode(s[0].key));
      assert Ascending(s) ==> Ascending([s[0]] + rest) by {
        if Ascending(s) {
          AscendingTail(s);
          InsertedMembers(rest, s[1..], e);
          AscendingCons(s[0], rest);
        }
      }
      [s[0]] + rest
  }

  /** Dropping the first entry keeps the order, and the first entry is no greater than the rest. */
  lemma AscendingTail(s: seq<Entry>)
    requires Ascending(s) && s != []
    ensures Ascending(s[1..]) && forall y :: y in s[1..] ==> ValueLe(s[0].key, y.key)
  {
    forall i, j | 0 <= i < j < |s| - 1 ensures ValueLe(s[1..][i].key, s[1..][j].key) {
      assert ValueLe(s[i + 1].key, s[j + 1].key);
    }
  }

  /** An entry no greater than every entry of an ordered sequence may lead it. */
  lemma AscendingCons(x: Entry, s: seq<Entry>)
    requires Ascending(s) && forall y :: y in s ==> ValueLe(x.key, y.key)
    ensures Ascending([x] + s)
  {
    LeadsSorted(x, s, ValueLe);
  }

  /** The same for any order on the keys, kept abstract so the proof is about positions only. */
  lemma LeadsSorted(x: Entry, s: seq<Entry>, le: (Value, Value) -> bool)
    requires forall i, j :: 0 <= i < j < |s| ==> le(s[i].key, s[j].key)
    requires forall y :: y in s ==> le(x.key, y.key)
    ensures forall i, j :: 0 <= i < j < |[x] + s| ==> le(([x] + s)[i].key, ([x] + s)[j].key)
  {
    var t := [x] + s;
    forall j | 1 <= j < |t| ensures le(t[0].key, t[j].key) {
      assert t[j] == s[j - 1] && s[j - 1] in s;
    }
    forall i, j | 1 <= i < j < |t| ensures le(t[i].key, t[j].key) {
      assert t[i] == s[i - 1] && t[j] == s[j - 1];
    }
  }

  function SortByKey(s: seq<Entry>): (r: seq<Entry>)
    ensures multiset(r) == multiset(s)
    ensures Ascending(r)
    decreases |s|
  {
    if s == [] then []
    else
      assert s == [s[0]] + s[1..];
      InsertByKey(s[0], SortByKey(s[1..]))
  }

  lemma {:induction false} InsertByKeyDistinct(e: Entry, s: seq<Entry>)
    requires DistinctKeys(s) && forall y :: y in s ==> y.key != e.key
    ensures DistinctKeys(InsertByKey(e, s))
    decreases |s|
  {
    if s == [] || ValueLe(e.key, s[0].key) {
      ConsDistinct(e, s);
    } else {
      TailDistinct(s);
      InsertByKeyDistinct(e, s[1..]);
      InsertedMembers(InsertByKey(e, s[1..]), s[1..], e);
      ConsDistinct(s[0], InsertByKey(e, s[1..]));
    }
  }

  lemma {:induction false} SortByKeyDistinct(s: seq<Entry>)
    requires DistinctKeys(s)
    ensures DistinctKeys(SortByKey(s))
    decreases |s|
  {
    if s != [] {
      TailDistinct(s);
      SortByKeyDistinct(s[1..]);
      var r := SortByKey(s[1..]);
      forall y | y in r ensures y in s[1..] { assert y in multiset(r); }
      InsertByKeyDistinct(s[0], r);
    }
  }

  lemma {:induction false} InsertByKeyTotal(e: Entry, s: seq<Entry>)
    ensures Total(InsertByKey(e, s)) == e.count + Total(s)
    decreases |s|
  {
    if s != [] && !ValueLe(e.key, s[0].key) {
      InsertByKeyTotal(e, s[1..]);
    }
  }

  /** Sorting by label changes no count: the total stays. */
  lemma {:induction false} SortByKeyTotal(s: seq<Entry>)
    ensures Total(SortByKey(s)) == Total(s)
    decreases |s|
  {
    if s != [] {
      SortByKeyTotal(s[1..]);
      InsertByKeyTotal(s[0], SortByKey(s[1..]));
    }
  }

  /**
   * `counts.sort_index()`: the same lines, rearranged so that labels strictly increase.
   */
  function SortIndex(s: seq<Entry>): (r: seq<Entry>)
    requires DistinctKeys(s)
    ensures multiset(r) == multiset(s)
    ensures DistinctKeys(r)
    ensures forall i, j :: 0 <= i < j < |r| ==> ValueLe(r[i].key, r[j].key) && r[i].key != r[j].key
  {
    SortByKeyDistinct(s);
    SortByKey(s)
  }

  /**
   * `col.value_counts().sort_index()`: each present value once, with its number of
   * occurrences, labels strictly increasing; the counts add up to the present cells.
   */
  function SortedCounts(col: seq<Option<Value>>): (r: seq<Entry>)
    ensures forall k :: k in KeysOf(r) <==> Some(k) in col
    ensures forall i :: 0 <= i < |r| ==> r[i].count == Occurrences(col, r[i].key) && r[i].count >= 1
    ensures forall i, j :: 0 <= i < j < |r| ==> ValueLe(r[i].key, r[j].key) && r[i].key != r[j].key
    ensures Total(r) == PresentCount(col)
  {
    var counts := ValueCounts(col);
    var r := SortIndex(counts);
    PermutationKeys(r, counts);
    SortByKeyTotal(counts);
    r
  }

  /** Each line of the sorted counts comes from some present cell. */
  lemma SortedKeyCell(col: seq<Option<Value>>, i: nat) returns (j: nat)
    requires i < |SortedCounts(col)|
    ensures j < |col| && col[j] == Some(SortedCounts(col)[i].key)
  {
    var r := SortedCounts(col);
    assert r[i].key in KeysOf(r);
    j :| 0 <= j < |col| && col[j] == Some(r[i].key);
  }

  /** Number labels are sorted by value: strictly increasing. */
  lemma NumbersAscending(col: seq<Option<Value>>)
    requires forall i :: 0 <= i < |col| && col[i].Some? ==> col[i].value.Number?
    ensures var r := SortedCounts(col);
      (forall i :: 0 <= i < |r| ==> r[i].key.Number?) && forall i, j :: 0 <= i < j < |r| ==> r[i].key.n < r[j].key.n
  {
    var r := SortedCounts(col);
    forall i | 0 <= i < |r| ensures r[i].key.Number? {
      var j := SortedKeyCell(col, i);
    }
    forall i, j | 0 <= i < j < |r| ensures r[i].key.n < r[j].key.n {
      NumberOrder(r[i].key.n, r[j].key.n);
    }
  }

  /** Text labels are sorted as strings, character code by character code. */
  lemma TextsAscending(col: seq<Option<Value>>)
    requires forall i :: 0 <= i < |col| && col[i].Some? ==> col[i].value.Text?
    ensures var r := SortedCounts(col);
      (forall i :: 0 <= i < |r| ==> r[i].key.Text?) && forall i, j :: 0 <= i < j < |r| ==> StrLe(r[i].key.text, r[j].key.text)
  {
    var r := SortedCounts(col);
    forall i | 0 <= i < |r| ensures r[i].key.Text? {
      var j := SortedKeyCell(col, i);
    }
    forall i, j | 0 <= i < j < |r| ensures StrLe(r[i].key.text, r[j].key.text) {
      TextOrder(r[i].key.text, r[j].key.text);
    }
  }

  /** `counts.reindex(labels, fill_value=0)`: one line per label, in the labels' order. */
  function Reindex(s: seq<Entry>, labels: seq<Value>): (r: seq<Entry>)
    ensures |r| == |labels|
    ensures forall i :: 0 <= i < |labels| ==> r[i].key == labels[i]
  {
    seq(|labels|, i requires 0 <= i < |labels| => Entry(labels[i], CountOf(s, labels[i])))
  }

  /** Looking a label up in `value_counts()` gives its number of occurrences, 0 for an absent one. */
  lemma CountOfValueCounts(col: seq<Option<Value>>, k: Value)
    ensures CountOf(ValueCounts(col), k) == Occurrences(col, k)
  {
    var r := ValueCounts(col);
    if k in KeysOf(r) {
      var i := KeyIndex(r, k);
      CountOfAt(r, i);
    } else {
      CountOfUnlisted(r, k);
      OccurrencesAbsent(col, k);
    }
  }

  /** The reindexed counts: each label's line holds the label's number of occurrences. */
  lemma ReindexCounts(col: seq<Option<Value>>, labels: seq<Value>, i: nat)
    requires i < |labels|
    ensures Reindex(ValueCounts(col), labels)[i] == Entry(labels[i], Occurrences(col, labels[i]))
  {
    CountOfValueCounts(col, labels[i]);
  }

  /** The occurrences of the labels, summed. */
  function OccurrencesOfAll(labels: seq<Value>, col: seq<Option<Value>>): nat
    decreases |labels|
  {
    if labels == [] then 0 else Occurrences(col, labels[0]) + OccurrencesOfAll(labels[1..], col)
  }

  lemma {:induction false} OccurrencesOfAllStep(labels: seq<Value>, col: seq<Option<Value>>, x: Option<Value>)
    requires forall i, j :: 0 <= i < j < |labels| ==> labels[i] != labels[j]
    ensures OccurrencesOfAll(labels, col + [x])
         == OccurrencesOfAll(labels, col) + (if x.Some? && x.value in labels then 1 else 0)
    decreases |labels|
  {
    assert (col + [x])[..|col|] == col;
    if labels != [] {
      OccurrencesOfAllStep(labels[1..], col, x);
      assert forall v :: v in labels <==> v == labels[0] || v in labels[1..];
      assert x.Some? && x.value == labels[0] ==> x.value !in labels[1..];
    }
  }

  /** When every present cell holds one of the distinct labels, the labels' occurrences add up to the present cells. */
  lemma {:induction false} OccurrencesOfAllCover(labels: seq<Value>, col: seq<Option<Value>>)
    requires forall i, j :: 0 <= i < j < |labels| ==> labels[i] != labels[j]
    requires forall i :: 0 <= i < |col| && col[i].Some? ==> col[i].value in labels
    ensures OccurrencesOfAll(labels, col) == PresentCount(col)
    decreases |col|
  {
    if col == [] {
      assert OccurrencesOfAll(labels, []) == 0 by { OccurrencesOfAllEmpty(labels); }
    } else {
      var init := col[..|col| - 1];
      OccurrencesOfAllCover(labels, init);
      OccurrencesOfAllStep(labels, init, col[|col| - 1]);
      assert init + [col[|col| - 1]] == col;
    }
  }

  lemma {:induction false} OccurrencesOfAllEmpty(labels: seq<Value>)
    ensures OccurrencesOfAll(labels, []) == 0
    decreases |labels|
  {
    if labels != [] { OccurrencesOfAllEmpty(labels[1..]); }
  }

  lemma {:induction false} ReindexTotal(col: seq<Option<Value>>, labels: seq<Value>)
    ensures Total(Reindex(ValueCounts(col), labels)) == OccurrencesOfAll(labels, col)
    decreases |labels|
  {
    if labels != [] {
      var r := Reindex(ValueCounts(col), labels);
      ReindexCounts(col, labels, 0);
      ReindexTotal(col, labels[1..]);
      assert r[1..] == Reindex(ValueCounts(col), labels[1..]);
    }
  }

  /**
   * `value_counts().reindex(labels, fill_value=0)` over a column whose present values
   * are all among the distinct labels: one line per label, in the labels' order, and
   * the counts add up to the number of present cells.
   */
  lemma ReindexCoversColumn(col: seq<Option<Value>>, labels: seq<Value>)
    requires forall i, j :: 0 <= i < j < |labels| ==> labels[i] != labels[j]
    requires forall i :: 0 <= i < |col| && col[i].Some? ==> col[i].value in labels
    ensures |Reindex(ValueCounts(col), labels)| == |labels|
    ensures forall i :: 0 <= i < |labels| ==> Reindex(ValueCounts(col), labels)[i] == Entry(labels[i], Occurrences(col, labels[i]))
    ensures Total(Reindex(ValueCounts(col), labels)) == PresentCount(col)
  {
    forall i | 0 <= i < |labels| ensures Reindex(ValueCounts(col), labels)[i] == Entry(labels[i], Occurrences(col, labels[i])) {
      ReindexCounts(col, labels, i);
    }
    ReindexTotal(col, labels);
    OccurrencesOfAllCover(labels, col);
  }
}
