/**
 * A data directory as the loaders see it: `os.listdir` order, each entry a file name and
 * the table `pd.read_csv` / `pd.read_excel` would produce from it.
 */
module Listing {
  import opened Text
  import opened Tables

  datatype File = File(name: string, table: Table)

  /** `[f for f in os.listdir(d) if f.endswith(suffix)]`. */
  function WithSuffix(files: seq<File>, suffix: string): (r: seq<File>)
    ensures |r| <= |files|
    decreases |files|
  {
    if files == [] then []
    else
      var init := files[..|files| - 1];
      var last := files[|files| - 1];
      assert files == init + [last];
      WithSuffix(init, suffix) + (if EndsWith(last.name, suffix) then [last] else [])
  }

  /** The filter keeps exactly the files whose name ends with the suffix. */
  lemma {:induction false} WithSuffixMembers(files: seq<File>, suffix: string)
    ensures forall f :: f in WithSuffix(files, suffix) <==> f in files && EndsWith(f.name, suffix)
    decreases |files|
  {
    if files != [] {
      var init := files[..|files| - 1];
      assert files == init + [files[|files| - 1]];
      WithSuffixMembers(init, suffix);
    }
  }

  /** With no file carrying the suffix the filter is empty. */
  lemma {:induction false} WithSuffixNone(files: seq<File>, suffix: string)
    requires forall f :: f in files ==> !EndsWith(f.name, suffix)
    ensures WithSuffix(files, suffix) == []
    decreases |files|
  {
    if files != [] {
      var init := files[..|files| - 1];
      assert files == init + [files[|files| - 1]];
      assert files[|files| - 1] in files;
      WithSuffixNone(init, suffix);
    }
  }

  /** Filtering keeps listing order: filtering a concatenation concatenates the filtered parts. */
  lemma {:induction false} WithSuffixAppend(a: seq<File>, b: seq<File>, suffix: string)
    ensures WithSuffix(a + b, suffix) == WithSuffix(a, suffix) + WithSuffix(b, suffix)
    decreases |b|
  {
    if b == [] {
      assert a + b == a;
    } else {
      var init := b[..|b| - 1];
      var last := b[|b| - 1];
      assert b == init + [last];
      assert a + b == (a + init) + [last];
      WithSuffixSnoc(init, last, suffix);
      WithSuffixSnoc(a + init, last, suffix);
      WithSuffixAppend(a, init, suffix);
    }
  }

  lemma WithSuffixSnoc(files: seq<File>, f: File, suffix: string)
    ensures WithSuffix(files + [f], suffix) == WithSuffix(files, suffix) + (if EndsWith(f.name, suffix) then [f] else [])
  {
    assert (files + [f])[..|files|] == files;
  }

  /** The tables of the files, in the same order. */
  function TablesOf(files: seq<File>): (ts: seq<Table>)
    ensures |ts| == |files| && forall k :: 0 <= k < |files| ==> ts[k] == files[k].table
  {
    seq(|files|, k requires 0 <= k < |files| => files[k].table)
  }
}
