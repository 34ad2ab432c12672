/**
 * Column-label rewriting: the loader's `col.strip().replace(' ', '_').replace('(', '')
 * .replace(')', '')` (src/carregamento_dados.py) and the forecast's `df.columns.str.strip()`
 * (src/previsao_chamados.py).
 */
module ColumnNames {
  import opened Text

  /** `s.replace(' ', '_')`: only the ASCII space is replaced, other whitespace stays. */
  function ReplaceSpaces(s: string): (r: string)
    ensures |r| == |s|
    ensures forall i :: 0 <= i < |s| ==> r[i] == (if s[i] == ' ' then '_' else s[i])
  {
    seq(|s|, i requires 0 <= i < |s| => if s[i] == ' ' then '_' else s[i])
  }

  predicate IsParen(c: char) { c == '(' || c == ')' }

  /** `s.replace('(', '').replace(')', '')`. */
  function DeleteParens(s: string): (r: string)
    ensures |r| <= |s|
  {
    if s == [] then []
    else if IsParen(s[0]) then DeleteParens(s[1..])
    else [s[0]] + DeleteParens(s[1..])
  }

  /** Deleting parentheses keeps exactly the characters that are not parentheses. */
  lemma {:induction false} DeleteParensMembers(s: string)
    ensures forall c :: c in DeleteParens(s) <==> c in s && !IsParen(c)
    decreases |s|
  {
    if s != [] {
      DeleteParensMembers(s[1..]);
      assert forall c :: c in s <==> c == s[0] || c in s[1..];
    }
  }

  /** The loader's rewrite of one column label. */
  function Normalize(name: string): string
  {
    DeleteParens(ReplaceSpaces(Strip(name)))
  }

  /** The list comprehension that rewrites every label: one label out per label in, same order. */
  function NormalizeAll(cols: seq<string>): (r: seq<string>)
    ensures |r| == |cols|
    ensures forall i :: 0 <= i < |cols| ==> r[i] == Normalize(cols[i])
  {
    seq(|cols|, i requires 0 <= i < |cols| => Normalize(cols[i]))
  }

  /** `df.columns.str.strip()`: one label out per label in, same order. */
  function StripAll(cols: seq<string>): (r: seq<string>)
    ensures |r| == |cols|
    ensures forall i :: 0 <= i < |cols| ==> r[i] == Strip(cols[i])
  {
    seq(|cols|, i requires 0 <= i < |cols| => Strip(cols[i]))
  }

  /** Deleting parentheses keeps every other character, in order, and distributes over concatenation. */
  lemma {:induction false} DeleteParensAppend(a: string, b: string)
    ensures DeleteParens(a + b) == DeleteParens(a) + DeleteParens(b)
    decreases |a|
  {
    if a == [] {
      assert a + b == b;
    } else {
      assert (a + b)[0] == a[0];
      assert (a + b)[1..] == a[1..] + b;
      DeleteParensAppend(a[1..], b);
      if !IsParen(a[0]) {
        assert DeleteParens(a + b) == [a[0]] + DeleteParens(a[1..] + b);
        assert DeleteParens(a) == [a[0]] + DeleteParens(a[1..]);
        assert [a[0]] + (DeleteParens(a[1..]) + DeleteParens(b)) == ([a[0]] + DeleteParens(a[1..])) + DeleteParens(b);
      } else {
        assert DeleteParens(a + b) == DeleteParens(a[1..] + b);
        assert DeleteParens(a) == DeleteParens(a[1..]);
      }
    }
  }

  /** A normalised label holds no space and no parenthesis. */
  lemma NormalizeIsClean(name: string)
    ensures ' ' !in Normalize(name) && '(' !in Normalize(name) && ')' !in Normalize(name)
  {
    var r := ReplaceSpaces(Strip(name));
    assert ' ' !in r;
    DeleteParensMembers(r);
  }

  /** Before parentheses are deleted the label has no whitespace at either end. */
  lemma NormalizeTrimmedBeforeParens(name: string)
    ensures var r := ReplaceSpaces(Strip(name)); r == [] || (!IsSpace(r[0]) && !IsSpace(r[|r| - 1]))
  {
  }

  lemma {:induction false} DeleteParensNoop(s: string)
    requires forall i :: 0 <= i < |s| ==> !IsParen(s[i])
    ensures DeleteParens(s) == s
    decreases |s|
  {
    if s != [] {
      DeleteParensNoop(s[1..]);
    }
  }

  /** A label with no whitespace and no parenthesis is left unchanged. */
  lemma NormalizeKeepsPlainName(name: string)
    requires forall i :: 0 <= i < |name| ==> !IsSpace(name[i]) && !IsParen(name[i])
    ensures Normalize(name) == name
  {
    StripUntrimmed(name);
    assert ReplaceSpaces(name) == name;
    DeleteParensNoop(name);
  }

  /**
   * A label whose only whitespace is inner ASCII spaces and which holds no parenthesis
   * comes out with each space turned into an underscore and nothing else changed.
   */
  lemma SpacedLabel(name: string)
    requires name == [] || (!IsSpace(name[0]) && !IsSpace(name[|name| - 1]))
    requires forall i :: 0 <= i < |name| ==> !IsParen(name[i])
    ensures Normalize(name) == ReplaceSpaces(name)
  {
    StripUntrimmed(name);
    DeleteParensNoop(ReplaceSpaces(name));
  }

  /**
   * Whitespace guarded by a parenthesis survives: once the parenthesis goes, the label
   * can begin with a tab, and a second normalisation would change it again.
   */
  lemma NormalizeNotIdempotent()
    ensures Normalize("(\tx") == "\tx"
    ensures Normalize("\tx") == "x"
  {
    GuardedTab();
    BareTab();
  }

  lemma GuardedTab()
    ensures Normalize("(\tx") == "\tx"
  {
    assert Strip("(\tx") == "(\tx";
    assert ReplaceSpaces("(\tx") == "(\tx";
    assert DeleteParens("(\tx") == "\tx" by {
      assert "(\tx"[1..] == "\tx";
      assert "\tx"[1..] == "x";
      assert "x"[1..] == [];
    }
  }

  lemma BareTab()
    ensures Normalize("\tx") == "x"
  {
    assert LeadingSpaces("\tx") == 1 by { assert "\tx"[1..] == "x"; }
    assert TrimStart("\tx") == "x";
    assert Strip("\tx") == "x";
    assert ReplaceSpaces("x") == "x";
    assert DeleteParens("x") == "x" by { assert "x"[1..] == []; }
  }

  lemma CatalogLabelSteps()
    ensures Strip("Item do Catálogo") == "Item do Catálogo"
    ensures ReplaceSpaces("Item do Catálogo") == "Item_do_Catálogo"
  {
    var raw, clean := "Item do Catálogo", "Item_do_Catálogo";
    assert !IsSpace(raw[0]) && !IsSpace(raw[|raw| - 1]);
    StripUntrimmed(raw);
    forall i | 0 <= i < |raw| ensures ReplaceSpaces(raw)[i] == clean[i] {
    }
  }

  /** The loader's rewrite turns the workbook label "Item do Catálogo" into "Item_do_Catálogo". */
  lemma NormalizeCatalogLabel()
    ensures Normalize("Item do Catálogo") == "Item_do_Catálogo"
  {
    var clean := "Item_do_Catálogo";
    CatalogLabelSteps();
    forall i | 0 <= i < |clean| ensures !IsParen(clean[i]) {
    }
    DeleteParensNoop(clean);
  }
}
