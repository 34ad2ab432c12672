/**
 * The ticket-type analysis (src/analise_tipo.py): the most frequent catalog items and
 * the number of tickets with no catalog item, both on the loader's rewritten labels.
 */
module TypeAnalysis {
  import opened Wrappers
  import opened Tables
  import opened Counts

  const TypeColumn: string := "Item_do_Catálogo"

  /** The default of `tipos_de_chamado`'s n. */
  const DefaultTop: int := 10

  /**
   * `tipos_de_chamado(df, n)`: the series printed and plotted, `value_counts().head(n)`
   * of the type column; nothing when the column is absent. Both the printed and the
   * plotted series are this one value.
   */
  function TopTypes(t: Table, n: int): (r: Option<seq<Entry>>)
    ensures r.Some? <==> TypeColumn in t.columns
    ensures r.Some? ==> r.value == Top(Column(t, TypeColumn), n)
  {
    if TypeColumn in t.columns then Some(Top(Column(t, TypeColumn), n)) else None
  }

  /**
   * With the default n the list has at most ten types, most frequent first, each an
   * actual (non-missing) type with its number of tickets.
   */
  lemma DefaultTopTypes(t: Table)
    requires TypeColumn in t.columns
    ensures var r := TopTypes(t, DefaultTop).value; var col := Column(t, TypeColumn);
      |r| <= 10 && Descending(r) && DistinctKeys(r) &&
      forall i :: 0 <= i < |r| ==> Some(r[i].key) in col && r[i].count == Occurrences(col, r[i].key) && r[i].count >= 1
  {
  }

  /** `chamados_sem_tipo(df)`: the number of missing type cells; nothing when the column is absent. */
  function UntypedCount(t: Table): (r: Option<nat>)
    ensures r.Some? <==> TypeColumn in t.columns
    ensures r.Some? ==> r.value <= |t.rows|
  {
    if TypeColumn in t.columns then
      PresentPlusMissing(Column(t, TypeColumn));
      Some(MissingCount(Column(t, TypeColumn)))
    else None
  }

  /**
   * The untyped tickets and the counts of all types together account for every row:
   * a ticket is either untyped or counted under exactly one type.
   */
  lemma UntypedPlusTyped(t: Table)
    requires TypeColumn in t.columns
    ensures UntypedCount(t).value + Total(ValueCounts(Column(t, TypeColumn))) == |t.rows|
  {
    PresentPlusMissing(Column(t, TypeColumn));
  }
}
