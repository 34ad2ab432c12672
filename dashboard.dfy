/**
 * The dashboard routes (app/routes.py): the chart images listed on the page, grouped by
 * a substring of their names, and the reply of the refresh endpoint.
 */
module Dashboard {
  import opened Wrappers
  import opened Text

  /** `[f for f in names if f.endswith('.png')]`. */
  function Images(names: seq<string>): (r: seq<string>)
    ensures |r| <= |names|
    decreases |names|
  {
    if names == [] then []
    else
      var init := names[..|names| - 1];
      var last := names[|names| - 1];
      assert names == init + [last];
      Images(init) + (if EndsWith(last, ".png") then [last] else [])
  }

  /** `[g for g in names if key in g]`. */
  function Having(names: seq<string>, key: string): (r: seq<string>)
    ensures |r| <= |names|
    decreases |names|
  {
    if names == [] then []
    else
      var init := names[..|names| - 1];
      var last := names[|names| - 1];
      assert names == init + [last];
      Having(init, key) + (if Contains(last, key) then [last] else [])
  }

  /** The images are exactly the listed names ending in ".png". */
  lemma {:induction false} ImagesMembers(names: seq<string>)
    ensures forall g :: g in Images(names) <==> g in names && EndsWith(g, ".png")
    decreases |names|
  {
    if names != [] {
      var init := names[..|names| - 1];
      assert names == init + [names[|names| - 1]];
      ImagesMembers(init);
    }
  }

  /** The selection is exactly the names holding the fragment. */
  lemma {:induction false} HavingMembers(names: seq<string>, key: string)
    ensures forall g :: g in Having(names, key) <==> g in names && Contains(g, key)
    decreases |names|
  {
    if names != [] {
      var init := names[..|names| - 1];
      assert names == init + [names[|names| - 1]];
      HavingMembers(init, key);
    }
  }

  /** Selecting keeps listing order: selecting from a concatenation concatenates the selections. */
  lemma {:induction false} HavingAppend(a: seq<string>, b: seq<string>, key: string)
    ensures Having(a + b, key) == Having(a, key) + Having(b, key)
    decreases |b|
  {
    if b == [] {
      assert a + b == a;
    } else {
      var init := b[..|b| - 1];
      var last := b[|b| - 1];
      assert b == init + [last];
      assert a + b == (a + init) + [last];
      HavingSnoc(init, last, key);
      HavingSnoc(a + init, last, key);
      HavingAppend(a, init, key);
    }
  }

  lemma HavingSnoc(names: seq<string>, g: string, key: string)
    ensures Having(names + [g], key) == Having(names, key) + (if Contains(g, key) then [g] else [])
  {
    assert (names + [g])[..|names|] == names;
  }

  /** The four groups of the page and the name fragment each collects. */
  const GroupKeys: map<string, string> :=
    map["catalogo" := "itens_catalogo", "horas" := "por_hora", "dias" := "por_dia", "clientes" := "clientes"]

  /** `graficos_organizados`: each group, the listed images whose name holds its fragment. */
  function Groups(names: seq<string>): (r: map<string, seq<string>>)
    ensures r.Keys == {"catalogo", "horas", "dias", "clientes"}
    ensures forall k :: k in r ==> forall g :: g in r[k] <==> g in names && EndsWith(g, ".png") && Contains(g, GroupKeys[k])
  {
    var images := Images(names);
    ImagesMembers(names);
    assert forall key :: forall g :: g in Having(images, key) <==> g in images && Contains(g, key) by {
      forall key { HavingMembers(images, key); }
    }
    map k | k in GroupKeys :: Having(images, GroupKeys[k])
  }

  /** Where a name holds a fragment. */
  lemma {:induction false} HeldAt(s: string, key: string) returns (i: nat)
    requires Contains(s, key)
    ensures i + |key| <= |s| && s[i..i + |key|] == key
    decreases |s|
  {
    if s[..|key|] == key {
      i := 0;
    } else {
      var j := HeldAt(s[1..], key);
      i := j + 1;
      assert s[1..][j..j + |key|] == s[i..i + |key|];
    }
  }

  const MonthChart: string := "chamados_por_mes.png"

  /** The month chart's name holds none of the four group fragments. */
  lemma MonthChartFragments()
    ensures forall k :: k in GroupKeys ==> !Contains(MonthChart, GroupKeys[k])
  {
    MonthChartNotCatalog();
    MonthChartNotClients();
    MonthChartNotDays();
    MonthChartNotHours();
    FragmentsOfGroups();
  }

  lemma FragmentsOfGroups()
    ensures forall k :: k in GroupKeys ==> GroupKeys[k] in {"itens_catalogo", "por_hora", "por_dia", "clientes"}
  {
  }

  lemma MonthChartNotCatalog() ensures !Contains(MonthChart, "itens_catalogo") { NotHeld(MonthChart, "itens_catalogo", 0); }
  lemma MonthChartNotClients() ensures !Contains(MonthChart, "clientes") { NotHeld(MonthChart, "clientes", 1); }
  lemma MonthChartNotDays() ensures !Contains(MonthChart, "por_dia") { NotHeld(MonthChart, "por_dia", 5); }

  lemma MonthChartNotHours()
    ensures !Contains(MonthChart, "por_hora")
  {
    forall i | 0 <= i && i + 8 <= |MonthChart| ensures Differs(MonthChart, "por_hora", i) {
      assert MonthChart[i..i + 8][4] == MonthChart[i + 4] != 'h';
    }
    NotHeldAnywhere(MonthChart, "por_hora");
  }

  /** The window of s at i is not key. */
  predicate Differs(s: string, key: string, i: nat)
    requires i + |key| <= |s|
  {
    s[i..i + |key|] != key
  }

  lemma {:induction false} NotHeldAnywhere(s: string, key: string)
    requires forall i: nat :: i + |key| <= |s| ==> Differs(s, key, i)
    ensures !Contains(s, key)
    decreases |s|
  {
    if |key| <= |s| {
      assert Differs(s, key, 0) && s[0..|key|] == s[..|key|];
      forall i: nat | i + |key| <= |s[1..]| ensures Differs(s[1..], key, i) {
        assert Differs(s, key, i + 1);
        assert s[1..][i..i + |key|] == s[i + 1..i + 1 + |key|];
      }
      NotHeldAnywhere(s[1..], key);
    }
  }

  /** Selecting by a fragment no name holds selects nothing. */
  lemma {:induction false} HavingNone(names: seq<string>, key: string)
    requires forall g :: g in names ==> !Contains(g, key)
    ensures Having(names, key) == []
    decreases |names|
  {
    if names != [] {
      assert names[|names| - 1] in names;
      assert forall g :: g in names[..|names| - 1] ==> g in names;
      HavingNone(names[..|names| - 1], key);
    }
  }

  /**
   * The groups need not cover every image: the month chart is listed, yet every group
   * of a listing holding only it is empty.
   */
  lemma MonthChartInNoGroup()
    ensures MonthChart in Images([MonthChart])
    ensures var g := Groups([MonthChart]); forall k :: k in g ==> g[k] == []
  {
    assert EndsWith(MonthChart, ".png") by { assert MonthChart[|MonthChart| - 4..] == ".png"; }
    assert Images([MonthChart]) == [MonthChart] by { assert [MonthChart][..0] == []; }
    ImagesMembers([MonthChart]);
    MonthChartFragments();
    var g := Groups([MonthChart]);
    forall k | k in g ensures g[k] == [] {
      HavingNone([MonthChart], GroupKeys[k]);
    }
  }

  /** A name missing one character of a fragment does not hold the fragment. */
  lemma NotHeld(s: string, key: string, j: nat)
    requires j < |key| && forall k :: 0 <= k < |s| ==> s[k] != key[j]
    ensures !Contains(s, key)
  {
    if Contains(s, key) {
      var i := HeldAt(s, key);
    }
  }

  /** The body and HTTP status of a reply. */
  datatype Reply = Reply(body: string, status: int)

  /** `atualizar_dados`: the refresh's outcome, with the exception's text when it raised. */
  function Refresh(outcome: Result<(), string>): (r: Reply)
    ensures r.status == 200 <==> outcome.Success?
    ensures outcome.Success? ==> r.body == "Dados atualizados com sucesso!"
    ensures outcome.Failure? ==> r.status == 500 && r.body == "Erro ao atualizar: " + outcome.error
  {
    match outcome
    case Success(_) => Reply("Dados atualizados com sucesso!", 200)
    case Failure(e) => Reply("Erro ao atualizar: " + e, 500)
  }
}
