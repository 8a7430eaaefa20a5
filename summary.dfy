/**
  The per-category summary table of the page: for every selected category, in
  selection order, the number of its contracts and the number of its distinct
  persons among the selected rows.
 */
module Summary {
  import opened Seqs
  import opened Sanitizer
  import opened Selection
  import opened TimelineLayout

  /** One row of the summary table: `Categoría`, `Contratos`, `Personas`. */
  datatype SummaryRow = SummaryRow(category: string, contracts: nat, persons: nat)

  /** The summary loop over the selected categories. */
  method CategorySummary(df: seq<Contract>, selected: seq<string>) returns (summary: seq<SummaryRow>)
    ensures |summary| == |selected|
    ensures forall i :: 0 <= i < |selected| ==>
      summary[i].category == selected[i]
      && summary[i].contracts == |OfCategory(df, selected[i])|
      && summary[i].persons == |Persons(OfCategory(df, selected[i]))|
  {
    var filtered := InCategories(df, selected);
    summary := [];
    var i := 0;
    while i < |selected|
      invariant 0 <= i <= |selected|
      invariant |summary| == i
      invariant forall k :: 0 <= k < i ==>
        summary[k].category == selected[k]
        && summary[k].contracts == |OfCategory(df, selected[k])|
        && summary[k].persons == |Persons(OfCategory(df, selected[k]))|
    {
      var category := selected[i];
      var dfCat := OfCategory(filtered, category);
      OfCategoryOfSelection(df, selected, category);
      summary := summary + [SummaryRow(category, |dfCat|, |Persons(dfCat)|)];
      i := i + 1;
    }
  }

  /** The contracts column added up. */
  function TotalContracts(summary: seq<SummaryRow>): nat
  {
    if summary == [] then 0
    else TotalContracts(summary[..|summary| - 1]) + summary[|summary| - 1].contracts
  }

  /** The number of rows of the categories `cats`, category by category. */
  function ContractsByCategory(df: seq<Contract>, cats: seq<string>): nat
  {
    if cats == [] then 0
    else ContractsByCategory(df, cats[..|cats| - 1]) + |OfCategory(df, cats[|cats| - 1])|
  }

  /** Over distinct categories the per-category numbers of rows add up to the rows of the selection. */
  lemma {:induction false} ContractsAddUp(df: seq<Contract>, cats: seq<string>)
    requires NoDup(cats)
    ensures ContractsByCategory(df, cats) == |InCategories(df, cats)|
  {
    if cats == [] {
      InCategoriesNone(df);
    } else {
      var p := cats[..|cats| - 1];
      var c := cats[|cats| - 1];
      assert cats == p + [c];
      NoDupSnoc(cats);
      ContractsAddUp(df, p);
      InCategoriesAddCategory(df, p, c);
      assert |multiset(InCategories(df, cats))| == |InCategories(df, cats)|;
    }
  }

  lemma {:induction false} SummaryTotalStep(df: seq<Contract>, selected: seq<string>, summary: seq<SummaryRow>, n: nat)
    requires n <= |summary| == |selected|
    requires forall i :: 0 <= i < |selected| ==> summary[i].contracts == |OfCategory(df, selected[i])|
    ensures TotalContracts(summary[..n]) == ContractsByCategory(df, selected[..n])
  {
    if n > 0 {
      SummaryTotalStep(df, selected, summary, n - 1);
      assert summary[..n][..n - 1] == summary[..n - 1];
      assert selected[..n][..n - 1] == selected[..n - 1];
    }
  }

  /**
    For distinct selected categories the contracts column adds up to the
    number of selected rows, the `Total Contratos` figure.
   */
  lemma SummaryTotal(df: seq<Contract>, selected: seq<string>, summary: seq<SummaryRow>)
    requires NoDup(selected) && |summary| == |selected|
    requires forall i :: 0 <= i < |selected| ==> summary[i].contracts == |OfCategory(df, selected[i])|
    ensures TotalContracts(summary) == |InCategories(df, selected)|
  {
    SummaryTotalStep(df, selected, summary, |summary|);
    assert summary[..|summary|] == summary;
    assert selected[..|selected|] == selected;
    ContractsAddUp(df, selected);
  }

  /**
    A category never has more persons than contracts, has persons exactly
    when it has contracts, and then takes its persons plus 2 rows of the timeline.
   */
  lemma SummaryRowBounds(df: seq<Contract>, c: string)
    ensures |Persons(OfCategory(df, c))| <= |OfCategory(df, c)|
    ensures |Persons(OfCategory(df, c))| == 0 <==> |OfCategory(df, c)| == 0
    ensures OfCategory(df, c) != [] ==> BlockSize(df, c) == |Persons(OfCategory(df, c))| + 2
  {
    PersonsEmpty(OfCategory(df, c));
  }
}
