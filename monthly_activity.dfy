/**
  The monthly activity counter: the month grid runs over the first days of the
  months from the month of the earliest start to the month of the latest end
  among the selected rows, and for every selected category each grid point `m`
  gets the number of that category's rows with `start <= m <= end`. This is a
  containment test at the sampling instant, not a test of overlap with the
  whole month.
 */
module MonthlyActivity {
  import opened Wrappers
  import opened Dates
  import opened Seqs
  import opened Sanitizer
  import opened Selection

  /** One entry of the result dictionary: the month grid and the counts along it. */
  datatype Series = Series(months: seq<CivilDate>, counts: seq<nat>)

  /** The date range of an empty selection has no bounds, and building the grid raises. */
  datatype ActivityError = EmptySelection

  /** A contract is active at `m` when `m` lies between its start and its end, both included. */
  predicate ActiveAt(c: Contract, m: CivilDate)
  {
    DateLe(c.start, m) && DateLe(m, c.end)
  }

  /** `df[(df['Falta'] <= m) & (df['Fbaja'] >= m)].shape[0]`. */
  function CountActive(rs: seq<Contract>, m: CivilDate): (n: nat)
    ensures n <= |rs|
  {
    if rs == [] then 0
    else CountActive(rs[..|rs| - 1], m) + (if ActiveAt(rs[|rs| - 1], m) then 1 else 0)
  }

  /** A row is counted exactly when it is active: the count is the number of active rows. */
  lemma {:induction false} CountActiveIsCardinality(rs: seq<Contract>, m: CivilDate)
    ensures CountActive(rs, m) == |set i | 0 <= i < |rs| && ActiveAt(rs[i], m)|
  {
    if rs != [] {
      var n := |rs|;
      var p := rs[..n - 1];
      CountActiveIsCardinality(p, m);
      var sp := set i | 0 <= i < |p| && ActiveAt(p[i], m);
      var last: set<int> := if ActiveAt(rs[n - 1], m) then {n - 1} else {};
      ActiveSetSnoc(rs, m, p, sp, last);
      assert n - 1 !in sp;
    }
  }

  lemma ActiveSetSnoc(rs: seq<Contract>, m: CivilDate, p: seq<Contract>, sp: set<int>, last: set<int>)
    requires rs != [] && p == rs[..|rs| - 1]
    requires sp == set i | 0 <= i < |p| && ActiveAt(p[i], m)
    requires last == if ActiveAt(rs[|rs| - 1], m) then {|rs| - 1} else {}
    ensures (set i | 0 <= i < |rs| && ActiveAt(rs[i], m)) == sp + last
  {
    assert forall i :: 0 <= i < |p| ==> p[i] == rs[i];
  }

  lemma {:induction false} CountActiveAppend(a: seq<Contract>, b: seq<Contract>, m: CivilDate)
    ensures CountActive(a + b, m) == CountActive(a, m) + CountActive(b, m)
  {
    if b == [] {
      assert a + b == a;
    } else {
      assert (a + b)[..|a + b| - 1] == a + b[..|b| - 1];
      CountActiveAppend(a, b[..|b| - 1], m);
    }
  }

  /** The count sampled at every point of `months`. */
  function Counts(rs: seq<Contract>, months: seq<CivilDate>): (r: seq<nat>)
    ensures |r| == |months|
  {
    seq(|months|, i requires 0 <= i < |months| => CountActive(rs, months[i]))
  }

  /** A category without rows gets zeros along the whole grid, not an empty series. */
  lemma AbsentCategoryCountsZero(months: seq<CivilDate>)
    ensures Counts([], months) == seq(|months|, _ => 0)
  {
  }

  // ----- the month grid -----

  /** `df['Falta'].min()`. */
  function MinStart(rs: seq<Contract>): (d: CivilDate)
    requires rs != []
    ensures exists i :: 0 <= i < |rs| && rs[i].start == d
    ensures forall i :: 0 <= i < |rs| ==> DateLe(d, rs[i].start)
  {
    if |rs| == 1 then rs[0].start
    else
      var p := rs[..|rs| - 1];
      var m := MinStart(p);
      assert forall i :: 0 <= i < |p| ==> p[i] == rs[i];
      if DateLe(m, rs[|rs| - 1].start) then m else rs[|rs| - 1].start
  }

  /** `df['Fbaja'].max()`. */
  function MaxEnd(rs: seq<Contract>): (d: CivilDate)
    requires rs != []
    ensures exists i :: 0 <= i < |rs| && rs[i].end == d
    ensures forall i :: 0 <= i < |rs| ==> DateLe(rs[i].end, d)
  {
    if |rs| == 1 then rs[0].end
    else
      var p := rs[..|rs| - 1];
      var m := MaxEnd(p);
      assert forall i :: 0 <= i < |p| ==> p[i] == rs[i];
      if DateLe(rs[|rs| - 1].end, m) then m else rs[|rs| - 1].end
  }

  /** Index of the first month start on or after `lo`. */
  function FirstMonthIndex(lo: CivilDate): int
  {
    MonthIndex(lo) + (if lo.day == 1 then 0 else 1)
  }

  /** `pd.date_range(lo, hi, freq='MS')`: every first day of a month in `[lo, hi]`, ascending. */
  function MonthRange(lo: CivilDate, hi: CivilDate): (g: seq<CivilDate>)
    ensures |g| == if MonthIndex(hi) < FirstMonthIndex(lo) then 0 else MonthIndex(hi) - FirstMonthIndex(lo) + 1
  {
    var first := FirstMonthIndex(lo);
    var last := MonthIndex(hi);
    if last < first then []
    else
      seq<CivilDate>(last - first + 1, i => MonthStart(first + i))
  }

  /** The month starts on or after `lo` are those from `FirstMonthIndex(lo)` on. */
  lemma FirstMonthIndexBound(lo: CivilDate, k: int)
    ensures DateLe(lo, MonthStart(k)) <==> FirstMonthIndex(lo) <= k
  {
  }

  /** The grid holds exactly the month starts of `[lo, hi]`. */
  lemma MonthRangeExact(lo: CivilDate, hi: CivilDate, d: CivilDate)
    ensures d in MonthRange(lo, hi) <==> d.day == 1 && DateLe(lo, d) && DateLe(d, hi)
  {
    var g := MonthRange(lo, hi);
    var first := FirstMonthIndex(lo);
    if d in g {
      var i :| 0 <= i < |g| && g[i] == d;
      assert d == MonthStart(first + i);
      FirstMonthIndexBound(lo, first + i);
      MonthStartLe(first + i, hi);
    }
    if d.day == 1 && DateLe(lo, d) && DateLe(d, hi) {
      var k := MonthIndex(d);
      MonthStartOfIndex(d);
      FirstMonthIndexBound(lo, k);
      MonthStartLe(k, hi);
      assert g[k - first] == d;
    }
  }

  /** The grid is strictly ascending and steps by one calendar month, December rolling over into January. */
  lemma MonthRangeSteps(lo: CivilDate, hi: CivilDate)
    ensures var g := MonthRange(lo, hi);
      forall i :: 0 <= i < |g| ==> g[i].day == 1
    ensures var g := MonthRange(lo, hi);
      forall i :: 0 <= i < |g| - 1 ==> g[i + 1] == NextMonthStart(g[i])
    ensures var g := MonthRange(lo, hi);
      forall i, j :: 0 <= i < j < |g| ==> DateLt(g[i], g[j])
  {
    var g := MonthRange(lo, hi);
    var first := FirstMonthIndex(lo);
    assert forall i :: 0 <= i < |g| ==> g[i] == MonthStart(first + i);
    forall i | 0 <= i < |g| - 1
      ensures g[i + 1] == NextMonthStart(g[i])
    {
      MonthStartSucc(first + i);
    }
    forall i, j | 0 <= i < j < |g|
      ensures DateLt(g[i], g[j])
    {
      MonthStartsAscend(first + i, first + j);
    }
  }

  /** The grid of the selected rows. */
  function MonthGrid(rs: seq<Contract>): seq<CivilDate>
    requires rs != []
  {
    MonthRange(MonthFloor(MinStart(rs)), MonthFloor(MaxEnd(rs)))
  }

  /**
    On rows that end no earlier than they start, the grid is never empty; it
    begins at the month of the earliest start and ends at the month of the
    latest end.
   */
  lemma MonthGridEnds(rs: seq<Contract>)
    requires rs != []
    requires forall i :: 0 <= i < |rs| ==> DateLe(rs[i].start, rs[i].end)
    ensures var g := MonthGrid(rs);
      |g| >= 1 && g[0] == MonthFloor(MinStart(rs)) && g[|g| - 1] == MonthFloor(MaxEnd(rs))
    ensures DateLe(MinStart(rs), MaxEnd(rs))
  {
    var lo := MinStart(rs);
    var hi := MaxEnd(rs);
    var i :| 0 <= i < |rs| && rs[i].start == lo;
    assert DateLe(lo, hi);
    MonthStartOfIndex(MonthFloor(lo));
    MonthStartOfIndex(MonthFloor(hi));
  }

  // ----- the per-category series -----

  /** The dictionary entry for category `c` over the selected rows `filtered`. */
  function SeriesOf(filtered: seq<Contract>, c: string): Series
    requires filtered != []
  {
    var months := MonthGrid(filtered);
    Series(months, Counts(OfCategory(filtered, c), months))
  }

  /** The month loop of one category: the count of active rows at every grid point. */
  method CountAlong(dfCat: seq<Contract>, months: seq<CivilDate>) returns (counts: seq<nat>)
    ensures counts == Counts(dfCat, months)
  {
    counts := [];
    var j := 0;
    while j < |months|
      invariant 0 <= j <= |months|
      invariant |counts| == j
      invariant forall k :: 0 <= k < j ==> counts[k] == CountActive(dfCat, months[k])
    {
      counts := counts + [CountActive(dfCat, months[j])];
      j := j + 1;
    }
  }

  /** `calculate_active_contracts_by_month`. */
  method ActiveContractsByMonth(df: seq<Contract>, selected: seq<string>)
    returns (r: Result<map<string, Series>, ActivityError>)
    ensures df == [] ==> r == Success(map[])
    ensures df != [] && InCategories(df, selected) == [] ==> r == Failure(EmptySelection)
    ensures df != [] && InCategories(df, selected) != [] ==>
      r.Success?
      && (forall c :: c in r.value <==> c in selected)
      && forall c :: c in r.value ==> r.value[c] == SeriesOf(InCategories(df, selected), c)
  {
    if df == [] {
      return Success(map[]);
    }
    var filtered := InCategories(df, selected);
    if filtered == [] {
      return Failure(EmptySelection);
    }
    var months := MonthGrid(filtered);
    var results: map<string, Series> := map[];
    var i := 0;
    while i < |selected|
      invariant 0 <= i <= |selected|
      invariant forall c :: c in results <==> c in selected[..i]
      invariant forall c :: c in results ==> results[c] == SeriesOf(filtered, c)
    {
      var category := selected[i];
      var dfCat := OfCategory(filtered, category);
      var counts := CountAlong(dfCat, months);
      results := results[category := Series(months, counts)];
      assert selected[..i + 1] == selected[..i] + [category];
      i := i + 1;
    }
    assert selected[..i] == selected;
    return Success(results);
  }

  // ----- no double counting, no omission -----

  /** The counts of the categories `cats`, added up. */
  function TotalActive(df: seq<Contract>, cats: seq<string>, m: CivilDate): nat
  {
    if cats == [] then 0
    else TotalActive(df, cats[..|cats| - 1], m) + CountActive(OfCategory(df, cats[|cats| - 1]), m)
  }

  /** Adding a category to the selection adds its own count to the count of the selection. */
  lemma {:induction false} CountActiveAddCategory(df: seq<Contract>, cats: seq<string>, c: string, m: CivilDate)
    requires c !in cats
    ensures CountActive(InCategories(df, cats + [c]), m)
         == CountActive(InCategories(df, cats), m) + CountActive(OfCategory(df, c), m)
  {
    if df != [] {
      var p := df[..|df| - 1];
      var x := df[|df| - 1];
      CountActiveAddCategory(p, cats, c, m);
      assert x.category in cats + [c] <==> x.category in cats || x.category == c;
    }
  }

  /**
    For distinct categories the per-category counts add up to the count over
    the union of their rows.
   */
  lemma {:induction false} CountsAddUp(df: seq<Contract>, cats: seq<string>, m: CivilDate)
    requires NoDup(cats)
    ensures TotalActive(df, cats, m) == CountActive(InCategories(df, cats), m)
  {
    if cats == [] {
      InCategoriesNone(df);
    } else {
      var p := cats[..|cats| - 1];
      var c := cats[|cats| - 1];
      assert cats == p + [c];
      CountsAddUp(df, p, m);
      CountActiveAddCategory(df, p, c, m);
    }
  }

  /**
    The series of distinct selected categories add up, at every grid point, to
    the number of selected rows active there.
   */
  lemma SeriesAddUp(df: seq<Contract>, selected: seq<string>, i: nat)
    requires NoDup(selected) && InCategories(df, selected) != []
    requires i < |MonthGrid(InCategories(df, selected))|
    ensures var filtered := InCategories(df, selected);
      var m := MonthGrid(filtered)[i];
      TotalActive(filtered, selected, m) == CountActive(filtered, m)
      && TotalActive(filtered, selected, m) == TotalActive(df, selected, m)
  {
    var filtered := InCategories(df, selected);
    var m := MonthGrid(filtered)[i];
    CountsAddUp(filtered, selected, m);
    InCategoriesIdempotent(df, selected);
    TotalOverSelection(df, selected, selected, m);
  }

  /** Summing over categories of a selection sees the same rows as summing over the whole frame. */
  lemma {:induction false} TotalOverSelection(df: seq<Contract>, sel: seq<string>, cats: seq<string>, m: CivilDate)
    requires forall c :: c in cats ==> c in sel
    ensures TotalActive(InCategories(df, sel), cats, m) == TotalActive(df, cats, m)
  {
    if cats != [] {
      var c := cats[|cats| - 1];
      TotalOverSelection(df, sel, cats[..|cats| - 1], m);
      OfCategoryOfSelection(df, sel, c);
    }
  }
}
