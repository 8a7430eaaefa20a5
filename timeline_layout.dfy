/**
  The row bookkeeping of the detailed timeline. A running row counter walks
  the selected categories in the caller's order and skips a category without
  rows; a category's start row is recorded, each of its distinct persons (in
  order of first appearance) takes the next row, all of that person's
  contracts are drawn on it, and the counter then advances by 2 as a
  separator. Each non-empty category is labelled on the vertical axis at its
  start row plus half its number of persons; the year markers run from the
  year after the earliest start to the year of the latest end.
 */
module TimelineLayout {
  import opened Wrappers
  import opened Dates
  import opened Seqs
  import opened Sanitizer
  import opened Selection
  import opened MonthlyActivity
  import opened YearMarkers

  /** One horizontal bar: a contract drawn on a row. */
  datatype Bar = Bar(contract: Contract, row: int)

  /** A category label on the vertical axis. */
  datatype Tick = Tick(text: string, value: real)

  /**
    What the chart is built from: the bars in drawing order, the start row of
    every drawn category, the final row counter (the upper end of the year
    marker lines), the marked years and the axis labels.
   */
  datatype Timeline = Timeline(
    bars: seq<Bar>,
    positions: map<string, int>,
    height: int,
    years: seq<int>,
    ticks: seq<Tick>)

  /** The state of the row counter after some categories. */
  datatype Layout = Layout(bars: seq<Bar>, positions: map<string, int>, next: int)

  // ----- specification of the row walk -----

  /** All the given rows drawn on one row. */
  function PersonBars(rows: seq<Contract>, row: int): (bs: seq<Bar>)
    ensures |bs| == |rows|
  {
    if rows == [] then [] else PersonBars(rows[..|rows| - 1], row) + [Bar(rows[|rows| - 1], row)]
  }

  lemma {:induction false} PersonBarsSnoc(rows: seq<Contract>, k: nat, row: int)
    requires k < |rows|
    ensures PersonBars(rows[..k + 1], row) == PersonBars(rows[..k], row) + [Bar(rows[k], row)]
  {
    assert rows[..k + 1][..k] == rows[..k];
  }

  lemma ConcatAssoc(a: seq<Bar>, b: seq<Bar>, c: seq<Bar>)
    ensures a + (b + c) == (a + b) + c
  {
  }

  /** The bars of the first `j` persons of a category block: the `k`-th person of `ps` is drawn at row `top + k`. */
  function BlockBars(dfCat: seq<Contract>, ps: seq<string>, j: nat, top: int): seq<Bar>
    requires j <= |ps|
  {
    if j == 0 then []
    else BlockBars(dfCat, ps, j - 1, top) + PersonBars(OfPerson(dfCat, ps[j - 1]), top + j - 1)
  }

  lemma BlockBarsSnoc(dfCat: seq<Contract>, ps: seq<string>, j: nat, top: int, rows: seq<Contract>, row: int)
    requires j < |ps| && rows == OfPerson(dfCat, ps[j]) && row == top + j
    ensures BlockBars(dfCat, ps, j + 1, top) == BlockBars(dfCat, ps, j, top) + PersonBars(rows, row)
  {
    var b := PersonBars(OfPerson(dfCat, ps[j]), top + j);
    assert b == PersonBars(rows, row);
  }

  /** The row walk over the categories `cats` of the filtered frame. */
  function LayoutOf(filtered: seq<Contract>, cats: seq<string>): Layout
  {
    if cats == [] then Layout([], map[], 0)
    else
      var l := LayoutOf(filtered, cats[..|cats| - 1]);
      var c := cats[|cats| - 1];
      var dfCat := OfCategory(filtered, c);
      if dfCat == [] then l
      else
        var ps := Persons(dfCat);
        Layout(l.bars + BlockBars(dfCat, ps, |ps|, l.next), l.positions[c := l.next], l.next + |ps| + 2)
  }

  lemma {:induction false} LayoutSnoc(filtered: seq<Contract>, cats: seq<string>, i: nat)
    requires i < |cats|
    ensures LayoutOf(filtered, cats[..i + 1]) ==
      var l := LayoutOf(filtered, cats[..i]);
      var dfCat := OfCategory(filtered, cats[i]);
      if dfCat == [] then l
      else
        var ps := Persons(dfCat);
        Layout(l.bars + BlockBars(dfCat, ps, |ps|, l.next), l.positions[cats[i] := l.next], l.next + |ps| + 2)
  {
    assert cats[..i + 1][..i] == cats[..i];
  }

  /** The axis labels: the categories with a start row, anchored at it plus half their count of persons. */
  function Ticks(filtered: seq<Contract>, cats: seq<string>, positions: map<string, int>): seq<Tick>
  {
    if cats == [] then []
    else
      var c := cats[|cats| - 1];
      Ticks(filtered, cats[..|cats| - 1], positions)
      + if c in positions
        then [Tick(c, positions[c] as real + |Persons(OfCategory(filtered, c))| as real / 2.0)]
        else []
  }

  // ----- the chart builder -----

  /** The contract loop: draw every row of one person on that person's row. */
  method DrawPerson(bars: seq<Bar>, dfDni: seq<Contract>, row: int) returns (out: seq<Bar>)
    ensures out == bars + PersonBars(dfDni, row)
  {
    out := bars;
    var k := 0;
    while k < |dfDni|
      invariant 0 <= k <= |dfDni|
      invariant out == bars + PersonBars(dfDni[..k], row)
    {
      PersonBarsSnoc(dfDni, k, row);
      out := out + [Bar(dfDni[k], row)];
      k := k + 1;
    }
    assert dfDni[..k] == dfDni;
  }

  /**
    The person loop of one category: each distinct person, in order of first
    appearance, gets the next row; the counter ends one past the last of them.
   */
  method DrawCategory(bars: seq<Bar>, dfCat: seq<Contract>, top: int) returns (out: seq<Bar>, y: int)
    ensures out == bars + BlockBars(dfCat, Persons(dfCat), |Persons(dfCat)|, top)
    ensures y == top + |Persons(dfCat)|
  {
    var persons := Persons(dfCat);
    out := bars;
    y := top;
    var j := 0;
    while j < |persons|
      invariant 0 <= j <= |persons|
      invariant y == top + j
      invariant out == bars + BlockBars(dfCat, persons, j, top)
    {
      var dni := persons[j];
      var dfDni := OfPerson(dfCat, dni);
      BlockBarsSnoc(dfCat, persons, j, top, dfDni, y);
      ConcatAssoc(bars, BlockBars(dfCat, persons, j, top), PersonBars(dfDni, y));
      out := DrawPerson(out, dfDni, y);
      y := y + 1;
      j := j + 1;
    }
  }

  /**
    The layout part of `create_timeline_chart`: no chart for an empty frame,
    an empty selection or a selection without rows; otherwise the row walk,
    the year markers of the selection's date range and the axis labels.
   */
  method CreateTimelineChart(df: seq<Contract>, selected: seq<string>) returns (r: Option<Timeline>)
    ensures df == [] || selected == [] || InCategories(df, selected) == [] ==> r == None
    ensures df != [] && selected != [] && InCategories(df, selected) != [] ==>
      var filtered := InCategories(df, selected);
      var l := LayoutOf(filtered, selected);
      r == Some(Timeline(l.bars, l.positions, l.next,
                         TimelineYearMarkers(MinStart(filtered), MaxEnd(filtered)),
                         LayoutTicks(filtered, selected)))
  {
    if df == [] || selected == [] {
      return None;
    }
    var filtered := InCategories(df, selected);
    if filtered == [] {
      return None;
    }
    var first := MinStart(filtered);
    var last := MaxEnd(filtered);
    var y := 0;
    var positions: map<string, int> := map[];
    var bars: seq<Bar> := [];
    var i := 0;
    while i < |selected|
      invariant 0 <= i <= |selected|
      invariant Layout(bars, positions, y) == LayoutOf(filtered, selected[..i])
    {
      var category := selected[i];
      LayoutSnoc(filtered, selected, i);
      var dfCat := OfCategory(filtered, category);
      if dfCat != [] {
        positions := positions[category := y];
        bars, y := DrawCategory(bars, dfCat, y);
        y := y + 2;
      }
      i := i + 1;
    }
    assert selected[..i] == selected;
    var years := TimelineYearMarkers(first, last);
    var ticks := Ticks(filtered, selected, positions);
    return Some(Timeline(bars, positions, y, years, ticks));
  }

  // ----- rows and positions -----

  /** The rows a category takes, separator included; a category without rows takes none. */
  function BlockSize(filtered: seq<Contract>, c: string): nat
  {
    var dfCat := OfCategory(filtered, c);
    if dfCat == [] then 0 else |Persons(dfCat)| + 2
  }

  /** The rows taken by the categories `cats`, separators included. */
  function Footprint(filtered: seq<Contract>, cats: seq<string>): nat
  {
    if cats == [] then 0
    else Footprint(filtered, cats[..|cats| - 1]) + BlockSize(filtered, cats[|cats| - 1])
  }

  /** A longer prefix of the selection takes at least the rows of a shorter one plus the next block. */
  lemma {:induction false} FootprintGrows(filtered: seq<Contract>, cats: seq<string>, i: nat, j: nat)
    requires i < j <= |cats|
    ensures Footprint(filtered, cats[..i]) + BlockSize(filtered, cats[i]) <= Footprint(filtered, cats[..j])
  {
    assert cats[..j][..j - 1] == cats[..j - 1];
    if i < j - 1 {
      FootprintGrows(filtered, cats, i, j - 1);
    }
  }

  /** The final row counter is the sum over the non-empty categories of their persons plus 2. */
  lemma {:induction false} LayoutHeight(filtered: seq<Contract>, cats: seq<string>)
    ensures LayoutOf(filtered, cats).next == Footprint(filtered, cats)
  {
    if cats != [] {
      LayoutHeight(filtered, cats[..|cats| - 1]);
    }
  }

  /** A category gets a start row exactly when it is selected and has rows. */
  lemma {:induction false} LayoutKeys(filtered: seq<Contract>, cats: seq<string>, c: string)
    ensures c in LayoutOf(filtered, cats).positions <==> c in cats && OfCategory(filtered, c) != []
  {
    if cats != [] {
      var p := cats[..|cats| - 1];
      assert cats == p + [cats[|cats| - 1]];
      LayoutKeys(filtered, p, c);
    }
  }

  /**
    Exactly the selected categories with rows get a start row, and a
    category's start row is the number of rows taken by the categories
    before it.
   */
  lemma {:induction false} LayoutPositions(filtered: seq<Contract>, cats: seq<string>)
    requires NoDup(cats)
    ensures forall c :: c in LayoutOf(filtered, cats).positions <==> c in cats && OfCategory(filtered, c) != []
    ensures forall c :: c in LayoutOf(filtered, cats).positions ==>
      LayoutOf(filtered, cats).positions[c] == Footprint(filtered, cats[..IndexOf(cats, c)])
  {
    if cats != [] {
      var p := cats[..|cats| - 1];
      var c0 := cats[|cats| - 1];
      assert cats == p + [c0];
      NoDupSnoc(cats);
      LayoutPositions(filtered, p);
      LayoutHeight(filtered, p);
      var positions := LayoutOf(filtered, cats).positions;
      forall c | c in positions
        ensures positions[c] == Footprint(filtered, cats[..IndexOf(cats, c)])
      {
        if c == c0 {
          IndexOfLast(p, c0);
        } else {
          IndexOfPrefix(p, c0, c);
          assert cats[..IndexOf(p, c)] == p[..IndexOf(p, c)];
        }
      }
    }
  }

  /**
    Blocks follow the order of selection: the block of an earlier category,
    with its separator, ends at or before the start row of a later one.
   */
  lemma BlocksOrdered(filtered: seq<Contract>, cats: seq<string>, i: nat, j: nat)
    requires NoDup(cats) && i < j < |cats|
    requires cats[i] in LayoutOf(filtered, cats).positions && cats[j] in LayoutOf(filtered, cats).positions
    ensures var positions := LayoutOf(filtered, cats).positions;
      positions[cats[i]] + |Persons(OfCategory(filtered, cats[i]))| + 2 <= positions[cats[j]]
  {
    LayoutPositions(filtered, cats);
    IndexOfNoDup(cats, i);
    IndexOfNoDup(cats, j);
    FootprintGrows(filtered, cats, i, j);
  }

  lemma {:induction false} PersonBarsMembers(rows: seq<Contract>, row: int)
    ensures forall b :: b in PersonBars(rows, row) ==> b.row == row && b.contract in rows
  {
    if rows != [] {
      PersonBarsMembers(rows[..|rows| - 1], row);
      assert rows == rows[..|rows| - 1] + [rows[|rows| - 1]];
    }
  }

  /** Within a block, each contract is drawn on the row of its person's position in the block. */
  lemma {:induction false} BlockRows(dfCat: seq<Contract>, ps: seq<string>, j: nat, top: int)
    requires j <= |ps| && NoDup(ps)
    ensures forall b :: b in BlockBars(dfCat, ps, j, top) ==>
      b.contract in dfCat && b.contract.dni in ps && IndexOf(ps, b.contract.dni) < j
      && b.row == top + IndexOf(ps, b.contract.dni)
  {
    if j > 0 {
      BlockRows(dfCat, ps, j - 1, top);
      PersonBarsMembers(OfPerson(dfCat, ps[j - 1]), top + j - 1);
      IndexOfNoDup(ps, j - 1);
    }
  }

  /**
    Every drawn contract belongs to a selected category with a start row,
    and is drawn on that start row plus the position of its person among
    the category's distinct persons; so all contracts of a person share one row.
   */
  lemma {:induction false} LayoutRows(filtered: seq<Contract>, cats: seq<string>)
    requires NoDup(cats)
    ensures var l := LayoutOf(filtered, cats);
      forall b :: b in l.bars ==>
        var c := b.contract.category;
        var ps := Persons(OfCategory(filtered, c));
        c in cats && c in l.positions && b.contract in OfCategory(filtered, c) && b.contract.dni in ps
        && b.row == l.positions[c] + IndexOf(ps, b.contract.dni)
  {
    if cats != [] {
      var p := cats[..|cats| - 1];
      var c0 := cats[|cats| - 1];
      NoDupSnoc(cats);
      LayoutRows(filtered, p);
      var dfCat := OfCategory(filtered, c0);
      if dfCat != [] {
        var l := LayoutOf(filtered, p);
        var ps := Persons(dfCat);
        BlockRows(dfCat, ps, |ps|, l.next);
        forall b | b in BlockBars(dfCat, ps, |ps|, l.next)
          ensures b.contract.category == c0 && b.contract in OfCategory(filtered, c0)
        {
        }
      }
    }
  }

  /** Within a category two contracts share a row exactly when they belong to the same person. */
  lemma SharedRowsArePersons(filtered: seq<Contract>, cats: seq<string>, b1: Bar, b2: Bar)
    requires NoDup(cats)
    requires b1 in LayoutOf(filtered, cats).bars && b2 in LayoutOf(filtered, cats).bars
    requires b1.contract.category == b2.contract.category
    ensures b1.row == b2.row <==> b1.contract.dni == b2.contract.dni
  {
    LayoutRows(filtered, cats);
  }

  /** Every row of an earlier category lies at least 3 below every row of a later one. */
  lemma EarlierBlocksBelow(filtered: seq<Contract>, cats: seq<string>, b1: Bar, b2: Bar)
    requires NoDup(cats)
    requires b1 in LayoutOf(filtered, cats).bars && b2 in LayoutOf(filtered, cats).bars
    ensures b1.contract.category in cats && b2.contract.category in cats
    ensures IndexOf(cats, b1.contract.category) < IndexOf(cats, b2.contract.category) ==> b1.row + 3 <= b2.row
  {
    LayoutRows(filtered, cats);
    var i := IndexOf(cats, b1.contract.category);
    var j := IndexOf(cats, b2.contract.category);
    if i < j {
      BlocksOrdered(filtered, cats, i, j);
    }
  }

  /** Every row lies between 0 and the final row counter, below the 2-row separator. */
  lemma RowsWithinHeight(filtered: seq<Contract>, cats: seq<string>, b: Bar)
    requires NoDup(cats)
    requires b in LayoutOf(filtered, cats).bars
    ensures 0 <= b.row && b.row + 3 <= LayoutOf(filtered, cats).next
  {
    LayoutRows(filtered, cats);
    LayoutPositions(filtered, cats);
    LayoutHeight(filtered, cats);
    var i := IndexOf(cats, b.contract.category);
    FootprintGrows(filtered, cats, i, |cats|);
    assert cats[..|cats|] == cats;
  }

  // ----- every selected contract is drawn once -----

  /** The contracts of a sequence of bars, in drawing order. */
  function Drawn(bars: seq<Bar>): (cs: seq<Contract>)
    ensures |cs| == |bars| && forall i :: 0 <= i < |bars| ==> cs[i] == bars[i].contract
  {
    seq(|bars|, i requires 0 <= i < |bars| => bars[i].contract)
  }

  lemma DrawnAppend(a: seq<Bar>, b: seq<Bar>)
    ensures Drawn(a + b) == Drawn(a) + Drawn(b)
  {
  }

  /** Drawing one more person adds exactly that person's contracts. */
  lemma DrawnPerson(before: seq<Bar>, rows: seq<Contract>, row: int)
    ensures multiset(Drawn(before + PersonBars(rows, row))) == multiset(Drawn(before)) + multiset(rows)
  {
    DrawnAppend(before, PersonBars(rows, row));
    DrawnRows(rows, row);
  }

  lemma {:induction false} DrawnRows(rows: seq<Contract>, row: int)
    ensures Drawn(PersonBars(rows, row)) == rows
  {
    if rows != [] {
      var p := rows[..|rows| - 1];
      DrawnRows(p, row);
      DrawnAppend(PersonBars(p, row), [Bar(rows[|rows| - 1], row)]);
      assert rows == p + [rows[|rows| - 1]];
    }
  }

  lemma BlockDrawnStep(dfCat: seq<Contract>, ps: seq<string>, j: nat, top: int)
    requires 0 < j <= |ps|
    ensures multiset(Drawn(BlockBars(dfCat, ps, j, top)))
         == multiset(Drawn(BlockBars(dfCat, ps, j - 1, top))) + multiset(OfPerson(dfCat, ps[j - 1]))
  {
    var rows := OfPerson(dfCat, ps[j - 1]);
    BlockBarsSnoc(dfCat, ps, j - 1, top, rows, top + j - 1);
    DrawnPerson(BlockBars(dfCat, ps, j - 1, top), rows, top + j - 1);
  }

  lemma OfPersonsStep(dfCat: seq<Contract>, ps: seq<string>, j: nat)
    requires 0 < j <= |ps| && NoDup(ps)
    ensures multiset(OfPersons(dfCat, ps[..j]))
         == multiset(OfPersons(dfCat, ps[..j - 1])) + multiset(OfPerson(dfCat, ps[j - 1]))
  {
    assert ps[..j] == ps[..j - 1] + [ps[j - 1]];
    OfPersonsAddPerson(dfCat, ps[..j - 1], ps[j - 1]);
  }

  /** The first `j` persons of a block draw exactly their own contracts. */
  lemma {:induction false} BlockCovers(dfCat: seq<Contract>, ps: seq<string>, j: nat, top: int)
    requires j <= |ps| && NoDup(ps)
    ensures multiset(Drawn(BlockBars(dfCat, ps, j, top))) == multiset(OfPersons(dfCat, ps[..j]))
  {
    if j == 0 {
      OfPersonsNone(dfCat);
      assert ps[..0] == [];
    } else {
      BlockCovers(dfCat, ps, j - 1, top);
      BlockDrawnStep(dfCat, ps, j, top);
      OfPersonsStep(dfCat, ps, j);
    }
  }

  /**
    Over distinct categories the timeline draws every contract of the
    selected categories, as many times as it occurs, and nothing else.
   */
  lemma {:induction false} LayoutCovers(filtered: seq<Contract>, cats: seq<string>)
    requires NoDup(cats)
    ensures multiset(Drawn(LayoutOf(filtered, cats).bars)) == multiset(InCategories(filtered, cats))
  {
    if cats == [] {
      InCategoriesNone(filtered);
    } else {
      var p := cats[..|cats| - 1];
      var c0 := cats[|cats| - 1];
      assert cats == p + [c0];
      NoDupSnoc(cats);
      LayoutCovers(filtered, p);
      InCategoriesAddCategory(filtered, p, c0);
      var dfCat := OfCategory(filtered, c0);
      if dfCat != [] {
        var l := LayoutOf(filtered, p);
        var ps := Persons(dfCat);
        BlockCovers(dfCat, ps, |ps|, l.next);
        assert ps[..|ps|] == ps;
        forall x | x in dfCat
          ensures x.dni in ps
        {
          PersonsCover(dfCat, x);
        }
        OfPersonsAll(dfCat, ps);
        DrawnAppend(l.bars, BlockBars(dfCat, ps, |ps|, l.next));
      }
    }
  }

  // ----- axis labels -----

  /** Each label names a selected category with a position and sits at that position plus half its number of persons. */
  lemma {:induction false} TickValues(filtered: seq<Contract>, cats: seq<string>, positions: map<string, int>, k: nat)
    requires k < |Ticks(filtered, cats, positions)|
    ensures var t := Ticks(filtered, cats, positions)[k];
      t.text in cats && t.text in positions
      && t.value == positions[t.text] as real + |Persons(OfCategory(filtered, t.text))| as real / 2.0
  {
    var p := cats[..|cats| - 1];
    var tp := Ticks(filtered, p, positions);
    if k < |tp| {
      TickValues(filtered, p, positions, k);
    }
  }

  /** Some label of `ticks` names category `c`. */
  predicate Labelled(ticks: seq<Tick>, c: string)
  {
    exists k :: 0 <= k < |ticks| && ticks[k].text == c
  }

  /** Every selected category with a position has a label. */
  lemma {:induction false} TicksCover(filtered: seq<Contract>, cats: seq<string>, positions: map<string, int>, c: string)
    requires c in cats && c in positions
    ensures Labelled(Ticks(filtered, cats, positions), c)
  {
    var p := cats[..|cats| - 1];
    var c0 := cats[|cats| - 1];
    var tp := Ticks(filtered, p, positions);
    var t := Ticks(filtered, cats, positions);
    if c == c0 {
      assert t[|tp|].text == c0;
    } else {
      assert cats == p + [c0];
      TicksCover(filtered, p, positions, c);
      var k :| 0 <= k < |tp| && tp[k].text == c;
      assert t[k].text == c;
    }
  }

  /** Over distinct categories the labels follow the order of selection. */
  lemma {:induction false} TicksInOrder(filtered: seq<Contract>, cats: seq<string>, positions: map<string, int>, k1: nat, k2: nat)
    requires NoDup(cats) && k1 < k2 < |Ticks(filtered, cats, positions)|
    ensures var t := Ticks(filtered, cats, positions);
      t[k1].text in cats && t[k2].text in cats && IndexOf(cats, t[k1].text) < IndexOf(cats, t[k2].text)
  {
    var p := cats[..|cats| - 1];
    var c0 := cats[|cats| - 1];
    assert cats == p + [c0];
    NoDupSnoc(cats);
    var tp := Ticks(filtered, p, positions);
    var t := Ticks(filtered, cats, positions);
    TickValues(filtered, p, positions, k1);
    IndexOfPrefix(p, c0, tp[k1].text);
    if k2 < |tp| {
      TicksInOrder(filtered, p, positions, k1, k2);
      IndexOfPrefix(p, c0, tp[k2].text);
    } else {
      IndexOfLast(p, c0);
    }
  }

  /** The axis labels of the layout's own positions. */
  function LayoutTicks(filtered: seq<Contract>, cats: seq<string>): seq<Tick>
  {
    Ticks(filtered, cats, LayoutOf(filtered, cats).positions)
  }

  /** On the layout's positions, each label lies strictly inside the rows of its block. */
  lemma LayoutTickInBlock(filtered: seq<Contract>, cats: seq<string>, k: nat)
    requires NoDup(cats) && k < |LayoutTicks(filtered, cats)|
    ensures var c := LayoutTicks(filtered, cats)[k].text;
      var p := LayoutOf(filtered, cats).positions;
      var n := |Persons(OfCategory(filtered, c))|;
      c in p && n >= 1 && p[c] as real < LayoutTicks(filtered, cats)[k].value < (p[c] + n) as real
  {
    var positions := LayoutOf(filtered, cats).positions;
    TickValues(filtered, cats, positions, k);
    LayoutPositions(filtered, cats);
    PersonsEmpty(OfCategory(filtered, LayoutTicks(filtered, cats)[k].text));
  }

  /** On the layout's positions the labels name exactly the drawn categories. */
  lemma LayoutTicksNameBlocks(filtered: seq<Contract>, cats: seq<string>, c: string)
    ensures c in LayoutOf(filtered, cats).positions <==> Labelled(LayoutTicks(filtered, cats), c)
  {
    var positions := LayoutOf(filtered, cats).positions;
    assert LayoutTicks(filtered, cats) == Ticks(filtered, cats, positions);
    if c in positions {
      LayoutKeys(filtered, cats, c);
      TicksCover(filtered, cats, positions, c);
    }
    TicksNamePositions(filtered, cats, positions, c);
  }

  /** A label is only ever made for a category with a position. */
  lemma TicksNamePositions(filtered: seq<Contract>, cats: seq<string>, positions: map<string, int>, c: string)
    ensures Labelled(Ticks(filtered, cats, positions), c) ==> c in positions
  {
    var t := Ticks(filtered, cats, positions);
    if Labelled(t, c) {
      var k :| 0 <= k < |t| && t[k].text == c;
      TickValues(filtered, cats, positions, k);
    }
  }

  /** On the layout's positions the labels rise strictly along the axis. */
  lemma LayoutTicksAscend(filtered: seq<Contract>, cats: seq<string>, k1: nat, k2: nat)
    requires NoDup(cats) && k1 < k2 < |LayoutTicks(filtered, cats)|
    ensures LayoutTicks(filtered, cats)[k1].value < LayoutTicks(filtered, cats)[k2].value
  {
    var positions := LayoutOf(filtered, cats).positions;
    var t := LayoutTicks(filtered, cats);
    TickValues(filtered, cats, positions, k1);
    TickValues(filtered, cats, positions, k2);
    TicksInOrder(filtered, cats, positions, k1, k2);
    BlocksOrdered(filtered, cats, IndexOf(cats, t[k1].text), IndexOf(cats, t[k2].text));
  }
}
