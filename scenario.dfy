/**
  A worked example: two contracts of category "A" held by two persons,
  2020-01-10 to 2020-03-05 and 2020-02-01 to 2020-02-20.
 */
module Scenario {
  import opened Dates
  import opened Seqs
  import opened Sanitizer
  import opened Selection
  import opened MonthlyActivity
  import opened YearMarkers
  import opened TimelineLayout

  const First: Contract := Contract("000000001", "A", Date(2020, 1, 10), Date(2020, 3, 5), 55)
  const Second: Contract := Contract("000000002", "A", Date(2020, 2, 1), Date(2020, 2, 20), 19)
  const Rows: seq<Contract> := [First, Second]

  lemma ExampleBounds()
    ensures MinStart(Rows) == Date(2020, 1, 10) && MaxEnd(Rows) == Date(2020, 3, 5)
  {
    assert Rows[..1] == [First];
  }

  /** The grid runs over the first days of January, February and March 2020. */
  lemma ExampleGrid()
    ensures MonthGrid(Rows) == [Date(2020, 1, 1), Date(2020, 2, 1), Date(2020, 3, 1)]
  {
    ExampleBounds();
    assert MonthFloor(MinStart(Rows)) == Date(2020, 1, 1);
    assert MonthFloor(MaxEnd(Rows)) == Date(2020, 3, 1);
    GridOfQuarter(Date(2020, 1, 1), Date(2020, 3, 1));
  }

  lemma GridOfQuarter(lo: CivilDate, hi: CivilDate)
    requires lo == Date(2020, 1, 1) && hi == Date(2020, 3, 1)
    ensures MonthRange(lo, hi) == [Date(2020, 1, 1), Date(2020, 2, 1), Date(2020, 3, 1)]
  {
    var g := MonthRange(lo, hi);
    assert |g| == 3;
    assert g[0] == MonthStart(24240);
    assert g[1] == MonthStart(24241);
    assert g[2] == MonthStart(24242);
    QuarterStarts();
    assert g == [g[0], g[1], g[2]];
  }

  lemma QuarterStarts()
    ensures MonthStart(24240) == Date(2020, 1, 1)
    ensures MonthStart(24241) == Date(2020, 2, 1)
    ensures MonthStart(24242) == Date(2020, 3, 1)
  {
    assert 24240 / 12 == 2020 && 24240 % 12 == 0;
    assert 24241 / 12 == 2020 && 24241 % 12 == 1;
    assert 24242 / 12 == 2020 && 24242 % 12 == 2;
  }

  lemma ExampleCategory()
    ensures OfCategory(Rows, "A") == Rows
  {
    assert Rows[..1] == [First];
    assert [First][..0] == [];
  }

  /** The number of active rows at `m` is that of the first row plus that of the second. */
  lemma CountBoth(m: CivilDate)
    ensures CountActive(Rows, m) == (if ActiveAt(First, m) then 1 else 0) + (if ActiveAt(Second, m) then 1 else 0)
  {
    assert Rows[..1] == [First];
    assert [First][..0] == [];
  }

  /** The January point lies before the first contract starts: the counts are 0, 2 and 1. */
  lemma ExampleActivity()
    ensures SeriesOf(Rows, "A") == Series([Date(2020, 1, 1), Date(2020, 2, 1), Date(2020, 3, 1)], [0, 2, 1])
  {
    ExampleGrid();
    ExampleCategory();
    CountBoth(Date(2020, 1, 1));
    CountBoth(Date(2020, 2, 1));
    CountBoth(Date(2020, 3, 1));
    var c := Counts(Rows, MonthGrid(Rows));
    assert c == [c[0], c[1], c[2]];
  }

  /** Two different values are kept, in their order. */
  lemma UniqueOfTwo(a: string, b: string)
    requires a != b
    ensures Unique([a, b]) == [a, b]
  {
    assert [a, b][..1] == [a];
    assert [a][..0] == [];
  }

  lemma ExamplePersons()
    ensures Persons(Rows) == ["000000001", "000000002"]
    ensures OfPerson(Rows, "000000001") == [First]
    ensures OfPerson(Rows, "000000002") == [Second]
  {
    assert Dnis(Rows) == ["000000001", "000000002"];
    assert "000000001"[8] != "000000002"[8];
    UniqueOfTwo("000000001", "000000002");
    assert Rows[..1] == [First];
    assert [First][..0] == [];
  }

  lemma ExampleBlock(ps: seq<string>)
    requires ps == ["000000001", "000000002"]
    requires OfPerson(Rows, ps[0]) == [First] && OfPerson(Rows, ps[1]) == [Second]
    ensures BlockBars(Rows, ps, 2, 0) == [Bar(First, 0), Bar(Second, 1)]
  {
    assert [First][..0] == [];
    assert [Second][..0] == [];
    assert PersonBars([First], 0) == [Bar(First, 0)];
    assert PersonBars([Second], 1) == [Bar(Second, 1)];
    assert BlockBars(Rows, ps, 1, 0) == [Bar(First, 0)];
  }

  /**
    Both persons get a row of their own, 0 and 1, the category starts at row
    0 and the counter ends at 4, past the two blank rows after the block.
   */
  lemma ExampleLayout()
    ensures LayoutOf(Rows, ["A"]) == Layout([Bar(First, 0), Bar(Second, 1)], map["A" := 0], 4)
  {
    ExampleCategory();
    ExamplePersons();
    var ps := Persons(Rows);
    ExampleBlock(ps);
    SingleLayout(Rows, "A", ps, BlockBars(Rows, ps, |ps|, 0));
  }

  lemma SingleLayout(rs: seq<Contract>, c: string, ps: seq<string>, bars: seq<Bar>)
    requires rs != [] && OfCategory(rs, c) == rs && ps == Persons(rs)
    requires bars == BlockBars(rs, ps, |ps|, 0)
    ensures LayoutOf(rs, [c]) == Layout(bars, map[c := 0], |ps| + 2)
  {
    assert [c][..0] == [];
  }

  /** The category label sits halfway through its two rows, at 1.0. */
  lemma ExampleTicks()
    ensures Ticks(Rows, ["A"], map["A" := 0]) == [Tick("A", 1.0)]
  {
    ExampleCategory();
    ExamplePersons();
    SingleTick(Rows, "A", map["A" := 0], |Persons(Rows)|);
  }

  lemma SingleTick(rs: seq<Contract>, c: string, positions: map<string, int>, n: nat)
    requires positions == map[c := 0] && n == |Persons(OfCategory(rs, c))| == 2
    ensures Ticks(rs, [c], positions) == [Tick(c, 1.0)]
  {
    assert [c][..0] == [];
    assert 0 as real + n as real / 2.0 == 1.0;
  }

  /** All dates lie in 2020, so the timeline marks no year. */
  lemma ExampleYears()
    ensures TimelineYearMarkers(MinStart(Rows), MaxEnd(Rows)) == []
  {
    ExampleBounds();
  }
}
