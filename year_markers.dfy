/**
  The year-change markers of both charts. The timeline marks the years
  `min_start.year + 1 .. max_end.year`; the activity chart marks the distinct
  years of its month grid, sorted, without the first one. Both are the years
  whose 1 January lies after the first date and on or before the last one.
 */
module YearMarkers {
  import opened Dates
  import opened Sanitizer
  import opened MonthlyActivity

  predicate StrictlyAscending(s: seq<int>)
  {
    forall i, j :: 0 <= i < j < |s| ==> s[i] < s[j]
  }

  /** Python's `range(lo, hi)`: the integers from `lo` up to but excluding `hi`, in ascending order. */
  function Range(lo: int, hi: int): (r: seq<int>)
    decreases hi - lo
    ensures |r| == if hi <= lo then 0 else hi - lo
    ensures StrictlyAscending(r)
    ensures forall x :: x in r <==> lo <= x < hi
  {
    if hi <= lo then []
    else
      var t := Range(lo + 1, hi);
      ConsAscending(lo, t);
      [lo] + t
  }

  /** `range(fecha_min.year + 1, fecha_max.year + 1)`. */
  function TimelineYearMarkers(first: CivilDate, last: CivilDate): seq<int>
  {
    Range(first.year + 1, last.year + 1)
  }

  /**
    The timeline marks, in ascending order, exactly the years whose 1 January
    falls in `(first, last]`.
   */
  lemma TimelineYearsAreNewYears(first: CivilDate, last: CivilDate, y: int)
    ensures StrictlyAscending(TimelineYearMarkers(first, last))
    ensures y in TimelineYearMarkers(first, last) <==> DateLt(first, NewYear(y)) && DateLe(NewYear(y), last)
  {
  }

  /** Two dates of the same year get no marker. */
  lemma SameYearNoMarkers(first: CivilDate, last: CivilDate)
    requires first.year == last.year
    ensures TimelineYearMarkers(first, last) == []
  {
  }

  // ----- sorted(set(...)) -----

  function InsertSorted(s: seq<int>, x: int): (r: seq<int>)
    requires StrictlyAscending(s)
    ensures StrictlyAscending(r)
    ensures forall y :: y in r <==> y in s || y == x
  {
    if s == [] then [x]
    else if x < s[0] then [x] + s
    else if x == s[0] then s
    else
      var t := InsertSorted(s[1..], x);
      assert forall y :: y in s <==> y == s[0] || y in s[1..];
      assert forall y :: y in t ==> s[0] < y;
      ConsAscending(s[0], t);
      [s[0]] + t
  }

  lemma ConsAscending(x: int, t: seq<int>)
    requires StrictlyAscending(t) && forall y :: y in t ==> x < y
    ensures StrictlyAscending([x] + t)
  {
    var r := [x] + t;
    forall i, j | 0 <= i < j < |r|
      ensures r[i] < r[j]
    {
      assert r[j] == t[j - 1] && t[j - 1] in t;
      if i > 0 {
        assert r[i] == t[i - 1];
      }
    }
  }

  /** `sorted(set(xs))`. */
  function SortedDistinct(xs: seq<int>): (r: seq<int>)
    ensures StrictlyAscending(r)
    ensures forall y :: y in r <==> y in xs
  {
    if xs == [] then []
    else
      var p := xs[..|xs| - 1];
      assert forall y :: y in xs <==> y in p || y == xs[|xs| - 1] by {
        assert xs == p + [xs[|xs| - 1]];
      }
      InsertSorted(SortedDistinct(p), xs[|xs| - 1])
  }

  /** An ascending list without repeats is determined by its elements. */
  lemma {:induction false} AscendingBySet(a: seq<int>, b: seq<int>)
    requires StrictlyAscending(a) && StrictlyAscending(b)
    requires forall y :: y in a <==> y in b
    ensures a == b
  {
    assert a != [] ==> a[0] in a && a[0] in b;
    assert b != [] ==> b[0] in b && b[0] in a;
    if a != [] && b != [] {
      assert a[0] == b[0] by {
        assert a[0] in b && b[0] in a;
      }
      assert forall y :: y in a[1..] <==> y in b[1..] by {
        assert forall y :: y in a[1..] ==> a[0] < y;
        assert forall y :: y in b[1..] ==> b[0] < y;
        assert forall y :: y in a <==> y == a[0] || y in a[1..];
        assert forall y :: y in b <==> y == b[0] || y in b[1..];
      }
      AscendingBySet(a[1..], b[1..]);
    }
  }

  function Years(months: seq<CivilDate>): (ys: seq<int>)
    ensures |ys| == |months| && forall i :: 0 <= i < |months| ==> ys[i] == months[i].year
  {
    seq(|months|, i requires 0 <= i < |months| => months[i].year)
  }

  /** `sorted(set(mes.year for mes in meses))[1:]`. */
  function ActivityYearMarkers(months: seq<CivilDate>): seq<int>
  {
    var ys := SortedDistinct(Years(months));
    if ys == [] then [] else ys[1..]
  }

  lemma YearOfMonthIndex(d: CivilDate)
    ensures MonthIndex(d) / 12 == d.year
  {
  }

  /** The years met by a contiguous grid are all the years from its first to its last month. */
  lemma YearsOfMonthRange(lo: CivilDate, hi: CivilDate, y: int)
    requires lo.day == 1 && DateLe(lo, hi)
    ensures y in Years(MonthRange(lo, hi)) <==> lo.year <= y <= hi.year
  {
    var g := MonthRange(lo, hi);
    var first := FirstMonthIndex(lo);
    var last := MonthIndex(hi);
    YearOfMonthIndex(lo);
    YearOfMonthIndex(hi);
    assert forall i :: 0 <= i < |g| ==> g[i] == MonthStart(first + i);
    if y in Years(g) {
      var i :| 0 <= i < |g| && Years(g)[i] == y;
      assert g[i].year == (first + i) / 12;
    }
    if lo.year <= y <= hi.year {
      var k := if 12 * y < first then first else 12 * y;
      assert k / 12 == y;
      assert Years(g)[k - first] == y;
    }
  }

  /** Over a contiguous grid the activity chart marks the same years as `range`. */
  lemma ActivityYearsOfRange(lo: CivilDate, hi: CivilDate)
    requires lo.day == 1 && DateLe(lo, hi)
    ensures ActivityYearMarkers(MonthRange(lo, hi)) == Range(lo.year + 1, hi.year + 1)
  {
    var ys := SortedDistinct(Years(MonthRange(lo, hi)));
    var all := Range(lo.year, hi.year + 1);
    forall y
      ensures y in ys <==> y in all
    {
      YearsOfMonthRange(lo, hi, y);
    }
    AscendingBySet(ys, all);
    assert all[1..] == Range(lo.year + 1, hi.year + 1);
  }

  /**
    On the same selected rows the two charts mark the same years: the activity
    chart's grid spans exactly the months of the timeline's date range.
   */
  lemma ViewsMarkSameYears(rs: seq<Contract>)
    requires rs != []
    requires forall i :: 0 <= i < |rs| ==> DateLe(rs[i].start, rs[i].end)
    ensures ActivityYearMarkers(MonthGrid(rs)) == TimelineYearMarkers(MinStart(rs), MaxEnd(rs))
  {
    MonthGridEnds(rs);
    GridYears(MonthFloor(MinStart(rs)), MonthFloor(MaxEnd(rs)), MinStart(rs), MaxEnd(rs));
  }

  lemma GridYears(lo: CivilDate, hi: CivilDate, first: CivilDate, last: CivilDate)
    requires lo == MonthFloor(first) && hi == MonthFloor(last)
    requires DateLe(first, last)
    ensures ActivityYearMarkers(MonthRange(lo, hi)) == TimelineYearMarkers(first, last)
  {
    assert DateLe(lo, hi);
    ActivityYearsOfRange(lo, hi);
  }
}
