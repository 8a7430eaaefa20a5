/**
  The record sanitiser of the contract sheet loader: a raw row has four optional
  fields (DNI, CATEGORIA, Falta, Fbaja) as they come out of the spreadsheet
  reader and the date parser; a row missing any of them is dropped, the DNI is
  zero-filled to width 9, the category is stripped of surrounding whitespace, the
  duration in days is computed, and only rows whose duration lies in
  [0, 10000] are kept, in their input order.
 */
module Sanitizer {
  import opened Wrappers
  import opened Dates

  /** A row of the sheet after date parsing; `None` is a missing or unparseable cell. */
  datatype RawRecord = RawRecord(
    dni: Option<string>,
    category: Option<string>,
    start: Option<CivilDate>,   // Falta
    end: Option<CivilDate>)     // Fbaja

  /** A sanitised contract row; `duration` is the Duracion column. */
  datatype Contract = Contract(
    dni: string,
    category: string,
    start: CivilDate,
    end: CivilDate,
    duration: int)

  const DniWidth: nat := 9
  const MaxDuration: int := 10000

  // ----- str.zfill -----

  function Zeros(n: nat): (z: string)
    ensures |z| == n
    ensures forall i :: 0 <= i < n ==> z[i] == '0'
  {
    seq(n, _ => '0')
  }

  predicate HasSign(s: string)
  {
    |s| > 0 && (s[0] == '+' || s[0] == '-')
  }

  /**
    Python's `str.zfill`: pad on the left with '0' up to `width`; a leading sign
    stays in front of the padding.
   */
  function ZFill(s: string, width: nat): (r: string)
    ensures |r| == if |s| >= width then |s| else width
  {
    if |s| >= width then s
    else
      var fill := width - |s|;
      var u := Zeros(fill) + s;
      if HasSign(s) then u[0 := s[0]][fill := '0'] else u
  }

  /**
    The shape of the zero fill: a long enough string is unchanged; otherwise
    the result ends with `s` behind '0's, or, when `s` starts with a sign, keeps
    the sign first, then the '0's, then the rest of `s`.
   */
  lemma ZFillShape(s: string, width: nat)
    ensures |s| >= width ==> ZFill(s, width) == s
    ensures !HasSign(s) ==>
      var r := ZFill(s, width);
      r[|r| - |s|..] == s && forall i :: 0 <= i < |r| - |s| ==> r[i] == '0'
    ensures HasSign(s) ==>
      var r := ZFill(s, width);
      r[0] == s[0] && r[|r| - |s| + 1..] == s[1..] && forall i :: 1 <= i <= |r| - |s| ==> r[i] == '0'
  {
    if |s| < width {
      var fill := width - |s|;
      var u := Zeros(fill) + s;
      assert u[fill..] == s;
      if HasSign(s) {
        var r := u[0 := s[0]][fill := '0'];
        assert r[fill + 1..] == s[1..] by {
          assert forall i :: fill + 1 <= i < |r| ==> r[i] == u[i] == s[i - fill];
        }
      }
    }
  }

  lemma ZFillIdempotent(s: string, width: nat)
    ensures ZFill(ZFill(s, width), width) == ZFill(s, width)
  {
  }

  // ----- str.strip -----

  /** Python's `str.isspace` for a single character. */
  predicate IsSpace(c: char)
  {
    var n := c as int;
    (9 <= n <= 13) || (28 <= n <= 32) || n == 0x85 || n == 0xA0 || n == 0x1680
    || (0x2000 <= n <= 0x200A) || n == 0x2028 || n == 0x2029 || n == 0x202F
    || n == 0x205F || n == 0x3000
  }

  function StripStart(s: string): (r: string)
    ensures |r| <= |s|
    ensures r == [] || !IsSpace(r[0])
  {
    if s != [] && IsSpace(s[0]) then StripStart(s[1..]) else s
  }

  function StripEnd(s: string): (r: string)
    ensures |r| <= |s|
    ensures r == [] || !IsSpace(r[|r| - 1])
  {
    if s != [] && IsSpace(s[|s| - 1]) then StripEnd(s[..|s| - 1]) else s
  }

  /** `StripStart` removes a run of leading whitespace and nothing else. */
  lemma {:induction false} StripStartIsSuffix(s: string)
    ensures StripStart(s) == s[|s| - |StripStart(s)|..]
    ensures forall k :: 0 <= k < |s| - |StripStart(s)| ==> IsSpace(s[k])
  {
    if s != [] && IsSpace(s[0]) {
      StripStartIsSuffix(s[1..]);
    }
  }

  /** `StripEnd` removes a run of trailing whitespace and nothing else. */
  lemma {:induction false} StripEndIsPrefix(s: string)
    ensures StripEnd(s) == s[..|StripEnd(s)|]
    ensures forall k :: |StripEnd(s)| <= k < |s| ==> IsSpace(s[k])
  {
    if s != [] && IsSpace(s[|s| - 1]) {
      StripEndIsPrefix(s[..|s| - 1]);
    }
  }

  /** Python's `str.strip()` with no argument. */
  function Strip(s: string): (r: string)
    ensures |r| <= |s|
    ensures r == [] || (!IsSpace(r[0]) && !IsSpace(r[|r| - 1]))
  {
    var t := StripStart(s);
    var r := StripEnd(t);
    StripEndIsPrefix(t);
    assert r != [] ==> r[0] == t[0];
    r
  }

  /**
    What strip removes: `Strip(s)` is the slice `s[i..i + |Strip(s)|]`, and
    everything outside it is whitespace.
   */
  lemma StripIsSlice(s: string) returns (i: nat)
    ensures i + |Strip(s)| <= |s| && s[i..i + |Strip(s)|] == Strip(s)
    ensures forall k :: 0 <= k < i ==> IsSpace(s[k])
    ensures forall k :: i + |Strip(s)| <= k < |s| ==> IsSpace(s[k])
  {
    var t := StripStart(s);
    StripStartIsSuffix(s);
    i := |s| - |t|;
    var r := StripEnd(t);
    StripEndIsPrefix(t);
    SliceOfSuffix(s, t, r, i);
  }

  /** A prefix `r` of the suffix `t == s[i..]` is the slice of `s` at `i`. */
  lemma SliceOfSuffix(s: string, t: string, r: string, i: nat)
    requires i <= |s| && t == s[i..] && |r| <= |t| && r == t[..|r|]
    ensures s[i..i + |r|] == r
    ensures forall k :: i + |r| <= k < |s| ==> s[k] == t[k - i]
  {
  }

  lemma StripIdempotent(s: string)
    ensures Strip(Strip(s)) == Strip(s)
  {
    var r := Strip(s);
    assert StripStart(r) == r;
    assert StripEnd(r) == r;
  }

  // ----- rows -----

  /** What every kept row satisfies. */
  predicate WellFormed(c: Contract)
  {
    |c.dni| >= DniWidth
    && Strip(c.category) == c.category
    && c.duration == DaysBetween(c.start, c.end)
    && 0 <= c.duration <= MaxDuration
    && DateLe(c.start, c.end)
  }

  /** The cleaning of one row: `None` when the row is dropped. */
  function Clean(r: RawRecord): (o: Option<Contract>)
    ensures o.Some? <==>
      r.dni.Some? && r.category.Some? && r.start.Some? && r.end.Some?
      && 0 <= DaysBetween(r.start.value, r.end.value) <= MaxDuration
    ensures o.Some? ==>
      WellFormed(o.value)
      && o.value.dni == ZFill(r.dni.value, DniWidth)
      && o.value.category == Strip(r.category.value)
      && o.value.start == r.start.value && o.value.end == r.end.value
  {
    if r.dni.None? || r.category.None? || r.start.None? || r.end.None? then None
    else
      var c := Contract(ZFill(r.dni.value, DniWidth), Strip(r.category.value),
                        r.start.value, r.end.value, DaysBetween(r.start.value, r.end.value));
      StripIdempotent(r.category.value);
      DateOrderIsDayOrder(r.start.value, r.end.value);
      if 0 <= c.duration <= MaxDuration then Some(c) else None
  }

  /** `load_data` from the date parse on: drop, normalise, compute duration, filter. */
  function Sanitize(raws: seq<RawRecord>): (out: seq<Contract>)
    ensures |out| <= |raws|
    ensures forall c :: c in out ==> WellFormed(c)
  {
    if raws == [] then []
    else
      (match Clean(raws[0]) case Some(c) => [c] case None => []) + Sanitize(raws[1..])
  }

  /** The sanitiser works row by row: it maps concatenation to concatenation. */
  lemma {:induction false} SanitizeAppend(a: seq<RawRecord>, b: seq<RawRecord>)
    ensures Sanitize(a + b) == Sanitize(a) + Sanitize(b)
  {
    if a != [] {
      assert (a + b)[0] == a[0] && (a + b)[1..] == a[1..] + b;
      SanitizeAppend(a[1..], b);
      var head := match Clean(a[0]) case Some(c) => [c] case None => [];
      assert Sanitize(a + b) == head + (Sanitize(a[1..]) + Sanitize(b));
    } else {
      assert a + b == b;
    }
  }

  /** A one-row sheet keeps that row exactly when it is clean. */
  lemma SanitizeSingle(r: RawRecord)
    ensures Sanitize([r]) == match Clean(r) case Some(c) => [c] case None => []
  {
    assert [r][1..] == [];
  }

  /** The kept rows are exactly the clean images of the input rows that pass. */
  lemma {:induction false} SanitizeMembers(raws: seq<RawRecord>, c: Contract)
    ensures c in Sanitize(raws) <==> exists i :: 0 <= i < |raws| && Clean(raws[i]) == Some(c)
  {
    if raws != [] {
      SanitizeMembers(raws[1..], c);
      if c in Sanitize(raws[1..]) {
        var i :| 0 <= i < |raws[1..]| && Clean(raws[1..][i]) == Some(c);
        assert Clean(raws[i + 1]) == Some(c);
      }
      if exists i :: 0 <= i < |raws| && Clean(raws[i]) == Some(c) {
        var i :| 0 <= i < |raws| && Clean(raws[i]) == Some(c);
        if i > 0 {
          assert Clean(raws[1..][i - 1]) == Some(c);
        }
      }
    }
  }

  /** A row whose end date lies before its start date in the calendar is always dropped. */
  lemma EndBeforeStartDropped(r: RawRecord)
    requires r.start.Some? && r.end.Some?
    requires CalendarBefore(r.end.value, r.start.value)
    ensures Clean(r) == None
  {
    DateOrderIsDayOrder(r.end.value, r.start.value);
  }

  /** The duration bound is inclusive: 10000 days (2000-01-01 to 2027-05-19) is kept, 10001 is not. */
  lemma DurationBoundary()
    ensures Clean(RawRecord(Some("12345678"), Some(" A "), Some(Date(2000, 1, 1)), Some(Date(2027, 5, 19))))
         == Some(Contract("012345678", "A", Date(2000, 1, 1), Date(2027, 5, 19), 10000))
    ensures Clean(RawRecord(Some("12345678"), Some(" A "), Some(Date(2000, 1, 1)), Some(Date(2027, 5, 20))))
         == None
  {
    BoundaryDays();
    BoundaryFields();
  }

  lemma BoundaryDays()
    ensures DaysBetween(Date(2000, 1, 1), Date(2027, 5, 19)) == 10000
    ensures DaysBetween(Date(2000, 1, 1), Date(2027, 5, 20)) == 10001
  {
    assert DaysBeforeYear(2000) == 730119;
    assert DaysBeforeYear(2027) == 739981;
    assert DaysBeforeMonth(2027, 5) == 120;
  }

  lemma BoundaryFields()
    ensures ZFill("12345678", DniWidth) == "012345678"
    ensures Strip(" A ") == "A"
  {
    assert StripStart(" A ") == "A ";
    assert StripEnd("A ") == "A";
  }
}
