/** Sequence helpers: duplicate-freedom, first-appearance deduplication and positions. */
module Seqs {

  predicate NoDup<T(==)>(s: seq<T>)
  {
    forall i, j :: 0 <= i < j < |s| ==> s[i] != s[j]
  }

  /** Position of the first occurrence of `x` in `s`. */
  function IndexOf<T(==)>(s: seq<T>, x: T): (i: nat)
    requires x in s
    ensures i < |s| && s[i] == x
    ensures forall j :: 0 <= j < i ==> s[j] != x
  {
    if s[0] == x then 0 else 1 + IndexOf(s[1..], x)
  }

  /**
    The distinct elements of `s` in the order of their first appearance, as
    `Series.unique()` returns them.
   */
  function Unique<T(==,!new)>(s: seq<T>): (u: seq<T>)
    ensures NoDup(u)
    ensures forall x :: x in u <==> x in s
    ensures |u| <= |s|
  {
    if s == [] then []
    else
      var p := s[..|s| - 1];
      var x := s[|s| - 1];
      assert s == p + [x];
      var u := Unique(p);
      if x in u then u else u + [x]
  }

  /** Deduplication keeps the elements in the order in which they first occur. */
  lemma {:induction false} UniqueKeepsFirstAppearanceOrder<T(!new)>(s: seq<T>, i: nat, j: nat)
    requires i < j < |Unique(s)|
    ensures IndexOf(s, Unique(s)[i]) < IndexOf(s, Unique(s)[j])
  {
    var p := s[..|s| - 1];
    var x := s[|s| - 1];
    var u := Unique(p);
    assert s == p + [x];
    if j < |u| {
      UniqueKeepsFirstAppearanceOrder(p, i, j);
      IndexOfPrefix(p, x, u[i]);
      IndexOfPrefix(p, x, u[j]);
    } else {
      assert Unique(s) == u + [x] && Unique(s)[j] == x && x !in p;
      IndexOfPrefix(p, x, u[i]);
      assert IndexOf(s, x) == |p| by {
        IndexOfLast(p, x);
      }
    }
  }

  lemma IndexOfPrefix<T>(p: seq<T>, x: T, y: T)
    requires y in p
    ensures IndexOf(p + [x], y) == IndexOf(p, y)
  {
    assert (p + [x])[IndexOf(p, y)] == y;
  }

  lemma IndexOfLast<T>(p: seq<T>, x: T)
    requires x !in p
    ensures IndexOf(p + [x], x) == |p|
  {
    assert (p + [x])[|p|] == x;
  }

  /** Dropping the last element of a duplicate-free sequence keeps it duplicate-free, without that element. */
  lemma NoDupSnoc<T>(s: seq<T>)
    requires NoDup(s) && s != []
    ensures NoDup(s[..|s| - 1]) && s[|s| - 1] !in s[..|s| - 1]
  {
  }

  /** In a duplicate-free sequence the first occurrence is the only one. */
  lemma IndexOfNoDup<T>(s: seq<T>, k: nat)
    requires NoDup(s) && k < |s|
    ensures IndexOf(s, s[k]) == k
  {
  }

}
