/**
  The frame selections the views share: the rows whose category is among the
  selected ones (`df[df['CATEGORIA'].isin(cats)]`), the rows of one category
  (`df[df['CATEGORIA'] == c]`), the rows of one person (`df[df['DNI'] == dni]`)
  and the distinct persons of a frame (`df['DNI'].unique()`). Each filter keeps
  the rows in frame order.
 */
module Selection {
  import opened Seqs
  import opened Sanitizer

  function InCategories(df: seq<Contract>, cats: seq<string>): (r: seq<Contract>)
    ensures |r| <= |df|
    ensures forall x :: x in r ==> x in df && x.category in cats
  {
    if df == [] then []
    else
      var p := InCategories(df[..|df| - 1], cats);
      var x := df[|df| - 1];
      if x.category in cats then p + [x] else p
  }

  function OfCategory(df: seq<Contract>, c: string): (r: seq<Contract>)
    ensures |r| <= |df|
    ensures forall x :: x in r ==> x in df && x.category == c
  {
    if df == [] then []
    else
      var p := OfCategory(df[..|df| - 1], c);
      var x := df[|df| - 1];
      if x.category == c then p + [x] else p
  }

  function OfPerson(df: seq<Contract>, dni: string): (r: seq<Contract>)
    ensures |r| <= |df|
    ensures forall x :: x in r ==> x in df && x.dni == dni
  {
    if df == [] then []
    else
      var p := OfPerson(df[..|df| - 1], dni);
      var x := df[|df| - 1];
      if x.dni == dni then p + [x] else p
  }

  /** The selection works row by row: selecting from a concatenation concatenates the selections, so frame order and repeats are kept. */
  lemma {:induction false} InCategoriesAppend(a: seq<Contract>, b: seq<Contract>, cats: seq<string>)
    ensures InCategories(a + b, cats) == InCategories(a, cats) + InCategories(b, cats)
  {
    if b == [] {
      assert a + b == a;
    } else {
      var q := b[..|b| - 1];
      assert (a + b)[..|a + b| - 1] == a + q;
      assert (a + b)[|a + b| - 1] == b[|b| - 1];
      InCategoriesAppend(a, q, cats);
    }
  }

  /** A single row is kept exactly when its category is selected. */
  lemma InCategoriesSingle(x: Contract, cats: seq<string>)
    ensures InCategories([x], cats) == if x.category in cats then [x] else []
  {
    assert [x][..0] == [];
  }

  /** One category's rows of a concatenation are its rows of each part, in frame order. */
  lemma {:induction false} OfCategoryAppend(a: seq<Contract>, b: seq<Contract>, c: string)
    ensures OfCategory(a + b, c) == OfCategory(a, c) + OfCategory(b, c)
  {
    if b == [] {
      assert a + b == a;
    } else {
      var q := b[..|b| - 1];
      assert (a + b)[..|a + b| - 1] == a + q;
      assert (a + b)[|a + b| - 1] == b[|b| - 1];
      OfCategoryAppend(a, q, c);
    }
  }

  /** A single row is kept exactly when it has the category. */
  lemma OfCategorySingle(x: Contract, c: string)
    ensures OfCategory([x], c) == if x.category == c then [x] else []
  {
    assert [x][..0] == [];
  }

  /** One person's rows of a concatenation are that person's rows of each part, in frame order. */
  lemma {:induction false} OfPersonAppend(a: seq<Contract>, b: seq<Contract>, dni: string)
    ensures OfPerson(a + b, dni) == OfPerson(a, dni) + OfPerson(b, dni)
  {
    if b == [] {
      assert a + b == a;
    } else {
      var q := b[..|b| - 1];
      assert (a + b)[..|a + b| - 1] == a + q;
      assert (a + b)[|a + b| - 1] == b[|b| - 1];
      OfPersonAppend(a, q, dni);
    }
  }

  /** A single row is kept exactly when it has the DNI. */
  lemma OfPersonSingle(x: Contract, dni: string)
    ensures OfPerson([x], dni) == if x.dni == dni then [x] else []
  {
    assert [x][..0] == [];
  }

  /** The rows of any of the persons `ps`. */
  function OfPersons(df: seq<Contract>, ps: seq<string>): (r: seq<Contract>)
    ensures |r| <= |df|
    ensures forall x :: x in r ==> x in df && x.dni in ps
  {
    if df == [] then []
    else
      var p := OfPersons(df[..|df| - 1], ps);
      var x := df[|df| - 1];
      if x.dni in ps then p + [x] else p
  }

  /** The DNI column. */
  function Dnis(df: seq<Contract>): (r: seq<string>)
    ensures |r| == |df| && forall i :: 0 <= i < |df| ==> r[i] == df[i].dni
  {
    seq(|df|, i requires 0 <= i < |df| => df[i].dni)
  }

  /** `df['DNI'].unique()`: the distinct persons in order of first appearance. */
  function Persons(df: seq<Contract>): (ps: seq<string>)
    ensures NoDup(ps)
    ensures forall p :: p in ps <==> p in Dnis(df)
  {
    Unique(Dnis(df))
  }

  /** Every row's person is among the persons of the frame. */
  lemma PersonsCover(df: seq<Contract>, x: Contract)
    requires x in df
    ensures x.dni in Persons(df)
  {
    var i :| 0 <= i < |df| && df[i] == x;
    assert Dnis(df)[i] == x.dni;
  }

  /** Every person of the frame has a row. */
  lemma PersonsSound(df: seq<Contract>, p: string) returns (x: Contract)
    requires p in Persons(df)
    ensures x in df && x.dni == p
  {
    var i :| 0 <= i < |df| && Dnis(df)[i] == p;
    x := df[i];
  }

  // ----- splitting selections -----

  /** Adding one more category to a selection adds exactly that category's rows. */
  lemma {:induction false} InCategoriesAddCategory(df: seq<Contract>, cats: seq<string>, c: string)
    requires c !in cats
    ensures multiset(InCategories(df, cats + [c])) == multiset(InCategories(df, cats)) + multiset(OfCategory(df, c))
  {
    if df != [] {
      InCategoriesAddCategory(df[..|df| - 1], cats, c);
    }
  }

  /** Selecting one category out of a selection that contains it gives that category's rows. */
  lemma {:induction false} OfCategoryOfSelection(df: seq<Contract>, cats: seq<string>, c: string)
    requires c in cats
    ensures OfCategory(InCategories(df, cats), c) == OfCategory(df, c)
  {
    if df != [] {
      var p := df[..|df| - 1];
      var x := df[|df| - 1];
      OfCategoryOfSelection(p, cats, c);
      var ip := InCategories(p, cats);
      if x.category in cats {
        assert (ip + [x])[..|ip + [x]| - 1] == ip;
      }
    }
  }

  /** Filtering a selection again by the same categories changes nothing. */
  lemma {:induction false} InCategoriesIdempotent(df: seq<Contract>, cats: seq<string>)
    ensures InCategories(InCategories(df, cats), cats) == InCategories(df, cats)
  {
    if df != [] {
      var p := df[..|df| - 1];
      var x := df[|df| - 1];
      InCategoriesIdempotent(p, cats);
      var ip := InCategories(p, cats);
      if x.category in cats {
        assert (ip + [x])[..|ip + [x]| - 1] == ip;
      }
    }
  }

  /** A row of the selected categories is in the selection. */
  lemma {:induction false} InCategoriesKeeps(df: seq<Contract>, cats: seq<string>, x: Contract)
    requires x in df && x.category in cats
    ensures x in InCategories(df, cats)
  {
    var p := df[..|df| - 1];
    if x != df[|df| - 1] {
      assert df == p + [df[|df| - 1]];
      InCategoriesKeeps(p, cats, x);
    }
  }

  lemma {:induction false} OfCategoryKeeps(df: seq<Contract>, c: string, x: Contract)
    requires x in df && x.category == c
    ensures x in OfCategory(df, c)
  {
    var p := df[..|df| - 1];
    if x != df[|df| - 1] {
      assert df == p + [df[|df| - 1]];
      OfCategoryKeeps(p, c, x);
    }
  }

  /** A category has a row exactly when it has a person. */
  lemma PersonsEmpty(df: seq<Contract>)
    ensures Persons(df) == [] <==> df == []
  {
    if df != [] {
      PersonsCover(df, df[0]);
    }
  }

  /** Every row of `df` is in the rows of its own person. */
  lemma {:induction false} OfPersonKeeps(df: seq<Contract>, x: Contract)
    requires x in df
    ensures x in OfPerson(df, x.dni)
  {
    var p := df[..|df| - 1];
    if x != df[|df| - 1] {
      assert df == p + [df[|df| - 1]];
      OfPersonKeeps(p, x);
    }
  }

  /** Adding one more person adds exactly that person's rows. */
  lemma {:induction false} OfPersonsAddPerson(df: seq<Contract>, ps: seq<string>, p: string)
    requires p !in ps
    ensures multiset(OfPersons(df, ps + [p])) == multiset(OfPersons(df, ps)) + multiset(OfPerson(df, p))
  {
    if df != [] {
      OfPersonsAddPerson(df[..|df| - 1], ps, p);
    }
  }

  /** Selecting every person of a frame selects the whole frame. */
  lemma {:induction false} OfPersonsAll(df: seq<Contract>, ps: seq<string>)
    requires forall x :: x in df ==> x.dni in ps
    ensures OfPersons(df, ps) == df
  {
    if df != [] {
      var p := df[..|df| - 1];
      assert df == p + [df[|df| - 1]];
      OfPersonsAll(p, ps);
    }
  }

  /** Selecting no category selects no row. */
  lemma {:induction false} InCategoriesNone(df: seq<Contract>)
    ensures InCategories(df, []) == []
  {
    if df != [] {
      InCategoriesNone(df[..|df| - 1]);
    }
  }

  /** Selecting no person selects no row. */
  lemma {:induction false} OfPersonsNone(df: seq<Contract>)
    ensures OfPersons(df, []) == []
  {
    if df != [] {
      OfPersonsNone(df[..|df| - 1]);
    }
  }
}
