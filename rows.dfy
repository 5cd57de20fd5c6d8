/**
 * The datasets as the callbacks see them: flat tables whose rows carry one
 * territory name (the column "Pays et territoires insulaires du Pacifique")
 * and some measurement columns. A boolean-mask selection
 * `df[df[col].isin(keys)]` keeps the rows whose territory is among `keys`,
 * in table order; `df[df[col] == key]` is the same mask with one key.
 */
module Rows {
  import opened Common

  type Key = string

  /** One table row: its territory and its measurement columns. */
  datatype Row<M> = Row(territory: Key, measures: M)

  /** Literacy table: the columns "Homme" and "Femme". */
  datatype LiteracyRates = LiteracyRates(men: real, women: real)

  /** Education table: "Niveau d'éducation", "Genre" and "Ratio". */
  datatype Attainment = Attainment(level: string, gender: string, ratio: real)

  /** Unemployment table: "Sexe" and "Pourcentage". */
  datatype Unemployment = Unemployment(sex: string, percentage: real)

  /** What one indicator slot shows: the "No data" placeholder or a figure. */
  datatype Cell<F> = NoData | Figure(figure: F)

  /** `df[df[territory].isin(keys)]`. */
  function FilterIn<M(==,!new)>(rows: seq<Row<M>>, keys: seq<Key>): (r: seq<Row<M>>)
    ensures forall x :: x in r ==> x.territory in keys
    ensures forall x :: multiset(r)[x] == if x.territory in keys then multiset(rows)[x] else 0
    ensures Subsequence(r, rows)
  {
    if rows == [] then []
    else
      var tail := FilterIn(rows[1..], keys);
      assert rows == [rows[0]] + rows[1..];
      if rows[0].territory in keys then [rows[0]] + tail
      else
        assert tail != [] ==> tail[0] != rows[0] by {
          if tail != [] { assert tail[0] in tail; }
        }
        tail
  }

  /** `df[df[territory] == key]`: the mask with a single key. */
  function WhereEq<M(==,!new)>(rows: seq<Row<M>>, key: Key): (r: seq<Row<M>>)
    ensures forall x :: x in r ==> x.territory == key
    ensures forall x :: x in rows && x.territory == key ==> x in r
    ensures forall x :: multiset(r)[x] == if x.territory == key then multiset(rows)[x] else 0
    ensures Subsequence(r, rows)
  {
    var r := FilterIn(rows, [key]);
    assert forall x :: x in rows ==> multiset(rows)[x] > 0;
    assert forall x :: x in r <==> multiset(r)[x] > 0;
    r
  }

  /** The distinct territories present in a table (`df[territory].unique()`). */
  function Territories<M(==,!new)>(rows: seq<Row<M>>): (r: set<Key>)
    ensures forall k :: k in r <==> exists x :: x in rows && x.territory == k
  {
    set x | x in rows :: x.territory
  }

  /**
   * Filtering a filtered slice again by keys it already admits is the same
   * as filtering the whole table: a chart drawn from the slice for one
   * selected territory sees exactly that territory's rows of the dataset.
   */
  lemma {:induction false} FilterOfSlice<M(!new)>(rows: seq<Row<M>>, outer: seq<Key>, inner: seq<Key>)
    requires forall k :: k in inner ==> k in outer
    ensures FilterIn(FilterIn(rows, outer), inner) == FilterIn(rows, inner)
  {
    if rows != [] {
      FilterOfSlice(rows[1..], outer, inner);
    }
  }

  /** A slice is empty exactly when no row of the table has a requested territory. */
  lemma SliceEmpty<M(!new)>(rows: seq<Row<M>>, keys: seq<Key>)
    ensures FilterIn(rows, keys) == [] <==> forall x :: x in rows ==> x.territory !in keys
  {
    var r := FilterIn(rows, keys);
    if r != [] {
      assert r[0] in r;
      assert multiset(r)[r[0]] > 0;
    } else {
      forall x | x in rows ensures x.territory !in keys {
        assert multiset(rows)[x] > 0;
        assert multiset(r)[x] == 0;
      }
    }
  }

  /** No selection admits no row. */
  lemma {:induction false} FilterNone<M(!new)>(rows: seq<Row<M>>)
    ensures FilterIn(rows, []) == []
  {
    if rows != [] {
      FilterNone(rows[1..]);
    }
  }

  /** The territories left in a filtered slice are among the requested keys. */
  lemma TerritoriesOfFilter<M(!new)>(rows: seq<Row<M>>, keys: seq<Key>)
    ensures Territories(FilterIn(rows, keys)) <= Elements(keys)
    ensures |Territories(FilterIn(rows, keys))| <= |keys|
  {
    var t := Territories(FilterIn(rows, keys));
    assert t <= Elements(keys);
    ElementsCardinality(keys);
    SubsetCardinality(t, Elements(keys));
  }

  lemma SubsetCardinality<T>(a: set<T>, b: set<T>)
    requires a <= b
    ensures |a| <= |b|
  {
    assert b == a + (b - a);
  }

  /**
   * The first row of `df[df[territory] == key]` is the first row of the
   * table whose territory is `key`.
   */
  lemma {:induction false} FirstMatch<M(!new)>(rows: seq<Row<M>>, key: Key)
    requires WhereEq(rows, key) != []
    ensures exists i ::
              && 0 <= i < |rows| && rows[i].territory == key
              && WhereEq(rows, key)[0] == rows[i]
              && forall j :: 0 <= j < i ==> rows[j].territory != key
  {
    assert rows != [];
    if rows[0].territory != key {
      assert WhereEq(rows, key) == WhereEq(rows[1..], key);
      FirstMatch(rows[1..], key);
      var i :| 0 <= i < |rows[1..]| && rows[1..][i].territory == key
        && WhereEq(rows[1..], key)[0] == rows[1..][i]
        && forall j :: 0 <= j < i ==> rows[1..][j].territory != key;
      assert rows[i + 1] == rows[1..][i];
      forall j | 0 <= j < i + 1 ensures rows[j].territory != key {
        if j > 0 { assert rows[j] == rows[1..][j - 1]; }
      }
    } else {
      assert WhereEq(rows, key)[0] == rows[0];
    }
  }
}
