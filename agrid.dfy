/**
 * The territory grid: a table with the single column "Territory". It starts
 * with one row per catalog territory and then lists the selected
 * territories (`to_dict("records")` of a one-column frame) of the store
 * whose id its caller passes. The dashboard's layout does not place it.
 */
module Agrid {
  import opened Common
  import opened Payload
  import opened Selection
  import opened Projection

  /** `{"Territory": name}`: a record with one field. */
  datatype Record = Record(territory: Key)

  /** One record per name, in the given order. */
  function Records(names: seq<Key>): (r: seq<Record>)
    ensures |r| == |names|
    ensures forall i :: 0 <= i < |names| ==> r[i] == Record(names[i])
  {
    seq(|names|, i requires 0 <= i < |names| => Record(names[i]))
  }

  /** The initial `rowData`: one record per catalog row, in catalog order. */
  function InitialRowData(catalog: seq<Key>): (r: seq<Record>)
    ensures |r| == |catalog|
    ensures forall i :: 0 <= i < |catalog| ==> r[i].territory == catalog[i]
  {
    Records(catalog)
  }

  /**
   * `update_content(storage)`: one record per selected territory, in store
   * order, each territory once; none when nothing is selected.
   */
  function UpdateContent(s: Store): (r: seq<Record>)
    requires s.Valid()
    ensures r == [] <==> !AnySelected(s)
    ensures forall k :: Record(k) in r <==> k in s.values && Truthy(s.values[k])
    ensures Distinct(r)
    ensures Subsequence(r, Records(s.keys))
  {
    var countries := SelectedKeys(s);
    RecordsPreserveOrder(countries, s.keys);
    assert forall k :: Record(k) in Records(countries) <==> k in countries;
    Records(countries)
  }

  /** Mapping names to records keeps subsequences. */
  lemma {:induction false} RecordsPreserveOrder(a: seq<Key>, b: seq<Key>)
    requires Subsequence(a, b)
    ensures Subsequence(Records(a), Records(b))
    decreases |b|
  {
    if a != [] && b != [] {
      assert Records(a)[1..] == Records(a[1..]);
      assert Records(b)[1..] == Records(b[1..]);
      if a[0] == b[0] {
        RecordsPreserveOrder(a[1..], b[1..]);
      } else {
        RecordsPreserveOrder(a, b[1..]);
      }
    }
  }

  /** A session's grid is empty after the first store update, whatever the catalog. */
  lemma GridStartsEmpty(catalog: seq<Key>)
    ensures UpdateContent(InitialStore(catalog)) == []
  {
    InitialSelection(catalog);
  }

  /**
   * With every territory of a catalog without repeats selected, the grid
   * shows the whole catalog again, as at the start.
   */
  lemma GridAllSelected(catalog: seq<Key>, s: Store)
    requires Distinct(catalog)
    requires s.keys == catalog && s.Valid()
    requires forall k :: k in s.values ==> Truthy(s.values[k])
    ensures UpdateContent(s) == InitialRowData(catalog)
  {
    AllTruthySelectsAll(s.keys, s.values);
  }
}
