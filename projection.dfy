/**
 * What every view reads from a store snapshot: whether anything is selected
 * (`any(data.values())`) and the selected territories
 * (`[territory for territory, selected in data.items() if selected]`).
 */
module Projection {
  import opened Common
  import opened Payload
  import opened Selection

  /** `any(data.values())`. */
  predicate AnySelected(s: Store)
  {
    exists k :: k in s.values && Truthy(s.values[k])
  }

  /**
   * On a well-formed store, `any(data.values())` holds exactly when some
   * key of the dictionary, in its order, has a truthy value.
   */
  lemma AnySelectedOverKeys(s: Store)
    requires s.Valid()
    ensures AnySelected(s) <==> exists i :: 0 <= i < |s.keys| && Truthy(s.values[s.keys[i]])
  {
    if AnySelected(s) {
      var k :| k in s.values && Truthy(s.values[k]);
      assert k in Elements(s.keys);
      var i :| 0 <= i < |s.keys| && s.keys[i] == k;
    }
  }

  /** The keys of `keys` whose value is truthy, in the order of `keys`. */
  function TruthyKeys(keys: seq<Key>, values: map<Key, int>): (r: seq<Key>)
    requires forall k :: k in keys ==> k in values
    ensures forall k :: k in r <==> k in keys && Truthy(values[k])
    ensures Subsequence(r, keys)
    ensures Distinct(keys) ==> Distinct(r)
  {
    if keys == [] then []
    else
      var rest := TruthyKeys(keys[1..], values);
      assert forall k :: k in keys <==> k == keys[0] || k in keys[1..];
      if Truthy(values[keys[0]]) then
        assert Distinct(keys) ==> keys[0] !in rest by {
          if Distinct(keys) {
            forall j | 0 <= j < |keys[1..]| ensures keys[1..][j] != keys[0] {
              assert keys[1..][j] == keys[j + 1];
            }
          }
        }
        [keys[0]] + rest
      else
        assert rest != [] ==> rest[0] != keys[0] by {
          if rest != [] { assert rest[0] in rest; }
        }
        rest
  }

  /** The selected territories, in store order, each once. */
  function SelectedKeys(s: Store): (r: seq<Key>)
    requires s.Valid()
    ensures forall k :: k in r <==> k in s.values && Truthy(s.values[k])
    ensures Distinct(r)
    ensures Subsequence(r, s.keys)
    ensures r == [] <==> !AnySelected(s)
  {
    var r := TruthyKeys(s.keys, s.values);
    assert r != [] ==> r[0] in r;
    r
  }

  /** When every value is truthy, every key is selected, in store order. */
  lemma {:induction false} AllTruthySelectsAll(keys: seq<Key>, values: map<Key, int>)
    requires forall k :: k in keys ==> k in values && Truthy(values[k])
    ensures TruthyKeys(keys, values) == keys
  {
    if keys != [] {
      AllTruthySelectsAll(keys[1..], values);
    }
  }

  /** A session starts with nothing selected. */
  lemma InitialSelection(catalog: seq<Key>)
    ensures !AnySelected(InitialStore(catalog))
    ensures SelectedKeys(InitialStore(catalog)) == []
  {
  }

  /**
   * On a reachable store a click on a known territory adds it to the
   * selection when it was not selected and removes it when it was; every
   * other territory keeps its selection.
   */
  lemma ClickTogglesMembership(s: Store, clickData: Option<PointList>)
    requires s.Valid() && BinaryValues(s)
    requires Click(s, clickData).Success?
    ensures var after := SelectedKeys(Click(s, clickData).value);
      forall k :: k in after <==>
        if clickData.Some? && k == clickData.value.points[0].location && k in s.values
        then k !in SelectedKeys(s)
        else k in SelectedKeys(s)
  {
    ClickFlipsSelection(s, clickData);
  }
}
