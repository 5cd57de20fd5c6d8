/**
 * The selection store of the dashboard: a dictionary from territory name to
 * a selection flag, created with one `False` entry per territory of the
 * catalog and changed only by clicks on the map (`update_storage`).
 *
 * Python dictionaries keep insertion order, so a store is modelled by its
 * keys in that order together with the map from key to value. The flag is
 * written with Python's bitwise complement `~v == -v - 1` rather than
 * `not v`: starting from `False` (the integer 0) the values go 0, -1, 0, ...
 * A value is "selected" when it is truthy, i.e. non-zero.
 */
module Selection {
  import opened Common
  import opened Payload

  /** A snapshot of the store: its keys in dictionary order and their values. */
  datatype Store = Store(keys: seq<Key>, values: map<Key, int>)
  {
    /** What every Python dictionary satisfies: one entry per distinct key. */
    predicate Valid()
    {
      Distinct(keys) && values.Keys == Elements(keys)
    }
  }

  /** Python's truth value of an integer (`False` is 0). */
  predicate Truthy(v: int)
  {
    v != 0
  }

  /** Python's `~v` on an integer (and on a bool, which is 0 or 1). */
  function Complement(v: int): (r: int)
    ensures -r - 1 == v
    ensures v == 0 <==> r == -1
    ensures v == -1 <==> r == 0
  {
    -v - 1
  }

  /** Every value is 0 (`False`) or -1 (`~False`). */
  predicate BinaryValues(s: Store)
  {
    forall k :: k in s.values ==> s.values[k] == 0 || s.values[k] == -1
  }

  /**
   * How a Python dictionary orders its keys: walking `catalog` from the
   * front, a key is appended to `keys` the first time it is met and a
   * repeated key keeps its place.
   */
  function InsertionOrder(keys: seq<Key>, catalog: seq<Key>): seq<Key>
    decreases |catalog|
  {
    if catalog == [] then keys
    else InsertionOrder(if catalog[0] in keys then keys else keys + [catalog[0]], catalog[1..])
  }

  /** Inserting one more key after a catalog appends it only if it is new. */
  lemma {:induction false} InsertionOrderSnoc(keys: seq<Key>, catalog: seq<Key>, last: Key)
    ensures InsertionOrder(keys, catalog + [last])
         == var t := InsertionOrder(keys, catalog); if last in t then t else t + [last]
    decreases |catalog|
  {
    if catalog == [] {
      assert catalog + [last] == [last];
    } else {
      assert (catalog + [last])[1..] == catalog[1..] + [last];
      InsertionOrderSnoc(
        if catalog[0] in keys then keys else keys + [catalog[0]], catalog[1..], last);
    }
  }

  /**
   * The keys of `{i: ... for i in catalog}`: each catalog entry once, in
   * order of first occurrence.
   */
  function Dedup(catalog: seq<Key>): (r: seq<Key>)
    ensures Distinct(r)
    ensures Elements(r) == Elements(catalog)
    ensures |r| <= |catalog|
    ensures Distinct(catalog) ==> r == catalog
    ensures r == InsertionOrder([], catalog)
  {
    if catalog == [] then []
    else
      var init := catalog[..|catalog| - 1];
      var last := catalog[|catalog| - 1];
      var d := Dedup(init);
      assert catalog == init + [last];
      assert Elements(catalog) == Elements(init) + {last};
      assert Distinct(catalog) ==> Distinct(init) by {
        if Distinct(catalog) {
          forall i, j | 0 <= i < j < |init| ensures init[i] != init[j] {
            assert init[i] == catalog[i] && init[j] == catalog[j];
          }
        }
      }
      assert Distinct(catalog) ==> last !in init by {
        if Distinct(catalog) {
          forall i | 0 <= i < |init| ensures init[i] != last {
            assert init[i] == catalog[i];
          }
        }
      }
      InsertionOrderSnoc([], init, last);
      if last in d then d else d + [last]
  }

  /**
   * `{i: False for i in pacific_eez["pacific_island"]}`: one `False` entry
   * per catalog territory.
   */
  function InitialStore(catalog: seq<Key>): (r: Store)
    ensures r.Valid()
    ensures forall k :: k in r.values <==> k in catalog
    ensures forall k :: k in r.values ==> r.values[k] == 0
    ensures |r.keys| == |Elements(catalog)|
    ensures r.keys == InsertionOrder([], catalog)
    ensures Distinct(catalog) ==> r.keys == catalog
  {
    var keys := Dedup(catalog);
    ElementsCardinality(keys);
    Store(keys, map k | k in catalog :: 0)
  }

  /**
   * `update_storage(clickData, rowData)`: a missing payload or a location
   * that is not a key leaves the store as it is; a known location has its
   * value complemented. A click without points raises `IndexError` before
   * anything is written.
   */
  function Click(s: Store, clickData: Option<PointList>): (r: Result<Store, PayloadError>)
    ensures clickData.None? ==> r == Success(s)
    ensures clickData.Some? && clickData.value.points == [] ==> r == Failure(PointsEmpty)
    ensures clickData.Some? && clickData.value.points != [] ==> r.Success?
    ensures r.Success? ==> r.value.keys == s.keys && r.value.values.Keys == s.values.Keys
    ensures r.Success? && s.Valid() ==> r.value.Valid()
    ensures clickData.Some? && clickData.value.points != [] ==>
      var location := clickData.value.points[0].location;
      && (location !in s.values ==> r == Success(s))
      && (location in s.values ==>
            && r.value.values[location] == Complement(s.values[location])
            && forall k :: k in s.values && k != location ==> r.value.values[k] == s.values[k])
  {
    match clickData
    case None => Success(s)
    case Some(payload) =>
      if payload.points == [] then Failure(PointsEmpty)
      else
        var territory := payload.points[0].location;
        if territory !in s.values then Success(s)
        else Success(s.(values := s.values[territory := Complement(s.values[territory])]))
  }

  /** A repeated catalog entry keeps the place of its first occurrence. */
  lemma RepeatedEntryKeepsFirstPlace()
    ensures InitialStore(["A", "B", "A"]).keys == ["A", "B"]
  {
    var c: seq<Key> := ["A", "B", "A"];
    assert c[1..] == ["B", "A"] && c[1..][1..] == ["A"];
  }

  /** Clicking the same payload twice gives the store back. */
  lemma ClickTwiceRestores(s: Store, clickData: Option<PointList>)
    requires Click(s, clickData).Success?
    ensures Click(Click(s, clickData).value, clickData) == Success(s)
  {
    if clickData.Some? && clickData.value.points[0].location in s.values {
      var k := clickData.value.points[0].location;
      var t := Click(s, clickData).value;
      assert t.values[k := Complement(t.values[k])] == s.values;
    }
  }

  /**
   * From 0/-1 values a click keeps 0/-1 values and flips the truth value of
   * the clicked territory, and of no other.
   */
  lemma ClickFlipsSelection(s: Store, clickData: Option<PointList>)
    requires BinaryValues(s)
    requires Click(s, clickData).Success?
    ensures BinaryValues(Click(s, clickData).value)
    ensures forall k :: k in s.values ==>
      (Truthy(Click(s, clickData).value.values[k]) <==>
         if clickData.Some? && k == clickData.value.points[0].location then !Truthy(s.values[k])
         else Truthy(s.values[k]))
  {
  }

  /** The store after the Dash runtime has fed it a series of map clicks. */
  function Replay(s: Store, clicks: seq<Option<PointList>>): Store
    decreases |clicks|
  {
    if clicks == [] then s
    else
      var next := match Click(s, clicks[0]) case Success(t) => t case Failure(_) => s;
      Replay(next, clicks[1..])
  }

  /**
   * Every store reachable from the initial one has the catalog as its keys,
   * in the same order, and only 0/-1 values.
   */
  lemma {:induction false} ReplayInvariant(s: Store, clicks: seq<Option<PointList>>)
    requires s.Valid() && BinaryValues(s)
    ensures Replay(s, clicks).keys == s.keys
    ensures Replay(s, clicks).values.Keys == s.values.Keys
    ensures Replay(s, clicks).Valid() && BinaryValues(Replay(s, clicks))
    decreases |clicks|
  {
    if clicks != [] {
      var next := match Click(s, clicks[0]) case Success(t) => t case Failure(_) => s;
      if Click(s, clicks[0]).Success? {
        ClickFlipsSelection(s, clicks[0]);
      }
      ReplayInvariant(next, clicks[1..]);
    }
  }

  /** The store a session starts with has only 0/-1 values, forever. */
  lemma ReachableStores(catalog: seq<Key>, clicks: seq<Option<PointList>>)
    ensures var s := Replay(InitialStore(catalog), clicks);
      && s.keys == InitialStore(catalog).keys
      && (forall k :: k in s.values <==> k in catalog)
      && BinaryValues(s)
  {
    ReplayInvariant(InitialStore(catalog), clicks);
  }

  /**
   * The store held by the client between callbacks. Its key order is fixed
   * when it is created; map clicks change values in place.
   */
  class SelectionStore {
    const keys: seq<Key>
    var values: map<Key, int>

    ghost predicate Valid()
      reads this
    {
      Snapshot().Valid()
    }

    function Snapshot(): Store
      reads this
    {
      Store(keys, values)
    }

    /** `storage_data = {i: False for i in pacific_eez["pacific_island"]}`. */
    constructor (catalog: seq<Key>)
      ensures Valid()
      ensures Snapshot() == InitialStore(catalog)
    {
      keys := Dedup(catalog);
      values := map k | k in catalog :: 0;
      new;
      ElementsCardinality(keys);
    }

    /**
     * `update_storage`: the store after the click is `Click` of the store
     * before it; when the callback raises, nothing is written.
     */
    method UpdateStorage(clickData: Option<PointList>) returns (outcome: Result<(), PayloadError>)
      requires Valid()
      modifies this
      ensures Valid()
      ensures Click(old(Snapshot()), clickData).Success? ==>
        outcome == Success(()) && Snapshot() == Click(old(Snapshot()), clickData).value
      ensures Click(old(Snapshot()), clickData).Failure? ==>
        outcome == Failure(Click(old(Snapshot()), clickData).error) && values == old(values)
    {
      if clickData.None? {
        return Success(());
      }
      var points := clickData.value.points;
      if points == [] {
        return Failure(PointsEmpty);
      }
      var territory := points[0].location;
      if territory !in values {
        return Success(());
      }
      values := values[territory := -values[territory] - 1];
      outcome := Success(());
    }
  }
}
