/**
 * The youth-unemployment pie chart driven by the map's payloads: the rows
 * of the requested territories, sorted by territory name, one facet row per
 * territory present, 380 pixels per row and at least 500.
 */
module PieUnemploy {
  import opened Common
  import opened Payload
  import opened Rows
  import Chart

  /** What the callback returns beside its fixed title. */
  datatype PieView = Placeholder | Pie(rows: seq<Row<Unemployment>>, layout: Chart.Layout)

  /** Python's `<=` on strings: code point by code point. */
  predicate LexLe(a: string, b: string)
    decreases |a|
  {
    if a == [] then true
    else if b == [] then false
    else if a[0] != b[0] then a[0] < b[0]
    else LexLe(a[1..], b[1..])
  }

  lemma {:induction false} LexTotal(a: string, b: string)
    ensures LexLe(a, b) || LexLe(b, a)
    decreases |a|
  {
    if a != [] && b != [] && a[0] == b[0] {
      LexTotal(a[1..], b[1..]);
    }
  }

  lemma {:induction false} LexTransitive(a: string, b: string, c: string)
    requires LexLe(a, b) && LexLe(b, c)
    ensures LexLe(a, c)
    decreases |a|
  {
    if a != [] && b != [] && c != [] && a[0] == b[0] && b[0] == c[0] {
      LexTransitive(a[1..], b[1..], c[1..]);
    }
  }

  predicate SortedByTerritory<M>(rows: seq<Row<M>>)
  {
    forall i, j :: 0 <= i < j < |rows| ==> LexLe(rows[i].territory, rows[j].territory)
  }

  /** Inserts a row before the first row whose territory is not smaller. */
  function Insert<M>(x: Row<M>, sorted: seq<Row<M>>): seq<Row<M>>
  {
    if sorted == [] || LexLe(x.territory, sorted[0].territory) then [x] + sorted
    else [sorted[0]] + Insert(x, sorted[1..])
  }

  /**
   * `sort_values("Pays et territoires insulaires du Pacifique")`: the rows
   * ordered by territory, each kept as often as it occurs.
   */
  function SortByTerritory<M(!new)>(rows: seq<Row<M>>): (r: seq<Row<M>>)
    ensures SortedByTerritory(r)
    ensures multiset(r) == multiset(rows)
  {
    if rows == [] then []
    else
      var rest := SortByTerritory(rows[1..]);
      InsertSorted(rows[0], rest);
      InsertKeepsRows(rows[0], rest);
      assert rows == [rows[0]] + rows[1..];
      Insert(rows[0], rest)
  }

  /** A row no larger than every row of a sorted table can head it. */
  lemma SortedCons<M(!new)>(head: Row<M>, tail: seq<Row<M>>)
    requires SortedByTerritory(tail)
    requires forall y :: y in tail ==> LexLe(head.territory, y.territory)
    ensures SortedByTerritory([head] + tail)
  {
    var r := [head] + tail;
    forall i, j | 0 <= i < j < |r| ensures LexLe(r[i].territory, r[j].territory) {
      assert r[j] == tail[j - 1];
      if i > 0 { assert r[i] == tail[i - 1]; }
    }
  }

  lemma {:induction false} InsertKeepsRows<M(!new)>(x: Row<M>, sorted: seq<Row<M>>)
    ensures multiset(Insert(x, sorted)) == multiset(sorted) + multiset{x}
    ensures forall y :: y in Insert(x, sorted) <==> y == x || y in sorted
  {
    if sorted != [] && !LexLe(x.territory, sorted[0].territory) {
      InsertKeepsRows(x, sorted[1..]);
      assert sorted == [sorted[0]] + sorted[1..];
    }
  }

  lemma {:induction false} InsertSorted<M(!new)>(x: Row<M>, sorted: seq<Row<M>>)
    requires SortedByTerritory(sorted)
    ensures SortedByTerritory(Insert(x, sorted))
  {
    if sorted == [] {
    } else if LexLe(x.territory, sorted[0].territory) {
      forall y | y in sorted ensures LexLe(x.territory, y.territory) {
        var k :| 0 <= k < |sorted| && sorted[k] == y;
        if k > 0 { LexTransitive(x.territory, sorted[0].territory, y.territory); }
      }
      SortedCons(x, sorted);
    } else {
      var rest := Insert(x, sorted[1..]);
      InsertSorted(x, sorted[1..]);
      InsertKeepsRows(x, sorted[1..]);
      LexTotal(x.territory, sorted[0].territory);
      forall y | y in rest ensures LexLe(sorted[0].territory, y.territory) {
        if y != x {
          var k :| 0 <= k < |sorted[1..]| && sorted[1..][k] == y;
          assert sorted[k + 1] == y;
        }
      }
      SortedCons(sorted[0], rest);
    }
  }

  /**
   * `pie_by_country(clickData, selectedData)`: the placeholder when both
   * payloads are `None`; otherwise exactly the rows of the requested
   * territories, sorted by territory, in a single facet column whose height
   * gives each territory present 380 pixels, at least 500.
   */
  function PieByCountry(unemployed: seq<Row<Unemployment>>, clickData: Option<PointList>, selectedData: Option<PointList>)
    : (r: Result<PieView, PayloadError>)
    ensures r == Success(Placeholder) <==> clickData.None? && selectedData.None?
    ensures r.Failure? <==> Decode(clickData, selectedData).Failure?
    ensures r.Success? && r.value.Pie? ==>
              && Decode(clickData, selectedData).Success?
              && Decode(clickData, selectedData).value.Requested?
              && var country := Decode(clickData, selectedData).value.locations;
              && multiset(r.value.rows) == multiset(FilterIn(unemployed, country))
              && (forall x :: x in r.value.rows <==> x in unemployed && x.territory in country)
              && SortedByTerritory(r.value.rows)
              && |Territories(r.value.rows)| <= |country|
              && r.value.layout == Chart.FacetRow(Chart.Max(Chart.MinHeight, Chart.FacetHeight * |Territories(r.value.rows)|))
  {
    match Decode(clickData, selectedData)
    case Failure(e) => Failure(e)
    case Success(NoPayload) => Success(Placeholder)
    case Success(Requested(country)) =>
      var selection := FilterIn(unemployed, country);
      var nbCountry := |Territories(selection)|;
      var sorted := SortByTerritory(selection);
      TerritoriesOfFilter(unemployed, country);
      assert forall x :: x in unemployed ==> multiset(unemployed)[x] > 0;
      assert forall x :: x in sorted <==> multiset(sorted)[x] > 0;
      assert forall x :: x in selection <==> multiset(selection)[x] > 0;
      assert Territories(sorted) == Territories(selection);
      Success(Pie(sorted, Chart.FacetRow(Chart.Max(Chart.MinHeight, Chart.FacetHeight * nbCountry))))
  }
}
