/**
 * The education-attainment bar chart driven directly by the map's click and
 * selection payloads. It draws one facet per territory present in the
 * requested rows: stacked in a single column for fewer than three
 * territories, wrapped two per row from three on, with a height that gives
 * each facet row 380 pixels and never drops below 500. Facet titles
 * ("column=value") are cut down to their value.
 */
module Chart {
  import opened Common
  import opened Payload
  import opened Rows

  const MinHeight := 500
  const FacetHeight := 380
  const WrapThreshold := 3
  const WrapColumns := 2

  /** The facet arguments passed to the figure (`param`). */
  datatype Layout =
    | FacetRow(height: int)                // one territory per row
    | FacetColWrap(height: int, wrap: nat) // facet columns wrapped after `wrap`

  /** What the callback returns beside its fixed title. */
  datatype ChartView = Placeholder | Graph(rows: seq<Row<Attainment>>, layout: Layout)

  function Max(a: int, b: int): int
  {
    if a < b then b else a
  }

  /** How many rows of facets a layout stacks for `count` territories. */
  function FacetRows(layout: Layout, count: nat): nat
  {
    match layout
    case FacetRow(_) => count
    case FacetColWrap(_, wrap) => if wrap == 0 then count else (count + wrap - 1) / wrap
  }

  /**
   * The layout for `nb_country` territories: a single column below the
   * threshold, two wrapped columns from it on; the height is 380 pixels per
   * facet row, at least 500.
   */
  function FacetLayout(count: nat): (r: Layout)
    ensures r.FacetRow? <==> count < WrapThreshold
    ensures r.FacetColWrap? ==> r.wrap == WrapColumns
    ensures FacetRows(r, count) * WrapColumns >= count
    ensures r.height == Max(MinHeight, FacetHeight * FacetRows(r, count))
    ensures r.height >= MinHeight && r.height >= FacetHeight * FacetRows(r, count)
  {
    if count < WrapThreshold then
      FacetRow(Max(MinHeight, FacetHeight * count))
    else
      assert count / 2 + count % 2 == (count + 2 - 1) / 2;
      FacetColWrap(Max(MinHeight, FacetHeight * (count / 2 + count % 2)), WrapColumns)
  }

  /** Five territories wrap into three rows of two; two territories stack. */
  lemma LayoutExamples()
    ensures FacetLayout(5) == FacetColWrap(1140, 2)
    ensures FacetLayout(2) == FacetRow(760)
    ensures FacetLayout(1) == FacetRow(500)
  {
  }

  /** `text.split("=")[-1]`: the part after the last `=`, or all of it. */
  function AfterLastEq(text: string): (r: string)
    ensures '=' !in r
    ensures |r| <= |text| && r == text[|text| - |r|..]
    ensures |r| < |text| ==> text[|text| - |r| - 1] == '='
  {
    if text == [] then []
    else if text[|text| - 1] == '=' then []
    else
      var init := text[..|text| - 1];
      var r := AfterLastEq(init) + [text[|text| - 1]];
      assert text == init + [text[|text| - 1]];
      r
  }

  /**
   * A facet title "column=value" becomes "value" whenever the value itself
   * holds no `=`, whatever the column name.
   */
  lemma {:induction false} FacetTitle(column: string, value: string)
    requires '=' !in value
    ensures AfterLastEq(column + "=" + value) == value
  {
    if value != [] {
      var init := value[..|value| - 1];
      assert column + "=" + value == (column + "=" + init) + [value[|value| - 1]];
      assert (column + "=" + value)[..|column + "=" + value| - 1] == column + "=" + init;
      assert value[|value| - 1] in value;
      FacetTitle(column, init);
      assert value == init + [value[|value| - 1]];
    } else {
      assert (column + "=" + value)[|column + "=" + value| - 1] == '=';
    }
  }

  /** Cutting a title twice is cutting it once. */
  lemma AfterLastEqIdempotent(text: string)
    ensures AfterLastEq(AfterLastEq(text)) == AfterLastEq(text)
  {
    NoEqUnchanged(AfterLastEq(text));
  }

  /** A text without `=` is left whole. */
  lemma {:induction false} NoEqUnchanged(text: string)
    requires '=' !in text
    ensures AfterLastEq(text) == text
  {
    if text != [] {
      var init := text[..|text| - 1];
      assert text == init + [text[|text| - 1]];
      assert '=' !in init;
      NoEqUnchanged(init);
    }
  }

  /**
   * `chart_by_country(clickData, selectedData)`: the placeholder when both
   * payloads are `None`; otherwise the rows of the requested territories,
   * in table order, laid out by the number of distinct territories among
   * them, which never exceeds the number of requested locations.
   */
  function ChartByCountry(ratio: seq<Row<Attainment>>, clickData: Option<PointList>, selectedData: Option<PointList>)
    : (r: Result<ChartView, PayloadError>)
    ensures r == Success(Placeholder) <==> clickData.None? && selectedData.None?
    ensures r.Failure? <==> Decode(clickData, selectedData).Failure?
    ensures r.Success? && r.value.Graph? ==>
              && Decode(clickData, selectedData).Success?
              && Decode(clickData, selectedData).value.Requested?
              && var country := Decode(clickData, selectedData).value.locations;
              && (forall x :: x in r.value.rows <==> x in ratio && x.territory in country)
              && (forall x :: multiset(r.value.rows)[x] == if x.territory in country then multiset(ratio)[x] else 0)
              && Subsequence(r.value.rows, ratio)
              && |Territories(r.value.rows)| <= |country|
              && r.value.layout == FacetLayout(|Territories(r.value.rows)|)
  {
    match Decode(clickData, selectedData)
    case Failure(e) => Failure(e)
    case Success(NoPayload) => Success(Placeholder)
    case Success(Requested(country)) =>
      var ratioCountry := FilterIn(ratio, country);
      TerritoriesOfFilter(ratio, country);
      assert forall x :: x in ratio ==> multiset(ratio)[x] > 0;
      assert forall x :: x in ratioCountry <==> multiset(ratioCountry)[x] > 0;
      Success(Graph(ratioCountry, FacetLayout(|Territories(ratioCountry)|)))
  }
}
