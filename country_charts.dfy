/**
 * The per-territory section below the map: for every selected territory,
 * in store order, a block titled with the territory's name and holding three
 * indicator slots (youth literacy, education attainment, youth not in
 * education, employment or training). Each slot shows "No data" when its
 * dataset has no row for the territory, independently of the other two.
 */
module CountryCharts {
  import opened Common
  import opened Rows
  import opened Selection
  import opened Projection

  /** One territory's block (`_helper_chart_by_country`). */
  datatype CountryBlock = CountryBlock(
    title: string,
    literacy: Cell<LiteracyRates>,
    education: Cell<seq<Row<Attainment>>>,
    unemployed: Cell<seq<Row<Unemployment>>>)

  /** The children of the section's column: one spacer, then the blocks. */
  datatype Child = Spacer | Block(block: CountryBlock)

  /** ASCII upper case. */
  function Upper(c: char): char
  {
    if 'a' <= c <= 'z' then (c as int - 32) as char else c
  }

  /** ASCII lower case. */
  function Lower(c: char): char
  {
    if 'A' <= c <= 'Z' then (c as int + 32) as char else c
  }

  /** `str.capitalize()`: first character upper case, the rest lower case. */
  function Capitalize(s: string): (r: string)
    ensures |r| == |s|
    ensures s != [] ==> r[0] == Upper(s[0]) && !('a' <= r[0] <= 'z')
    ensures forall i :: 1 <= i < |s| ==> r[i] == Lower(s[i]) && !('A' <= r[i] <= 'Z')
  {
    if s == [] then []
    else [Upper(s[0])] + seq(|s| - 1, i requires 0 <= i < |s| - 1 => Lower(s[i + 1]))
  }

  /** Capitalizing twice is capitalizing once. */
  lemma CapitalizeIdempotent(s: string)
    ensures Capitalize(Capitalize(s)) == Capitalize(s)
  {
    var c := Capitalize(s);
    var cc := Capitalize(c);
    assert |cc| == |c|;
    forall i | 0 <= i < |c| ensures cc[i] == c[i] {
      if i == 0 { assert Upper(Upper(s[0])) == Upper(s[0]); }
      else { assert Lower(Lower(s[i])) == Lower(s[i]); }
    }
  }

  /**
   * `__helper_chart_by_country_alphabetisation`: "No data" when the table has
   * no row for the territory, otherwise the men's and women's rates of its
   * first row.
   */
  function LiteracyCell(country: Key, literacy: seq<Row<LiteracyRates>>): (r: Cell<LiteracyRates>)
    ensures r.NoData? <==> forall x :: x in literacy ==> x.territory != country
    ensures r.Figure? ==> exists i ::
              && 0 <= i < |literacy| && literacy[i].territory == country
              && r.figure == literacy[i].measures
              && forall j :: 0 <= j < i ==> literacy[j].territory != country
  {
    var slice := WhereEq(literacy, country);
    if slice == [] then NoData
    else
      FirstMatch(literacy, country);
      Figure(slice[0].measures)
  }

  /**
   * `__helper_chart_by_country_education` and
   * `__helper_chart_by_country_unemployed`: "No data" when the table has no
   * row for the territory, otherwise a chart of exactly its rows, in table
   * order.
   */
  function ChartCell<M(==,!new)>(country: Key, rows: seq<Row<M>>): (r: Cell<seq<Row<M>>>)
    ensures r.NoData? <==> forall x :: x in rows ==> x.territory != country
    ensures r.Figure? ==>
              && r.figure != []
              && (forall x :: x in r.figure <==> x in rows && x.territory == country)
              && (forall x :: multiset(r.figure)[x] == if x.territory == country then multiset(rows)[x] else 0)
              && Subsequence(r.figure, rows)
  {
    var slice := WhereEq(rows, country);
    if slice == [] then NoData
    else
      assert slice[0] in slice;
      Figure(slice)
  }

  /** `_helper_chart_by_country`: the block of one territory. */
  function BuildBlock(
    country: Key,
    unemployed: seq<Row<Unemployment>>,
    education: seq<Row<Attainment>>,
    literacy: seq<Row<LiteracyRates>>): (r: CountryBlock)
    ensures r.title == Capitalize(country)
    ensures r.literacy == LiteracyCell(country, literacy)
    ensures r.education == ChartCell(country, education)
    ensures r.unemployed == ChartCell(country, unemployed)
  {
    CountryBlock(
      Capitalize(country),
      LiteracyCell(country, literacy),
      ChartCell(country, education),
      ChartCell(country, unemployed))
  }

  /**
   * A block built from the slices of the selected territories is the block
   * built from the whole datasets: the other selected territories never
   * leak into it.
   */
  lemma BlockOfSlices(
    country: Key, keys: seq<Key>,
    unemployed: seq<Row<Unemployment>>,
    education: seq<Row<Attainment>>,
    literacy: seq<Row<LiteracyRates>>)
    requires country in keys
    ensures BuildBlock(country, FilterIn(unemployed, keys), FilterIn(education, keys), FilterIn(literacy, keys))
         == BuildBlock(country, unemployed, education, literacy)
  {
    FilterOfSlice(unemployed, keys, [country]);
    FilterOfSlice(education, keys, [country]);
    FilterOfSlice(literacy, keys, [country]);
  }

  /** Every selected territory's block is the same from the slices as from the tables. */
  lemma BlocksOfSlices(
    countries: seq<Key>,
    unemployed: seq<Row<Unemployment>>,
    education: seq<Row<Attainment>>,
    literacy: seq<Row<LiteracyRates>>)
    ensures forall i :: 0 <= i < |countries| ==>
      BuildBlock(countries[i], FilterIn(unemployed, countries), FilterIn(education, countries), FilterIn(literacy, countries))
        == BuildBlock(countries[i], unemployed, education, literacy)
  {
    forall i | 0 <= i < |countries|
      ensures BuildBlock(countries[i], FilterIn(unemployed, countries), FilterIn(education, countries), FilterIn(literacy, countries))
           == BuildBlock(countries[i], unemployed, education, literacy)
    {
      BlockOfSlices(countries[i], countries, unemployed, education, literacy);
    }
  }

  /**
   * `update_charts_by_country`: `None` when nothing is selected; otherwise a
   * spacer followed by one block per selected territory, in store order,
   * each built from that territory's rows only.
   */
  function UpdateChartsByCountry(
    s: Store,
    unemployed: seq<Row<Unemployment>>,
    education: seq<Row<Attainment>>,
    literacy: seq<Row<LiteracyRates>>): (r: Option<seq<Child>>)
    requires s.Valid()
    ensures r.None? <==> !AnySelected(s)
    ensures r.Some? ==>
              var countries := SelectedKeys(s);
              && |r.value| == 1 + |countries|
              && r.value[0] == Spacer
              && forall i :: 0 <= i < |countries| ==>
                   r.value[i + 1] == Block(BuildBlock(countries[i], unemployed, education, literacy))
  {
    if !AnySelected(s) then None
    else
      var countries := SelectedKeys(s);
      var unemployedSlice := FilterIn(unemployed, countries);
      var educationSlice := FilterIn(education, countries);
      var literacySlice := FilterIn(literacy, countries);
      var blocks := seq(|countries|, i requires 0 <= i < |countries| =>
        Block(BuildBlock(countries[i], unemployedSlice, educationSlice, literacySlice)));
      BlocksOfSlices(countries, unemployed, education, literacy);
      Some([Spacer] + blocks)
  }
}
