/**
 * The "Overall" off-canvas panel: the three indicators computed over all
 * selected territories at once. Literacy shows the mean rates of the
 * selected rows; education and unemployment group the selected rows
 * (by level and gender, by sex) and chart the group means. The means are
 * floating-point aggregates and are not modelled: a slot is described by the
 * rows it averages or by the group keys it charts, which is what decides
 * between "No data" and a figure.
 */
module OverallView {
  import opened Common
  import opened Rows
  import opened Selection
  import opened Projection

  const SelectPrompt := "Select at least one country."

  /** What the panel shows. */
  datatype Overview =
    | Prompt(text: string)
    | Panels(
        literacy: Cell<seq<Row<LiteracyRates>>>,
        education: Cell<set<(string, string)>>,
        unemployed: Cell<set<string>>)

  /**
   * `__helper_chart_by_country_alphabetisation`: "No data" for an empty
   * slice, otherwise indicators over all its rows.
   */
  function LiteracyOverall(slice: seq<Row<LiteracyRates>>): (r: Cell<seq<Row<LiteracyRates>>>)
    ensures r.NoData? <==> slice == []
    ensures r.Figure? ==> r.figure == slice
  {
    if slice == [] then NoData else Figure(slice)
  }

  /** The keys of `groupby(["Niveau d'éducation", "Genre"])`. */
  function EducationGroups(slice: seq<Row<Attainment>>): set<(string, string)>
  {
    set x | x in slice :: (x.measures.level, x.measures.gender)
  }

  /** The keys of `groupby(["Sexe"])`. */
  function UnemploymentGroups(slice: seq<Row<Unemployment>>): set<string>
  {
    set x | x in slice :: x.measures.sex
  }

  /**
   * `__helper_chart_by_country_education`: the grouped table is empty exactly
   * when the slice is, and then "No data" is shown; otherwise one bar group
   * per (level, gender) pair present in the slice.
   */
  function EducationOverall(slice: seq<Row<Attainment>>): (r: Cell<set<(string, string)>>)
    ensures r.NoData? <==> slice == []
    ensures r.Figure? ==> forall g :: g in r.figure <==>
              exists x :: x in slice && g == (x.measures.level, x.measures.gender)
  {
    var groups := EducationGroups(slice);
    assert slice != [] ==> (slice[0].measures.level, slice[0].measures.gender) in groups;
    if groups == {} then NoData else Figure(groups)
  }

  /**
   * `__helper_chart_by_country_unemployed`: "No data" exactly when the slice
   * is empty; otherwise one pie sector per sex present in the slice.
   */
  function UnemployedOverall(slice: seq<Row<Unemployment>>): (r: Cell<set<string>>)
    ensures r.NoData? <==> slice == []
    ensures r.Figure? ==> forall g :: g in r.figure <==> exists x :: x in slice && g == x.measures.sex
  {
    var groups := UnemploymentGroups(slice);
    assert slice != [] ==> slice[0].measures.sex in groups;
    if groups == {} then NoData else Figure(groups)
  }

  /**
   * `update_charts_by_country` of the panel: the prompt when nothing is
   * selected; otherwise each slot is computed, independently, from the rows
   * of the selected territories.
   */
  function UpdateOverall(
    s: Store,
    unemployed: seq<Row<Unemployment>>,
    education: seq<Row<Attainment>>,
    literacy: seq<Row<LiteracyRates>>): (r: Overview)
    requires s.Valid()
    ensures r.Prompt? <==> !AnySelected(s)
    ensures r.Prompt? ==> r.text == SelectPrompt
    ensures r.Panels? ==>
              && (r.literacy.NoData? <==> forall x :: x in literacy ==> !(x.territory in s.values && Truthy(s.values[x.territory])))
              && (r.literacy.Figure? ==>
                    && (forall x :: x in r.literacy.figure <==> x in literacy && x.territory in s.values && Truthy(s.values[x.territory]))
                    && (forall x :: multiset(r.literacy.figure)[x]
                          == if x.territory in s.values && Truthy(s.values[x.territory]) then multiset(literacy)[x] else 0)
                    && Subsequence(r.literacy.figure, literacy))
              && (r.education.NoData? <==> forall x :: x in education ==> !(x.territory in s.values && Truthy(s.values[x.territory])))
              && (r.education.Figure? ==> forall g :: g in r.education.figure <==>
                    exists x :: && x in education && x.territory in s.values && Truthy(s.values[x.territory])
                                && g == (x.measures.level, x.measures.gender))
              && (r.unemployed.NoData? <==> forall x :: x in unemployed ==> !(x.territory in s.values && Truthy(s.values[x.territory])))
              && (r.unemployed.Figure? ==> forall g :: g in r.unemployed.figure <==>
                    exists x :: && x in unemployed && x.territory in s.values && Truthy(s.values[x.territory])
                                && g == x.measures.sex)
  {
    if !AnySelected(s) then Prompt(SelectPrompt)
    else
      var countries := SelectedKeys(s);
      var unemployedSlice := FilterIn(unemployed, countries);
      var educationSlice := FilterIn(education, countries);
      var literacySlice := FilterIn(literacy, countries);
      LiteracyPanel(s, literacy);
      EducationPanel(s, education);
      UnemployedPanel(s, unemployed);
      Panels(LiteracyOverall(literacySlice), EducationOverall(educationSlice), UnemployedOverall(unemployedSlice))
  }

  /** The literacy slot averages exactly the rows of the selected territories. */
  lemma LiteracyPanel(s: Store, literacy: seq<Row<LiteracyRates>>)
    requires s.Valid()
    ensures var r := LiteracyOverall(FilterIn(literacy, SelectedKeys(s)));
      && (r.NoData? <==> forall x :: x in literacy ==> !(x.territory in s.values && Truthy(s.values[x.territory])))
      && (r.Figure? ==>
            && (forall x :: x in r.figure <==> x in literacy && x.territory in s.values && Truthy(s.values[x.territory]))
            && (forall x :: multiset(r.figure)[x]
                  == if x.territory in s.values && Truthy(s.values[x.territory]) then multiset(literacy)[x] else 0)
            && Subsequence(r.figure, literacy))
  {
    var slice := FilterIn(literacy, SelectedKeys(s));
    SliceEmpty(literacy, SelectedKeys(s));
    assert forall x :: x in literacy ==> multiset(literacy)[x] > 0;
    assert forall x :: x in slice <==> multiset(slice)[x] > 0;
  }

  /** The education slot charts exactly the groups of the selected rows. */
  lemma EducationPanel(s: Store, education: seq<Row<Attainment>>)
    requires s.Valid()
    ensures var r := EducationOverall(FilterIn(education, SelectedKeys(s)));
      && (r.NoData? <==> forall x :: x in education ==> !(x.territory in s.values && Truthy(s.values[x.territory])))
      && (r.Figure? ==> forall g :: g in r.figure <==>
            exists x :: && x in education && x.territory in s.values && Truthy(s.values[x.territory])
                        && g == (x.measures.level, x.measures.gender))
  {
    var slice := FilterIn(education, SelectedKeys(s));
    SliceEmpty(education, SelectedKeys(s));
    assert forall x :: x in education ==> multiset(education)[x] > 0;
    assert forall x :: x in slice <==> multiset(slice)[x] > 0;
  }

  /** The unemployment slot charts exactly the sexes of the selected rows. */
  lemma UnemployedPanel(s: Store, unemployed: seq<Row<Unemployment>>)
    requires s.Valid()
    ensures var r := UnemployedOverall(FilterIn(unemployed, SelectedKeys(s)));
      && (r.NoData? <==> forall x :: x in unemployed ==> !(x.territory in s.values && Truthy(s.values[x.territory])))
      && (r.Figure? ==> forall g :: g in r.figure <==>
            exists x :: && x in unemployed && x.territory in s.values && Truthy(s.values[x.territory])
                        && g == x.measures.sex)
  {
    var slice := FilterIn(unemployed, SelectedKeys(s));
    SliceEmpty(unemployed, SelectedKeys(s));
    assert forall x :: x in unemployed ==> multiset(unemployed)[x] > 0;
    assert forall x :: x in slice <==> multiset(slice)[x] > 0;
  }

  /**
   * The slots are decided independently: with one territory selected that
   * has education rows but no literacy row, the literacy slot shows
   * "No data" while the education slot shows a chart.
   */
  lemma SlotsIndependent(key: Key, attainment: Attainment)
    ensures var s := Store([key], map[key := -1]);
            var r := UpdateOverall(s, [], [Row(key, attainment)], []);
            && r.Panels? && r.literacy.NoData? && r.unemployed.NoData? && r.education.Figure?
  {
    var s := Store([key], map[key := -1]);
    assert AnySelected(s) by { assert key in s.values && Truthy(s.values[key]); }
    assert Row(key, attainment) in [Row(key, attainment)];
  }
}
