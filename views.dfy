/**
 * The views that read the selection store, taken together: the territory
 * blocks, the "Overall" panel and the scroll arrows of the dashboard's
 * layout switch between their empty and their filled state at the same
 * moment, and so would the territory grid if it were given the same store
 * (the layout does not place the grid).
 */
module Views {
  import opened Common
  import opened Payload
  import opened Rows
  import opened Selection
  import opened Projection
  import CountryCharts
  import OverallView
  import Agrid
  import Arrow

  /**
   * For every store, "nothing selected" means the same thing to every view:
   * the arrow is hidden, the block list is `None` and the panel prompts for
   * a selection, all at once; a grid reading that store is empty then too.
   */
  lemma ViewsAgree(
    s: Store,
    unemployed: seq<Row<Unemployment>>,
    education: seq<Row<Attainment>>,
    literacy: seq<Row<LiteracyRates>>)
    requires s.Valid()
    ensures Arrow.ShowArrow(s) == Arrow.HiddenStyle
        <==> CountryCharts.UpdateChartsByCountry(s, unemployed, education, literacy).None?
    ensures CountryCharts.UpdateChartsByCountry(s, unemployed, education, literacy).None?
        <==> OverallView.UpdateOverall(s, unemployed, education, literacy).Prompt?
    ensures OverallView.UpdateOverall(s, unemployed, education, literacy).Prompt?
        <==> Agrid.UpdateContent(s) == []
    ensures Agrid.UpdateContent(s) == [] <==> SelectedKeys(s) == []
  {
  }

  /** The catalog of the session below. */
  const Catalog: seq<Key> := ["A", "B", "C"]

  /** The store holding B alone. */
  const OnlyB: map<Key, int> := map["A" := 0, "B" := -1, "C" := 0]

  /** The stores of the session, written out. */
  lemma SessionStores()
    ensures InitialStore(Catalog) == Store(Catalog, map["A" := 0, "B" := 0, "C" := 0])
    ensures Click(InitialStore(Catalog), Some(PointList([Point("B")]))) == Success(Store(Catalog, OnlyB))
  {
    assert Distinct(Catalog);
    var s0 := InitialStore(Catalog);
    assert s0.values == map["A" := 0, "B" := 0, "C" := 0];
    assert "B" in s0.values;
    assert s0.values["B" := Complement(0)] == OnlyB;
  }

  /** With B alone selected, the selection is exactly B. */
  lemma SelectionOfOnlyB()
    ensures Store(Catalog, OnlyB).Valid()
    ensures SelectedKeys(Store(Catalog, OnlyB)) == ["B"]
  {
    assert Elements(Catalog) == {"A", "B", "C"};
    calc {
      SelectedKeys(Store(Catalog, OnlyB));
      TruthyKeys(["A", "B", "C"], OnlyB);
      { assert ["A", "B", "C"][1..] == ["B", "C"]; }
      TruthyKeys(["B", "C"], OnlyB);
      { assert ["B", "C"][1..] == ["C"]; }
      ["B"] + TruthyKeys(["C"], OnlyB);
      { assert ["C"][1..] == []; }
      ["B"];
    }
  }

  /**
   * A session over the catalog A, B, C: clicking B selects B alone, reveals
   * the arrow and would give a grid reading that store B's record; clicking B again returns
   * to the empty selection.
   */
  lemma ClickSession()
    ensures var s0 := InitialStore(Catalog);
            var click := Some(PointList([Point("B")]));
            var s1 := Click(s0, click).value;
            && s0.keys == ["A", "B", "C"]
            && SelectedKeys(s1) == ["B"]
            && Agrid.UpdateContent(s1) == [Agrid.Record("B")]
            && Arrow.ShowArrow(s1) == map[]
            && Click(s1, click) == Success(s0)
            && SelectedKeys(s0) == []
  {
    var click := Some(PointList([Point("B")]));
    SessionStores();
    SelectionOfOnlyB();
    ClickTwiceRestores(InitialStore(Catalog), click);
    InitialSelection(Catalog);
  }
}
