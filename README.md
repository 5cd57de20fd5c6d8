# Pacific territories dashboard: selection core

This project is a Dafny model of the interactive core of a Dash dashboard. The dashboard shows youth literacy, education attainment and youth not in education, employment or training for the Pacific island territories.

- The user clicks territories on a map.
- A client-side store maps every territory name to a selection flag.
- Every click complements the flag of the clicked territory with Python's `~`, so the values go 0, -1, 0, ...
- Several views of the dashboard's layout read the store:
  - a per-territory block list;
  - an "Overall" off-canvas panel;
  - two scroll arrows.
- A grid component of selected territories reads whichever store it is given. The dashboard's layout does not place it.
- Four older callbacks read the map's `clickData`/`selectedData` payloads directly:
  - a facetted bar chart;
  - a facetted pie chart;
  - the first prototype's text echo (`display_click_data`) and its bar chart (`chart_by_country`).

Modules, one per source file plus shared definitions:

- `Common`: `Option`, `Result`, distinctness and subsequences.
- `Payload`: map payloads and how the callbacks decode them.
- `Rows`: dataset rows, and the pandas `isin` and `==` masks.
- `Selection`: the store.
  - Its values are in the `Store` datatype.
  - The client object is the class `SelectionStore`, whose `UpdateStorage` method changes the values in place.
- `Projection`: `any(data.values())` and the list of selected territories.
- `CountryCharts`, `OverallView`, `Agrid`, `Arrow`, `Menu`: the store-driven components.
- `Chart`, `PieUnemploy`, `DashPrototype`: the payload-driven components.
- `Views`: how the store-driven views agree with each other, and a worked session.

## Model

| member | source | states |
|---|---|---|
| Payload.Locations | dataviz_app/component/chart.py:73 | one location per selected point, in payload order |
| Payload.Decode | dataviz_app/component/chart.py:57-76 | no request if and only if both payloads are None. A selection wins and gives every point's location in order. A click alone gives its first point's location. A click without points is an `IndexError` |
| Rows.FilterIn | dataviz_app/component/country_charts.py:142-152 | the `isin` mask keeps exactly the rows whose territory is among the keys, each as often as in the table, in table order |
| Rows.WhereEq | dataviz_app/component/country_charts.py:43-45 | the `==` mask keeps exactly the rows of one territory, each as often as in the table, in table order |
| Rows.Territories | dataviz_app/component/chart.py:82-84 | `unique()` of the territory column: a territory is listed if and only if some row has it |
| Rows.FilterOfSlice | dataviz_app/component/country_charts.py:142-158 | masking a slice with a subset of its keys gives the same rows as masking the whole table |
| Rows.SliceEmpty | dataviz_app/component/overall_view.py:142-154 | a masked slice is empty if and only if no row's territory is among the keys |
| Rows.FilterNone | dataviz_app/component/country_charts.py:142-144 | masking with no keys gives an empty table |
| Rows.TerritoriesOfFilter | dataviz_app/component/chart.py:78-84 | the territories of a masked slice are among the keys, so there are at most as many as the requested locations |
| Rows.FirstMatch | dataviz_app/component/country_charts.py:36 | `values[0]` of the `==` mask is the first table row of that territory |
| Selection.Complement | dataviz_app/component/pacific_map.py:58 | `~v == -v - 1`: it maps 0 to -1 and -1 to 0 |
| Selection.Dedup | dataviz_app/app.py:42 | dictionary keys from a catalog: no repeats, the same elements, the order in which a dictionary inserts them (first occurrence), and the catalog itself when it has no repeats |
| Selection.InsertionOrderSnoc | dataviz_app/app.py:42 | inserting one more catalog entry appends it only if it is not already a key |
| Selection.RepeatedEntryKeepsFirstPlace | dataviz_app/app.py:42 | the catalog A, B, A gives the keys A, B |
| Selection.InitialStore | dataviz_app/app.py:42 | one `False` (0) entry per catalog territory, a well-formed dictionary, keys in first-occurrence order, and the catalog's own order when it has no repeats |
| Selection.Click | dataviz_app/component/pacific_map.py:51-59 | a missing payload or an unknown location leaves the store unchanged. A known location has its value complemented and nothing else changes. A click without points fails. The keys and their order are kept |
| Selection.ClickTwiceRestores | dataviz_app/component/pacific_map.py:51-59 | the same click twice restores the store |
| Selection.ClickFlipsSelection | dataviz_app/component/pacific_map.py:53-59 | from 0/-1 values, a click keeps 0/-1 values and flips the truth value of the clicked territory only |
| Selection.ReplayInvariant | dataviz_app/component/pacific_map.py:46-59 | any series of clicks keeps the keys, their order, well-formedness and 0/-1 values |
| Selection.ReachableStores | dataviz_app/app.py:42-43 | every store of a session has the catalog's keys and only 0/-1 values |
| Selection.SelectionStore.constructor | dataviz_app/app.py:42-43 | the client store starts as `InitialStore` of the catalog |
| Selection.SelectionStore.UpdateStorage | dataviz_app/component/pacific_map.py:51-59 | the store after the callback is `Click` of the store before it. When the callback raises, the values are untouched. The store stays well formed |
| Projection.AnySelectedOverKeys | dataviz_app/component/arrow.py:27 | `any(data.values())` holds exactly when some key of the dictionary has a truthy value |
| Projection.TruthyKeys | dataviz_app/component/agrid.py:30 | the comprehension keeps exactly the keys with truthy values, in dictionary order, without repeats |
| Projection.SelectedKeys | dataviz_app/component/country_charts.py:137-140 | the selected territories in store order, each once. The list is empty if and only if `any(data.values())` is false |
| Projection.AllTruthySelectsAll | dataviz_app/component/agrid.py:30 | when every value is truthy, every key is selected, in order |
| Projection.InitialSelection | dataviz_app/app.py:42 | a session starts with nothing selected |
| Projection.ClickTogglesMembership | dataviz_app/component/pacific_map.py:55-58 | a click adds the clicked known territory to the selection or removes it. Every other territory keeps its membership |
| CountryCharts.Capitalize | dataviz_app/component/country_charts.py:111 | `str.capitalize()`: same length, first character upper case, the rest lower case |
| CountryCharts.CapitalizeIdempotent | dataviz_app/component/country_charts.py:111 | capitalizing twice is capitalizing once |
| CountryCharts.LiteracyCell | dataviz_app/component/country_charts.py:25-37 | "No data" if and only if no row has the territory. Otherwise, the rates of its first row |
| CountryCharts.ChartCell | dataviz_app/component/country_charts.py:40-62 | "No data" if and only if no row has the territory. Otherwise, a figure of exactly its rows, each as often as in the table, in table order |
| CountryCharts.BuildBlock | dataviz_app/component/country_charts.py:65-120 | the block is titled with the capitalized name and holds the three cells of that territory |
| CountryCharts.BlockOfSlices | dataviz_app/component/country_charts.py:142-158 | a block built from the selected slices equals the block built from the full tables |
| CountryCharts.BlocksOfSlices | dataviz_app/component/country_charts.py:154-159 | every selected territory's block is the same from the slices as from the full tables |
| CountryCharts.UpdateChartsByCountry | dataviz_app/component/country_charts.py:136-161 | `None` if and only if nothing is selected. Otherwise, a spacer then one block per selected territory, in store order |
| OverallView.LiteracyOverall | dataviz_app/component/overall_view.py:14-22 | "No data" if and only if the slice is empty. Otherwise, indicators over all its rows |
| OverallView.EducationOverall | dataviz_app/component/overall_view.py:25-37 | "No data" if and only if the slice is empty. Otherwise, one group per (level, gender) pair present |
| OverallView.UnemployedOverall | dataviz_app/component/overall_view.py:40-54 | "No data" if and only if the slice is empty. Otherwise, one sector per sex present |
| OverallView.UpdateOverall | dataviz_app/component/overall_view.py:136-158 | the prompt "Select at least one country." if and only if nothing is selected. Otherwise, each slot is "No data" exactly when its table has no selected territory. The literacy figure averages exactly the selected rows, each as often as in the table. The education and unemployment figures chart exactly the groups of the selected rows |
| OverallView.LiteracyPanel | dataviz_app/component/overall_view.py:150-156 | the literacy slot averages exactly the rows of the selected territories, with their multiplicity and order |
| OverallView.EducationPanel | dataviz_app/component/overall_view.py:146-156 | the education slot charts exactly the (level, gender) pairs of the selected rows |
| OverallView.UnemployedPanel | dataviz_app/component/overall_view.py:142-156 | the unemployment slot charts exactly the sexes of the selected rows |
| OverallView.SlotsIndependent | dataviz_app/component/overall_view.py:156-158 | the slots are decided independently: literacy can show "No data" beside an education chart |
| Menu.ToggleOffcanvas | dataviz_app/component/menu.py:51-54 | a non-zero `n_clicks` flips `is_open`. Zero leaves it |
| Menu.TwoTogglesRestore | dataviz_app/component/overall_view.py:127-130 | two presses restore the panel |
| Menu.OpenAfterOddPresses | dataviz_app/component/menu.py:37-54 | with presses only, after the initial call and `p` presses the panel is open if and only if `p` is odd |
| Menu.Step | dataviz_app/component/menu.py:37-54 | a press adds one to `n_clicks` and flips the panel. A dismissal (close button, backdrop click or Escape) closes it and leaves `n_clicks` alone |
| Menu.RunState | dataviz_app/component/menu.py:37-54 | after any presses and dismissals, `n_clicks` counts the presses and the panel is open if and only if an odd number of presses followed the last dismissal |
| Menu.DismissThenPress | dataviz_app/component/menu.py:37-54 | a dismissed panel is closed, and the next press opens it, whatever came before |
| Menu.OnlyPresses | dataviz_app/component/menu.py:37-54 | without dismissals, the panel follows the parity of the presses |
| Arrow.ArrowId | dataviz_app/component/arrow.py:6-7 | the id is the prefix, `_`, then "right" or "left" |
| Arrow.ArrowIdsDiffer | dataviz_app/component/arrow.py:6-7 | the right and left arrows get different ids |
| Arrow.MakeArrow | dataviz_app/component/arrow.py:5-20 | the icon has the id `show_arrow` writes to (prefix, `_`, side) and starts hidden. The container's style is `{side: "50px"}`, so it is offset on the side its icon's id ends with |
| Arrow.ArrowsApart | dataviz_app/component/arrow.py:5-20 | the right and left arrows are different icons, offset on opposite sides |
| Arrow.ShowArrow | dataviz_app/component/arrow.py:26-29 | hidden if and only if nothing is selected. An empty style if and only if something is |
| Agrid.Records | dataviz_app/component/agrid.py:31 | one record per name, in order |
| Agrid.InitialRowData | dataviz_app/component/agrid.py:17 | one record per catalog entry, in catalog order |
| Agrid.UpdateContent | dataviz_app/component/agrid.py:29-31 | the grid holds exactly the selected territories, once each, in store order. It is empty if and only if nothing is selected |
| Agrid.RecordsPreserveOrder | dataviz_app/component/agrid.py:30-31 | a sub-list of names gives a sub-list of records |
| Agrid.GridStartsEmpty | dataviz_app/component/agrid.py:29-31 | for every catalog, the grid is empty after the first store update |
| Agrid.GridAllSelected | dataviz_app/component/agrid.py:17-31 | over a catalog without repeats, with everything selected the grid equals the initial row data |
| Chart.FacetLayout | dataviz_app/component/chart.py:82-97 | facet rows below 3 territories, 2 wrapped columns from 3. The height is 380 per facet row, at least 500, and the rows hold every territory |
| Chart.LayoutExamples | dataviz_app/component/chart.py:85-97 | 5 territories give 1140 pixels in 2 columns. 2 give 760 and 1 gives 500 |
| Chart.AfterLastEq | dataviz_app/component/chart.py:21 | `split("=")[-1]`: a suffix without `=`, preceded by `=` when shorter than the text |
| Chart.FacetTitle | dataviz_app/component/chart.py:19-24 | a facet title "column=value" becomes "value" when the value has no `=` |
| Chart.AfterLastEqIdempotent | dataviz_app/component/chart.py:21 | cutting a title twice is cutting it once |
| Chart.NoEqUnchanged | dataviz_app/component/chart.py:21 | a title without `=` is left whole |
| Chart.ChartByCountry | dataviz_app/component/chart.py:49-101 | the placeholder if and only if both payloads are None. It fails if and only if decoding fails. Otherwise, exactly the requested rows, each as often as in the table, in table order, laid out by the count of distinct territories, which is at most the number of requested locations |
| PieUnemploy.LexTotal | dataviz_app/component/pie_unemploy.py:9-11 | string order is total |
| PieUnemploy.LexTransitive | dataviz_app/component/pie_unemploy.py:9-11 | string order is transitive |
| PieUnemploy.InsertKeepsRows | dataviz_app/component/pie_unemploy.py:9-11 | inserting keeps every row |
| PieUnemploy.InsertSorted | dataviz_app/component/pie_unemploy.py:9-11 | inserting into a sorted table keeps it sorted |
| PieUnemploy.SortByTerritory | dataviz_app/component/pie_unemploy.py:9-11 | `sort_values` by territory gives the rows sorted by territory, each kept as often as it occurs |
| PieUnemploy.PieByCountry | dataviz_app/component/pie_unemploy.py:29-78 | the placeholder if and only if both payloads are None. It fails if and only if decoding fails. Otherwise, a permutation of the requested rows, sorted by territory, with one facet row of 380 pixels per distinct territory, at least 500 |
| DashPrototype.QuoteFor | app/dash/app.py:106 | `repr` quotes with `"` exactly when the string has `'` and no `"` |
| DashPrototype.EscapeChar | app/dash/app.py:106 | a character is written as itself or as an escape starting with a backslash |
| DashPrototype.Escape | app/dash/app.py:106 | the escaped text is at least as long as the string and empty only for the empty string |
| DashPrototype.StrRepr | app/dash/app.py:106 | `repr(str)` is the escaped text between two copies of the chosen quote |
| DashPrototype.ReadChar | app/dash/app.py:106 | every escape `repr` writes for one character reads back as that character |
| DashPrototype.ReadEscaped | app/dash/app.py:106 | the escaped text and its closing quote read back as the original string, and reading stops after that quote |
| DashPrototype.StrReprRoundTrip | app/dash/app.py:106 | `repr` of a name reads back to the name, whatever text follows it |
| DashPrototype.PlainEscape | app/dash/app.py:106 | a name without quotes, backslashes or control characters is written as it is |
| DashPrototype.JoinReprs | app/dash/app.py:106 | the items' `repr`s joined by ", " are empty only for no items, and take at least 4 characters per item less 2 |
| DashPrototype.ListRepr | app/dash/app.py:106 | `repr(list)` is bracketed, is `[]` if and only if the list is empty, and reads back as the list |
| DashPrototype.ParseLast | app/dash/app.py:106 | a last item followed by `]` reads back as that item |
| DashPrototype.ParseCons | app/dash/app.py:106 | an item followed by ", " reads back as that item, then the items after it |
| DashPrototype.ParseJoinReprs | app/dash/app.py:106 | the joined items of `repr(list)` read back as the list |
| DashPrototype.ParseListRepr | app/dash/app.py:106 | the whole `repr(list)` reads back as the list |
| DashPrototype.DisplayClickData | app/dash/app.py:96-106 | "None" if and only if both payloads are None. It fails if and only if decoding fails. Otherwise, "Country: " followed by the `repr` of the requested locations, and the text after the prefix reads back as those locations |
| DashPrototype.DisplayPlainClick | app/dash/app.py:103-106 | a click on a plain name shows "Country: ['name']" |
| DashPrototype.PrototypeChart | app/dash/app.py:114-142 | "None" if and only if both payloads are None. Otherwise, exactly the requested rows, each as often as in the table, 800 pixels wide, 200 + 200 per requested location high, and so at least 200 per distinct territory drawn |
| DashPrototype.SameRowsAsChart | app/dash/app.py:124-126 | the prototype draws the same rows as the later bar chart |
| DashPrototype.HeightCountsRequests | app/dash/app.py:138 | the height counts requested locations: one territory requested twice gets 600 pixels |
| Views.ViewsAgree | dataviz_app/component/country_charts.py:137-138 | the arrow, the block list and the panel all switch to their empty state on the same stores, and so does the grid component when given the same store |
| Views.ClickSession | dataviz_app/component/pacific_map.py:51-59 | with catalog A, B, C, clicking B selects B alone, shows the arrow and would list B in a grid given that store. Clicking B again restores the initial store |

## Left out

- Means and floating point: the overall panel's `mean()` values are not computed. A slot is described by the rows or group keys it would average, which is what decides between "No data" and a chart.
- Plotly figures, colours, fonts, the map's choropleth colouring (`_helper_pacific_map`, `update_content` of the map) and all CSS styling are not modelled. Only the data each callback hands to a figure and the layout numbers it passes are modelled.
- Loading the parquet and geo files is left out. The tables are parameters of the callbacks.
- The Dash runtime, callback registration and network transport are left out. A callback that raises is modelled as a `Failure` that leaves the store unchanged.
- `print` logging in the callbacks is left out.
- dataviz_app/id.py is not part of this model. The `id.ARROW` prefix is a parameter of `Arrow.ArrowId`.
- PieUnemploy.SortByTerritory: pandas' default `sort_values` is not stable, so the order of rows of the same territory is unspecified. The model sorts stably and promises only sortedness and permutation.
- CountryCharts.Capitalize: only ASCII letters change case. Python's Unicode case mapping is not modelled.
- DashPrototype.StrRepr: every non-ASCII character is treated as printable. Python escapes non-printable non-ASCII characters as `\x`, `\u` or `\U`.
- OverallView.EducationOverall: the groups are the observed (level, gender) pairs. The level column is categorical, and `groupby` without `observed=` under pandas' default before 3.0 also lists every unobserved level category with each gender present, with empty means. Rows with a missing level or gender are also dropped by `groupby`. Neither is modelled. Both keep "No data" exactly for an empty slice whenever the level has at least one category and no key is missing.
- The grid component (dataviz_app/component/agrid.py) is modelled as a component, but dataviz_app/app.py never calls `agrid_territory`. Which store it would read depends on the `id_in` its caller passes.
- Menu.ToggleOffcanvas: `n_clicks` is modelled as a natural number, because the button only ever counts up from 0.
- The Streamlit prototype (app/streamlit/app.py) and the chart helpers under dataviz_app/component/charts are rendering code and are left out.
- dataviz_app/app.py:71 and dataviz_app/app.py:81 call `pacific_map(pacific_eez)` and `menu()` with fewer arguments than those functions declare. The components are modelled as declared.
