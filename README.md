# Cardiotocography dashboards: a Dafny model of their logic

The repository is a set of Streamlit pages over the UCI Cardiotocography
dataset (fetal heart-rate measurements, each row classified by its NSP code
as Normal, Suspect or Pathologic). Nearly all of it draws widgets and charts.
This project models the logic underneath those widgets and proves what that
logic promises:

- **Session store** (`SessionStore`, functions/helpers.py). A JSON document
  maps names to the last value saved under them. Saving is a read-modify-write
  of the whole document and starts afresh when the read fails; it raises,
  writing nothing, when the document holds JSON that is not an object. Loading
  looks the key up and raises when the document cannot be read. The document is the
  field of a `SessionFile` object.
- **Data loading** (`Dataset`, functions/helpers.py). A successful fetch
  overwrites the local cache. A failed fetch falls back to the cache. Every row
  gets the display label of its NSP code.
- **NSP label codings** (`Labels`). There are three codings:
  - dataset code 1/2/3 to a display label (functions/helpers.py);
  - display label to training code 0/1/2, checked by the validity gate before
    training, then decoded back into a class name (testing/random_forest.py).
- **Prediction input form** (`InputForm`, `Forest`, `ForestTesting`), used by
  random_forest.py and testing/random_forest.py:
  - The session's `input_data` map is defaulted to each column's minimum and
    never overwritten.
  - The entered values are merged with the column means.
  - The row is reordered to the training columns.
  - Prediction happens only when the Predict button is pressed.
- **Explained-variance ordering** (`Ranking`, `ExploreMore`):
  - dashboard.py sorts by descending argsort and applies the same permutation
    to names and ratios.
  - example.py's bars are unsorted.
  - explore_more.py uses `min(k, 5)` components, the top three indices and
    the argmax.
- **Dashboard overview** (`Overview`, dashboard.py): multiselect defaults,
  description and source lookups, plot titles, and the placement of density
  plots in a two-column subplot grid with spare cells deleted.
- **Variable roles** (`Variables`, main.py, example.py, wip_mariia.py):
  - a loop partitions the variable metadata by role;
  - main.py and example.py join the target table onto the feature table;
  - wip_mariia.py writes the NSP column into the feature table in place and
    places density plots in column `i % 2`.

Values computed by libraries are given as inputs to the model. These are
column minima and means, PCA explained-variance ratios, and the classifier's
prediction. Numbers are `real`. The classifier is a function parameter. A
widget's value is the value the user typed, taken from a map. When nothing
was typed, it is the widget's default.

The model follows the code, including where it surprises:

- Unknown NSP codes are not rejected at load time. `map` turns them into a
  missing value (functions/helpers.py:27). Only the training gate of
  testing/random_forest.py refuses them.
- `load_session_data` does not return "absent" for a missing document. The
  `open` at functions/helpers.py:55 has no `try`, so the call raises.
  `SessionStore.Lookup` returns `Err(DocumentNotReadable)`.
- PCA ratio `i` belongs to principal component `i`. The pages label it with
  feature column `i` anyway (dashboard.py:84-87, example.py:117-119,
  explore_more.py:21-25). The model pairs them the same way.

## Model

| member | source | states |
|---|---|---|
| Labels.DisplayLabel | functions/helpers.py:27 | code 1 gives Normal, 2 Suspect, 3 Pathologic, each if and only if; any other code gives a missing label, never an error |
| Labels.LabelColumn | functions/helpers.py:27 | the label column has one entry per NSP code, each the display label of that row's own code |
| Dataset.WithLabels | functions/helpers.py:27 | loading keeps the columns and NSP codes and adds one label per row, derived from that row's code |
| Dataset.DataDirectory.LoadData | functions/helpers.py:14-29 | a fetched table is written to the cache and returned labelled; a failed fetch leaves the cache alone and returns the cached tables, or DataUnavailable when nothing was ever cached |
| SessionStore.PriorData | functions/helpers.py:34-40 | save starts from the stored map when the document is readable, from an empty map when it is missing or not valid JSON, and fails when it holds JSON that is not an object |
| SessionStore.Saved | functions/helpers.py:34-47 | saving fails exactly over JSON that is not an object; otherwise the key maps to the value, every other key comes unchanged from the readable prior document, and over a missing or unreadable document only the new key remains |
| SessionStore.AfterSave | functions/helpers.py:42-47 | the document after a save is readable exactly when the save succeeds, and holds the saved map; a failed save leaves it untouched |
| SessionStore.Lookup | functions/helpers.py:55-57 | a document that is missing, not valid JSON, or JSON without `get` (not an object) is an error; otherwise the result is the stored value exactly when the key is present, and None otherwise |
| SessionStore.SessionFile.Save | functions/helpers.py:30-47 | succeeds exactly when the document does not hold a non-object; the document becomes `AfterSave` of the old one |
| SessionStore.SessionFile.Load | functions/helpers.py:50-60 | returns the lookup of the key in the current document, without changing it |
| SessionStore.SaveThenLoad | functions/helpers.py:43-57 | loading a key right after saving it returns the saved value, unless the document held JSON that is not an object, when both raise |
| SessionStore.SaveKeepsOtherKeys | functions/helpers.py:36-43 | over a readable document, a save does not change what load returns for any other key |
| SessionStore.SaveIdempotent | functions/helpers.py:43-47 | saving the same pair twice leaves the same document as saving it once |
| SessionStore.LaterSaveWins | functions/helpers.py:43-47 | of two saves to one key, the second determines the document |
| SessionStore.SavesToDistinctKeysCommute | functions/helpers.py:43-47 | saves to different keys give the same document in either order |
| SessionStore.SaveOverUnreadableStartsAfresh | functions/helpers.py:34-40 | a save over a missing or unreadable document writes a map holding only the new key |
| SessionStore.SaveOverNonObjectFails | functions/helpers.py:37-43 | over JSON that is not an object, setting the key fails and the document stays as it was |
| Labels.Encode | testing/random_forest.py:30-31 | every label gets a training code in 0..2: Normal exactly 0, Suspect exactly 1, Pathologic exactly 2; a missing label stays missing |
| Labels.ClassName | testing/random_forest.py:112 | a training code has a class name exactly when it is 0, 1 or 2 |
| Labels.DecodeEncode | testing/random_forest.py:112 | decoding the training code of a label with the class-name map gives the label back |
| Labels.EncodeDecode | testing/random_forest.py:112 | encoding the class name of a valid training code gives the code back |
| Labels.EncodeDisplayLabel | testing/random_forest.py:30-31 | a dataset code c in 1..3, once loaded and encoded, becomes training code c - 1 |
| Labels.AllExpected | testing/random_forest.py:34-35 | the gate passes exactly when every encoded label is present and in 0..2 |
| Labels.EncodeColumn | testing/random_forest.py:31 | the encoded column holds the encoding of each row's label, row by row |
| Labels.GateAcceptsExactlyKnownCodes | testing/random_forest.py:34-37 | labels loaded from NSP codes pass the gate if and only if every code is 1, 2 or 3 |
| Labels.DescribePrediction | testing/random_forest.py:118-125 | a predicted code is shown as a class exactly when it is 0..2, and that class encodes back to the code; any other code gives the unexpected-value message carrying the code |
| ForestTesting.TrainModel | testing/random_forest.py:29-37 | training happens if and only if every label is present; the encoded codes then decode row by row to the labels, and the feature columns are handed back unchanged |
| ForestTesting.TrainsExactlyOnKnownCodes | testing/random_forest.py:34-37 | on a loaded table, training goes ahead if and only if every NSP code is 1, 2 or 3 |
| ForestTesting.TrainedCodesAreShiftedNsp | testing/random_forest.py:30-31 | each trained code is the row's NSP code minus one |
| ForestTesting.RunPage | testing/random_forest.py:53-125 | the page stops, with the session map untouched, exactly when training is refused; otherwise it defaults the session map, assembles the row when features are selected, and on Predict shows the decoded class or the error for the classifier's code |
| InputForm.PriorInput | random_forest.py:79-80 | the session map is the stored one, or a new empty map when the attribute does not exist |
| InputForm.Defaulted | random_forest.py:85-89 | every stored entry is kept unchanged; keys are added only for selected columns, each missing one with that column's minimum |
| InputForm.DefaultedStep | random_forest.py:88-89 | one more column extends the session map by its minimum only if the column is absent |
| InputForm.WidgetValue | random_forest.py:90-96 | a number input gives the value typed this run, and its remembered default when nothing was typed |
| InputForm.CollectInputs | random_forest.py:84-96 | the session map becomes the defaulted map; the entered values have exactly the selected columns as keys, each holding what its number input shows with the remembered value as default; nothing entered is written back to the session |
| InputForm.ValueOf | random_forest.py:105 | the value read for a column is a cell of the frame under that column |
| InputForm.SelectColumns | random_forest.py:105 | the selected frame has exactly the requested columns in the requested order, each with a cell of the original frame |
| InputForm.AssembleRow | random_forest.py:98-105 | the row has every training column in training order; selected columns hold the entered value, all others the column mean |
| InputForm.FillForm | random_forest.py:79-105 | the session map is created if absent and then defaulted; a row is assembled if and only if some feature is selected, with the entered or mean values in training order |
| InputForm.FormNeverOverwrites | random_forest.py:88-89 | a remembered value survives any run of the form unchanged |
| InputForm.FormIdempotent | random_forest.py:88-89 | a second run of the form over the same selection leaves the session map as the first run left it |
| Forest.RunPage | random_forest.py:77-109 | the session map is defaulted; nothing is assembled exactly when no feature is selected; the row holds the entered or mean values in training order; the classifier is consulted if and only if Predict was pressed |
| Ranking.Insert | dashboard.py:85 | inserting a position into an ascending order gives an ascending order one longer with the same positions plus the new one |
| Ranking.ArgSort | dashboard.py:85 | the result is a permutation of the positions along which the values never decrease |
| Ranking.Reverse | dashboard.py:85 | `[::-1]` puts entry i at place n - 1 - i |
| Ranking.ReverseMultiset | dashboard.py:85 | reversing keeps every element with its multiplicity |
| Ranking.DescendingOrder | dashboard.py:85 | the reversed argsort is a permutation of the positions along which the values never increase |
| Ranking.Apply | dashboard.py:86-87 | indexing by an index array puts entry p[i] at place i |
| Ranking.RankVariances | dashboard.py:78-87 | one permutation of all columns reorders both arrays, so each name keeps its own ratio, and the ranked ratios never increase |
| Ranking.Zip | example.py:106-119 | example.py's chart: one bar per column, bar i labelled with column i and holding ratio i, with no reordering |
| Ranking.PermutationKeepsElements | dashboard.py:86-87 | reading an array along a permutation keeps its multiset of elements |
| Ranking.RankingPermutesBars | dashboard.py:85-91 | dashboard.py's ranked chart has exactly example.py's unsorted (name, ratio) bars, each name with its own ratio, possibly reordered |
| ExploreMore.ComponentCount | explore_more.py:19 | the component count is the number of selected features, capped at five |
| ExploreMore.Negated | explore_more.py:43 | a new array whose entry i is the negation of ratio i |
| ExploreMore.TopIndices | explore_more.py:43 | at most three distinct in-range positions, fewer only when there are fewer ratios, in non-increasing order of ratio, with no position left out holding a larger ratio than any position taken |
| ExploreMore.ArgMax | explore_more.py:54 | an in-range position of a largest ratio, the first one |
| ExploreMore.TopStartsAtArgMax | explore_more.py:43-54 | the first top index and the argmax point at the same, largest, ratio |
| ExploreMore.FeaturesAt | explore_more.py:44-45 | the top features are the selected features at the given indices, in index order |
| ExploreMore.ShowWith | explore_more.py:25-58 | the pie call fails exactly when names and values differ in length; otherwise the page shows the ratios, the heatmap exactly for more than one feature, the selected features at the top indices, and on the button the selected feature at the argmax |
| ExploreMore.Explore | explore_more.py:16-58 | as written: nothing runs for an empty selection; the pie call raises, and nothing after it runs, exactly when more than five features are selected; otherwise the pie is named by the selected features and the rest of the page is as `Presents` says |
| ExploreMore.SixFeaturesMismatch | explore_more.py:19-25 | six selected features give five ratios, and the page stops at the pie |
| ExploreMore.PieNames | explore_more.py:19-25 | corrected: one name per component, the first min(k, 5) selected features; the same as written when k is at most five |
| ExploreMore.ExploreCorrected | explore_more.py:16-58 | corrected: every non-empty selection is shown, with the corrected pie names and the rest of the page as `Presents` says |
| ExploreMore.CorrectionAgreesUpToFive | explore_more.py:19-25 | up to five selected features, the corrected page is the page as written |
| Overview.FirstFive | dashboard.py:125 | the first five features, or all of them when there are fewer |
| Overview.DefaultSelection | dashboard.py:121-127 | the default is a prefix of all features; it is all of them exactly when Show all was pressed without Reset or there are at most five, and otherwise the first five |
| Overview.ResetOverridesShowAll | dashboard.py:121-127 | Reset gives the untouched default whether or not Show all was pressed too |
| Overview.Lookup | dashboard.py:184-185 | a stored entry is shown exactly when the feature is a key, otherwise the fallback text |
| Overview.NmaxFallsBackAsWritten | dashboard.py:146 | as written, the feature column Nmax gets the fallback description and the fallback source |
| Overview.EveryFeatureDocumented | dashboard.py:130-180 | with the key spelt Nmax, every feature column has a stored description and source |
| Overview.OnlyNmaxUndocumentedAsWritten | dashboard.py:146-186 | as written, a feature column gets the fallback description, and the fallback source, exactly when it is Nmax |
| Overview.DescribeFeatures | dashboard.py:183-186 | one card per selected feature, in selection order, with the feature's description and source looked up in the given dictionaries (as written, with the 'NMax' keys) |
| Overview.AsWrittenCardsFallBackOnlyForNmax | dashboard.py:183-186 | as written, a card of a selected feature column shows the fallback texts exactly when its feature is Nmax |
| Overview.FeatureCardsAreDocumented | dashboard.py:183-186 | corrected: with the key spelt Nmax, every card of a selected feature column shows a stored description and source |
| Overview.PlotTitle | dashboard.py:250 | the title is the first entry starting with the column name, or the column name itself when no entry does |
| Overview.GridRows | dashboard.py:234-235 | two columns of (k + 1) // 2 rows hold k plots with k % 2 cells to spare |
| Overview.AxisFor | dashboard.py:246-249 | in a single row, plot i < 2 goes to entry i; in a grid, to the cell whose row and column give back i as 2 * row + column, with column 0 or 1 |
| Overview.FlatIndex | dashboard.py:274 | `axes.flatten()` puts cell (row, column) of a two-column grid at the place whose // 2 and % 2 are that row and column |
| Overview.AxisPlacement | dashboard.py:246-249 | plot i of k > 1 lands at place i of the flattened grid, inside the grid |
| Overview.AxesDistinct | dashboard.py:245-249 | two different plots never share a subplot |
| Overview.LayOutDensityPlots | dashboard.py:232-280 | for more than one plot, plot i goes to the cell `(i // 2, i % 2)`, or to entry `i % 2` of a single row, and exactly the cells after the last plot are deleted; otherwise every plot shares one axes |
| Variables.Names | main.py:32 | `variables['name']`: entry i is the name of metadata row i |
| Variables.Selected | main.py:30-34 | the list the loop builds for one role is never longer than the metadata |
| Variables.Positions | main.py:30-34 | the rows going to a list are listed in strictly increasing order; each has that list's role, and every row with that role is listed |
| Variables.SelectedInOrder | main.py:30-34 | list entry k is the name of the k-th row with that list's role, so both lists keep metadata order |
| Variables.SelectedMembership | main.py:31-34 | a name is in the numerical list exactly when some row of that name has role 'Feature', and in the categorical list exactly when some row of that name has another role |
| Variables.PartitionIsExact | main.py:30-34 | every row lands in exactly one list: together the lists hold each name as often as the metadata does |
| Variables.PartitionSizes | main.py:30-34 | the two lists together are exactly as long as the metadata |
| Variables.PartitionRoles | main.py:30-34 | the loop, which is the same in example.py:32-36 and wip_mariia.py:32-36, builds exactly the two specified lists |
| Variables.Join | main.py:79 | overlapping column names are refused; otherwise the joined frame has the feature columns then the target columns, each with its own values |
| Variables.BoxPlotColumnsAfterJoin | main.py:79-83 | after the join, the chosen numerical and categorical variables are both columns, with their original values |
| Variables.Frame.SetColumn | wip_mariia.py:54 | assigning a column overwrites it where it stands or appends it after the others, and stores the new values |
| Variables.PlaceDensityPlots | wip_mariia.py:84-86 | density plot i of the numerical variables goes to page column i % 2, so the left column holds ceil(n / 2) plots and the right one floor(n / 2) |
| Variables.PlotsInColumn | wip_mariia.py:85-86 | counts the placements sent to page column col; never more than there are placements |
| Variables.PlotsInColumnCounts | wip_mariia.py:85-86 | a column holds no plot exactly when no placement names it, and every plot exactly when every placement does |
| Variables.ColumnsBalanced | wip_mariia.py:84-86 | placements that send plot i to column i % 2 put ceil(n / 2) plots in the left column and floor(n / 2) in the right one |
| Variables.ShowWipPage | wip_mariia.py:29-90 | the feature frame gains the target's NSP column in place; the correlation covers the frame's columns, NSP included, exactly when 'Yes' is chosen; density plots follow the numerical list, i to column i % 2, ceil(n / 2) on the left and floor(n / 2) on the right |
| Variables.NspPlottedOnlyAsFeature | wip_mariia.py:32-36 | NSP gets a density plot if and only if the metadata lists a row named NSP with role 'Feature' |

## Left out

- Network, files and JSON parsing. The fetch outcome and the document's state
  are inputs. A failing write in `save_session_data` is not modelled: the
  write always succeeds.
- Dataset.DataDirectory.LoadData: a fetch that succeeds always caches and
  returns its tables. The bare `except` of functions/helpers.py:23 also catches
  a `to_csv` that fails after a successful fetch; the page then reads back the
  old or half-written cache. That case is not modelled.
- The cache content as read back from CSV. `DataDirectory.LoadData` returns
  the tables exactly as cached. A cache in the wrong format is not modelled.
- Streamlit rendering, matplotlib/seaborn/plotly drawing, figure sizes, fonts,
  legends, spines, and the red reference lines of dashboard.py. None of it
  changes what is computed.
- The `print` calls of main.py, example.py and wip_mariia.py. They are
  diagnostic output.
- The numerics of pandas, scikit-learn and numpy are given inputs: column
  minima and means, PCA ratios, correlations, the random forest's training,
  `train_test_split`, accuracy and the classification report, and
  `predict_proba`.
- The clamping of a number input to its `[min, max]` range is not modelled.
  The entered value is taken as typed.
- Ranking.ArgSort: breaks ties by position. numpy's default argsort does not
  promise an order for equal ratios, so the model picks one of the orders
  numpy may return.
- Labels.AllExpected: checks every encoded row, not `unique()`'s distinct
  values. The verdict is the same.
- Variables.Join: merges the columns of two frames that share an index. Row
  alignment by index, and the missing values a left join produces for rows
  absent on the right, are not modelled.
- Variables.Frame.SetColumn: stores the assigned column as given. pandas
  aligns `y['NSP']` to X's index, which is not modelled.
- main.py and example.py: the two selectboxes, the frequency and pie charts
  of the chosen categorical variable, and the grouping of the box plot are not
  modelled. Only the partition, the join, and the presence of the two plotted
  columns are.
- dashboard.py: the dataset overview counts, the correlation heatmap and the
  overview multiselect are not modelled separately. The multiselects at lines
  198-204 and 313-318 follow the same pattern as lines 121-127, which
  `Overview.DefaultSelection` models.
- explore_more.py: the module imports `loaddata` from dashboard at line 7,
  but dashboard.py defines no `loaddata` (it calls `helpers.loaddata`), so
  importing the page fails before `explore_more` can run. `ExploreMore.Explore`
  models the function as if that import succeeded. The `__main__` block's
  sidebar selectbox is not modelled. The multiselect default at line 14 is the
  `Overview.FirstFive` prefix.
- Variables.ShowWipPage: requires the target frame to hold an NSP column. The
  KeyError that `y['NSP']` raises at wip_mariia.py:54 for a frame without one
  is not modelled; the dataset's target frame always has that column.
- pages/404.py and pages/tryout.py are not part of this model.
- Overview.PlotTitle: computes the title itself, not the concrete list of
  title strings. The texts of descriptions, sources and titles are not
  modelled: a description or source is named by its key.

## Findings

| source | as written | input that shows it | evidently intended | confidence | as-written member | corrected member |
|---|---|---|---|---|---|---|
| dashboard.py:146 | the description and source dictionaries (lines 146 and 173) key the histogram-peaks entry as 'NMax', but the column is 'Nmax' (line 65) | selecting the feature Nmax shows "No description available." and "No source available." | the key spelt 'Nmax', so every feature column finds its entry | not executed | Overview.AsWrittenCardsFallBackOnlyForNmax | Overview.FeatureCardsAreDocumented |
| explore_more.py:25 | the pie gets `min(k, 5)` ratios (line 19) but all k selected features as names (line 21) | six selected features: six names, five values, which plotly refuses as columns of different lengths | one name per component: the first `min(k, 5)` selected features | not executed | ExploreMore.SixFeaturesMismatch | ExploreMore.ExploreCorrected |
