/**
 * The measurement overview of dashboard.py, apart from the variance ranking:
 * which features a multiselect starts with, the description and source shown
 * for each selected feature, the title of each density plot, and where each
 * density plot goes in the grid of subplots.
 *
 * Texts are not modelled: a looked-up description or source is named by the
 * key it is stored under.
 */
module Overview {

  /**
   * The feature columns of the dataset, in table order: the names that head
   * the plot-title entries of dashboard.py.
   */
  const FeatureColumns: seq<string> := [
    "LB", "AC", "FM", "UC", "DL", "DS", "DP", "ASTV", "MSTV", "ALTV", "MLTV",
    "Width", "Min", "Max", "Nmax", "Nzeros", "Mode", "Mean", "Median", "Variance", "Tendency"]

  /** `all[:5]`. */
  function FirstFive(all: seq<string>): (r: seq<string>)
    ensures |r| == if |all| < 5 then |all| else 5
    ensures r <= all
  {
    if |all| < 5 then all else all[..5]
  }

  /**
   * The default of the feature multiselect: every feature after "Show all",
   * the first five otherwise; "Reset" is checked last and so wins over "Show all".
   */
  function DefaultSelection(all: seq<string>, showAll: bool, reset: bool): (r: seq<string>)
    ensures r <= all
    ensures r == all <==> (showAll && !reset) || |all| <= 5
    ensures r != all ==> |r| == 5
  {
    if reset then FirstFive(all)
    else if showAll then all
    else FirstFive(all)
  }

  /** Pressing Reset gives the same selection whether or not Show all was pressed too. */
  lemma ResetOverridesShowAll(all: seq<string>)
    ensures DefaultSelection(all, true, true) == DefaultSelection(all, false, true) == DefaultSelection(all, false, false)
  {
  }

  /** What a description or source lookup shows: the entry stored under a key, or the fallback text. */
  datatype Entry = Stored(key: string) | Fallback(text: string)

  const NoDescription := "No description available."
  const NoSource := "No source available."

  /** `feature_descriptions.get(feature, ...)` and `sources.get(feature, ...)` over a dictionary with keys `keys`. */
  function Lookup(keys: set<string>, feature: string, fallback: string): (e: Entry)
    ensures e.Stored? <==> feature in keys
    ensures e.Stored? ==> e.key == feature
    ensures e.Fallback? ==> e.text == fallback
  {
    if feature in keys then Stored(feature) else Fallback(fallback)
  }

  /** The keys of the description and of the source dictionaries as written: both spell one key 'NMax'. */
  const DocumentedKeysAsWritten: set<string> := {
    "LB", "AC", "FM", "UC", "ASTV", "MSTV", "ALTV", "MLTV", "DL", "DS", "DP", "DR",
    "Width", "Min", "Max", "NMax", "Nzeros", "Mode", "Mean", "Median", "Variance", "Tendency"}

  /** The keys with the histogram-peaks entry under the column's own name, 'Nmax'. */
  const DocumentedKeys: set<string> := DocumentedKeysAsWritten - {"NMax"} + {"Nmax"}

  /** As written, the column Nmax finds neither its description nor its source. */
  lemma NmaxFallsBackAsWritten()
    ensures "Nmax" in FeatureColumns
    ensures Lookup(DocumentedKeysAsWritten, "Nmax", NoDescription) == Fallback(NoDescription)
    ensures Lookup(DocumentedKeysAsWritten, "Nmax", NoSource) == Fallback(NoSource)
  {
    assert FeatureColumns[14] == "Nmax";
  }

  /** With the key spelt as the column, every feature column has a stored description and source. */
  lemma EveryFeatureDocumented(feature: string)
    requires feature in FeatureColumns
    ensures Lookup(DocumentedKeys, feature, NoDescription).Stored?
    ensures Lookup(DocumentedKeys, feature, NoSource).Stored?
  {
  }

  /** Of the feature columns, only Nmax misses the keys as written, both for its description and its source. */
  lemma OnlyNmaxUndocumentedAsWritten(feature: string)
    requires feature in FeatureColumns
    ensures Lookup(DocumentedKeysAsWritten, feature, NoDescription).Fallback? <==> feature == "Nmax"
    ensures Lookup(DocumentedKeysAsWritten, feature, NoSource).Fallback? <==> feature == "Nmax"
  {
    var i :| 0 <= i < |FeatureColumns| && FeatureColumns[i] == feature;
    assert i == 14 <==> feature == "Nmax";
  }

  /** The text block for one selected feature: its name, description and source. */
  datatype Card = Card(feature: string, description: Entry, source: Entry)

  /**
   * The loop over the selected features that writes one card each, in
   * selection order, looking each feature up in dictionaries with keys `keys`
   * (`DocumentedKeysAsWritten` on the page as written).
   */
  method DescribeFeatures(selected: seq<string>, keys: set<string>) returns (cards: seq<Card>)
    ensures |cards| == |selected|
    ensures forall i :: 0 <= i < |selected| ==> cards[i].feature == selected[i]
    ensures forall i :: 0 <= i < |selected| ==>
              cards[i].description == Lookup(keys, selected[i], NoDescription) &&
              cards[i].source == Lookup(keys, selected[i], NoSource)
  {
    cards := [];
    for i := 0 to |selected|
      invariant |cards| == i
      invariant forall j :: 0 <= j < i ==>
                  cards[j] == Card(selected[j], Lookup(keys, selected[j], NoDescription), Lookup(keys, selected[j], NoSource))
    {
      var feature := selected[i];
      cards := cards + [Card(feature, Lookup(keys, feature, NoDescription), Lookup(keys, feature, NoSource))];
    }
  }

  /**
   * With the dictionaries as written, a card of a selected feature column
   * shows the fallback texts exactly when the feature is Nmax.
   */
  lemma AsWrittenCardsFallBackOnlyForNmax(selected: seq<string>, cards: seq<Card>)
    requires forall f :: f in selected ==> f in FeatureColumns
    requires |cards| == |selected|
    requires forall i :: 0 <= i < |selected| ==>
               cards[i].description == Lookup(DocumentedKeysAsWritten, selected[i], NoDescription) &&
               cards[i].source == Lookup(DocumentedKeysAsWritten, selected[i], NoSource)
    ensures forall i :: 0 <= i < |cards| ==>
              (cards[i].description == Fallback(NoDescription) <==> selected[i] == "Nmax") &&
              (cards[i].source == Fallback(NoSource) <==> selected[i] == "Nmax")
  {
    forall i | 0 <= i < |cards|
      ensures cards[i].description == Fallback(NoDescription) <==> selected[i] == "Nmax"
      ensures cards[i].source == Fallback(NoSource) <==> selected[i] == "Nmax"
    {
      OnlyNmaxUndocumentedAsWritten(selected[i]);
    }
  }

  /** With the key spelt as the column, a selection of feature columns gets a stored description and source for every card. */
  lemma FeatureCardsAreDocumented(selected: seq<string>, cards: seq<Card>)
    requires forall f :: f in selected ==> f in FeatureColumns
    requires |cards| == |selected|
    requires forall i :: 0 <= i < |selected| ==>
               cards[i].description == Lookup(DocumentedKeys, selected[i], NoDescription) &&
               cards[i].source == Lookup(DocumentedKeys, selected[i], NoSource)
    ensures forall i :: 0 <= i < |cards| ==> cards[i].description == Stored(selected[i]) && cards[i].source == Stored(selected[i])
  {
    forall i | 0 <= i < |cards|
      ensures cards[i].description == Stored(selected[i]) && cards[i].source == Stored(selected[i])
    {
      EveryFeatureDocumented(selected[i]);
    }
  }

  /**
   * A density plot's title: `next(desc for desc in titles if
   * desc.startswith(column))`, or the column name when no entry starts with it.
   */
  function PlotTitle(titles: seq<string>, column: string): (t: string)
    ensures (forall i :: 0 <= i < |titles| ==> !(column <= titles[i])) ==> t == column
    ensures (exists i :: 0 <= i < |titles| && column <= titles[i]) ==>
              exists i :: 0 <= i < |titles| && t == titles[i] && column <= titles[i] &&
                          forall j :: 0 <= j < i ==> !(column <= titles[j])
    decreases |titles|
  {
    if titles == [] then column
    else if column <= titles[0] then titles[0]
    else
      var t := PlotTitle(titles[1..], column);
      assert forall i :: 0 < i < |titles| ==> titles[i] == titles[1..][i - 1];
      if exists i :: 0 <= i < |titles| && column <= titles[i] then
        var i :| 0 <= i < |titles| && column <= titles[i];
        assert column <= titles[1..][i - 1];
        var k :| 0 <= k < |titles| - 1 && t == titles[1..][k] && column <= titles[1..][k] &&
                  forall j :: 0 <= j < k ==> !(column <= titles[1..][j]);
        assert t == titles[k + 1] && forall j :: 0 <= j < k + 1 ==> !(column <= titles[j]);
        t
      else
        t
  }

  /** The number of subplot rows for `k` plots in two columns: `(k + 1) // 2`. */
  function GridRows(k: nat): (rows: nat)
    ensures k <= 2 * rows <= k + 1
    ensures 2 * rows - k == k % 2
  {
    (k + 1) / 2
  }

  /** A subplot: the one axes of a single plot, an entry of a one-row axes array, or a cell of a grid. */
  datatype Axis = Single | Flat(index: nat) | Cell(row: nat, col: nat)

  /**
   * The subplot of plot `i` in a grid of `rows` rows: matplotlib gives a
   * one-dimensional array for a single row, a grid otherwise.
   */
  function AxisFor(i: nat, rows: nat): (a: Axis)
    ensures rows == 1 && i < 2 ==> a == Flat(i)
    ensures rows != 1 ==> a.Cell? && a.col < 2 && 2 * a.row + a.col == i
  {
    if rows == 1 then Flat(i % 2) else Cell(i / 2, i % 2)
  }

  /** The place of a subplot in `axes.flatten()`. */
  function FlatIndex(a: Axis): (j: nat)
    ensures a.Single? ==> j == 0
    ensures a.Flat? ==> j == a.index
    ensures a.Cell? && a.col < 2 ==> j / 2 == a.row && j % 2 == a.col
  {
    match a
    case Single => 0
    case Flat(j) => j
    case Cell(r, c) => 2 * r + c
  }

  /**
   * Plot `i` of `k > 1` goes to the subplot at place `i` of the flattened
   * grid, which exists; so distinct plots get distinct subplots.
   */
  lemma AxisPlacement(k: nat, i: nat)
    requires 1 < k && i < k
    ensures FlatIndex(AxisFor(i, GridRows(k))) == i < 2 * GridRows(k)
    ensures AxisFor(i, GridRows(k)).Cell? ==> AxisFor(i, GridRows(k)).row < GridRows(k)
  {
    if GridRows(k) == 1 {
      assert k == 2;
    }
  }

  /** Distinct plots never share a subplot. */
  lemma AxesDistinct(k: nat, i: nat, j: nat)
    requires 1 < k && i < k && j < k && i != j
    ensures AxisFor(i, GridRows(k)) != AxisFor(j, GridRows(k))
  {
    AxisPlacement(k, i);
    AxisPlacement(k, j);
  }

  /**
   * The density-plot figure for `k` selected features: for more than one,
   * a grid of `(k + 1) // 2` rows and two columns with plot `i` in subplot
   * `i` and every subplot after the last plot deleted; otherwise one axes
   * holding every plot. `kept[j]` says whether subplot `j` of the flattened
   * grid is still in the figure.
   */
  method LayOutDensityPlots(k: nat) returns (axes: seq<Axis>, kept: array<bool>)
    ensures fresh(kept)
    ensures |axes| == k
    ensures k <= 1 ==> kept.Length == 1 && kept[0] && forall i :: 0 <= i < k ==> axes[i] == Single
    ensures k > 1 ==> kept.Length == 2 * GridRows(k)
    ensures k > 1 ==> forall i :: 0 <= i < k ==> axes[i] == AxisFor(i, GridRows(k))
    ensures k > 1 ==> forall j :: 0 <= j < kept.Length ==> (kept[j] <==> j < k)
  {
    if k <= 1 {
      kept := new bool[1](_ => true);
      axes := seq(k, _ => Single);
      return;
    }
    var rows := (k + 1) / 2;
    kept := new bool[rows * 2](_ => true);
    axes := [];
    for i := 0 to k
      invariant |axes| == i
      invariant forall p :: 0 <= p < i ==> axes[p] == AxisFor(p, rows)
    {
      var ax := if rows == 1 then Flat(i % 2) else Cell(i / 2, i % 2);
      axes := axes + [ax];
    }
    // fig.delaxes for every subplot after the last plot
    for j := k to rows * 2
      invariant forall p :: 0 <= p < kept.Length ==> (kept[p] <==> p < k || p >= j)
    {
      kept[j] := false;
    }
  }
}
