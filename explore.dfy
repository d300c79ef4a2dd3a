/**
 * The analysis of explore_more.py: PCA on the selected features with at
 * most five components, a pie chart of the component ratios, the three
 * largest ratios' features, and the feature at the largest ratio. The ratios
 * are PCA output, given as reals.
 */
module ExploreMore {
  import opened Common
  import opened Ranking

  /** `min(len(selected_features), 5)`: the number of PCA components, hence of ratios. */
  function ComponentCount(k: nat): (n: nat)
    ensures n <= k && n <= 5
    ensures n == k || n == 5
  {
    if k < 5 then k else 5
  }

  /** `-top_variances`. */
  function Negated(v: seq<real>): (r: seq<real>)
    ensures |r| == |v|
    ensures forall i :: 0 <= i < |v| ==> r[i] == -v[i]
  {
    seq(|v|, i requires 0 <= i < |v| => -v[i])
  }

  /** Each position occurs once in 0..n-1. */
  lemma {:induction false} RangeOnce(n: nat, x: nat)
    ensures multiset(Range(n))[x] == if x < n then 1 else 0
  {
    if n > 0 {
      RangeOnce(n - 1, x);
      assert Range(n) == Range(n - 1) + [n - 1];
    }
  }

  /** A permutation lists no position twice. */
  lemma PermutationDistinct(p: seq<nat>, n: nat)
    requires IsPermutation(p, n)
    ensures Distinct(p)
  {
    forall a, b | 0 <= a < b < |p| ensures p[a] != p[b] {
      if p[a] == p[b] {
        RemoveOne(p, a);
        var rest := p[..a] + p[a + 1..];
        assert rest[b - 1] == p[b];
        assert multiset(rest)[p[a]] >= 1;
        RangeOnce(n, p[a]);
        assert false;
      }
    }
  }

  /** A permutation lists every position. */
  lemma PermutationCovers(p: seq<nat>, n: nat, i: nat)
    requires IsPermutation(p, n) && i < n
    ensures i in p
  {
    RangeOnce(n, i);
    assert i in multiset(p);
  }

  /** An ascending order of the negated ratios is a descending order of the ratios. */
  lemma NegatedAscendingIsDescending(ratios: seq<real>, order: seq<nat>)
    requires InRange(order, |ratios|)
    requires AscendingAlong(Negated(ratios), order)
    ensures DescendingAlong(ratios, order)
  {
    var neg := Negated(ratios);
    forall a, b | 0 <= a < b < |order| ensures ratios[order[a]] >= ratios[order[b]] {
      assert neg[order[a]] <= neg[order[b]];
    }
  }

  /** In a descending permutation, no position after the first `n` has a larger ratio than one of them. */
  lemma PrefixHoldsLargest(ratios: seq<real>, order: seq<nat>, n: nat, a: nat, i: nat)
    requires IsPermutation(order, |ratios|) && InRange(order, |ratios|)
    requires DescendingAlong(ratios, order)
    requires a < n <= |order| && i < |ratios| && i !in order[..n]
    ensures ratios[i] <= ratios[order[a]]
  {
    PermutationCovers(order, |ratios|, i);
    var b :| 0 <= b < |order| && order[b] == i;
    assert forall k :: 0 <= k < n ==> order[..n][k] == order[k];
    assert b >= n;
  }

  /** The first `n` entries of a descending permutation: distinct, descending, and holding the largest ratios. */
  lemma PrefixIsTop(ratios: seq<real>, order: seq<nat>, n: nat)
    requires IsPermutation(order, |ratios|) && InRange(order, |ratios|)
    requires DescendingAlong(ratios, order)
    requires n <= |order|
    ensures InRange(order[..n], |ratios|)
    ensures Distinct(order[..n])
    ensures forall a, b :: 0 <= a < b < n ==> ratios[order[..n][a]] >= ratios[order[..n][b]]
    ensures forall a, i :: 0 <= a < n && 0 <= i < |ratios| && i !in order[..n] ==> ratios[i] <= ratios[order[..n][a]]
  {
    PermutationDistinct(order, |ratios|);
    forall a, i | 0 <= a < n && 0 <= i < |ratios| && i !in order[..n]
      ensures ratios[i] <= ratios[order[..n][a]]
    {
      PrefixHoldsLargest(ratios, order, n, a, i);
    }
  }

  /**
   * `np.argsort(-top_variances)[:3]`: at most three distinct positions, in
   * descending order of ratio, and no position left out has a larger ratio
   * than any position taken.
   */
  function TopIndices(ratios: seq<real>): (top: seq<nat>)
    ensures |top| == if |ratios| < 3 then |ratios| else 3
    ensures InRange(top, |ratios|)
    ensures Distinct(top)
    ensures forall a, b :: 0 <= a < b < |top| ==> ratios[top[a]] >= ratios[top[b]]
    ensures forall a, i :: 0 <= a < |top| && 0 <= i < |ratios| && i !in top ==> ratios[i] <= ratios[top[a]]
  {
    var order := ArgSort(Negated(ratios));
    NegatedAscendingIsDescending(ratios, order);
    var n := if |ratios| < 3 then |ratios| else 3;
    PrefixIsTop(ratios, order, n);
    order[..n]
  }

  /** `np.argmax`: the first position of a largest ratio. */
  function ArgMax(v: seq<real>): (m: nat)
    requires |v| > 0
    ensures m < |v|
    ensures forall i :: 0 <= i < |v| ==> v[i] <= v[m]
    ensures forall i :: 0 <= i < m ==> v[i] < v[m]
  {
    if |v| == 1 then 0
    else
      var m := ArgMax(v[..|v| - 1]);
      if v[|v| - 1] > v[m] then |v| - 1 else m
  }

  /** The first of the top indices and the argmax point at the same, largest, ratio. */
  lemma TopStartsAtArgMax(ratios: seq<real>)
    requires |ratios| > 0
    ensures ratios[TopIndices(ratios)[0]] == ratios[ArgMax(ratios)]
  {
    var top := TopIndices(ratios);
    var m := ArgMax(ratios);
    if m !in top {
      assert ratios[m] <= ratios[top[0]];
    } else {
      var a :| 0 <= a < |top| && top[a] == m;
      assert ratios[top[0]] >= ratios[top[a]];
    }
  }

  /** The pie chart's names once corrected: one per component, the first `min(k, 5)` selected features. */
  function PieNames(selected: seq<string>): (names: seq<string>)
    ensures |names| == ComponentCount(|selected|)
    ensures forall i :: 0 <= i < |names| ==> names[i] == selected[i]
    ensures |selected| <= 5 ==> names == selected
  {
    selected[..ComponentCount(|selected|)]
  }

  /** What the page shows below the pie chart. */
  datatype Analysis = Analysis(
    componentCount: nat,
    pieNames: seq<string>,
    pieValues: seq<real>,
    showHeatmap: bool,
    topFeatures: seq<string>,
    furtherFeature: Option<string>)

  /**
   * The page: nothing for an empty selection; the pie call raising, so that
   * nothing after it runs; or the analysis.
   */
  datatype Page = NothingSelected | PieRejected | Shown(analysis: Analysis)

  /**
   * `a` is what the page shows for the selection and its PCA ratios: the
   * ratios as pie values, the heatmap only for more than one feature, the
   * features at the top indices, and on the button the feature at the argmax.
   */
  predicate Presents(a: Analysis, selected: seq<string>, ratios: seq<real>, furtherPressed: bool)
    requires selected != [] && |ratios| == ComponentCount(|selected|)
  {
    && a.componentCount == ComponentCount(|selected|)
    && a.pieValues == ratios
    && (a.showHeatmap <==> |selected| > 1)
    && (var top := TopIndices(ratios);
        assert InRange(top, |selected|);
        a.topFeatures == FeaturesAt(selected, top))
    && (a.furtherFeature.Some? <==> furtherPressed)
    && (furtherPressed ==> a.furtherFeature == Some(selected[ArgMax(ratios)]))
  }

  /**
   * The page from the pie chart on, with `names` as the pie's names: plotly
   * refuses names and values of different lengths.
   */
  function ShowWith(selected: seq<string>, ratios: seq<real>, names: seq<string>, furtherPressed: bool): (r: Page)
    requires selected != [] && |ratios| == ComponentCount(|selected|)
    ensures r.PieRejected? <==> |names| != |ratios|
    ensures r.Shown? ==> r.analysis.pieNames == names && Presents(r.analysis, selected, ratios, furtherPressed)
    ensures r.Shown? ==> |r.analysis.topFeatures| <= 3 && forall f :: f in r.analysis.topFeatures ==> f in selected
  {
    if |names| != |ratios| then PieRejected
    else
      var top := TopIndices(ratios);
      assert InRange(top, |selected|);
      var further := if furtherPressed then Some(selected[ArgMax(ratios)]) else None;
      Shown(Analysis(ComponentCount(|selected|), names, ratios, |selected| > 1, FeaturesAt(selected, top), further))
  }

  /**
   * explore_more as written, given the PCA ratios of the selection and
   * whether the "Further Analyze Top Feature" button was pressed: the pie
   * gets every selected feature as a name, so it raises for more than five.
   */
  function Explore(selected: seq<string>, ratios: seq<real>, furtherPressed: bool): (r: Page)
    requires selected != [] ==> |ratios| == ComponentCount(|selected|)
    ensures r.NothingSelected? <==> selected == []
    ensures r.PieRejected? <==> |selected| > 5
    ensures r.Shown? ==> r.analysis.pieNames == selected && Presents(r.analysis, selected, ratios, furtherPressed)
  {
    if selected == [] then NothingSelected
    else ShowWith(selected, ratios, selected, furtherPressed)
  }

  /** Six selected features: six names against five ratios, and the page stops at the pie. */
  lemma SixFeaturesMismatch(selected: seq<string>, ratios: seq<real>, furtherPressed: bool)
    requires |selected| == 6 && |ratios| == ComponentCount(|selected|)
    ensures |ratios| == 5
    ensures Explore(selected, ratios, furtherPressed) == PieRejected
  {
  }

  /** explore_more with one pie name per component: every non-empty selection is analysed. */
  function ExploreCorrected(selected: seq<string>, ratios: seq<real>, furtherPressed: bool): (r: Page)
    requires selected != [] ==> |ratios| == ComponentCount(|selected|)
    ensures r.NothingSelected? <==> selected == []
    ensures r.Shown? <==> selected != []
    ensures r.Shown? ==> r.analysis.pieNames == PieNames(selected) && Presents(r.analysis, selected, ratios, furtherPressed)
  {
    if selected == [] then NothingSelected
    else ShowWith(selected, ratios, PieNames(selected), furtherPressed)
  }

  /** Up to five selected features the correction changes nothing. */
  lemma CorrectionAgreesUpToFive(selected: seq<string>, ratios: seq<real>, furtherPressed: bool)
    requires selected != [] ==> |ratios| == ComponentCount(|selected|)
    requires |selected| <= 5
    ensures ExploreCorrected(selected, ratios, furtherPressed) == Explore(selected, ratios, furtherPressed)
  {
  }

  /** `top_features[index]` for each index of an index array, in order. */
  function FeaturesAt(selected: seq<string>, top: seq<nat>): (features: seq<string>)
    requires InRange(top, |selected|)
    ensures |features| == |top|
    ensures forall i :: 0 <= i < |top| ==> features[i] == selected[top[i]]
    ensures forall f :: f in features ==> f in selected
  {
    seq(|top|, i requires 0 <= i < |top| => selected[top[i]])
  }
}
