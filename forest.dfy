/**
 * The prediction page of random_forest.py. `train_model` contributes only
 * its column list, which is the feature table's own column order; the
 * fitted classifier is the opaque function `classify`.
 */
module Forest {
  import opened Common
  import opened Labels
  import opened InputForm

  /** What the page ends with after one run of `main`. */
  datatype PageOutcome<P> =
    | NoFeatureSelected
    | RowAssembled(row: Row, prediction: Option<P>)

  /**
   * `main` from the feature selection on: fill the form and, only when the
   * Predict button was pressed, classify the assembled row.
   */
  method RunPage(session: SessionState, featureColumns: seq<string>, columnMin: map<string, real>,
              means: map<string, real>, selected: seq<string>, typed: map<string, real>,
              predictPressed: bool, classify: Row -> Label)
    returns (outcome: PageOutcome<Label>)
    requires forall c :: c in featureColumns ==> c in columnMin && c in means
    requires forall c :: c in selected ==> c in featureColumns
    modifies session
    ensures session.inputData == Some(Defaulted(PriorInput(old(session.inputData)), selected, columnMin))
    ensures outcome.NoFeatureSelected? <==> selected == []
    ensures outcome.RowAssembled? ==> |outcome.row| == |featureColumns|
    ensures outcome.RowAssembled? ==> forall i :: 0 <= i < |featureColumns| ==>
              outcome.row[i].0 == featureColumns[i] &&
              outcome.row[i].1 == if featureColumns[i] in selected
                                  then WidgetValue(typed, featureColumns[i], session.inputData.value[featureColumns[i]])
                                  else means[featureColumns[i]]
    ensures outcome.RowAssembled? ==> (outcome.prediction.Some? <==> predictPressed)
    ensures outcome.RowAssembled? && predictPressed ==> outcome.prediction == Some(classify(outcome.row))
  {
    var row := FillForm(session, featureColumns, columnMin, means, selected, typed);
    if row.None? {
      return NoFeatureSelected;
    }
    var prediction := if predictPressed then Some(classify(row.value)) else None;
    outcome := RowAssembled(row.value, prediction);
  }
}
