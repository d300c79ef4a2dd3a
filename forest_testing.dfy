/**
 * The prediction page of testing/random_forest.py: labels are encoded into
 * training codes 0/1/2 and checked before training, `main` stops when the
 * check fails, and a predicted code is decoded back into a class name or
 * reported as unexpected.
 */
module ForestTesting {
  import opened Common
  import opened Labels
  import opened InputForm

  /** What `train_model` hands back: the rejected tuple, or the training columns and codes. */
  datatype TrainOutcome =
    | Rejected
    | Trained(featureColumns: seq<string>, encoded: seq<int>)

  /**
   * train_model up to the fit: encode the NSP labels and train only if every
   * encoded label is 0, 1 or 2. A missing label (an NSP code the load did not
   * recognise) rejects the whole table.
   */
  function TrainModel(featureColumns: seq<string>, labels: seq<Option<Label>>): (r: TrainOutcome)
    ensures r.Trained? <==> forall i :: 0 <= i < |labels| ==> labels[i].Some?
    ensures r.Trained? ==> r.featureColumns == featureColumns
    ensures r.Trained? ==> |r.encoded| == |labels|
    ensures r.Trained? ==> forall i :: 0 <= i < |labels| ==> ClassName(r.encoded[i]) == labels[i]
  {
    var encoded := EncodeColumn(labels);
    if AllExpected(encoded) then
      Trained(featureColumns, seq(|encoded|, i requires 0 <= i < |encoded| => encoded[i].value))
    else
      Rejected
  }

  /** What the page ends with after one run of `main`. */
  datatype PageOutcome =
    | Stopped
    | NoFeatureSelected
    | RowAssembled(row: Row, message: Option<PredictionMessage>)

  /**
   * `main`: train (or stop), fill the form, and on Predict show the decoded
   * class or the unexpected-value error for the code `classify` returns.
   */
  method RunPage(session: SessionState, featureColumns: seq<string>, labels: seq<Option<Label>>,
              columnMin: map<string, real>, means: map<string, real>, selected: seq<string>,
              typed: map<string, real>, predictPressed: bool, classify: Row -> int)
    returns (outcome: PageOutcome)
    requires forall c :: c in featureColumns ==> c in columnMin && c in means
    requires forall c :: c in selected ==> c in featureColumns
    modifies session
    ensures outcome.Stopped? <==> TrainModel(featureColumns, labels).Rejected?
    ensures outcome.Stopped? ==> session.inputData == old(session.inputData)
    ensures !outcome.Stopped? ==>
              session.inputData == Some(Defaulted(PriorInput(old(session.inputData)), selected, columnMin))
    ensures outcome.NoFeatureSelected? ==> selected == []
    ensures outcome.RowAssembled? ==> selected != [] && |outcome.row| == |featureColumns|
    ensures outcome.RowAssembled? ==> forall i :: 0 <= i < |featureColumns| ==>
              outcome.row[i].0 == featureColumns[i] &&
              outcome.row[i].1 == if featureColumns[i] in selected
                                  then WidgetValue(typed, featureColumns[i], session.inputData.value[featureColumns[i]])
                                  else means[featureColumns[i]]
    ensures outcome.RowAssembled? ==> (outcome.message.Some? <==> predictPressed)
    ensures outcome.RowAssembled? && predictPressed ==>
              outcome.message == Some(DescribePrediction(classify(outcome.row)))
  {
    var trained := TrainModel(featureColumns, labels);
    if trained.Rejected? {
      return Stopped;
    }
    var row := FillForm(session, trained.featureColumns, columnMin, means, selected, typed);
    if row.None? {
      return NoFeatureSelected;
    }
    var message := if predictPressed then Some(DescribePrediction(classify(row.value))) else None;
    outcome := RowAssembled(row.value, message);
  }

  /**
   * The gate applied to a loaded label column: training goes ahead exactly
   * when every NSP code of the table was 1, 2 or 3.
   */
  lemma TrainsExactlyOnKnownCodes(featureColumns: seq<string>, codes: seq<int>)
    ensures TrainModel(featureColumns, LabelColumn(codes)).Trained? <==>
            forall i :: 0 <= i < |codes| ==> 1 <= codes[i] <= 3
  {
    var labels := LabelColumn(codes);
    if TrainModel(featureColumns, labels).Trained? {
      forall i | 0 <= i < |codes| ensures 1 <= codes[i] <= 3 {
        assert labels[i].Some?;
      }
    }
  }

  /** A trained code decodes to the label it was encoded from, so codes are code - 1 of the dataset's. */
  lemma TrainedCodesAreShiftedNsp(featureColumns: seq<string>, codes: seq<int>, i: int)
    requires TrainModel(featureColumns, LabelColumn(codes)).Trained?
    requires 0 <= i < |codes|
    ensures TrainModel(featureColumns, LabelColumn(codes)).encoded[i] == codes[i] - 1
  {
    var t := TrainModel(featureColumns, LabelColumn(codes));
    assert ClassName(t.encoded[i]) == DisplayLabel(codes[i]);
  }
}
