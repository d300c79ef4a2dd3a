/**
 * The prediction input form shared by random_forest.py and
 * testing/random_forest.py: the per-session map of remembered inputs
 * (`st.session_state.input_data`), the entered values of the selected
 * columns, and the one-row table handed to the classifier, with every
 * unselected column filled by its mean and the columns in training order.
 *
 * Column minima and means are values the numeric library computes; they are
 * given as maps from column name. A number-input widget shows the value the
 * user typed into it, or its default when the user typed nothing.
 */
module InputForm {
  import opened Common

  /** The one-row DataFrame: its columns in order, each with its value. */
  type Row = seq<(string, real)>

  /** The Streamlit session state, as far as the form uses it. */
  class SessionState {
    /** `st.session_state.input_data`; None while the attribute does not exist. */
    var inputData: Option<map<string, real>>

    constructor ()
      ensures inputData == None
    {
      inputData := None;
    }
  }

  /** The map the form starts from: the stored one, or the empty map it creates. */
  function PriorInput(stored: Option<map<string, real>>): (m: map<string, real>)
    ensures stored.Some? ==> m == stored.value
    ensures stored.None? ==> m == map[]
  {
    if stored.Some? then stored.value else map[]
  }

  /**
   * The remembered inputs after the form has run over `selected`: every
   * selected column missing from `stored` is set to that column's minimum,
   * and nothing already stored is changed.
   */
  function Defaulted(stored: map<string, real>, selected: seq<string>, columnMin: map<string, real>): (m: map<string, real>)
    requires forall c :: c in selected ==> c in columnMin
    ensures forall k :: k in stored ==> k in m && m[k] == stored[k]
    ensures forall k :: k in m ==> k in stored || k in selected
    ensures forall c :: c in selected ==> c in m
    ensures forall c :: c in selected && c !in stored ==> m[c] == columnMin[c]
  {
    map k | k in stored.Keys + (set c | c in selected) :: if k in stored then stored[k] else columnMin[k]
  }

  /** Defaulting over no column changes nothing. */
  lemma DefaultedNothing(stored: map<string, real>, columnMin: map<string, real>)
    ensures Defaulted(stored, [], columnMin) == stored
  {
    var m := Defaulted(stored, [], columnMin);
    assert m.Keys == stored.Keys;
  }

  /** Defaulting over one more column extends the map by that column only if it was absent. */
  lemma DefaultedStep(stored: map<string, real>, selected: seq<string>, column: string, columnMin: map<string, real>)
    requires forall c :: c in selected ==> c in columnMin
    requires column in columnMin
    ensures var before := Defaulted(stored, selected, columnMin);
            Defaulted(stored, selected + [column], columnMin)
              == if column in before then before else before[column := columnMin[column]]
  {
    var before := Defaulted(stored, selected, columnMin);
    var after := Defaulted(stored, selected + [column], columnMin);
    var expected := if column in before then before else before[column := columnMin[column]];
    assert after.Keys == expected.Keys;
  }

  /** The value a number input shows: what the user typed, else its default. */
  function WidgetValue(typed: map<string, real>, column: string, default: real): (v: real)
    ensures column in typed ==> v == typed[column]
    ensures column !in typed ==> v == default
  {
    if column in typed then typed[column] else default
  }

  /**
   * The entry loop: remembers a minimum for every selected column the session
   * map lacks, and collects the value shown by each column's number input,
   * whose default is the remembered value. Entered values go only into the
   * local map, never into the session map.
   */
  method CollectInputs(session: SessionState, selected: seq<string>, columnMin: map<string, real>, typed: map<string, real>)
    returns (inputData: map<string, real>)
    requires session.inputData.Some?
    requires forall c :: c in selected ==> c in columnMin
    modifies session
    ensures session.inputData == Some(Defaulted(old(session.inputData.value), selected, columnMin))
    ensures forall c :: c in inputData <==> c in selected
    ensures forall c :: c in inputData ==> inputData[c] == WidgetValue(typed, c, session.inputData.value[c])
  {
    ghost var stored := session.inputData.value;
    assert selected[..0] == [];
    DefaultedNothing(stored, columnMin);
    inputData := map[];
    for i := 0 to |selected|
      invariant session.inputData == Some(Defaulted(stored, selected[..i], columnMin))
      invariant forall c :: c in inputData <==> c in selected[..i]
      invariant forall c :: c in inputData ==> c in session.inputData.value
      invariant forall c :: c in inputData ==> inputData[c] == WidgetValue(typed, c, session.inputData.value[c])
    {
      var column := selected[i];
      var minValue := columnMin[column];
      var remembered := session.inputData.value;
      DefaultedStep(stored, selected[..i], column, columnMin);
      assert selected[..i + 1] == selected[..i] + [column];
      if column !in remembered {
        session.inputData := Some(remembered[column := minValue]);
      }
      inputData := inputData[column := WidgetValue(typed, column, session.inputData.value[column])];
    }
    assert selected[..|selected|] == selected;
  }

  /** The frame has a column named `c`. */
  predicate HasColumn(frame: Row, c: string)
  {
    exists k :: 0 <= k < |frame| && frame[k].0 == c
  }

  /** Adding a column keeps every column the frame had, and adds the new one. */
  lemma AppendKeepsColumns(frame: Row, cell: (string, real))
    ensures forall c :: HasColumn(frame, c) ==> HasColumn(frame + [cell], c)
    ensures HasColumn(frame + [cell], cell.0)
  {
    forall c | HasColumn(frame, c) ensures HasColumn(frame + [cell], c) {
      var k :| 0 <= k < |frame| && frame[k].0 == c;
      assert (frame + [cell])[k].0 == c;
    }
    assert (frame + [cell])[|frame|].0 == cell.0;
  }

  /** `frame[c]`: the value of the first column named `c`. */
  function ValueOf(frame: Row, c: string): (v: real)
    requires HasColumn(frame, c)
    ensures (c, v) in frame
    decreases |frame|
  {
    if frame[0].0 == c then frame[0].1
    else
      assert HasColumn(frame[1..], c) by {
        var k :| 0 <= k < |frame| && frame[k].0 == c;
        assert frame[1..][k - 1].0 == c;
      }
      ValueOf(frame[1..], c)
  }

  /** `frame[columns]`: a frame with exactly the given columns, in that order. */
  function SelectColumns(frame: Row, columns: seq<string>): (row: Row)
    requires forall c :: c in columns ==> HasColumn(frame, c)
    ensures |row| == |columns|
    ensures forall i :: 0 <= i < |row| ==> row[i].0 == columns[i]
    ensures forall i :: 0 <= i < |row| ==> row[i] in frame
  {
    seq(|columns|, i requires 0 <= i < |columns| => (columns[i], ValueOf(frame, columns[i])))
  }

  /** The value the assembled row holds for a training column. */
  function FilledValue(inputData: map<string, real>, means: map<string, real>, c: string): real
    requires c in inputData || c in means
  {
    if c in inputData then inputData[c] else means[c]
  }

  /**
   * The assembly: a one-row frame of the entered values, every training
   * column it lacks added with that column's mean, then reordered to the
   * training columns. The row has exactly the training columns, in training
   * order; selected columns hold the entered value, all others the mean.
   */
  method AssembleRow(inputData: map<string, real>, selected: seq<string>, featureColumns: seq<string>, means: map<string, real>)
    returns (row: Row)
    requires forall c :: c in selected <==> c in inputData
    requires forall c :: c in featureColumns ==> c in means
    ensures |row| == |featureColumns|
    ensures forall i :: 0 <= i < |row| ==> row[i].0 == featureColumns[i]
    ensures forall i :: 0 <= i < |row| ==>
              row[i].1 == if featureColumns[i] in selected then inputData[featureColumns[i]] else means[featureColumns[i]]
  {
    // pd.DataFrame([input_data]): one column per entered value
    var frame: Row := [];
    for i := 0 to |selected|
      invariant forall k :: 0 <= k < |frame| ==> frame[k].0 in inputData && frame[k].1 == inputData[frame[k].0]
      invariant forall c :: c in selected[..i] ==> HasColumn(frame, c)
    {
      var column := selected[i];
      if !HasColumn(frame, column) {
        AppendKeepsColumns(frame, (column, inputData[column]));
        frame := frame + [(column, inputData[column])];
      }
      assert selected[..i + 1] == selected[..i] + [column];
    }
    assert selected[..|selected|] == selected;
    // every training column the frame lacks is added with its mean
    for j := 0 to |featureColumns|
      invariant forall k :: 0 <= k < |frame| ==> frame[k].0 in inputData || frame[k].0 in means
      invariant forall k :: 0 <= k < |frame| ==> frame[k].1 == FilledValue(inputData, means, frame[k].0)
      invariant forall c :: c in selected ==> HasColumn(frame, c)
      invariant forall c :: c in featureColumns[..j] ==> HasColumn(frame, c)
    {
      var col := featureColumns[j];
      if !HasColumn(frame, col) {
        assert col !in inputData;
        AppendKeepsColumns(frame, (col, means[col]));
        frame := frame + [(col, means[col])];
      }
      assert featureColumns[..j + 1] == featureColumns[..j] + [col];
    }
    assert featureColumns[..|featureColumns|] == featureColumns;
    // input_data_df[feature_columns]
    row := SelectColumns(frame, featureColumns);
  }

  /**
   * The form of lines 79-105: create the session map if absent, and when at
   * least one column is selected, collect the entries and assemble the row.
   * Nothing is assembled when the selection is empty.
   */
  method FillForm(session: SessionState, featureColumns: seq<string>, columnMin: map<string, real>,
                  means: map<string, real>, selected: seq<string>, typed: map<string, real>)
    returns (row: Option<Row>)
    requires forall c :: c in selected ==> c in columnMin
    requires forall c :: c in featureColumns ==> c in means
    modifies session
    ensures session.inputData == Some(Defaulted(PriorInput(old(session.inputData)), selected, columnMin))
    ensures row.Some? <==> selected != []
    ensures row.Some? ==> |row.value| == |featureColumns|
    ensures row.Some? ==> forall i :: 0 <= i < |featureColumns| ==> row.value[i].0 == featureColumns[i]
    ensures row.Some? ==> forall i :: 0 <= i < |featureColumns| ==>
              row.value[i].1 == if featureColumns[i] in selected
                                then WidgetValue(typed, featureColumns[i], session.inputData.value[featureColumns[i]])
                                else means[featureColumns[i]]
  {
    if session.inputData.None? {
      session.inputData := Some(map[]);
    }
    if selected == [] {
      DefaultedNothing(session.inputData.value, columnMin);
      return None;
    }
    var inputData := CollectInputs(session, selected, columnMin, typed);
    var assembled := AssembleRow(inputData, selected, featureColumns, means);
    row := Some(assembled);
  }

  /**
   * Running the form never loses or changes a remembered value: the session
   * map only grows, and only by the minimum of a newly selected column.
   */
  lemma FormNeverOverwrites(stored: Option<map<string, real>>, selected: seq<string>, columnMin: map<string, real>, key: string)
    requires forall c :: c in selected ==> c in columnMin
    requires stored.Some? && key in stored.value
    ensures var after := Defaulted(PriorInput(stored), selected, columnMin);
            key in after && after[key] == stored.value[key]
  {
  }

  /** A second run of the form over the same selection leaves the session map as the first run left it. */
  lemma FormIdempotent(stored: map<string, real>, selected: seq<string>, columnMin: map<string, real>)
    requires forall c :: c in selected ==> c in columnMin
    ensures Defaulted(Defaulted(stored, selected, columnMin), selected, columnMin) == Defaulted(stored, selected, columnMin)
  {
    var once := Defaulted(stored, selected, columnMin);
    var twice := Defaulted(once, selected, columnMin);
    assert twice.Keys == once.Keys;
  }
}
