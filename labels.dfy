/**
 * The three-class NSP outcome of the cardiotocography data and the three
 * codings the dashboards use for it:
 *  - the dataset's integer code 1/2/3, turned into a display label when the
 *    data is loaded (functions/helpers.py);
 *  - the training code 0/1/2 the classifier page encodes the label into, with
 *    its validity gate before training (testing/random_forest.py);
 *  - the decoding of a predicted training code back into a class name.
 */
module Labels {
  import opened Common

  datatype Label = Normal | Suspect | Pathologic

  /**
   * The display label of a dataset NSP code. The source maps the column
   * through a dictionary, so a code outside 1..3 becomes a missing value
   * (NaN) and no error is raised.
   */
  function DisplayLabel(code: int): (l: Option<Label>)
    ensures l.Some? <==> 1 <= code <= 3
    ensures l == Some(Normal) <==> code == 1
    ensures l == Some(Suspect) <==> code == 2
    ensures l == Some(Pathologic) <==> code == 3
  {
    if code == 1 then Some(Normal)
    else if code == 2 then Some(Suspect)
    else if code == 3 then Some(Pathologic)
    else None
  }

  /** The NSP_Label column derived from the NSP column, row by row. */
  function LabelColumn(codes: seq<int>): (labels: seq<Option<Label>>)
    ensures |labels| == |codes|
    ensures forall i :: 0 <= i < |codes| ==> labels[i] == DisplayLabel(codes[i])
  {
    seq(|codes|, i requires 0 <= i < |codes| => DisplayLabel(codes[i]))
  }

  /**
   * The training code of a display label: Normal 0, Suspect 1,
   * Pathologic 2. A missing label stays missing, as pandas' map leaves NaN.
   */
  function Encode(l: Option<Label>): (c: Option<int>)
    ensures c.Some? <==> l.Some?
    ensures c.Some? ==> 0 <= c.value <= 2
    ensures l == Some(Normal) <==> c == Some(0)
    ensures l == Some(Suspect) <==> c == Some(1)
    ensures l == Some(Pathologic) <==> c == Some(2)
  {
    match l
    case None => None
    case Some(Normal) => Some(0)
    case Some(Suspect) => Some(1)
    case Some(Pathologic) => Some(2)
  }

  /** The class name of a training code, the `class_names` dictionary lookup. */
  function ClassName(code: int): (l: Option<Label>)
    ensures l.Some? <==> 0 <= code <= 2
  {
    if code == 0 then Some(Normal)
    else if code == 1 then Some(Suspect)
    else if code == 2 then Some(Pathologic)
    else None
  }

  /** Decoding a training code with `class_names` inverts the encoding. */
  lemma DecodeEncode(l: Label)
    ensures Encode(Some(l)).Some?
    ensures ClassName(Encode(Some(l)).value) == Some(l)
  {
  }

  /** Encoding the class name of a valid training code gives the code back. */
  lemma EncodeDecode(code: int)
    requires 0 <= code <= 2
    ensures ClassName(code).Some?
    ensures Encode(ClassName(code)) == Some(code)
  {
  }

  /** Loading then encoding turns a known dataset code c into c - 1. */
  lemma EncodeDisplayLabel(code: int)
    requires 1 <= code <= 3
    ensures Encode(DisplayLabel(code)) == Some(code - 1)
  {
  }

  /** Whether one encoded label is among the expected classes 0, 1, 2. */
  predicate Expected(c: Option<int>)
  {
    c.Some? && 0 <= c.value <= 2
  }

  /**
   * The validity gate before training: every encoded label is one of the
   * expected classes. A missing (NaN) label fails it.
   */
  function AllExpected(encoded: seq<Option<int>>): (ok: bool)
    ensures ok <==> forall i :: 0 <= i < |encoded| ==> Expected(encoded[i])
  {
    if encoded == [] then true
    else Expected(encoded[0]) && AllExpected(encoded[1..])
  }

  /** The encoded label column. */
  function EncodeColumn(labels: seq<Option<Label>>): (encoded: seq<Option<int>>)
    ensures |encoded| == |labels|
    ensures forall i :: 0 <= i < |labels| ==> encoded[i] == Encode(labels[i])
  {
    seq(|labels|, i requires 0 <= i < |labels| => Encode(labels[i]))
  }

  /**
   * End to end: the labels that loading derives from the NSP codes pass the
   * training gate exactly when every NSP code is 1, 2 or 3.
   */
  lemma GateAcceptsExactlyKnownCodes(codes: seq<int>)
    ensures AllExpected(EncodeColumn(LabelColumn(codes))) <==> forall i :: 0 <= i < |codes| ==> 1 <= codes[i] <= 3
  {
    var encoded := EncodeColumn(LabelColumn(codes));
    if forall i :: 0 <= i < |codes| ==> 1 <= codes[i] <= 3 {
      forall i | 0 <= i < |encoded| ensures Expected(encoded[i]) {
        EncodeDisplayLabel(codes[i]);
      }
    }
  }

  /** What the page shows for a predicted training code. */
  datatype PredictionMessage =
    | PredictedClass(predicted: Label)
    | UnexpectedPrediction(code: int)

  /**
   * A code with a class name is shown as that class; any other code gives
   * the "Unexpected prediction value" error message.
   */
  function DescribePrediction(code: int): (m: PredictionMessage)
    ensures m.PredictedClass? <==> 0 <= code <= 2
    ensures m.PredictedClass? ==> Encode(Some(m.predicted)) == Some(code)
    ensures m.UnexpectedPrediction? ==> m.code == code
  {
    match ClassName(code)
    case Some(l) => PredictedClass(l)
    case None => UnexpectedPrediction(code)
  }
}
