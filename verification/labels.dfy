/** Label decoding (`decode_labels`): class ids in a label series turned back
    into disease names by the label encoder, falling back to the input on
    every failure. */
module Labels {
  import opened Results
  import opened Numerals
  import opened Frames
  import FileSystem
  import TrainingData

  /** The label encoder as the decoder uses it: `inverse_transform`, `None`
      standing for the exception it raises. */
  datatype Encoder = Encoder(inverse: seq<int> -> Option<seq<Value>>)

  /** `pd.to_numeric(v, errors='coerce')`, then `fillna(0)` and `astype(int)`
      for one cell: an integer stays, integer text is read, anything else is 0. */
  function ToClassId(v: Value): (id: int)
    ensures v.Int? ==> id == v.i
    ensures v.Null? ==> id == 0
    ensures v.Text? && ParseInt(v.s).Some? ==> id == ParseInt(v.s).value
    ensures v.Text? && ParseInt(v.s).None? ==> id == 0
  {
    match v
    case Int(i) => i
    case Text(s) => ParseInt(s).GetOr(0)
    case Null => 0
  }

  function ClassIds(values: seq<Value>): (ids: seq<int>)
    ensures |ids| == |values|
    ensures forall k :: 0 <= k < |values| ==> ids[k] == ToClassId(values[k])
  {
    seq(|values|, k requires 0 <= k < |values| => ToClassId(values[k]))
  }

  /** Decoding succeeds when the encoder accepts the ids and returns one label
      per row (otherwise building the series raises). */
  predicate DecodeSucceeds(y: Series, encoder: Encoder) {
    var out := encoder.inverse(ClassIds(y.values));
    out.Some? && |out.value| == |y.values|
  }

  /** `decode_labels(y, label_encoder)`: total; `None` stays `None`, a missing
      encoder or any failure returns `y` itself, and a success returns the
      labels on `y`'s index, under no name. */
  function DecodeLabels(y: Option<Series>, encoder: Option<Encoder>): (decoded: Option<Series>)
    ensures y.None? ==> decoded.None?
    ensures encoder.None? ==> decoded == y
    ensures y.Some? && encoder.Some? && !DecodeSucceeds(y.value, encoder.value) ==> decoded == y
    ensures y.Some? && encoder.Some? && DecodeSucceeds(y.value, encoder.value) ==>
              && decoded.Some?
              && decoded.value.index == y.value.index
              && decoded.value.name.None?
              && |decoded.value.values| == |y.value.values|
              && encoder.value.inverse(ClassIds(y.value.values)) == Some(decoded.value.values)
  {
    match y
    case None => None
    case Some(series) =>
      match encoder
      case None => y
      case Some(enc) =>
        match enc.inverse(ClassIds(series.values))
        case None => y
        case Some(labels) =>
          if |labels| == |series.values| then Some(Series(None, series.index, labels)) else y
  }

  /** Coercion reads a cell's printed form the way it reads the cell: labels
      written out as text decode to the same classes. */
  lemma ClassIdOfShownCell(v: Value)
    ensures ToClassId(Text(Show(v))) == ToClassId(v)
  {
    if v.Int? {
      ParseShowRoundTrip(v.i);
    }
  }

  /** Decoding a label series the loader produced, whether it succeeds or
      falls back, keeps one value per row of the label file, on that file's
      row index. */
  lemma DecodedLabelsKeepFileIndex<M, E>(disk: FileSystem.Disk<M, E>, expected: Option<seq<Value>>, encoder: Option<Encoder>)
    requires TrainingData.LoadTrainingData(disk, expected).Ok?
    ensures var data := TrainingData.LoadTrainingData(disk, expected).value;
            var decoded := DecodeLabels(data.yTrain, encoder);
            var raw := TrainingData.Raw(disk, TrainingData.YTrainPath);
            && (decoded.Some? <==> disk.pathExists(TrainingData.YTrainPath))
            && (decoded.Some? ==> raw.Some? && decoded.value.index == raw.value.index
                                  && |decoded.value.values| == Rows(raw.value))
    ensures var data := TrainingData.LoadTrainingData(disk, expected).value;
            var decoded := DecodeLabels(data.yValid, encoder);
            var raw := TrainingData.Raw(disk, TrainingData.YValidPath);
            && (decoded.Some? <==> disk.pathExists(TrainingData.YValidPath))
            && (decoded.Some? ==> raw.Some? && decoded.value.index == raw.value.index
                                  && |decoded.value.values| == Rows(raw.value))
  {
  }

  // ---------- A reference encoder ----------

  predicate AllIn(ids: seq<int>, n: nat) {
    forall k :: 0 <= k < |ids| ==> 0 <= ids[k] < n
  }

  function LabelsOf(ids: seq<int>, classes: seq<string>): (labels: seq<Value>)
    requires AllIn(ids, |classes|)
    ensures |labels| == |ids|
    ensures forall k :: 0 <= k < |ids| ==> labels[k] == Text(classes[ids[k]])
  {
    seq(|ids|, k requires 0 <= k < |ids| => Text(classes[ids[k]]))
  }

  /** scikit-learn's `LabelEncoder` over `classes`: `inverse_transform` maps id
      `i` to `classes[i]` and raises on an id it never produced. */
  function ClassesEncoder(classes: seq<string>): Encoder {
    Encoder((ids: seq<int>) => if AllIn(ids, |classes|) then Some(LabelsOf(ids, classes)) else None)
  }

  /** `LabelEncoder.transform`: each label's class id. */
  function TransformLabels(labels: seq<string>, classes: seq<string>): (ids: seq<Value>)
    requires forall k :: 0 <= k < |labels| ==> labels[k] in classes
    ensures |ids| == |labels|
  {
    seq(|labels|, k requires 0 <= k < |labels| => Int(IndexOf(classes, labels[k])))
  }

  /** Decoding undoes the encoder's transform: encoded labels decode back to
      the labels, row by row, on the same index. */
  lemma DecodeInvertsTransform(name: Option<string>, index: seq<int>, labels: seq<string>, classes: seq<string>)
    requires |index| == |labels|
    requires forall k :: 0 <= k < |labels| ==> labels[k] in classes
    ensures DecodeLabels(Some(Series(name, index, TransformLabels(labels, classes))), Some(ClassesEncoder(classes)))
            == Some(Series(None, index, seq(|labels|, k requires 0 <= k < |labels| => Text(labels[k]))))
  {
    var y := Series(name, index, TransformLabels(labels, classes));
    var ids := ClassIds(y.values);
    assert AllIn(ids, |classes|);
    assert LabelsOf(ids, classes) == seq(|labels|, k requires 0 <= k < |labels| => Text(labels[k]));
  }

  /** One id the encoder never produced makes decoding fail, so the series
      comes back as it went in. */
  lemma UnseenClassKeepsSeries(y: Series, classes: seq<string>, k: nat)
    requires k < |y.values| && y.values[k].Int? && (y.values[k].i < 0 || y.values[k].i >= |classes|)
    ensures DecodeLabels(Some(y), Some(ClassesEncoder(classes))) == Some(y)
  {
  }
}
