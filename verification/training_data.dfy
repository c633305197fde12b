/** Training-data loading (`load_training_data`): four CSV files, label files
    reduced to their first column, feature tables projected onto the expected
    feature list, and the two feature tables stacked into one. */
module TrainingData {
  import opened Results
  import opened Frames
  import opened FileSystem
  import Artifacts

  const XTrainPath: Path := Path(ProjectRoot, ["data", "processed", "X_train.csv"])
  const YTrainPath: Path := Path(ProjectRoot, ["data", "processed", "y_train.csv"])
  const XValidPath: Path := Path(ProjectRoot, ["data", "processed", "X_valid.csv"])
  const YValidPath: Path := Path(ProjectRoot, ["data", "processed", "y_valid.csv"])

  /** The four tables, the label series and the combined feature table; every
      slot is `None` when its file is missing. */
  datatype Dataset = Dataset(
    xTrain: Option<Frame>,
    yTrain: Option<Series>,
    xValid: Option<Frame>,
    yValid: Option<Series>,
    xAll: Option<Frame>)

  /** The exceptions the loader lets escape: a file that exists but does not
      parse, and a label file without any column. */
  datatype LoadError = ReadFailed(path: Path) | NoLabelColumn(path: Path)

  // ---------- Projection onto the expected features ----------

  /** `kept` occurs in `s` in the same order, each name as the text cell `Text(name)`. */
  ghost predicate EmbedsIn(kept: seq<string>, s: seq<Value>)
    decreases |s|
  {
    if |kept| == 0 then true
    else if |s| == 0 then false
    else (s[0] == Text(kept[0]) && EmbedsIn(kept[1..], s[1..])) || EmbedsIn(kept, s[1..])
  }

  /** `[f for f in expected if f in names]`: the expected features that name a
      column, in the expected order; duplicates are kept. */
  function KeepKnown(expected: seq<Value>, names: seq<string>): (kept: seq<string>)
    ensures forall n :: n in kept <==> Text(n) in expected && n in names
    ensures forall n {:trigger multiset(kept)[n]} :: multiset(kept)[n] == (if n in names then multiset(expected)[Text(n)] else 0)
    ensures EmbedsIn(kept, expected)
    ensures |kept| <= |expected|
    decreases |expected|
  {
    if |expected| == 0 then []
    else
      var rest := KeepKnown(expected[1..], names);
      assert expected == [expected[0]] + expected[1..];
      var kept := if expected[0].Text? && expected[0].s in names then [expected[0].s] + rest else rest;
      KeepKnownCountStep(expected[0], expected[1..], names, rest, kept);
      kept
  }

  /** One step of the count in `KeepKnown`: the head feature adds one
      occurrence of its name exactly when it is kept. */
  lemma KeepKnownCountStep(head: Value, tail: seq<Value>, names: seq<string>, rest: seq<string>, kept: seq<string>)
    requires forall n :: multiset(rest)[n] == (if n in names then multiset(tail)[Text(n)] else 0)
    requires kept == (if head.Text? && head.s in names then [head.s] + rest else rest)
    ensures forall n :: multiset(kept)[n] == (if n in names then multiset([head] + tail)[Text(n)] else 0)
  {
    assert multiset([head] + tail) == multiset{head} + multiset(tail);
    if head.Text? && head.s in names {
      assert multiset(kept) == multiset{head.s} + multiset(rest);
    }
  }

  /** `df[[f for f in expected if f in df.columns]]`: the columns the expected
      features name, in the expected order; others are dropped and absent
      features are skipped, so the result may have no column at all. */
  function Project(t: Frame, expected: seq<Value>): (r: Frame)
    ensures r.index == t.index
    ensures Names(r) == KeepKnown(expected, Names(t))
    ensures forall k :: 0 <= k < |r.columns| ==> r.columns[k] in t.columns
  {
    var kept := KeepKnown(expected, Names(t));
    var r := Table(t.index, seq(|kept|, k requires 0 <= k < |kept| => Lookup(t, kept[k])));
    assert WellFormed(r);
    r
  }

  /** Projection is only applied for a non-empty expected list (`if expected_features:`). */
  predicate Projects(expected: Option<seq<Value>>) {
    expected.Some? && |expected.value| > 0
  }

  function ProjectIfExpected(x: Option<Frame>, expected: Option<seq<Value>>): (r: Option<Frame>)
    ensures r.Some? <==> x.Some?
    ensures !Projects(expected) ==> r == x
    ensures Projects(expected) && x.Some? ==> r.value.index == x.value.index
    ensures Projects(expected) && x.Some? ==> Names(r.value) == KeepKnown(expected.value, Names(x.value))
    ensures Projects(expected) && x.Some? ==> r == Some(Project(x.value, expected.value))
  {
    if Projects(expected) && x.Some? then Some(Project(x.value, expected.value)) else x
  }

  lemma {:induction false} KeepKnownIdempotent(expected: seq<Value>, names: seq<string>)
    ensures KeepKnown(expected, KeepKnown(expected, names)) == KeepKnown(expected, names)
    decreases |expected|
  {
    if |expected| > 0 {
      var kept := KeepKnown(expected, names);
      KeepKnownMembership(expected[1..], names, kept);
    }
  }

  /** Filtering by two name lists that agree on the expected features gives the same names. */
  lemma {:induction false} KeepKnownMembership(expected: seq<Value>, names1: seq<string>, names2: seq<string>)
    requires forall n :: Text(n) in expected ==> (n in names1 <==> n in names2)
    ensures KeepKnown(expected, names1) == KeepKnown(expected, names2)
    decreases |expected|
  {
    if |expected| > 0 {
      assert forall n :: Text(n) in expected[1..] ==> Text(n) in expected;
      KeepKnownMembership(expected[1..], names1, names2);
    }
  }

  /** Projecting twice onto the same list is projecting once. */
  lemma ProjectIdempotent(t: Frame, expected: seq<Value>)
    ensures Project(Project(t, expected), expected) == Project(t, expected)
  {
    var r := Project(t, expected);
    var kept := KeepKnown(expected, Names(t));
    KeepKnownIdempotent(expected, Names(t));
    var rr := Project(r, expected);
    assert |rr.columns| == |r.columns|;
    forall k | 0 <= k < |rr.columns|
      ensures rr.columns[k] == r.columns[k]
    {
      var j := IndexOf(Names(r), kept[k]);
      assert rr.columns[k] == r.columns[j];
      assert r.columns[j] == Lookup(t, kept[j]);
    }
  }

  lemma {:induction false} KeepKnownOfNames(names: seq<string>, known: seq<string>)
    requires forall n :: n in names ==> n in known
    ensures KeepKnown(TextsOf(names), known) == names
    decreases |names|
  {
    if |names| > 0 {
      var texts := TextsOf(names);
      assert texts[1..] == TextsOf(names[1..]);
      KeepKnownOfNames(names[1..], known);
      assert names == [names[0]] + names[1..];
    }
  }

  /** A table read back as a multi-column feature CSV yields its own header
      as the feature list, and projecting it onto that list selects every
      column in place when the names are distinct. */
  lemma ProjectOntoOwnHeader(t: Frame)
    requires |t.columns| != 1 && Distinct(Names(t))
    ensures Project(t, Artifacts.FeaturesFromCsv(t)) == t
  {
    var names := Names(t);
    KeepKnownOfNames(names, names);
    assert Artifacts.FeaturesFromCsv(t) == TextsOf(names);
    var r := Project(t, Artifacts.FeaturesFromCsv(t));
    forall k | 0 <= k < |t.columns|
      ensures r.columns[k] == t.columns[k]
    {
      assert IndexOf(names, names[k]) == k;
    }
  }

  // ---------- Stacking the two feature tables ----------

  function Nulls(n: nat): (cells: seq<Value>)
    ensures |cells| == n && forall i :: 0 <= i < n ==> cells[i] == Null
  {
    seq(n, _ => Null)
  }

  /** Row `i` of an optional column; a column the frame lacks reads as missing. */
  function CellOr(c: Option<Column>, i: nat): Value {
    if c.Some? && i < |c.value.values| then c.value.values[i] else Null
  }

  /** `c` holds the `top` rows followed by the `bottom` rows. */
  predicate Stacks(c: Column, top: Option<Column>, nTop: nat, bottom: Option<Column>, nBottom: nat) {
    && |c.values| == nTop + nBottom
    && (forall i :: 0 <= i < nTop ==> c.values[i] == CellOr(top, i))
    && (forall i :: 0 <= i < nBottom ==> c.values[nTop + i] == CellOr(bottom, i))
  }

  /** The dtype pandas gives a stacked column, for the dtypes `read_csv`
      produces: equal tags are kept, int64 mixed with float64 or with missing
      cells becomes float64, bool with missing cells and every other mixture
      becomes object. */
  function CommonDtype(top: Option<DType>, bottom: Option<DType>): (d: DType)
    requires top.Some? || bottom.Some?
    ensures top == bottom ==> d == top.value
    ensures top.Some? && bottom.Some? && top != bottom ==>
              d == (if top.value in {Int64, Float64} && bottom.value in {Int64, Float64} then Float64 else Object)
    ensures top.Some? != bottom.Some? ==>
              var a := if top.Some? then top.value else bottom.value;
              d == (if a == Int64 then Float64 else if a == Bool then Object else a)
  {
    match (top, bottom)
    case (Some(a), Some(b)) =>
      if a == b then a
      else if a in {Int64, Float64} && b in {Int64, Float64} then Float64
      else Object
    case (Some(a), None) => WithMissing(a)
    case (None, Some(b)) => WithMissing(b)
  }

  /** The dtype of a column once missing cells are added to it. */
  function WithMissing(d: DType): DType {
    if d == Int64 then Float64 else if d == Bool then Object else d
  }

  lemma CommonDtypeSymmetric(top: Option<DType>, bottom: Option<DType>)
    requires top.Some? || bottom.Some?
    ensures CommonDtype(top, bottom) == CommonDtype(bottom, top)
  {
  }

  /** The dtype of an optional column. */
  function DTypeOf(c: Option<Column>): Option<DType> {
    if c.Some? then Some(c.value.dtype) else None
  }

  function JoinColumns(name: string, top: Option<Column>, nTop: nat, bottom: Option<Column>, nBottom: nat): (c: Column)
    requires top.Some? || bottom.Some?
    requires top.Some? ==> |top.value.values| == nTop
    requires bottom.Some? ==> |bottom.value.values| == nBottom
    ensures c.name == name
    ensures Stacks(c, top, nTop, bottom, nBottom)
    ensures c.dtype == CommonDtype(DTypeOf(top), DTypeOf(bottom))
  {
    var upper := if top.Some? then top.value.values else Nulls(nTop);
    var lower := if bottom.Some? then bottom.value.values else Nulls(nBottom);
    var dtype := CommonDtype(DTypeOf(top), DTypeOf(bottom));
    Column(name, dtype, upper + lower)
  }

  /** The names of `names` that are not in `taken`, in order. */
  function NamesNotIn(names: seq<string>, taken: seq<string>): (unseen: seq<string>)
    ensures forall n :: n in unseen <==> n in names && n !in taken
    ensures IsSubsequence(unseen, names)
    ensures Distinct(names) ==> Distinct(unseen)
    decreases |names|
  {
    if |names| == 0 then []
    else
      assert names == [names[0]] + names[1..];
      if names[0] in taken then NamesNotIn(names[1..], taken) else [names[0]] + NamesNotIn(names[1..], taken)
  }

  /** pandas can line up two frames with different headers only when neither
      header repeats a name. */
  predicate CanConcat(top: Table, bottom: Table) {
    Names(top) == Names(bottom) || (Distinct(Names(top)) && Distinct(Names(bottom)))
  }

  /** `pd.concat([top, bottom], ignore_index=True)`: the rows of `top`, then
      those of `bottom`, renumbered from 0. The columns are those of `top`
      followed by the new ones of `bottom`; a cell a frame lacks is missing. */
  function Concat(top: Frame, bottom: Frame): (r: Option<Frame>)
    ensures r.Some? <==> CanConcat(top, bottom)
    ensures r.Some? ==> r.value.index == RangeIndex(Rows(top) + Rows(bottom))
    ensures r.Some? ==> |Names(top)| <= |Names(r.value)| && Names(r.value)[..|Names(top)|] == Names(top)
    ensures r.Some? ==> forall n :: n in Names(r.value) <==> n in Names(top) || n in Names(bottom)
    ensures r.Some? && Names(top) == Names(bottom) ==> Names(r.value) == Names(top)
    ensures r.Some? && Names(top) == Names(bottom) ==>
              forall k :: 0 <= k < |r.value.columns| ==>
                && Stacks(r.value.columns[k], Some(top.columns[k]), Rows(top), Some(bottom.columns[k]), Rows(bottom))
                && r.value.columns[k].dtype == CommonDtype(Some(top.columns[k].dtype), Some(bottom.columns[k].dtype))
    ensures r.Some? && Names(top) != Names(bottom) ==>
              Names(r.value) == Names(top) + NamesNotIn(Names(bottom), Names(top))
    ensures r.Some? && Names(top) != Names(bottom) ==>
              forall k :: 0 <= k < |r.value.columns| ==>
                && Stacks(r.value.columns[k], ColumnNamed(top, r.value.columns[k].name), Rows(top),
                          ColumnNamed(bottom, r.value.columns[k].name), Rows(bottom))
                && r.value.columns[k].dtype == CommonDtype(DTypeOf(ColumnNamed(top, r.value.columns[k].name)),
                                                           DTypeOf(ColumnNamed(bottom, r.value.columns[k].name)))
  {
    var n := Rows(top) + Rows(bottom);
    if Names(top) == Names(bottom) then
      var cols := seq(|top.columns|, k requires 0 <= k < |top.columns| =>
                      JoinColumns(top.columns[k].name, Some(top.columns[k]), Rows(top), Some(bottom.columns[k]), Rows(bottom)));
      var r := Table(RangeIndex(n), cols);
      assert Names(r) == Names(top);
      Some(r)
    else if Distinct(Names(top)) && Distinct(Names(bottom)) then
      var names := Names(top) + NamesNotIn(Names(bottom), Names(top));
      var cols := seq(|names|, k requires 0 <= k < |names| =>
                      JoinColumns(names[k], ColumnNamed(top, names[k]), Rows(top), ColumnNamed(bottom, names[k]), Rows(bottom)));
      var r := Table(RangeIndex(n), cols);
      assert Names(r) == names;
      Some(r)
    else
      None
  }

  /** `X_all`: both tables stacked when both exist, otherwise whichever exists,
      the training table first; a failed concatenation leaves it `None`. */
  function CombineX(train: Option<Frame>, valid: Option<Frame>): (all: Option<Frame>)
    ensures train.Some? && valid.Some? ==> (all.Some? <==> CanConcat(train.value, valid.value))
    ensures train.Some? && valid.Some? && all.Some? ==>
              && Rows(all.value) == Rows(train.value) + Rows(valid.value)
              && |Names(train.value)| <= |Names(all.value)|
              && Names(all.value)[..|Names(train.value)|] == Names(train.value)
    ensures train.Some? && valid.Some? ==> all == Concat(train.value, valid.value)
    ensures train.Some? && valid.None? ==> all == train
    ensures train.None? ==> all == valid
  {
    if train.Some? && valid.Some? then Concat(train.value, valid.value)
    else if train.Some? then train
    else valid
  }

  /** Feature tables projected onto the same distinct feature list, each
      holding every feature, stack into a table whose columns are exactly
      that list, in its order. */
  lemma CombinedColumnsFollowFeatures(train: Frame, valid: Frame, features: seq<string>)
    requires |features| > 0 && Distinct(features)
    requires forall n :: n in features ==> n in Names(train) && n in Names(valid)
    ensures var expected := Some(TextsOf(features));
            var all := CombineX(ProjectIfExpected(Some(train), expected), ProjectIfExpected(Some(valid), expected));
            all.Some? && Names(all.value) == features
  {
    var texts := TextsOf(features);
    KeepKnownOfNames(features, Names(train));
    KeepKnownOfNames(features, Names(valid));
    var pt := Project(train, texts);
    var pv := Project(valid, texts);
    assert Names(pt) == features && Names(pv) == features;
    var all := Concat(pt, pv);
    assert all.Some?;
    assert Names(all.value)[..|features|] == features;
  }

  // ---------- Reading the files ----------

  /** `pd.read_csv(path) if path.exists() else None`; a parse failure is not caught. */
  function ReadIfExists<M, E>(disk: Disk<M, E>, p: Path): (r: Result<Option<Frame>, LoadError>)
    ensures !disk.pathExists(p) ==> r == Ok(None)
    ensures disk.pathExists(p) ==> (r.Ok? <==> disk.readCsv(p).Some?) && (r.Ok? ==> r.value == disk.readCsv(p))
    ensures r.Err? ==> r.error == ReadFailed(p)
  {
    if !disk.pathExists(p) then Ok(None)
    else match disk.readCsv(p)
      case Some(t) => Ok(Some(t))
      case None => Err(ReadFailed(p))
  }

  /** `to_series`: a label table becomes its first column, keeping the row
      index and taking the column's name; a table without columns raises. */
  function ToSeries(raw: Option<Frame>, p: Path): (r: Result<Option<Series>, LoadError>)
    ensures raw.None? ==> r == Ok(None)
    ensures raw.Some? ==> (r.Ok? <==> |raw.value.columns| > 0)
    ensures raw.Some? && r.Ok? ==>
              && r.value.Some?
              && r.value.value.values == raw.value.columns[0].values
              && r.value.value.index == raw.value.index
              && r.value.value.name == Some(raw.value.columns[0].name)
    ensures r.Err? ==> r.error == NoLabelColumn(p)
  {
    match raw
    case None => Ok(None)
    case Some(t) =>
      if |t.columns| == 0 then Err(NoLabelColumn(p))
      else Ok(Some(Series(Some(t.columns[0].name), t.index, t.columns[0].values)))
  }

  /** What a path holds as read: `None` when it is missing or does not parse. */
  function Raw<M, E>(disk: Disk<M, E>, p: Path): Option<Frame> {
    if disk.pathExists(p) then disk.readCsv(p) else None
  }

  /** The path either is missing or parses. */
  predicate Readable<M, E>(disk: Disk<M, E>, p: Path) {
    !disk.pathExists(p) || disk.readCsv(p).Some?
  }

  /** A label file, when present and parsed, has a first column. */
  predicate LabelsReadable<M, E>(disk: Disk<M, E>, p: Path) {
    Readable(disk, p) && (Raw(disk, p).Some? ==> |Raw(disk, p).value.columns| > 0)
  }

  /** `load_training_data(expected_features)`. */
  function LoadTrainingData<M, E>(disk: Disk<M, E>, expected: Option<seq<Value>>): (r: Result<Dataset, LoadError>)
    ensures r.Ok? <==>
              && Readable(disk, XTrainPath) && Readable(disk, XValidPath)
              && LabelsReadable(disk, YTrainPath) && LabelsReadable(disk, YValidPath)
    ensures r.Ok? ==>
              && (r.value.xTrain.Some? <==> disk.pathExists(XTrainPath))
              && (r.value.xValid.Some? <==> disk.pathExists(XValidPath))
              && (r.value.yTrain.Some? <==> disk.pathExists(YTrainPath))
              && (r.value.yValid.Some? <==> disk.pathExists(YValidPath))
    ensures r.Ok? && !Projects(expected) ==>
              r.value.xTrain == Raw(disk, XTrainPath) && r.value.xValid == Raw(disk, XValidPath)
    ensures r.Ok? && Projects(expected) && r.value.xTrain.Some? ==>
              Names(r.value.xTrain.value) == KeepKnown(expected.value, Names(Raw(disk, XTrainPath).value))
    ensures r.Ok? && Projects(expected) && r.value.xValid.Some? ==>
              Names(r.value.xValid.value) == KeepKnown(expected.value, Names(Raw(disk, XValidPath).value))
    ensures r.Ok? && r.value.yTrain.Some? ==> r.value.yTrain.value.values == Raw(disk, YTrainPath).value.columns[0].values
    ensures r.Ok? && r.value.yValid.Some? ==> r.value.yValid.value.values == Raw(disk, YValidPath).value.columns[0].values
    ensures r.Ok? && r.value.xTrain.Some? && r.value.xValid.Some? && r.value.xAll.Some? ==>
              Rows(r.value.xAll.value) == Rows(r.value.xTrain.value) + Rows(r.value.xValid.value)
    ensures r.Ok? && (r.value.xTrain.None? || r.value.xValid.None?) ==>
              r.value.xAll == (if r.value.xTrain.Some? then r.value.xTrain else r.value.xValid)
    ensures r.Ok? ==>
              && r.value.xTrain == ProjectIfExpected(Raw(disk, XTrainPath), expected)
              && r.value.xValid == ProjectIfExpected(Raw(disk, XValidPath), expected)
              && r.value.xAll == CombineX(r.value.xTrain, r.value.xValid)
    ensures r.Ok? ==>
              && ToSeries(Raw(disk, YTrainPath), YTrainPath) == Ok(r.value.yTrain)
              && ToSeries(Raw(disk, YValidPath), YValidPath) == Ok(r.value.yValid)
  {
    var xTrainRaw :- ReadIfExists(disk, XTrainPath);
    var yTrainRaw :- ReadIfExists(disk, YTrainPath);
    var xValidRaw :- ReadIfExists(disk, XValidPath);
    var yValidRaw :- ReadIfExists(disk, YValidPath);
    var yTrain :- ToSeries(yTrainRaw, YTrainPath);
    var yValid :- ToSeries(yValidRaw, YValidPath);
    assert xTrainRaw == Raw(disk, XTrainPath) && xValidRaw == Raw(disk, XValidPath);
    assert yTrainRaw == Raw(disk, YTrainPath) && yValidRaw == Raw(disk, YValidPath);
    var xTrain := ProjectIfExpected(xTrainRaw, expected);
    var xValid := ProjectIfExpected(xValidRaw, expected);
    Ok(Dataset(xTrain, yTrain, xValid, yValid, CombineX(xTrain, xValid)))
  }
}
