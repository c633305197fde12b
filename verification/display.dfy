/** The display conversion (`ensure_arrow_compatibility`) at the level of
    column dtype tags, plus the sentinel replacement of its last-resort path. */
module Display {
  import opened Frames

  /** Which of pandas' conversions succeed on a column: `astype('string')`,
      `astype('category')`, and the 32-bit downcast of a numeric column. */
  datatype CastOutcomes = CastOutcomes(
    asString: Column -> bool,
    asCategory: Column -> bool,
    downcast: Column -> bool)

  /** The printed cell values that the last-resort path reports as "Unknown". */
  const Sentinels: set<string> := {"nan", "None", "NULL"}

  function ReplaceSentinel(s: string): (r: string)
    ensures r !in Sentinels
    ensures s !in Sentinels ==> r == s
    ensures s in Sentinels ==> r == "Unknown"
  {
    if s in Sentinels then "Unknown" else s
  }

  /** `astype(str).replace(['nan', 'None', 'NULL'], 'Unknown').astype('string')`. */
  function ForceToString(c: Column): (f: Column)
    ensures f.name == c.name && f.dtype == StringDtype && |f.values| == |c.values|
    ensures forall i :: 0 <= i < |f.values| ==> f.values[i].Text? && f.values[i].s !in Sentinels
    ensures forall i :: 0 <= i < |c.values| && Show(c.values[i]) !in Sentinels ==> f.values[i] == Text(Show(c.values[i]))
    ensures forall i :: 0 <= i < |c.values| && Show(c.values[i]) in Sentinels ==> f.values[i] == Text("Unknown")
  {
    Column(c.name, StringDtype, seq(|c.values|, i requires 0 <= i < |c.values| => Text(ReplaceSentinel(Show(c.values[i])))))
  }

  /** The object-column step: a string dtype if that cast succeeds, else a
      category if that does, else the forced string conversion. */
  function ConvertObject(c: Column, casts: CastOutcomes): Column {
    if c.dtype != Object then c
    else if casts.asString(c) then c.(dtype := StringDtype)
    else if casts.asCategory(c) then c.(dtype := Category)
    else ForceToString(c)
  }

  /** The numeric step: float64 to float32 and int64 to int32 when the cast
      succeeds; a failed cast leaves the column as it was. */
  function Downcast(c: Column, casts: CastOutcomes): Column {
    if c.dtype == Float64 && casts.downcast(c) then c.(dtype := Float32)
    else if c.dtype == Int64 && casts.downcast(c) then c.(dtype := Int32)
    else c
  }

  /** The tag each dtype is meant to end up with. */
  function DisplayDtype(d: DType): DType {
    match d
    case Object => StringDtype
    case Float64 => Float32
    case Int64 => Int32
    case _ => d
  }

  /** Both the string and the category cast fail on an object column. */
  predicate ForcedPath(c: Column, casts: CastOutcomes) {
    c.dtype == Object && !casts.asString(c) && !casts.asCategory(c)
  }

  /** Every conversion the column needs succeeds. */
  predicate CastsSucceed(c: Column, casts: CastOutcomes) {
    (c.dtype == Object ==> casts.asString(c)) && (c.dtype in {Float64, Int64} ==> casts.downcast(c))
  }

  /** `ensure_arrow_compatibility(df)`: the same index and column names in the
      same order; no object column is left; other tags are untouched. A frame
      with a repeated column name makes `df[col]` a frame without a `dtype`,
      and the outer handler then hands back the input unchanged. */
  function Sanitize(t: Frame, casts: CastOutcomes): (r: Frame)
    ensures r.index == t.index && Names(r) == Names(t)
    ensures !Distinct(Names(t)) ==> r == t
    ensures Distinct(Names(t)) ==>
              forall k :: 0 <= k < |r.columns| ==> r.columns[k].dtype != Object
    ensures Distinct(Names(t)) ==>
              forall k :: 0 <= k < |t.columns| && CastsSucceed(t.columns[k], casts) ==>
                r.columns[k].dtype == DisplayDtype(t.columns[k].dtype)
    ensures forall k :: 0 <= k < |t.columns| && t.columns[k].dtype !in {Object, Float64, Int64} ==>
              r.columns[k] == t.columns[k]
    ensures Distinct(Names(t)) ==>
              forall k :: 0 <= k < |t.columns| && t.columns[k].dtype == Object && casts.asString(t.columns[k]) ==>
                r.columns[k] == t.columns[k].(dtype := StringDtype)
    ensures Distinct(Names(t)) ==>
              forall k :: 0 <= k < |t.columns| && t.columns[k].dtype == Object && !casts.asString(t.columns[k])
                          && casts.asCategory(t.columns[k]) ==>
                r.columns[k] == t.columns[k].(dtype := Category)
    ensures Distinct(Names(t)) ==>
              forall k :: 0 <= k < |t.columns| && ForcedPath(t.columns[k], casts) ==>
                r.columns[k] == ForceToString(t.columns[k])
    ensures forall k :: 0 <= k < |t.columns| && t.columns[k].dtype in {Float64, Int64} ==>
              r.columns[k].values == t.columns[k].values
    ensures forall k :: 0 <= k < |t.columns| && t.columns[k].dtype in {Float64, Int64} && !casts.downcast(t.columns[k]) ==>
              r.columns[k] == t.columns[k]
  {
    if !Distinct(Names(t)) then t
    else
      var cols := seq(|t.columns|, k requires 0 <= k < |t.columns| => Downcast(ConvertObject(t.columns[k], casts), casts));
      var r := Table(t.index, cols);
      assert WellFormed(r);
      r
  }

  /** Converting a converted frame changes nothing more. */
  lemma SanitizeIdempotent(t: Frame, casts: CastOutcomes)
    ensures Sanitize(Sanitize(t, casts), casts) == Sanitize(t, casts)
  {
  }

  /** The last-resort conversion is a fixed point: its cells print as
      themselves and none of them is a sentinel any more. */
  lemma ForceToStringIdempotent(c: Column)
    ensures ForceToString(ForceToString(c)) == ForceToString(c)
  {
    var f := ForceToString(c);
    forall i | 0 <= i < |f.values|
      ensures ForceToString(f).values[i] == f.values[i]
    {
      assert Show(f.values[i]) == f.values[i].s;
    }
  }
}
