/** Tables as pandas holds them, reduced to what the loaders look at: a row
    index and named, dtype-tagged columns of cells. */
module Frames {
  import opened Results
  import opened Numerals

  /** A cell read from a CSV file: text, an integer, or a missing value (NaN). */
  datatype Value = Text(s: string) | Int(i: int) | Null

  /** Python's `str` of a cell; a missing cell (NaN) prints as "nan". */
  function Show(v: Value): string {
    match v
    case Text(s) => s
    case Int(i) => ShowInt(i)
    case Null => "nan"
  }

  /** The dtype tag pandas attaches to a column. `read_csv` produces `Int64`,
      `Float64`, `Bool` and `Object`; the display conversion adds the others. */
  datatype DType =
    | Object
    | Int64
    | Int32
    | Float64
    | Float32
    | Bool
    | StringDtype
    | Category
    | Other(name: string)

  datatype Column = Column(name: string, dtype: DType, values: seq<Value>)

  /** A data frame: its row index and its columns in order. */
  datatype Table = Table(index: seq<int>, columns: seq<Column>)

  /** Every column has one cell per row of the index. */
  predicate WellFormed(t: Table) {
    forall k :: 0 <= k < |t.columns| ==> |t.columns[k].values| == |t.index|
  }

  type Frame = t: Table | WellFormed(t) witness Table([], [])

  function Rows(t: Table): nat {
    |t.index|
  }

  /** The column names, in column order (`df.columns`). */
  function Names(t: Table): (names: seq<string>)
    ensures |names| == |t.columns|
    ensures forall k :: 0 <= k < |t.columns| ==> names[k] == t.columns[k].name
  {
    seq(|t.columns|, k requires 0 <= k < |t.columns| => t.columns[k].name)
  }

  /** Column names as a list of text cells, the form a feature list takes. */
  function TextsOf(names: seq<string>): (features: seq<Value>)
    ensures |features| == |names|
    ensures forall k :: 0 <= k < |names| ==> features[k] == Text(names[k])
  {
    seq(|names|, k requires 0 <= k < |names| => Text(names[k]))
  }

  predicate Distinct<T(==)>(s: seq<T>) {
    forall i, j :: 0 <= i < j < |s| ==> s[i] != s[j]
  }

  /** `sub` is `s` with some elements dropped, the rest in their order. */
  ghost predicate IsSubsequence<T>(sub: seq<T>, s: seq<T>)
    decreases |s|
  {
    if |sub| == 0 then true
    else if |s| == 0 then false
    else (s[0] == sub[0] && IsSubsequence(sub[1..], s[1..])) || IsSubsequence(sub, s[1..])
  }

  /** The position of the first occurrence of `x` in `s`. */
  function IndexOf<T(==)>(s: seq<T>, x: T): (k: nat)
    requires x in s
    ensures k < |s| && s[k] == x
    ensures forall j :: 0 <= j < k ==> s[j] != x
  {
    if s[0] == x then 0 else 1 + IndexOf(s[1..], x)
  }

  /** The column carrying `name`: the first one, which is the one `df[name]`
      selects when no other column shares the name. pandas would select every
      column of a repeated name, but `read_csv` renames repeated headers
      (`a`, `a.1`), so the tables the loader reads never repeat one. */
  function Lookup(t: Table, name: string): (c: Column)
    requires name in Names(t)
    ensures c in t.columns && c.name == name
  {
    t.columns[IndexOf(Names(t), name)]
  }

  /** The column carrying `name`, if the table has one. */
  function ColumnNamed(t: Table, name: string): (c: Option<Column>)
    ensures c.Some? <==> name in Names(t)
  {
    if name in Names(t) then Some(Lookup(t, name)) else None
  }

  /** The index 0, 1, ..., n - 1 that pandas gives a freshly numbered frame. */
  function RangeIndex(n: nat): (ix: seq<int>)
    ensures |ix| == n
    ensures forall i :: 0 <= i < n ==> ix[i] == i
  {
    seq(n, i => i)
  }

  /** A labelled one-dimensional column (`pd.Series`). */
  datatype Series = Series(name: Option<string>, index: seq<int>, values: seq<Value>)
}
