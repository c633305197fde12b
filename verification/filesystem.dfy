/** The filesystem as the loaders see it: candidate paths, pathlib's suffix
    rule, and a disk whose existence test and loaders are given as functions. */
module FileSystem {
  import opened Results
  import opened Frames

  /** What a candidate path is relative to: the project directory (the parent
      of the source directory), the working directory, nothing (a relative
      path), or the legacy Windows location of the original project. */
  datatype Anchor = ProjectRoot | WorkingDir | Relative | Legacy

  datatype Path = Path(anchor: Anchor, parts: seq<string>)

  /** The final component of a path (`p.name`). */
  function FileName(p: Path): string {
    if |p.parts| == 0 then "" else p.parts[|p.parts| - 1]
  }

  /** The position of the last occurrence of `c` in `s` (`str.rfind`). */
  function LastIndexOf(s: string, c: char): (r: Option<nat>)
    ensures r.Some? ==> r.value < |s| && s[r.value] == c
    ensures r.Some? ==> forall j :: r.value < j < |s| ==> s[j] != c
    ensures r.None? ==> c !in s
    decreases |s|
  {
    if |s| == 0 then None
    else if s[|s| - 1] == c then Some(|s| - 1)
    else LastIndexOf(s[..|s| - 1], c)
  }

  /** pathlib's `suffix`: the name from its last dot on, provided that dot is
      neither the first nor the last character; otherwise empty. */
  function Suffix(name: string): (ext: string)
    ensures ext != "" ==> 2 <= |ext| < |name| && ext == name[|name| - |ext|..]
    ensures ext != "" ==> ext[0] == '.' && '.' !in ext[1..]
    ensures ext == "" ==> |name| == 0 || name[|name| - 1] == '.' || '.' !in name[1..]
  {
    match LastIndexOf(name, '.')
    case Some(i) => if 0 < i < |name| - 1 then name[i..] else ""
    case None => ""
  }

  /** A name made of a non-empty stem, a dot and a dot-free extension has that
      extension as its suffix. */
  lemma SuffixOfExtension(stem: string, ext: string)
    requires stem != "" && ext != "" && '.' !in ext
    ensures Suffix(stem + "." + ext) == "." + ext
  {
    var name := stem + "." + ext;
    assert name[|stem|] == '.';
    var r := LastIndexOf(name, '.');
    assert r.Some?;
    var i := r.value;
    assert forall j :: |stem| < j < |name| ==> name[j] == ext[j - |stem| - 1];
    assert i == |stem|;
    assert name[i..] == "." + ext;
  }

  /** The disk the loaders read: whether a path exists, and what loading it
      yields, `None` standing for the exception the load raises. `M` and `E`
      are the opaque model and label-encoder objects. */
  datatype Disk<M, E> = Disk(
    pathExists: Path -> bool,
    unpickleModel: Path -> Option<M>,
    unpickleEncoder: Path -> Option<E>,
    unpickleFeatures: Path -> Option<seq<Value>>,
    readCsv: Path -> Option<Frame>)
}
