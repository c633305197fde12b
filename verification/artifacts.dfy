/** Artifact resolution (`load_artifacts`): the trained model, the feature
    list and the label encoder, each looked up along its own ordered list of
    candidate paths. */
module Artifacts {
  import opened Results
  import opened Frames
  import opened FileSystem

  const ModelCandidates: seq<Path> := [
    Path(ProjectRoot, ["models", "champion_model.pkl"]),
    Path(WorkingDir, ["models", "champion_model.pkl"]),
    Path(Relative, ["models", "champion_model.pkl"]),
    Path(Legacy, ["D:", "Portfolio", "disease", "models", "champion_model.pkl"])
  ]

  const FeaturesStem: string := "selected_features"
  const FeaturesPickle: string := FeaturesStem + ".pkl"
  const FeaturesCsv: string := FeaturesStem + ".csv"

  const FeatureCandidates: seq<Path> := [
    Path(ProjectRoot, ["models", FeaturesPickle]),
    Path(WorkingDir, ["models", FeaturesPickle]),
    Path(Relative, ["models", FeaturesPickle]),
    Path(ProjectRoot, ["models", FeaturesCsv]),
    Path(WorkingDir, ["models", FeaturesCsv]),
    Path(Relative, ["models", FeaturesCsv]),
    Path(Legacy, ["D:", "Portfolio", "disease", "models", FeaturesPickle]),
    Path(Legacy, ["D:", "Portfolio", "disease", "models", FeaturesCsv])
  ]

  const LabelEncoderCandidates: seq<Path> := [
    Path(ProjectRoot, ["data", "processed", "label_encoder.pkl"]),
    Path(WorkingDir, ["data", "processed", "label_encoder.pkl"]),
    Path(Relative, ["data", "processed", "label_encoder.pkl"]),
    Path(Legacy, ["D:", "Portfolio", "disease", "data", "processed", "label_encoder.pkl"])
  ]

  /** The resolved artifacts: the model and the encoder may be missing; a
      missing feature list is the empty list. */
  datatype Bundle<M, E> = Bundle(model: Option<M>, features: seq<Value>, labelEncoder: Option<E>)

  // ---------- Model and label encoder: the first existing path decides ----------

  /** `i` is the first candidate that exists. */
  predicate IsFirstExisting(cands: seq<Path>, pathExists: Path -> bool, i: int) {
    && 0 <= i < |cands|
    && pathExists(cands[i])
    && forall j :: 0 <= j < i ==> !pathExists(cands[j])
  }

  predicate NoneExists(cands: seq<Path>, pathExists: Path -> bool) {
    forall j :: 0 <= j < |cands| ==> !pathExists(cands[j])
  }

  /** The search for the model and for the label encoder: one `try` around the
      whole loop, so the first existing candidate is loaded and a load that
      raises ends the search with the slot still empty. */
  function FirstExistingLoad<A>(cands: seq<Path>, pathExists: Path -> bool, load: Path -> Option<A>): (slot: Option<A>)
    ensures forall i :: IsFirstExisting(cands, pathExists, i) ==> slot == load(cands[i])
    ensures NoneExists(cands, pathExists) ==> slot == None
    decreases |cands|
  {
    if |cands| == 0 then None
    else if pathExists(cands[0]) then load(cands[0])
    else
      var rest := FirstExistingLoad(cands[1..], pathExists, load);
      assert forall i :: IsFirstExisting(cands, pathExists, i) ==> IsFirstExisting(cands[1..], pathExists, i - 1);
      rest
  }

  /** Some candidate exists, so there is a first one. */
  lemma {:induction false} FirstExistingIndex(cands: seq<Path>, pathExists: Path -> bool) returns (i: nat)
    requires !NoneExists(cands, pathExists)
    ensures IsFirstExisting(cands, pathExists, i)
    decreases |cands|
  {
    if pathExists(cands[0]) {
      i := 0;
    } else {
      var j := FirstExistingIndex(cands[1..], pathExists);
      i := j + 1;
    }
  }

  /** Only the load at the first existing candidate matters: loaders that agree
      there give the same slot, whatever they do at later candidates. */
  lemma LaterCandidatesNeverTried<A>(cands: seq<Path>, pathExists: Path -> bool, load1: Path -> Option<A>, load2: Path -> Option<A>)
    requires forall i :: IsFirstExisting(cands, pathExists, i) ==> load1(cands[i]) == load2(cands[i])
    ensures FirstExistingLoad(cands, pathExists, load1) == FirstExistingLoad(cands, pathExists, load2)
  {
  }

  // ---------- Feature list: a failing candidate is skipped ----------

  /** The feature list a single CSV file holds: the cells of its only column,
      in row order, or else its header names in column order. */
  function FeaturesFromCsv(t: Frame): (features: seq<Value>)
    ensures |t.columns| == 1 ==> features == t.columns[0].values && |features| == Rows(t)
    ensures |t.columns| != 1 ==> |features| == |t.columns|
    ensures |t.columns| != 1 ==> forall k :: 0 <= k < |t.columns| ==> features[k] == Text(t.columns[k].name)
  {
    if |t.columns| == 1 then t.columns[0].values
    else TextsOf(Names(t))
  }

  /** One turn of the feature loop: an existing `.pkl` is unpickled, an
      existing `.csv` is read, and anything else (a missing path, another
      suffix, a load that raises) yields nothing. */
  function TryFeatureCandidate<M, E>(disk: Disk<M, E>, p: Path): (features: Option<seq<Value>>)
    ensures features.Some? ==> disk.pathExists(p)
    ensures Suffix(FileName(p)) != ".pkl" && Suffix(FileName(p)) != ".csv" ==> features == None
    ensures disk.pathExists(p) && Suffix(FileName(p)) == ".pkl" ==> features == disk.unpickleFeatures(p)
    ensures disk.pathExists(p) && Suffix(FileName(p)) == ".csv" ==>
              (features.Some? <==> disk.readCsv(p).Some?)
              && (features.Some? ==> features.value == FeaturesFromCsv(disk.readCsv(p).value))
  {
    if disk.pathExists(p) && Suffix(FileName(p)) == ".pkl" then
      disk.unpickleFeatures(p)
    else if disk.pathExists(p) && Suffix(FileName(p)) == ".csv" then
      match disk.readCsv(p)
      case Some(t) => Some(FeaturesFromCsv(t))
      case None => None
    else
      None
  }

  /** `i` is the first candidate that yields a feature list. */
  predicate IsFirstAccepted<M, E>(disk: Disk<M, E>, cands: seq<Path>, i: int) {
    && 0 <= i < |cands|
    && TryFeatureCandidate(disk, cands[i]).Some?
    && forall j :: 0 <= j < i ==> TryFeatureCandidate(disk, cands[j]).None?
  }

  /** The feature search: a `try`/`continue` per candidate, so the first
      candidate that yields a list wins and every failure falls through. */
  function FirstAcceptedFeatures<M, E>(disk: Disk<M, E>, cands: seq<Path>): (found: Option<seq<Value>>)
    ensures forall i :: IsFirstAccepted(disk, cands, i) ==> found == TryFeatureCandidate(disk, cands[i])
    ensures (forall i :: 0 <= i < |cands| ==> TryFeatureCandidate(disk, cands[i]).None?) ==> found == None
    decreases |cands|
  {
    if |cands| == 0 then None
    else match TryFeatureCandidate(disk, cands[0])
      case Some(f) => Some(f)
      case None =>
        var rest := FirstAcceptedFeatures(disk, cands[1..]);
        assert forall i :: IsFirstAccepted(disk, cands, i) ==> IsFirstAccepted(disk, cands[1..], i - 1);
        rest
  }

  /** A candidate that yields nothing can be deleted from the list without
      changing the outcome, wherever it stands. */
  lemma {:induction false} RejectedCandidateSkipped<M, E>(disk: Disk<M, E>, before: seq<Path>, p: Path, after: seq<Path>)
    requires TryFeatureCandidate(disk, p).None?
    ensures FirstAcceptedFeatures(disk, before + [p] + after) == FirstAcceptedFeatures(disk, before + after)
    decreases |before|
  {
    var withP := before + [p] + after;
    var withoutP := before + after;
    if |before| == 0 {
      assert withP[1..] == withoutP;
    } else {
      assert withP[0] == withoutP[0];
      assert withP[1..] == before[1..] + [p] + after;
      assert withoutP[1..] == before[1..] + after;
      if TryFeatureCandidate(disk, before[0]).None? {
        RejectedCandidateSkipped(disk, before[1..], p, after);
      }
    }
  }

  /** The two feature file names carry the suffixes the feature loop reads. */
  lemma FeatureFileSuffixes()
    ensures Suffix(FeaturesPickle) == ".pkl"
    ensures Suffix(FeaturesCsv) == ".csv"
  {
    assert FeaturesPickle == FeaturesStem + "." + "pkl";
    SuffixOfExtension(FeaturesStem, "pkl");
    assert FeaturesCsv == FeaturesStem + "." + "csv";
    SuffixOfExtension(FeaturesStem, "csv");
  }

  /** The feature candidates are pickles at positions 0, 1, 2 and 6 and CSV
      files at the others, so with `FeatureFileSuffixes` none is ignored. */
  lemma FeatureCandidateNames()
    ensures forall i :: 0 <= i < |FeatureCandidates| ==>
              FileName(FeatureCandidates[i]) == (if i in {0, 1, 2, 6} then FeaturesPickle else FeaturesCsv)
  {
  }

  // ---------- The whole resolution ----------

  /** `load_artifacts`: three independent searches, and `features or []`. */
  function LoadArtifacts<M, E>(disk: Disk<M, E>): (b: Bundle<M, E>)
    ensures forall i :: IsFirstExisting(ModelCandidates, disk.pathExists, i) ==>
              b.model == disk.unpickleModel(ModelCandidates[i])
    ensures NoneExists(ModelCandidates, disk.pathExists) ==> b.model == None
    ensures forall i :: IsFirstExisting(LabelEncoderCandidates, disk.pathExists, i) ==>
              b.labelEncoder == disk.unpickleEncoder(LabelEncoderCandidates[i])
    ensures NoneExists(LabelEncoderCandidates, disk.pathExists) ==> b.labelEncoder == None
    ensures forall i :: IsFirstAccepted(disk, FeatureCandidates, i) ==>
              b.features == TryFeatureCandidate(disk, FeatureCandidates[i]).value
    ensures (forall i :: 0 <= i < |FeatureCandidates| ==> TryFeatureCandidate(disk, FeatureCandidates[i]).None?) ==>
              b.features == []
  {
    var model := FirstExistingLoad(ModelCandidates, disk.pathExists, disk.unpickleModel);
    var features := FirstAcceptedFeatures(disk, FeatureCandidates);
    var encoder := FirstExistingLoad(LabelEncoderCandidates, disk.pathExists, disk.unpickleEncoder);
    Bundle(model, features.GetOr([]), encoder)
  }

  /** The search reads its existence test and its loader only at the
      candidates: two that agree there give the same slot. */
  lemma {:induction false} FirstExistingLoadCongruent<A>(cands: seq<Path>, exists1: Path -> bool, load1: Path -> Option<A>,
                                                       exists2: Path -> bool, load2: Path -> Option<A>)
    requires forall i :: 0 <= i < |cands| ==> exists1(cands[i]) == exists2(cands[i]) && load1(cands[i]) == load2(cands[i])
    ensures FirstExistingLoad(cands, exists1, load1) == FirstExistingLoad(cands, exists2, load2)
    decreases |cands|
  {
    if |cands| > 0 && !exists1(cands[0]) {
      FirstExistingLoadCongruent(cands[1..], exists1, load1, exists2, load2);
    }
  }

  /** Each slot depends only on its own loader: two disks that agree on which
      paths exist and on how the model loads resolve the same model, however
      their feature and encoder files differ. */
  lemma ModelSlotIndependent<M, E>(d1: Disk<M, E>, d2: Disk<M, E>)
    requires forall p :: d1.pathExists(p) == d2.pathExists(p)
    requires forall p :: d1.unpickleModel(p) == d2.unpickleModel(p)
    ensures LoadArtifacts(d1).model == LoadArtifacts(d2).model
  {
    FirstExistingLoadCongruent(ModelCandidates, d1.pathExists, d1.unpickleModel, d2.pathExists, d2.unpickleModel);
  }
}
