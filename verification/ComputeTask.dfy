/** A compute task and its validation (`zdx_compute_core.py`), which also brings it into normal form. */
module ComputeTask {
  import opened Basics
  import Raster
  import Utf8

  type Text = Utf8.Text

  /** How the frame is to be executed; a spatial task says its layout, unless that is malformed. */
  datatype Model = Plain | Spatial(layout: Option<Raster.Layout>, version: int) | UnknownModel

  datatype Task = Task(
    id: Text, frame: Text, sha: Text, artifact: Option<Text>, memory: int, threads: int, maxSeconds: int, created: int,
    features: set<Text>, model: Model)

  const SPATIAL_VERSION := 1

  /** `spatial-png-v1`. */
  const SPATIAL_FEATURE: Text := [115, 112, 97, 116, 105, 97, 108, 45, 112, 110, 103, 45, 118, 49]

  const MEGABYTE := 1024 * 1024

  function LowerLetter(c: int): (d: int) {
    if 'A' as int <= c <= 'Z' as int then c + 32 else c
  }

  function Lower(t: Text): (l: Text)
    ensures |l| == |t| && forall i :: 0 <= i < |t| ==> l[i] == LowerLetter(t[i])
  {
    seq(|t|, i requires 0 <= i < |t| => LowerLetter(t[i]))
  }

  predicate HexLetter(c: int) {
    '0' as int <= c <= '9' as int || 'a' as int <= c <= 'f' as int
  }

  predicate IsDigest(t: Text) {
    |t| == 64 && forall i :: 0 <= i < |t| ==> HexLetter(t[i])
  }

  /** The numbers a lease is measured by. */
  predicate Sized(t: Task) {
    t.memory >= 1 && t.threads >= 1 && t.maxSeconds >= 1
  }

  /** The frame digest after normalisation: that of the artifact if there is one. */
  function DigestOf(t: Task): (r: Option<(Text, Option<Text>)>) {
    var sha := Lower(t.sha);
    if sha != [] && !IsDigest(sha) then None
    else if t.artifact.None? then Some((sha, None))
    else
      var artifact := Lower(t.artifact.value);
      if !IsDigest(artifact) || (sha != [] && sha != artifact) then None else Some((artifact, Some(artifact)))
  }

  /** A spatial task must run one thread per executable row and have memory for four copies of its raster. */
  predicate SpatialFits(t: Task) {
    t.model.Spatial? ==>
      && t.model.layout.Some? && Raster.Accepted(t.model.layout.value) && t.model.version == SPATIAL_VERSION
      && t.threads == t.model.layout.value.executionRows
      && 4 * (3 * (t.model.layout.value.width * t.model.layout.value.height)) <= t.memory * MEGABYTE
  }

  /** What a validated task says of its frame: a proper digest if any, that of its artifact if it has
      one; and a spatial task asks for the spatial feature and has a thread per executable row. */
  predicate Settled(t: Task) {
    && (t.sha == [] || IsDigest(t.sha)) && (t.artifact.Some? ==> t.artifact.value == t.sha && IsDigest(t.sha))
    && (t.model.Spatial? ==> SPATIAL_FEATURE in t.features) && SpatialFits(t) && [] !in t.features
    && !t.model.UnknownModel?
  }

  /** `ComputeTask.validate`: the task in normal form, or nothing. */
  function Validate(t: Task): (r: Option<Task>)
    ensures r.Some? ==> r.value.id == t.id && Sized(r.value) && Settled(r.value)
  {
    if t.id == [] || (t.frame == [] && (t.artifact.None? || t.artifact.value == [])) then None
    else if DigestOf(t).None? || !Sized(t) || t.model.UnknownModel? || [] in t.features || !SpatialFits(t) then None
    else
      var (sha, artifact) := DigestOf(t).value;
      Some(t.(sha := sha, artifact := artifact, features := if t.model.Spatial? then t.features + {SPATIAL_FEATURE}
        else t.features))
  }

  /** A task in normal form, which validates as itself. */
  predicate ValidTask(t: Task) {
    Validate(t) == Some(t)
  }

  lemma DigestIsLower(t: Text)
    requires IsDigest(t)
    ensures Lower(t) == t
  {
  }

  lemma DigestSettles(t: Task, u: Task)
    requires DigestOf(t) == Some((u.sha, u.artifact))
    ensures DigestOf(u) == Some((u.sha, u.artifact))
  {
    if u.sha != [] {
      DigestIsLower(u.sha);
    }
    assert Lower([]) == [];
  }

  /** Validating twice is validating once: what `submit` stores, `claim` can read back. */
  lemma ValidationSettles(t: Task)
    requires Validate(t).Some?
    ensures ValidTask(Validate(t).value)
  {
    var u := Validate(t).value;
    DigestSettles(t, u);
    if u.artifact.Some? {
      assert IsDigest(u.artifact.value);
    }
    hide IsDigest, Raster.Accepted;
  }

  /** The text is a digest in either case. */
  predicate HexDigest(t: Text) {
    |t| == 64 && forall i :: 0 <= i < |t| ==>
      || '0' as int <= t[i] <= '9' as int || 'a' as int <= t[i] <= 'f' as int || 'A' as int <= t[i] <= 'F' as int
  }

  lemma LowerDigest(t: Text)
    ensures IsDigest(Lower(t)) <==> HexDigest(t)
  {
    if IsDigest(Lower(t)) {
      forall i | 0 <= i < |t|
        ensures '0' as int <= t[i] <= '9' as int || 'a' as int <= t[i] <= 'f' as int || 'A' as int <= t[i] <= 'F' as int
      {
        assert HexLetter(Lower(t)[i]);
      }
    }
  }

  /** A task passes exactly when it has an id and a frame or an artifact, any digest it gives is one, the
      two agree if it gives both, its sizes are positive, its model is known and its features are not
      empty; and, if it is spatial, its layout is accepted and current, it has one thread for each
      executable row, and memory for four copies of its raster. */
  lemma ValidatedExactlyWhen(t: Task)
    ensures Validate(t).Some? <==>
      && t.id != [] && (t.frame != [] || (t.artifact.Some? && t.artifact.value != []))
      && (t.sha != [] ==> HexDigest(t.sha))
      && (t.artifact.Some? ==> HexDigest(t.artifact.value) && (t.sha != [] ==> Lower(t.sha) == Lower(t.artifact.value)))
      && t.memory >= 1 && t.threads >= 1 && t.maxSeconds >= 1 && !t.model.UnknownModel? && [] !in t.features
      && (t.model.Spatial? ==>
           && t.model.layout.Some? && Raster.Accepted(t.model.layout.value) && t.model.version == 1
           && t.threads == t.model.layout.value.executionRows
           && 12 * (t.model.layout.value.width * t.model.layout.value.height) <= t.memory * 1_048_576)
  {
    LowerDigest(t.sha);
    if t.artifact.Some? {
      LowerDigest(t.artifact.value);
    }
    hide HexDigest, IsDigest, Raster.Accepted;
    if t.sha == [] {
      assert Lower(t.sha) == [];
    }
  }

  /** Validation changes nothing but the spelling of digests, the digest of a task that only has an
      artifact, and the feature a spatial task needs. */
  lemma ValidationKeeps(t: Task)
    requires Validate(t).Some?
    ensures var u := Validate(t).value;
      && u == t.(sha := u.sha, artifact := u.artifact, features := u.features)
      && (t.sha != [] ==> u.sha == Lower(t.sha)) && (t.sha == [] && t.artifact.None? ==> u.sha == [])
      && (t.artifact.Some? <==> u.artifact.Some?)
      && (t.artifact.Some? ==> u.artifact.value == u.sha == Lower(t.artifact.value))
      && t.features <= u.features <= t.features + {SPATIAL_FEATURE} && (!t.model.Spatial? ==> u.features == t.features)
  {
    assert Lower([]) == [];
    hide IsDigest, Raster.Accepted;
  }
}
