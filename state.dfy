/** The per-experiment state record: a frozen dataclass whose every update
    returns a new record. Paths are kept relative to the run directory and
    resolved against it on demand. */
module State {
  import opened Base
  import opened Paths
  import opened Text

  const FITS_ARRAY_NAME := "fits_array.tif"
  const FITS_MASK_NAME := "fits_mask.tif"

  datatype ExperimentState = ExperimentState(
    runDir: Path,
    originalImageRel: Path,
    imageRel: Option<Path>,
    masksRel: Option<Path>,
    lastStep: Option<string>,
    experimentId: Option<string>,
    seriesIndex: int,
    stepStatus: map<string, string>,
    stepSettingsHash: map<string, string>,
    lastError: Option<string>,
    updatedAt: Option<DateTime>)

  /** The keyword arguments a caller may pass on to `replace`; `None` means the
      keyword is absent and the field keeps its value. `updated_at` is not among
      them: every operation sets it itself. */
  datatype Patch = Patch(
    runDir: Option<Path>,
    originalImageRel: Option<Path>,
    imageRel: Option<Option<Path>>,
    masksRel: Option<Option<Path>>,
    lastStep: Option<Option<string>>,
    experimentId: Option<Option<string>>,
    seriesIndex: Option<int>,
    stepStatus: Option<map<string, string>>,
    stepSettingsHash: Option<map<string, string>>,
    lastError: Option<Option<string>>)

  const NoPatch := Patch(None, None, None, None, None, None, None, None, None, None)

  /** `last_step=step`, the one keyword argument the convert step passes. */
  function LastStepPatch(step: string): Patch
  {
    NoPatch.(lastStep := Some(Some(step)))
  }

  function Pick<T>(o: Option<T>, keep: T): T
  {
    if o.Some? then o.value else keep
  }

  /** `replace(s, **kwargs)`. */
  function Apply(s: ExperimentState, p: Patch): ExperimentState
  {
    ExperimentState(
      Pick(p.runDir, s.runDir),
      Pick(p.originalImageRel, s.originalImageRel),
      Pick(p.imageRel, s.imageRel),
      Pick(p.masksRel, s.masksRel),
      Pick(p.lastStep, s.lastStep),
      Pick(p.experimentId, s.experimentId),
      Pick(p.seriesIndex, s.seriesIndex),
      Pick(p.stepStatus, s.stepStatus),
      Pick(p.stepSettingsHash, s.stepSettingsHash),
      Pick(p.lastError, s.lastError),
      s.updatedAt)
  }

  /** A patch that leaves all three stored paths alone. */
  predicate KeepsPaths(p: Patch)
  {
    p.originalImageRel.None? && p.imageRel.None? && p.masksRel.None?
  }

  /** Every stored path is relative, so that moving the run directory moves the
      whole experiment with it. */
  predicate RunRelative(s: ExperimentState)
  {
    && !s.originalImageRel.absolute
    && (s.imageRel.Some? ==> !s.imageRel.value.absolute)
    && (s.masksRel.Some? ==> !s.masksRel.value.absolute)
  }

  /** `_to_relative`: an absolute path becomes relative to `base`, or is
      rejected when it lies elsewhere; a relative path is returned as it is. */
  function ToRelative(base: Path, p: Path): (r: Result<Path, Error>)
    ensures r.Ok? <==> !p.absolute || IsUnder(p, base)
    ensures r.Ok? ==> !r.value.absolute && ToAbsolute(base, r.value) == (if p.absolute then p else Join(base, p))
    ensures r.Err? ==> r.error == ValueError(Str(p) + " is not under run_dir " + Str(base))
  {
    if p.absolute then
      match RelativeTo(p, base)
      case Some(rel) =>
        RelativeToJoin(p, base);
        Ok(rel)
      case None => Err(ValueError(Str(p) + " is not under run_dir " + Str(base)))
    else Ok(p)
  }

  /** `_to_absolute`: a relative path is resolved against `base`. */
  function ToAbsolute(base: Path, p: Path): (r: Path)
    ensures p.absolute ==> r == p
    ensures !p.absolute ==> r.absolute == base.absolute && r.parts == base.parts + p.parts
  {
    if !p.absolute then Join(base, p) else p
  }

  function OriginalImage(s: ExperimentState): Path
  {
    ToAbsolute(s.runDir, s.originalImageRel)
  }

  function Image(s: ExperimentState): Option<Path>
  {
    if s.imageRel.Some? then Some(ToAbsolute(s.runDir, s.imageRel.value)) else None
  }

  function Masks(s: ExperimentState): Option<Path>
  {
    if s.masksRel.Some? then Some(ToAbsolute(s.runDir, s.masksRel.value)) else None
  }

  /** `workdir`: the directory holding the image, once there is one. */
  function Workdir(s: ExperimentState): (r: Option<Path>)
    ensures r.Some? <==> s.imageRel.Some?
    ensures r.Some? ==> r.value == Parent(Image(s).value)
  {
    if s.imageRel.Some? then Some(Parent(Image(s).value)) else None
  }

  /** `init`: a fresh record for one raw file; `now` is the clock reading. */
  function Init(runDir: Path, originalImage: Path, now: DateTime): (r: Result<ExperimentState, Error>)
    ensures r.Ok? <==> !originalImage.absolute || IsUnder(originalImage, runDir)
    ensures r.Ok? ==> OriginalImage(r.value) == (if originalImage.absolute then originalImage else Join(runDir, originalImage))
    ensures r.Ok? ==> RunRelative(r.value) && r.value.runDir == runDir
    ensures r.Ok? ==>
      && r.value.imageRel.None? && r.value.masksRel.None? && r.value.lastStep.None?
      && r.value.experimentId.None? && r.value.seriesIndex == 0 && r.value.lastError.None?
      && r.value.stepStatus == map[] && r.value.stepSettingsHash == map[] && r.value.updatedAt == Some(now)
  {
    var rel :- ToRelative(runDir, originalImage);
    Ok(ExperimentState(runDir, rel, None, None, None, None, 0, map[], map[], None, Some(now)))
  }

  /** The text `int()` reads the series index from: the directory name after
      its last `_s` (the whole name when there is none). */
  function SeriesText(imageRel: Path): string
  {
    AfterLast(Name(Parent(imageRel)), "_s")
  }

  /** The first keyword the operation sets itself that `kwargs` repeats, if any;
      `replace` refuses such a call with TypeError. */
  function ImageCollision(p: Patch): Option<string>
  {
    if p.imageRel.Some? then Some("image_rel")
    else if p.experimentId.Some? then Some("experiment_id")
    else if p.seriesIndex.Some? then Some("series_index")
    else None
  }

  function Duplicate(name: string): Error
  {
    TypeError("replace() got multiple values for keyword argument '" + name + "'")
  }

  /** `with_image`: records the image, names the experiment after the image's
      directory and reads the series index from that directory's name. */
  function WithImage(s: ExperimentState, imagePath: Path, now: DateTime, extra: Patch): (r: Result<ExperimentState, Error>)
    ensures ToRelative(s.runDir, imagePath).Err? ==> r == ToRelative(s.runDir, imagePath).PropagateFailure()
    ensures r.Ok? <==>
      && (!imagePath.absolute || IsUnder(imagePath, s.runDir))
      && ParseInt(SeriesText(ToRelative(s.runDir, imagePath).value)).Some?
      && ImageCollision(extra).None?
    ensures r.Ok? && extra.runDir.None? ==>
      Image(r.value) == Some(if imagePath.absolute then imagePath else Join(s.runDir, imagePath))
    ensures r.Ok? ==>
      var rel := ToRelative(s.runDir, imagePath).value;
      && r.value.imageRel == Some(rel)
      && r.value.experimentId == Some(Str(Parent(rel)))
      && Some(r.value.seriesIndex) == ParseInt(SeriesText(rel))
      && r.value.updatedAt == Some(now)
      && r.value.(imageRel := s.imageRel, experimentId := s.experimentId, seriesIndex := s.seriesIndex, updatedAt := s.updatedAt) == Apply(s, extra)
    ensures r.Ok? && RunRelative(s) && KeepsPaths(extra) ==> RunRelative(r.value)
  {
    var rel :- ToRelative(s.runDir, imagePath);
    var expId := Str(Parent(rel));
    var text := SeriesText(rel);
    match ParseInt(text)
    case None => Err(ValueError("invalid literal for int() with base 10: '" + text + "'"))
    case Some(series) =>
      if ImageCollision(extra).Some? then Err(Duplicate(ImageCollision(extra).value))
      else
        Ok(Apply(s, extra).(imageRel := Some(rel), experimentId := Some(expId), seriesIndex := series, updatedAt := Some(now)))
  }

  /** `with_masks`: records the masks file. */
  function WithMasks(s: ExperimentState, masksPath: Path, now: DateTime, extra: Patch): (r: Result<ExperimentState, Error>)
    ensures r.Ok? <==> (!masksPath.absolute || IsUnder(masksPath, s.runDir)) && extra.masksRel.None?
    ensures r.Ok? && extra.runDir.None? ==>
      Masks(r.value) == Some(if masksPath.absolute then masksPath else Join(s.runDir, masksPath))
    ensures r.Ok? ==>
      && r.value.masksRel == Some(ToRelative(s.runDir, masksPath).value)
      && r.value.updatedAt == Some(now)
      && r.value.(masksRel := s.masksRel, updatedAt := s.updatedAt) == Apply(s, extra)
    ensures r.Ok? && RunRelative(s) && KeepsPaths(extra) ==> RunRelative(r.value)
  {
    var rel :- ToRelative(s.runDir, masksPath);
    if extra.masksRel.Some? then Err(Duplicate("masks_rel"))
    else Ok(Apply(s, extra).(masksRel := Some(rel), updatedAt := Some(now)))
  }

  /** `m[key] = value` on a copy: `key` now maps to `value` and every other
      entry is as it was. */
  predicate Updated(m: map<string, string>, key: string, value: string, m': map<string, string>)
  {
    && m'.Keys == m.Keys + {key}
    && m'[key] == value
    && forall k :: k in m && k != key ==> m'[k] == m[k]
  }

  /** `with_settings_hash`: records the settings hash a step ran with. */
  function WithSettingsHash(s: ExperimentState, step: string, hash: string, now: DateTime): (r: ExperimentState)
    ensures Updated(s.stepSettingsHash, step, hash, r.stepSettingsHash)
    ensures r.updatedAt == Some(now)
    ensures r.(stepSettingsHash := s.stepSettingsHash, updatedAt := s.updatedAt) == s
  {
    s.(stepSettingsHash := s.stepSettingsHash[step := hash], updatedAt := Some(now))
  }

  /** `commit`: only refreshes the timestamp, besides the given keywords. */
  function Commit(s: ExperimentState, now: DateTime, extra: Patch): (r: ExperimentState)
    ensures r.updatedAt == Some(now)
    ensures r.(updatedAt := s.updatedAt) == Apply(s, extra)
  {
    Apply(s, extra).(updatedAt := Some(now))
  }

  function SetStatus(s: ExperimentState, step: string, status: string, now: DateTime): (r: ExperimentState)
    ensures Updated(s.stepStatus, step, status, r.stepStatus)
    ensures r.updatedAt == Some(now)
    ensures r.(stepStatus := s.stepStatus, updatedAt := s.updatedAt) == s
  {
    s.(stepStatus := s.stepStatus[step := status], updatedAt := Some(now))
  }

  function MarkRunning(s: ExperimentState, step: string, now: DateTime): (r: ExperimentState)
    ensures Updated(s.stepStatus, step, "running", r.stepStatus)
    ensures r.updatedAt == Some(now)
    ensures r.(stepStatus := s.stepStatus, updatedAt := s.updatedAt) == s
  {
    SetStatus(s, step, "running", now)
  }

  function MarkDone(s: ExperimentState, step: string, now: DateTime): (r: ExperimentState)
    ensures Updated(s.stepStatus, step, "done", r.stepStatus)
    ensures r.updatedAt == Some(now)
    ensures r.(stepStatus := s.stepStatus, updatedAt := s.updatedAt) == s
  {
    SetStatus(s, step, "done", now)
  }

  /** `mark_failed`: `err` is the error's text, `str(err)` for an exception. */
  function MarkFailed(s: ExperimentState, step: string, err: string, now: DateTime): (r: ExperimentState)
    ensures Updated(s.stepStatus, step, "failed", r.stepStatus)
    ensures r.lastError == Some(err) && r.updatedAt == Some(now)
    ensures r.(stepStatus := s.stepStatus, lastError := s.lastError, updatedAt := s.updatedAt) == s
  {
    SetStatus(s, step, "failed", now).(lastError := Some(err))
  }

  /** `_exists`: the path is set and something is at it. */
  predicate Exists(p: Option<Path>, onDisk: set<Path>)
  {
    p.Some? && p.value in onDisk
  }

  /** When a step has to run again: it was asked to, it is not recorded as
      done, it ran with other settings, its primary output is missing, or one
      of its side files is missing. */
  predicate Stale(s: ExperimentState, step: string, hash: string, overwrite: bool,
                  requiredOutput: string, requiredFilesRel: seq<Path>, onDisk: set<Path>)
  {
    || overwrite
    || !(step in s.stepStatus && s.stepStatus[step] == "done")
    || !(step in s.stepSettingsHash && s.stepSettingsHash[step] == hash)
    || (requiredOutput == FITS_ARRAY_NAME && !Exists(Image(s), onDisk))
    || (requiredOutput == FITS_MASK_NAME && !Exists(Masks(s), onDisk))
    || exists i :: 0 <= i < |requiredFilesRel| && Join(s.runDir, requiredFilesRel[i]) !in onDisk
  }

  /** `needs_run`, gate by gate; `onDisk` is the set of paths that exist. */
  method NeedsRun(s: ExperimentState, step: string, hash: string, overwrite: bool,
                  requiredOutput: string, requiredFilesRel: seq<Path>, onDisk: set<Path>) returns (r: bool)
    ensures r == Stale(s, step, hash, overwrite, requiredOutput, requiredFilesRel, onDisk)
  {
    if overwrite {
      return true;
    }
    if !(step in s.stepStatus && s.stepStatus[step] == "done") {
      return true;
    }
    if !(step in s.stepSettingsHash && s.stepSettingsHash[step] == hash) {
      return true;
    }
    if requiredOutput == FITS_ARRAY_NAME && !Exists(Image(s), onDisk) {
      return true;
    }
    if requiredOutput == FITS_MASK_NAME && !Exists(Masks(s), onDisk) {
      return true;
    }
    var i := 0;
    while i < |requiredFilesRel|
      invariant 0 <= i <= |requiredFilesRel|
      invariant forall j :: 0 <= j < i ==> Join(s.runDir, requiredFilesRel[j]) in onDisk
    {
      if Join(s.runDir, requiredFilesRel[i]) !in onDisk {
        return true;
      }
      i := i + 1;
    }
    return false;
  }

  /** A step that has just been recorded as done with the given settings, whose
      image exists, does not need to run again unless asked to. */
  lemma DoneIsNotStale(s: ExperimentState, step: string, hash: string, now: DateTime, onDisk: set<Path>)
    requires Exists(Image(s), onDisk)
    ensures !Stale(MarkDone(WithSettingsHash(s, step, hash, now), step, now), step, hash, false, FITS_ARRAY_NAME, [], onDisk)
    ensures Stale(MarkDone(WithSettingsHash(s, step, hash, now), step, now), step, hash, true, FITS_ARRAY_NAME, [], onDisk)
  {
  }

  /** Recording other settings for a step makes it stale again. */
  lemma NewHashIsStale(s: ExperimentState, step: string, hash: string, hash': string, now: DateTime,
                       requiredOutput: string, requiredFilesRel: seq<Path>, onDisk: set<Path>)
    requires hash != hash'
    ensures Stale(WithSettingsHash(s, step, hash, now), step, hash', false, requiredOutput, requiredFilesRel, onDisk)
  {
  }

  /** `with_image` on an image in a directory named `<base>_s<n>` under the run
      directory records series `n`. */
  lemma WithImageSeries(s: ExperimentState, p: Path, base: string, n: nat, now: DateTime)
    requires p.absolute && IsUnder(p, s.runDir) && |p.parts| >= |s.runDir.parts| + 2
    requires p.parts[|p.parts| - 2] == base + "_s" + NatText(n)
    ensures WithImage(s, p, now, NoPatch).Ok?
    ensures WithImage(s, p, now, NoPatch).value.seriesIndex == n
  {
    var rel := ToRelative(s.runDir, p).value;
    assert rel.parts == p.parts[|s.runDir.parts|..];
    assert Name(Parent(rel)) == base + "_s" + NatText(n);
    SeriesSuffixParses(base, n);
  }

  /** A directory name like `exp1`: it starts with a letter and has no
      underscore and no whitespace. */
  predicate PlainName(name: string)
  {
    && |name| > 0
    && ('a' <= name[0] <= 'z' || 'A' <= name[0] <= 'Z')
    && forall i :: 0 <= i < |name| ==> name[i] != '_' && !IsSpace(name[i])
  }

  /** `int()` of the text after the last `_s` of such a name fails: the name
      has no `_s`, so the whole name is read, and it does not start with a
      digit or a sign. */
  lemma PlainNameHasNoSeries(name: string)
    requires PlainName(name)
    ensures ParseInt(AfterLast(name, "_s")) == None
  {
    assert '_' !in name;
    AfterLastAbsent(name, "_s");
    LetterIsNoInt(name);
  }

  /** `int()` refuses a name that starts with a letter. */
  lemma LetterIsNoInt(name: string)
    requires PlainName(name)
    ensures ParseInt(name) == None
  {
    StripUnpadded(name);
    assert !DigitText(name) && name[0] != '+' && name[0] != '-';
  }

  /** The series index is not optional: an image whose directory name carries no
      `_s<n>` ending (here `exp1`), or an image placed directly in the run
      directory (whose parent name is empty), is refused with ValueError. */
  lemma WithImageNeedsSeriesDir(s: ExperimentState, p: Path, now: DateTime)
    requires p.absolute && IsUnder(p, s.runDir)
    requires |p.parts| == |s.runDir.parts| + 1 || (|p.parts| == |s.runDir.parts| + 2 && PlainName(p.parts[|p.parts| - 2]))
    ensures WithImage(s, p, now, NoPatch).Err? && WithImage(s, p, now, NoPatch).error.ValueError?
  {
    var rel := ToRelative(s.runDir, p).value;
    assert rel.parts == p.parts[|s.runDir.parts|..];
    if |p.parts| == |s.runDir.parts| + 1 {
      assert Name(Parent(rel)) == "";
      assert AfterLast("", "_s") == "";
    } else {
      assert Name(Parent(rel)) == p.parts[|p.parts| - 2];
      PlainNameHasNoSeries(p.parts[|p.parts| - 2]);
    }
  }
}
