/** Experiment states on disk: the atomic write of `experiment_state.json`
    into an experiment's working directory, reading it back, and assembling
    the list of experiments of a run from saved states and raw files. */
module Store {
  import opened Base
  import opened Paths
  import opened JsonValues
  import opened State
  import opened Serialization

  /** What a file holds: a JSON document, or anything `json.loads` rejects
      (an image, an empty or half-written file). */
  datatype Content = Document(value: Json) | Opaque

  /** The files that exist, by path. Directories are not modelled. */
  type Files = map<Path, Content>

  const STATE_FILE := "experiment_state.json"

  function StatePath(workdir: Path): Path
  {
    Join(workdir, Leaf(STATE_FILE))
  }

  /** The name `mkstemp` gives the temporary file; `tag` is its random part. */
  function TempPath(workdir: Path, tag: string): Path
    requires '/' !in tag
  {
    Join(workdir, Leaf("." + STATE_FILE + "." + tag + ".tmp"))
  }

  lemma TempIsNotTarget(workdir: Path, tag: string)
    requires '/' !in tag
    ensures TempPath(workdir, tag) != StatePath(workdir)
  {
    assert Name(TempPath(workdir, tag))[0] == '.';
  }

  /** Removing a file just created restores the files as they were. */
  lemma DropFresh(m: Files, t: Path, d: Content)
    requires t !in m
    ensures m[t := d] - {t} == m
  {
  }

  /** Renaming a file just created over another path. */
  lemma RenameOver(m: Files, t: Path, k: Path, d: Content)
    requires t !in m && t != k
    ensures m[t := d][k := d] - {t} == m[k := d]
  {
  }

  /** The exception, if any, each I/O call of `to_json` raises; the I/O itself
      is outside the model. `cleanupFails` says whether unlinking the
      temporary file afterwards fails too (that error is swallowed). */
  datatype Fault =
    | NoFault
    | MkdirFails(err: Error)
    | MkstempFails(err: Error)
    | WriteFails(err: Error, cleanupFails: bool)
    | ReplaceFails(err: Error, cleanupFails: bool)

  const NoWorkdir := ValueError("workdir is not available; set image before calling to_json().")

  /** The outcome of `to_json` and the files afterwards. */
  function ToJsonEffect(files: Files, s: ExperimentState, iso: IsoCodec, tag: string, fault: Fault): (Result<ExperimentState, Error>, Files)
    requires '/' !in tag
  {
    if Workdir(s).None? then (Err(NoWorkdir), files)
    else
      var wd := Workdir(s).value;
      var payload := Document(Serialize(s, iso));
      match fault
      case NoFault => (Ok(s), files[StatePath(wd) := payload])
      case MkdirFails(e) => (Err(e), files)
      case MkstempFails(e) => (Err(e), files)
      case WriteFails(e, cleanupFails) => (Err(e), if cleanupFails then files[TempPath(wd, tag) := Opaque] else files)
      case ReplaceFails(e, cleanupFails) => (Err(e), if cleanupFails then files[TempPath(wd, tag) := payload] else files)
  }

  /** A file system that the state writer changes in place. */
  class Disk {
    var files: Files

    constructor(files: Files)
      ensures this.files == files
    {
      this.files := files;
    }

    /** `to_json`: write to a fresh temporary file beside the target, then
        rename it over the target; on failure remove the temporary file and
        re-raise. `mkstemp` picks a name no file has. */
    method ToJson(s: ExperimentState, iso: IsoCodec, tag: string, fault: Fault) returns (r: Result<ExperimentState, Error>)
      requires '/' !in tag
      requires Workdir(s).Some? ==> TempPath(Workdir(s).value, tag) !in files
      modifies this
      ensures (r, files) == ToJsonEffect(old(files), s, iso, tag, fault)
    {
      if Workdir(s).None? {
        return Err(NoWorkdir);
      }
      var target := StatePath(Workdir(s).value);
      if fault.MkdirFails? {
        return Err(fault.err);
      }
      var payload := Serialize(s, iso);
      var temp := TempPath(Workdir(s).value, tag);
      TempIsNotTarget(Workdir(s).value, tag);
      if fault.MkstempFails? {
        return Err(fault.err);
      }
      files := files[temp := Opaque];
      if fault.WriteFails? {
        if !fault.cleanupFails {
          DropFresh(old(files), temp, Opaque);
          files := files - {temp};
        }
        return Err(fault.err);
      }
      files := files[temp := Document(payload)];
      assert files == old(files)[temp := Document(payload)];
      if fault.ReplaceFails? {
        if !fault.cleanupFails {
          DropFresh(old(files), temp, Document(payload));
          files := files - {temp};
        }
        return Err(fault.err);
      }
      RenameOver(old(files), temp, target, Document(payload));
      files := files[target := files[temp]] - {temp};
      return Ok(s);
    }
  }

  /** `from_json`: read and validate `workdir/experiment_state.json`. */
  function FromJson(files: Files, workdir: Path, iso: IsoCodec): (r: Result<ExperimentState, Error>)
    ensures StatePath(workdir) !in files ==> r.Err? && r.error.FileNotFoundError?
    ensures r.Ok? ==> files[StatePath(workdir)].Document? && WellFormed(files[StatePath(workdir)].value, iso)
  {
    var path := StatePath(workdir);
    if path !in files then Err(FileNotFoundError("[Errno 2] No such file or directory: '" + Str(path) + "'"))
    else match files[path]
      case Opaque => Err(JSONDecodeError("Expecting value: line 1 column 1 (char 0)"))
      case Document(j) => Deserialize(j, iso)
  }

  /** Writing is atomic: the target holds its old content or the whole new
      document, never a partial one, and no file other than the target and
      the temporary file changes. The temporary file, fresh before the call,
      is left behind only when a failure's cleanup fails too. Without an
      image there is no working directory, and nothing is written. */
  lemma ToJsonAtomic(files: Files, s: ExperimentState, iso: IsoCodec, tag: string, fault: Fault)
    requires '/' !in tag
    ensures Workdir(s).None? ==> ToJsonEffect(files, s, iso, tag, fault) == (Err(NoWorkdir), files)
    ensures Workdir(s).Some? ==>
      var (r, files') := ToJsonEffect(files, s, iso, tag, fault);
      var target := StatePath(Workdir(s).value);
      var temp := TempPath(Workdir(s).value, tag);
      && (r.Ok? ==> target in files' && files'[target] == Document(Serialize(s, iso)))
      && (r.Err? ==> (target in files' <==> target in files) && (target in files ==> files'[target] == files[target]))
      && (forall p :: p != target && p != temp ==>
            (p in files' <==> p in files) && (p in files ==> files'[p] == files[p]))
      && (temp !in files ==>
            (temp in files' <==> (fault.WriteFails? || fault.ReplaceFails?) && fault.cleanupFails))
  {
    if Workdir(s).Some? {
      TempIsNotTarget(Workdir(s).value, tag);
    }
  }

  /** A state that was written reads back as itself from its working directory. */
  lemma ToJsonThenFromJson(files: Files, s: ExperimentState, iso: IsoCodec, tag: string)
    requires '/' !in tag && Workdir(s).Some? && IsoRoundTrips(iso)
    ensures ToJsonEffect(files, s, iso, tag, NoFault).0 == Ok(s)
    ensures FromJson(ToJsonEffect(files, s, iso, tag, NoFault).1, Workdir(s).value, iso) == Ok(s)
  {
    SerializeRoundTrip(s, iso);
  }

  /** `rglob("experiment_state.json")` below `runDir`: `walk` lists each state
      file under the run directory once, in the order the walk finds them. */
  predicate IsWalk(walk: seq<Path>, files: Files, runDir: Path)
  {
    && (forall i, j :: 0 <= i < j < |walk| ==> walk[i] != walk[j])
    && (forall i :: 0 <= i < |walk| ==> walk[i] in files && IsUnder(walk[i], runDir) && Name(walk[i]) == STATE_FILE)
    && (forall p :: p in files && IsUnder(p, runDir) && Name(p) == STATE_FILE ==> p in walk)
  }

  /** The states that load from the walked files, in walk order. */
  function Loaded(files: Files, walk: seq<Path>, iso: IsoCodec): seq<ExperimentState>
  {
    if |walk| == 0 then []
    else
      var st := FromJson(files, Parent(walk[|walk| - 1]), iso);
      Loaded(files, walk[..|walk| - 1], iso) + (if st.Ok? then [st.value] else [])
  }

  /** `_discover_saved_states`: load each state file found, skipping (and
      logging) those that fail to load. */
  method DiscoverSavedStates(files: Files, walk: seq<Path>, iso: IsoCodec) returns (states: seq<ExperimentState>)
    ensures states == Loaded(files, walk, iso)
  {
    states := [];
    for i := 0 to |walk|
      invariant states == Loaded(files, walk[..i], iso)
    {
      assert walk[..i + 1][..i] == walk[..i];
      var st := FromJson(files, Parent(walk[i]), iso);
      if st.Ok? {
        states := states + [st.value];
      }
    }
    assert walk[..|walk|] == walk;
  }

  /** The loaded states are exactly the states some walked file loads as. */
  lemma {:induction false} LoadedExactly(files: Files, walk: seq<Path>, iso: IsoCodec, st: ExperimentState)
    ensures st in Loaded(files, walk, iso) <==> exists i :: 0 <= i < |walk| && FromJson(files, Parent(walk[i]), iso) == Ok(st)
  {
    if |walk| > 0 {
      var n := |walk| - 1;
      var init := walk[..n];
      var last := FromJson(files, Parent(walk[n]), iso);
      var tail := if last.Ok? then [last.value] else [];
      assert Loaded(files, walk, iso) == Loaded(files, init, iso) + tail;
      LoadedExactly(files, init, iso, st);
      if st in Loaded(files, walk, iso) {
        if st !in Loaded(files, init, iso) {
          assert st in tail;
          assert FromJson(files, Parent(walk[n]), iso) == Ok(st);
        } else {
          var i :| 0 <= i < |init| && FromJson(files, Parent(init[i]), iso) == Ok(st);
          assert init[i] == walk[i];
        }
      }
      if exists i :: 0 <= i < |walk| && FromJson(files, Parent(walk[i]), iso) == Ok(st) {
        var i :| 0 <= i < |walk| && FromJson(files, Parent(walk[i]), iso) == Ok(st);
        if i == n {
          assert st in tail;
        } else {
          assert init[i] == walk[i];
        }
      }
    }
  }

  /** Every state file of the run that holds a valid state is among the loaded
      ones: a corrupt file is skipped, never a good one. */
  lemma GoodFilesLoaded(files: Files, walk: seq<Path>, runDir: Path, iso: IsoCodec, p: Path)
    requires IsWalk(walk, files, runDir)
    requires p in files && IsUnder(p, runDir) && Name(p) == STATE_FILE
    requires FromJson(files, Parent(p), iso).Ok?
    ensures FromJson(files, Parent(p), iso).value in Loaded(files, walk, iso)
  {
    var i :| 0 <= i < |walk| && walk[i] == p;
    LoadedExactly(files, walk, iso, FromJson(files, Parent(p), iso).value);
  }

  /** `[ExperimentState.init(run_dir, f) for f in raw_files]`: the first file
      that is not under the run directory raises. */
  function InitAll(runDir: Path, rawFiles: seq<Path>, now: DateTime): (r: Result<seq<ExperimentState>, Error>)
    ensures r.Ok? ==> |r.value| == |rawFiles|
    ensures r.Ok? ==> forall i :: 0 <= i < |rawFiles| ==> Init(runDir, rawFiles[i], now) == Ok(r.value[i])
    ensures r.Err? <==> exists i :: 0 <= i < |rawFiles| && Init(runDir, rawFiles[i], now).Err?
  {
    if |rawFiles| == 0 then Ok([])
    else
      var n := |rawFiles| - 1;
      var init :- InitAll(runDir, rawFiles[..n], now);
      var st :- Init(runDir, rawFiles[n], now);
      Ok(init + [st])
  }

  /** The raw-file states whose original image no saved state covers. */
  function Unconverted(raws: seq<ExperimentState>, converted: set<Path>): (r: seq<ExperimentState>)
    ensures forall st :: st in r <==> st in raws && st.originalImageRel !in converted
  {
    if |raws| == 0 then []
    else
      var n := |raws| - 1;
      Unconverted(raws[..n], converted) + (if raws[n].originalImageRel in converted then [] else [raws[n]])
  }

  /** The positions in `raws` whose state `Unconverted` keeps. */
  function KeptIndices(raws: seq<ExperimentState>, converted: set<Path>): seq<nat>
  {
    if |raws| == 0 then []
    else
      var n := |raws| - 1;
      KeptIndices(raws[..n], converted) + (if raws[n].originalImageRel in converted then [] else [n])
  }

  /** `r` lists the states of `raws` at the positions `idx`, in increasing
      order, and `idx` holds exactly the positions whose original is not
      converted. */
  predicate PicksInOrder(raws: seq<ExperimentState>, converted: set<Path>, idx: seq<nat>, r: seq<ExperimentState>)
  {
    && |idx| == |r|
    && (forall k :: 0 <= k < |idx| ==> idx[k] < |raws| && r[k] == raws[idx[k]])
    && (forall k, l :: 0 <= k < l < |idx| ==> idx[k] < idx[l])
    && (forall i :: 0 <= i < |raws| ==> (i in idx <==> raws[i].originalImageRel !in converted))
  }

  /** One more raw state: it is kept exactly when its original is not
      converted, after all earlier picks. */
  lemma PicksExtend(raws: seq<ExperimentState>, converted: set<Path>, idx0: seq<nat>, r0: seq<ExperimentState>)
    requires |raws| > 0
    requires PicksInOrder(raws[..|raws| - 1], converted, idx0, r0)
    ensures var n := |raws| - 1; var kept := raws[n].originalImageRel !in converted;
      PicksInOrder(raws, converted, idx0 + (if kept then [n] else []), r0 + (if kept then [raws[n]] else []))
  {
    var n := |raws| - 1;
    var front := raws[..n];
    var kept := raws[n].originalImageRel !in converted;
    var idx := idx0 + (if kept then [n] else []);
    var r := r0 + (if kept then [raws[n]] else []);
    forall k | 0 <= k < |idx|
      ensures idx[k] < |raws| && r[k] == raws[idx[k]]
    {
      if k < |idx0| {
        assert front[idx0[k]] == raws[idx0[k]];
      }
    }
    forall i | 0 <= i < |raws|
      ensures i in idx <==> raws[i].originalImageRel !in converted
    {
      if i < n {
        assert front[i] == raws[i];
      } else {
        assert forall k :: 0 <= k < |idx0| ==> idx0[k] != n;
      }
    }
  }

  /** The comprehension keeps the raw states in raw-file order, each as often
      as it occurs: the kept positions increase, and they are exactly the
      positions whose original is not converted. */
  lemma {:induction false} UnconvertedInOrder(raws: seq<ExperimentState>, converted: set<Path>)
    ensures PicksInOrder(raws, converted, KeptIndices(raws, converted), Unconverted(raws, converted))
  {
    if |raws| > 0 {
      var n := |raws| - 1;
      UnconvertedInOrder(raws[..n], converted);
      PicksExtend(raws, converted, KeptIndices(raws[..n], converted), Unconverted(raws[..n], converted));
    }
  }

  function Originals(states: seq<ExperimentState>): (r: set<Path>)
    ensures forall p :: p in r <==> exists st :: st in states && st.originalImageRel == p
  {
    set st | st in states :: st.originalImageRel
  }

  /** What `assemble_experiment_states` returns. */
  function Assembled(runDir: Path, rawFiles: seq<Path>, files: Files, walk: seq<Path>, iso: IsoCodec, now: DateTime): Result<seq<ExperimentState>, Error>
  {
    var raws :- InitAll(runDir, rawFiles, now);
    var saved := Loaded(files, walk, iso);
    Ok(saved + Unconverted(raws, Originals(saved)))
  }

  /** The list comprehension over the raw files, one `init` at a time. */
  method InitRawStates(runDir: Path, rawFiles: seq<Path>, now: DateTime) returns (r: Result<seq<ExperimentState>, Error>)
    ensures r == InitAll(runDir, rawFiles, now)
  {
    var raws: seq<ExperimentState> := [];
    for i := 0 to |rawFiles|
      invariant InitAll(runDir, rawFiles[..i], now) == Ok(raws)
    {
      assert rawFiles[..i + 1][..i] == rawFiles[..i];
      var st := Init(runDir, rawFiles[i], now);
      if st.Err? {
        InitAllFails(runDir, rawFiles, i + 1, now);
        return Err(st.error);
      }
      raws := raws + [st.value];
    }
    assert rawFiles[..|rawFiles|] == rawFiles;
    return Ok(raws);
  }

  /** The filtering comprehension over the raw states. */
  method KeepUnconverted(raws: seq<ExperimentState>, converted: set<Path>) returns (remaining: seq<ExperimentState>)
    ensures remaining == Unconverted(raws, converted)
  {
    remaining := [];
    for i := 0 to |raws|
      invariant remaining == Unconverted(raws[..i], converted)
    {
      assert raws[..i + 1][..i] == raws[..i];
      if raws[i].originalImageRel !in converted {
        remaining := remaining + [raws[i]];
      }
    }
    assert raws[..|raws|] == raws;
  }

  /** `assemble_experiment_states`: every saved state, then the raw files not
      yet converted. The raw files are checked before anything is read. */
  method AssembleExperimentStates(runDir: Path, rawFiles: seq<Path>, files: Files, walk: seq<Path>, iso: IsoCodec, now: DateTime)
    returns (r: Result<seq<ExperimentState>, Error>)
    ensures r == Assembled(runDir, rawFiles, files, walk, iso, now)
  {
    var raws :- InitRawStates(runDir, rawFiles, now);
    var saved := DiscoverSavedStates(files, walk, iso);
    var converted := set st | st in saved :: st.originalImageRel;
    var remaining := KeepUnconverted(raws, converted);
    return Ok(saved + remaining);
  }

  /** Once a prefix of the raw files fails, the whole list fails the same way. */
  lemma {:induction false} InitAllFails(runDir: Path, rawFiles: seq<Path>, k: nat, now: DateTime)
    requires k <= |rawFiles| && InitAll(runDir, rawFiles[..k], now).Err?
    ensures InitAll(runDir, rawFiles, now) == InitAll(runDir, rawFiles[..k], now)
    decreases |rawFiles| - k
  {
    if k < |rawFiles| {
      var n := |rawFiles[..k + 1]| - 1;
      assert rawFiles[..k + 1][..n] == rawFiles[..k];
      InitAllFails(runDir, rawFiles, k + 1, now);
    } else {
      assert rawFiles[..k] == rawFiles;
    }
  }

  /** The assembled list starts with the saved states, covers every raw file
      exactly through a saved or a fresh state, and never adds a fresh state
      for an original image a saved state already covers. */
  lemma AssembledCovers(runDir: Path, rawFiles: seq<Path>, files: Files, walk: seq<Path>, iso: IsoCodec, now: DateTime)
    requires Assembled(runDir, rawFiles, files, walk, iso, now).Ok?
    ensures
      var out := Assembled(runDir, rawFiles, files, walk, iso, now).value;
      var saved := Loaded(files, walk, iso);
      && saved <= out
      && (forall i :: 0 <= i < |rawFiles| ==>
            exists st :: st in out && st.originalImageRel == Init(runDir, rawFiles[i], now).value.originalImageRel)
      && (forall st :: st in out[|saved|..] ==> st.originalImageRel !in Originals(saved))
  {
    var out := Assembled(runDir, rawFiles, files, walk, iso, now).value;
    var saved := Loaded(files, walk, iso);
    var raws := InitAll(runDir, rawFiles, now).value;
    var rest := Unconverted(raws, Originals(saved));
    assert out == saved + rest;
    assert out[|saved|..] == rest;
    forall i | 0 <= i < |rawFiles|
      ensures exists st :: st in out && st.originalImageRel == Init(runDir, rawFiles[i], now).value.originalImageRel
    {
      var raw := raws[i];
      if raw.originalImageRel in Originals(saved) {
        var st :| st in saved && st.originalImageRel == raw.originalImageRel;
        assert st in out;
      } else {
        assert raw in rest;
        assert raw in out;
      }
    }
  }
}
