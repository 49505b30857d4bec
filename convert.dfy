/** The convert step: for every experiment whose conversion is out of date,
    run the image codec on its raw file and turn the experiment into one
    converted experiment per file the codec saved. Each converted experiment
    is recorded as done with the step's settings hash and written to its
    working directory. The work is fanned out over the items by the executor. */
module Convert {
  import opened Base
  import opened Paths
  import opened JsonValues
  import opened State
  import opened Serialization
  import opened Store
  import opened StepProfiles
  import opened Payloads
  import opened Runtime
  import opened Executors

  /** The random part of a temporary file name: never contains a slash. */
  type Tag = t: string | '/' !in t witness ""

  /** How writing one state's file goes: the temporary name `mkstemp` picks
      and the exception, if any, one of the I/O calls raises. */
  datatype IoPlan = IoPlan(tag: Tag, fault: Fault)

  /** The image codec, `FitsIO.from_path(image, channel_labels=...)` followed
      by `convert_to_fits(**payload)`: it may change any file and returns the
      paths it saved, or raises. Its behaviour is not modelled. */
  type Codec = (Files, Path, Json, map<string, Json>) -> (Files, Result<seq<Path>, Error>)

  /** What the run depends on besides its arguments: the opaque settings hash
      function, the codec, the clock reading, the ISO text format of
      timestamps, the outcome of each file write, and `os.cpu_count()`. */
  datatype Environment = Environment(
    hashPayload: map<string, Json> -> string,
    codec: Codec,
    now: DateTime,
    iso: IsoCodec,
    io: ExperimentState -> IoPlan,
    cpuCount: Option<nat>)

  /** How the items are executed: `mode`, `workers` and `ordered`. */
  datatype ExecSettings = ExecSettings(mode: string, workers: Option<int>, ordered: bool)

  /** Everything the worker closes over: computed once per call of
      `run_convert` and shared by all items. */
  datatype Job = Job(
    step: string,
    hash: string,
    overwrite: bool,
    outputName: string,
    payload: map<string, Json>,
    labels: Json,
    env: Environment)

  /** The job `run_convert` prepares for a user. */
  function JobFor(settings: Settings, profile: StepProfile, userName: string, outputName: string, env: Environment): (job: Job)
    ensures job.payload == Payload(settings, profile, userName, outputName)
    ensures job.hash == env.hashPayload(job.payload)
    ensures job.labels == Get(job.payload, "channel_labels")
    ensures job.step == profile.stepName && job.overwrite == settings.overwrite && job.outputName == outputName
  {
    var payload := Payload(settings, profile, userName, outputName);
    Job(profile.stepName, env.hashPayload(payload), settings.overwrite, outputName, payload, Get(payload, "channel_labels"), env)
  }

  /** The converted experiment for one saved path: `with_image`, then
      `with_settings_hash`, then `mark_done`. */
  function Output(job: Job, st: ExperimentState, p: Path): Result<ExperimentState, Error>
  {
    var s1 :- WithImage(st, p, job.env.now, LastStepPatch(job.step));
    Ok(MarkDone(WithSettingsHash(s1, job.step, job.hash, job.env.now), job.step, job.env.now))
  }

  /** A path is converted exactly when `with_image` accepts it. The converted
      experiment has the image recorded, the step named as the last one, its
      settings hash stored and its status "done"; the raw file, the run
      directory and the masks are the input's. */
  lemma ConvertedFields(job: Job, st: ExperimentState, p: Path)
    ensures Output(job, st, p).Ok? <==> WithImage(st, p, job.env.now, LastStepPatch(job.step)).Ok?
    ensures Output(job, st, p).Ok? ==>
      var r := Output(job, st, p).value;
      && r.imageRel == Some(ToRelative(st.runDir, p).value)
      && Image(r) == Some(if p.absolute then p else Join(st.runDir, p))
      && r.lastStep == Some(job.step)
      && StepDone(r, job)
      && r.originalImageRel == st.originalImageRel
      && r.runDir == st.runDir
      && r.masksRel == st.masksRel
      && r.updatedAt == Some(job.env.now)
    ensures Output(job, st, p).Ok? && RunRelative(st) ==> RunRelative(Output(job, st, p).value)
  {
  }

  /** The step is recorded as done with the job's settings hash. */
  predicate StepDone(s: ExperimentState, job: Job)
  {
    && job.step in s.stepStatus && s.stepStatus[job.step] == "done"
    && job.step in s.stepSettingsHash && s.stepSettingsHash[job.step] == job.hash
  }

  /** `[f(x) for x in xs]` for an `f` that may raise: the results in order,
      or the exception of the first element `f` raises on. */
  function MapAll<X, Y>(f: X -> Result<Y, Error>, xs: seq<X>): Result<seq<Y>, Error>
  {
    if |xs| == 0 then Ok([])
    else
      var init :- MapAll(f, xs[..|xs| - 1]);
      var last :- f(xs[|xs| - 1]);
      Ok(init + [last])
  }

  /** The comprehension succeeds exactly when `f` succeeds on every element,
      and then holds its results in order; otherwise it raises the error of
      the first element `f` fails on. */
  lemma {:induction false} MapAllInOrder<X, Y>(f: X -> Result<Y, Error>, xs: seq<X>)
    ensures var r := MapAll(f, xs);
      && (r.Ok? <==> forall i :: 0 <= i < |xs| ==> f(xs[i]).Ok?)
      && (r.Ok? ==> |r.value| == |xs| && forall i :: 0 <= i < |xs| ==> f(xs[i]) == Ok(r.value[i]))
      && (r.Err? ==> exists k :: 0 <= k < |xs| && f(xs[k]) == Err(r.error)
                                 && forall i :: 0 <= i < k ==> f(xs[i]).Ok?)
  {
    if |xs| > 0 {
      var n := |xs|;
      var front := xs[..n - 1];
      MapAllInOrder(f, front);
      assert forall i :: 0 <= i < n - 1 ==> front[i] == xs[i];
    }
  }

  /** The converted experiments for the saved paths, in path order. */
  function Outputs(job: Job, st: ExperimentState, paths: seq<Path>): Result<seq<ExperimentState>, Error>
  {
    MapAll((p: Path) => Output(job, st, p), paths)
  }

  /** One `to_json` call as the I/O plan for the state makes it go. */
  function Write(job: Job, files: Files, s: ExperimentState): (Result<ExperimentState, Error>, Files)
  {
    ToJsonEffect(files, s, job.env.iso, job.env.io(s).tag, job.env.io(s).fault)
  }

  /** One write: the outcome of saving a state and the files afterwards. */
  type WriteStep = (Files, ExperimentState) -> (Result<ExperimentState, Error>, Files)

  /** The writes of a job, each going as its state's I/O plan makes it go. */
  function Writer(job: Job): WriteStep
  {
    (files: Files, s: ExperimentState) => Write(job, files, s)
  }

  /** Every file in `b` but not in `a` is a state file. */
  ghost predicate AddsOnlyStateFiles(a: Files, b: Files)
  {
    forall p :: p in b && p !in a ==> Name(p) == STATE_FILE
  }

  /** A `to_json` call that went as the state's I/O plan says is the job's
      write; when it succeeds it adds no file but the state file. */
  lemma WroteAsPlanned(job: Job, before: Files, s: ExperimentState, r: Result<ExperimentState, Error>, after: Files)
    requires (r, after) == ToJsonEffect(before, s, job.env.iso, job.env.io(s).tag, job.env.io(s).fault)
    ensures (r, after) == Writer(job)(before, s)
    ensures r.Ok? ==> AddsOnlyStateFiles(before, after)
  {
  }

  /** The loop writing the first `n` converted experiments with `write`; the
      first write that raises ends it. */
  function Persist(write: WriteStep, files: Files, outs: seq<ExperimentState>, n: nat): (Files, Option<Error>)
    requires n <= |outs|
  {
    if n == 0 then (files, None)
    else
      var (files1, err) := Persist(write, files, outs, n - 1);
      if err.Some? then (files1, err)
      else
        var (res, files2) := write(files1, outs[n - 1]);
        (files2, if res.Err? then Some(res.error) else None)
  }

  /** The job's writes only ever add or overwrite files. */
  lemma {:induction false} PersistKeepsFiles(job: Job, files: Files, outs: seq<ExperimentState>, n: nat)
    requires n <= |outs|
    ensures forall p :: p in files ==> p in Persist(Writer(job), files, outs, n).0
  {
    if n > 0 {
      PersistKeepsFiles(job, files, outs, n - 1);
      var files1 := Persist(Writer(job), files, outs, n - 1).0;
      assert Writer(job)(files1, outs[n - 1]) == Write(job, files1, outs[n - 1]);
      assert forall p :: p in files1 ==> p in Write(job, files1, outs[n - 1]).1;
    }
  }

  /** The worker, applied to one experiment with the files as they are when
      it runs: an up-to-date experiment passes through; otherwise the codec
      runs, the converted experiments are built and then written one by one. */
  function Work(job: Job, files: Files, st: ExperimentState): (r: (Files, Result<seq<ExperimentState>, Error>))
    ensures !Stale(st, job.step, job.hash, job.overwrite, job.outputName, [], files.Keys) ==> r == (files, Ok([st]))
  {
    if !Stale(st, job.step, job.hash, job.overwrite, job.outputName, [], files.Keys) then (files, Ok([st]))
    else
      var (files1, saved) := job.env.codec(files, OriginalImage(st), job.labels, job.payload);
      if saved.Err? then (files1, Err(saved.error))
      else
        var outs := Outputs(job, st, saved.value);
        if outs.Err? then (files1, Err(outs.error))
        else
          var (files2, err) := Persist(Writer(job), files1, outs.value, |outs.value|);
          if err.Some? then (files2, Err(err.value)) else (files2, Ok(outs.value))
  }

  /** The closure `worker`, as the function handed to `execute`. */
  function Worker(job: Job): (Files, ExperimentState) -> (Files, Result<seq<ExperimentState>, Error>)
  {
    (files: Files, st: ExperimentState) => Work(job, files, st)
  }

  /** One more write after `i` writes that all succeeded. */
  lemma PersistNext(write: WriteStep, files: Files, outs: seq<ExperimentState>, i: nat, before: Files, r: Result<ExperimentState, Error>, after: Files)
    requires i < |outs| && Persist(write, files, outs, i) == (before, None)
    requires (r, after) == write(before, outs[i])
    ensures Persist(write, files, outs, i + 1) == (after, if r.Err? then Some(r.error) else None)
  {
  }

  /** `for out_st in out_states: out_st.to_json()` on a disk. `mkstemp` names
      each temporary file after a name no file has when the run starts. */
  method PersistAll(disk: Disk, job: Job, outs: seq<ExperimentState>) returns (err: Option<Error>)
    requires forall i :: 0 <= i < |outs| && Workdir(outs[i]).Some? ==> TempPath(Workdir(outs[i]).value, job.env.io(outs[i]).tag) !in disk.files
    modifies disk
    ensures (disk.files, err) == Persist(Writer(job), old(disk.files), outs, |outs|)
  {
    err := None;
    for i := 0 to |outs|
      invariant (disk.files, None) == Persist(Writer(job), old(disk.files), outs, i)
      invariant AddsOnlyStateFiles(old(disk.files), disk.files)
    {
      var s := outs[i];
      if Workdir(s).Some? {
        TempNamedApart(Workdir(s).value, job.env.io(s).tag);
      }
      ghost var before := disk.files;
      assert Workdir(s).Some? ==> TempPath(Workdir(s).value, job.env.io(s).tag) !in before;
      var r := disk.ToJson(s, job.env.iso, job.env.io(s).tag, job.env.io(s).fault);
      WroteAsPlanned(job, before, s, r, disk.files);
      PersistNext(Writer(job), old(disk.files), outs, i, before, r, disk.files);
      if r.Err? {
        PersistFailureSticks(Writer(job), old(disk.files), outs, i + 1);
        return Some(r.error);
      }
    }
  }

  /** A temporary file is never named like a state file. */
  lemma TempNamedApart(workdir: Path, tag: Tag)
    ensures Name(TempPath(workdir, tag)) != STATE_FILE
  {
    assert Name(TempPath(workdir, tag))[0] == '.';
  }

  /** Once a write has failed, the later states are not written. */
  lemma {:induction false} PersistFailureSticks(write: WriteStep, files: Files, outs: seq<ExperimentState>, n: nat)
    requires n <= |outs| && Persist(write, files, outs, n).1.Some?
    ensures Persist(write, files, outs, |outs|) == Persist(write, files, outs, n)
    decreases |outs| - n
  {
    if n < |outs| {
      PersistFailureSticks(write, files, outs, n + 1);
    }
  }

  /** The state file of a working directory names it. */
  lemma StatePathInjective(a: Path, b: Path)
    requires StatePath(a) == StatePath(b)
    ensures a == b
  {
    assert a.parts == StatePath(a).parts[..|a.parts|];
  }

  /** The state file of `s`'s working directory holds `d`. */
  predicate StoredAs(fs: Files, s: ExperimentState, d: Content)
  {
    Workdir(s).Some? && StatePath(Workdir(s).value) in fs && fs[StatePath(Workdir(s).value)] == d
  }

  /** A write step that, when it succeeds, stores `doc(s)` as the state file
      of `s`'s working directory and touches no other file. */
  ghost predicate StoresStates(write: WriteStep, doc: ExperimentState -> Content)
  {
    forall fs, s :: write(fs, s).0.Ok? ==>
      Workdir(s).Some? && write(fs, s).1 == fs[StatePath(Workdir(s).value) := doc(s)]
  }

  /** What `to_json` writes for a state. */
  function StateDocument(iso: IsoCodec): ExperimentState -> Content
  {
    (s: ExperimentState) => Document(Serialize(s, iso))
  }

  /** A job's successful write stores the state's serialization. */
  lemma JobStoresStates(job: Job)
    ensures StoresStates(Writer(job), StateDocument(job.env.iso))
  {
    forall fs, s | Writer(job)(fs, s).0.Ok?
      ensures Workdir(s).Some? && Writer(job)(fs, s).1 == fs[StatePath(Workdir(s).value) := StateDocument(job.env.iso)(s)]
    {
      assert Writer(job)(fs, s) == Write(job, fs, s);
    }
  }

  /** The last of `n` writes, when none of them failed. */
  lemma PersistStep(write: WriteStep, files: Files, outs: seq<ExperimentState>, n: nat)
    requires 0 < n <= |outs| && Persist(write, files, outs, n).1.None?
    ensures Persist(write, files, outs, n - 1).1.None?
    ensures write(Persist(write, files, outs, n - 1).0, outs[n - 1]).0.Ok?
    ensures Persist(write, files, outs, n).0 == write(Persist(write, files, outs, n - 1).0, outs[n - 1]).1
  {
  }

  /** Writing another working directory's state file keeps the states
      already stored. */
  lemma StoredKept(fs: Files, outs: seq<ExperimentState>, doc: ExperimentState -> Content, wd: Path, d: Content)
    requires forall i :: 0 <= i < |outs| ==> StoredAs(fs, outs[i], doc(outs[i])) && Workdir(outs[i]) != Some(wd)
    ensures forall i :: 0 <= i < |outs| ==> StoredAs(fs[StatePath(wd) := d], outs[i], doc(outs[i]))
  {
    forall i | 0 <= i < |outs|
      ensures StoredAs(fs[StatePath(wd) := d], outs[i], doc(outs[i]))
    {
      if StatePath(Workdir(outs[i]).value) == StatePath(wd) {
        StatePathInjective(Workdir(outs[i]).value, wd);
      }
    }
  }

  /** When every write succeeds and the states have distinct working
      directories, each state's file holds that state's document. */
  lemma {:induction false} PersistedStates(write: WriteStep, doc: ExperimentState -> Content, files: Files, outs: seq<ExperimentState>, n: nat)
    requires StoresStates(write, doc)
    requires n <= |outs| && Persist(write, files, outs, n).1.None?
    requires forall i, j :: 0 <= i < j < |outs| ==> Workdir(outs[i]) != Workdir(outs[j])
    ensures forall i :: 0 <= i < n ==> StoredAs(Persist(write, files, outs, n).0, outs[i], doc(outs[i]))
  {
    if n > 0 {
      PersistStep(write, files, outs, n);
      PersistedStates(write, doc, files, outs, n - 1);
      var s := outs[n - 1];
      var files1 := Persist(write, files, outs, n - 1).0;
      var wd := Workdir(s).value;
      var files2 := files1[StatePath(wd) := doc(s)];
      assert Persist(write, files, outs, n).0 == files2;
      assert forall i :: 0 <= i < n - 1 ==> outs[..n - 1][i] == outs[i] && Workdir(outs[i]) != Workdir(s);
      StoredKept(files1, outs[..n - 1], doc, wd, doc(s));
      assert StoredAs(files2, s, doc(s));
    }
  }

  /** What the worker does with a stale experiment once the codec has saved
      `paths`: builds the converted experiments and writes them. */
  lemma WorkAfterCodec(job: Job, files: Files, st: ExperimentState, files1: Files, paths: seq<Path>)
    requires Stale(st, job.step, job.hash, job.overwrite, job.outputName, [], files.Keys)
    requires job.env.codec(files, OriginalImage(st), job.labels, job.payload) == (files1, Ok(paths))
    requires Work(job, files, st).1.Ok?
    ensures Outputs(job, st, paths).Ok? && |Outputs(job, st, paths).value| == |paths|
    ensures Persist(Writer(job), files1, Outputs(job, st, paths).value, |paths|).1.None?
    ensures Work(job, files, st) == (Persist(Writer(job), files1, Outputs(job, st, paths).value, |paths|).0, Ok(Outputs(job, st, paths).value))
  {
    MapAllInOrder((p: Path) => Output(job, st, p), paths);
  }

  /** For a stale experiment whose codec saved `paths`, the worker returns
      one converted experiment per path, in path order, and removes no file. */
  lemma WorkerFansOut(job: Job, files: Files, st: ExperimentState, files1: Files, paths: seq<Path>)
    requires Stale(st, job.step, job.hash, job.overwrite, job.outputName, [], files.Keys)
    requires job.env.codec(files, OriginalImage(st), job.labels, job.payload) == (files1, Ok(paths))
    requires Work(job, files, st).1.Ok?
    ensures |Work(job, files, st).1.value| == |paths|
    ensures forall i :: 0 <= i < |paths| ==> Output(job, st, paths[i]) == Ok(Work(job, files, st).1.value[i])
    ensures forall p :: p in files1 ==> p in Work(job, files, st).0
  {
    WorkAfterCodec(job, files, st, files1, paths);
    MapAllInOrder((p: Path) => Output(job, st, p), paths);
    PersistKeepsFiles(job, files1, Outputs(job, st, paths).value, |paths|);
  }

  /** Every experiment the worker converted has been written before it
      returns, and reads back as itself from its working directory, when
      the converted experiments have distinct working directories. */
  lemma WorkerPersists(job: Job, files: Files, st: ExperimentState, files1: Files, paths: seq<Path>)
    requires Stale(st, job.step, job.hash, job.overwrite, job.outputName, [], files.Keys)
    requires job.env.codec(files, OriginalImage(st), job.labels, job.payload) == (files1, Ok(paths))
    requires Work(job, files, st).1.Ok?
    requires IsoRoundTrips(job.env.iso)
    requires var outs := Work(job, files, st).1.value;
      forall i, j :: 0 <= i < j < |outs| ==> Workdir(outs[i]) != Workdir(outs[j])
    ensures var (files', r) := Work(job, files, st);
      forall i :: 0 <= i < |r.value| ==> Workdir(r.value[i]).Some? && FromJson(files', Workdir(r.value[i]).value, job.env.iso) == Ok(r.value[i])
  {
    WorkAfterCodec(job, files, st, files1, paths);
    var outs := Outputs(job, st, paths).value;
    MapAllInOrder((p: Path) => Output(job, st, p), paths);
    JobStoresStates(job);
    PersistedStates(Writer(job), StateDocument(job.env.iso), files1, outs, |outs|);
    var files' := Work(job, files, st).0;
    forall i | 0 <= i < |outs|
      ensures FromJson(files', Workdir(outs[i]).value, job.env.iso) == Ok(outs[i])
    {
      assert StoredAs(files', outs[i], StateDocument(job.env.iso)(outs[i]));
      SerializeRoundTrip(outs[i], job.env.iso);
    }
  }

  /** A converted experiment is up to date: running the worker on it again
      with the same settings passes it through, as long as its image is on
      disk and overwriting is off. */
  lemma ConvertedIsUpToDate(job: Job, st: ExperimentState, p: Path, files: Files)
    requires Output(job, st, p).Ok? && !job.overwrite
    requires Exists(Image(Output(job, st, p).value), files.Keys)
    requires job.outputName == FITS_MASK_NAME ==> Exists(Masks(Output(job, st, p).value), files.Keys)
    ensures Work(job, files, Output(job, st, p).value) == (files, Ok([Output(job, st, p).value]))
  {
  }

  /** `run_convert`, with the executor's parameters given explicitly and the
      generator it returns consumed to the end. It reads the execution
      context first and fails when there is none. The worker is a local
      closure, which a process pool cannot pickle. */
  method RunConvert(ctx: ContextVar, settings: Settings, states: seq<ExperimentState>, profile: StepProfile,
                    outputName: string, env: Environment, exec: ExecSettings, files: Files, schedule: seq<nat>)
    returns (r: Result<Outcome<Files, ExperimentState, seq<ExperimentState>, Error>, Error>)
    requires IsSchedule(schedule, |states|)
    ensures ctx.current.None? ==> r == Err(NoContext)
    ensures ctx.current.Some? ==>
      r == Ok(ExecuteSpec(Worker(JobFor(settings, profile, ctx.current.value.userName, outputName, env)), false,
                          files, states, exec.mode, exec.workers, exec.ordered, env.cpuCount, schedule))
  {
    var c := ctx.GetCtx();
    if c.Err? {
      return Err(c.error);
    }
    var payload := BuildPayload(settings, profile, c.value.userName, outputName);
    var job := Job(profile.stepName, env.hashPayload(payload), settings.overwrite, outputName, payload, Get(payload, "channel_labels"), env);
    var o := Execute(Worker(job), false, files, states, exec.mode, exec.workers, exec.ordered, env.cpuCount, schedule);
    return Ok(o);
  }

  /** In process mode the pool cannot pickle the closure: no experiment is
      converted, no file changes, and the first result the caller asks for
      raises the pickling error. */
  lemma ProcessModeConvertsNothing(job: Job, files: Files, states: seq<ExperimentState>, workers: Option<int>,
                                   ordered: bool, cpuCount: Option<nat>, schedule: seq<nat>)
    requires IsSchedule(schedule, |states|) && |states| > 0
    requires workers.None? || workers.value > 0
    ensures var o := ExecuteSpec(Worker(job), false, files, states, "process", workers, ordered, cpuCount, schedule);
      && o.world == files && o.invoked == [] && o.yielded == []
      && o.failure.Some? && (o.failure.value.Propagated? || o.failure.value.TaskFailed?)
      && o.failure.value.cause == NotPicklable
  {
    UnpicklableRunsNothing(Worker(job), files, states, workers, ordered, cpuCount, schedule);
  }

  /** `run_convert` with the worker defined at module level and bound to the
      job (`functools.partial(worker, job)`), which a process pool can pickle. */
  method RunConvertPortable(ctx: ContextVar, settings: Settings, states: seq<ExperimentState>, profile: StepProfile,
                            outputName: string, env: Environment, exec: ExecSettings, files: Files, schedule: seq<nat>)
    returns (r: Result<Outcome<Files, ExperimentState, seq<ExperimentState>, Error>, Error>)
    requires IsSchedule(schedule, |states|)
    ensures ctx.current.None? ==> r == Err(NoContext)
    ensures ctx.current.Some? ==>
      r == Ok(ExecuteSpec(Worker(JobFor(settings, profile, ctx.current.value.userName, outputName, env)), true,
                          files, states, exec.mode, exec.workers, exec.ordered, env.cpuCount, schedule))
  {
    var c := ctx.GetCtx();
    if c.Err? {
      return Err(c.error);
    }
    var payload := BuildPayload(settings, profile, c.value.userName, outputName);
    var job := Job(profile.stepName, env.hashPayload(payload), settings.overwrite, outputName, payload, Get(payload, "channel_labels"), env);
    var o := Execute(Worker(job), true, files, states, exec.mode, exec.workers, exec.ordered, env.cpuCount, schedule);
    return Ok(o);
  }

  /** With a picklable worker, process mode does what thread mode does: every
      experiment's worker runs, and the results and files are the same. */
  lemma PortableProcessModeConverts(job: Job, files: Files, states: seq<ExperimentState>, workers: Option<int>,
                                    ordered: bool, cpuCount: Option<nat>, schedule: seq<nat>)
    requires IsSchedule(schedule, |states|)
    requires workers.None? || workers.value > 0
    ensures var o := ExecuteSpec(Worker(job), true, files, states, "process", workers, ordered, cpuCount, schedule);
      && o == ExecuteSpec(Worker(job), true, files, states, "thread", workers, ordered, cpuCount, schedule)
      && o.invoked == schedule
      && o.world == RunScheduled(Worker(job), files, states, schedule, |states|).0
  {
  }
}
