# FITS pipeline core in Dafny

This project models the core of FITS, an image-conversion pipeline. It covers four parts.

- **Resumable experiment state.** Each raw image becomes an immutable
  `ExperimentState` record. The record keeps its paths relative to the run
  directory and a status and settings hash per step. It is written atomically
  as `experiment_state.json` next to the converted image, then discovered and
  reloaded on the next run.
- **Skip logic.** `needs_run` decides from the recorded status, the settings
  hash and the files on disk whether a step has to run again.
- **Executor.** `execute` runs a function over items serially, or on a thread
  or process pool. The pool yields results either in item order or in
  completion order, and it fails fast.
- **Convert step and step loop.** The convert step builds a payload, fans each
  stale experiment out into one converted experiment per saved file and
  persists them. The registry and `run_workflow` validate and run the enabled
  steps in order.

Modules follow the source files:

| module | source |
|---|---|
| `State` | `environment/state.py` |
| `Store` | the file-system half of `state.py`: `to_json`, `from_json`, discovery and assembly |
| `Serialization` | `environment/serialization.py` |
| `Discovery` | `environment/discovery.py` |
| `Runtime` | `environment/runtime.py` |
| `Metadata` | `provenance.py` |
| `StepProfiles`, `Payloads`, `Registry` | the corresponding `workflows/` files |
| `Executors` | `workflows/executors.py` |
| `Workflow` | `workflows/execute.py` |
| `Convert` | `workflows/tasks/convert.py` |

`Base`, `Paths`, `Text` and `JsonValues` hold the value types: results and errors, POSIX paths, the few `str` operations used, and JSON values.

**How the outside world enters the model.**

- **Files.** The file system is a map from paths to contents.
- **Clock.** It is a `now` parameter.
- **Timestamp text.** ISO text is an `IsoCodec` parameter, together with the hypothesis `IsoRoundTrips`.
- **I/O failures.** The outcome of each I/O call of `to_json` is a `Fault` parameter.
- **Temporary names.** The random part of a `mkstemp` name is a `tag`.
- **Directory walks.** `rglob` output is an input sequence.
- **Image codec.** It is an uninterpreted function parameter.
- **Executor.**
  - A task is a function that threads the files through and returns a result or an exception.
  - A pool run is fixed by a `schedule`: a permutation of the item indices giving the completion order and the order in which the calls' effects happen.
  - Every submitted task runs, because the pool waits for them on exit.

## Model

| member | source | states |
|---|---|---|
| State.ToRelative | src/fits/environment/state.py:172-191 | succeeds iff the path is relative or under the base; the result is relative and resolves back to the input; otherwise the ValueError text |
| State.ToAbsolute | src/fits/environment/state.py:193-207 | absolute paths are kept; relative ones are appended to the run directory |
| State.Workdir | src/fits/environment/state.py:144-149 | present iff an image is set, and then it is the image's parent |
| State.Init | src/fits/environment/state.py:51-67 | fails iff the raw file is absolute and outside the run directory; the record resolves back to the raw file, is run-relative, has every optional field empty, series 0, empty maps and the clock reading |
| State.WithImage | src/fits/environment/state.py:69-77 | succeeds iff the path is under the run directory, the parent's name after its last `_s` parses as an int, and no keyword repeats one the operation sets; records image, experiment id (the parent) and series; other fields come from the keywords; keeps run-relativity |
| State.WithMasks | src/fits/environment/state.py:79-83 | succeeds iff the path is under the run directory and `masks_rel` is not passed again; records the masks; the image resolves back to the input path |
| State.WithSettingsHash | src/fits/environment/state.py:85-94 | the hash map gains or overwrites exactly the step's entry; only the timestamp changes besides |
| State.Commit | src/fits/environment/state.py:96-100 | only the keywords and the timestamp change |
| State.MarkRunning | src/fits/environment/state.py:209-213 | the step's status becomes "running", other entries and fields are kept |
| State.MarkDone | src/fits/environment/state.py:215-219 | the step's status becomes "done", other entries and fields are kept |
| State.MarkFailed | src/fits/environment/state.py:221-230 | status "failed" and the error text recorded, nothing else changes |
| State.NeedsRun | src/fits/environment/state.py:235-267 | the gate-by-gate loop returns exactly the `Stale` predicate (overwrite, not done, other hash, missing output, missing side file) |
| State.DoneIsNotStale | src/fits/environment/state.py:235-267 | a step just recorded done with hash h, whose image exists, is not stale for h without overwrite and is stale with overwrite |
| State.NewHashIsStale | src/fits/environment/state.py:251-253 | recording one hash makes the step stale for any other hash |
| State.WithImageSeries | src/fits/environment/state.py:73-75 | an image in `<base>_s<n>` is accepted with series index n |
| State.PlainNameHasNoSeries | src/fits/environment/state.py:75 | for a directory name like `exp1` (a letter first, no `_`, no whitespace), `int()` of the text after its last `_s` fails |
| State.LetterIsNoInt | src/fits/environment/state.py:75 | `int()` refuses such a name |
| State.WithImageNeedsSeriesDir | src/fits/environment/state.py:69-77 | an image in a directory without `_s<n>` (any `PlainName` such as `exp1`) or directly in the run directory is refused with ValueError |
| Store.TempIsNotTarget | src/fits/environment/state.py:108-117 | the temporary file is never the target file |
| Store.Disk.ToJson | src/fits/environment/state.py:102-133 | the step-by-step write (mkdir, mkstemp, write, replace, cleanup) leaves the files and result given by `ToJsonEffect` |
| Store.ToJsonAtomic | src/fits/environment/state.py:102-131 | without an image: the ValueError and no change; otherwise on success the target holds the whole new document, on failure the target is unchanged, no file other than target and temporary file changes, and a fresh temporary file remains only when a failure's unlink fails too |
| Store.ToJsonThenFromJson | src/fits/environment/state.py:102-142 | a state written without fault reads back as itself from its working directory |
| Store.FromJson | src/fits/environment/state.py:135-142 | a missing file raises FileNotFoundError; success implies a well-formed JSON document |
| Store.DiscoverSavedStates | src/fits/environment/state.py:270-284 | the loop returns the states that load, in walk order, skipping failures |
| Store.LoadedExactly | src/fits/environment/state.py:276-284 | a state is discovered iff some walked file loads as it |
| Store.GoodFilesLoaded | src/fits/environment/state.py:270-284 | every valid state file under the run directory is discovered |
| Store.InitAll | src/fits/environment/state.py:294 | fails iff some raw file is refused; otherwise one state per raw file, each `Init` of it |
| Store.InitRawStates | src/fits/environment/state.py:294 | the comprehension loop computes `InitAll` |
| Store.Unconverted | src/fits/environment/state.py:298-301 | keeps exactly the raw states whose original is not covered |
| Store.KeepUnconverted | src/fits/environment/state.py:298-301 | the filtering loop computes `Unconverted` |
| Store.UnconvertedInOrder | src/fits/environment/state.py:298-301 | the kept raw states appear in raw-file order at increasing positions, and exactly the positions whose original is not converted are kept |
| Store.Originals | src/fits/environment/state.py:297 | exactly the original images of the given states |
| Store.AssembleExperimentStates | src/fits/environment/state.py:287-302 | computes `Assembled`: saved states followed by the uncovered raw states |
| Store.InitAllFails | src/fits/environment/state.py:294 | the first refused raw file decides the error |
| Store.AssembledCovers | src/fits/environment/state.py:287-302 | the saved states come first; every raw file is covered by a saved or a fresh state; no fresh state duplicates a saved original |
| Serialization.Serialize | src/fits/environment/serialization.py:8-21 | the serialized state is a JSON object |
| Serialization.SerializedKeys | src/fits/environment/serialization.py:8-21 | the object has exactly the eleven state keys |
| Serialization.SerializedPaths | src/fits/environment/serialization.py:10-13 | the path keys hold `str()` of the paths, null when absent |
| Serialization.SerializedTexts | src/fits/environment/serialization.py:14-19 | the optional text keys hold the texts or null |
| Serialization.SerializedRest | src/fits/environment/serialization.py:16-20 | series index, both step maps and the ISO timestamp |
| Serialization.ReadPaths | src/fits/environment/serialization.py:76-79 | succeeds iff `run_dir` and `original_image_rel` are present and all four path keys are strings (or null where optional); the values are the parsed paths; a missing key gives its KeyError text, a wrong type a TypeError |
| Serialization.ReadTexts | src/fits/environment/serialization.py:80-81 | succeeds iff `last_step` and `experiment_id` are absent, null or strings; otherwise a TypeError |
| Serialization.ReadCounters | src/fits/environment/serialization.py:82-84 | succeeds iff `series_index` is an int (never a bool) and both maps, defaulting to `{}`, are string objects; a missing `series_index` gives its KeyError, a wrong type a TypeError |
| Serialization.ReadTail | src/fits/environment/serialization.py:85-86 | succeeds iff `last_error` is a string or null and `updated_at` is null or an ISO text; a wrong type is a TypeError, a non-ISO text the ValueError |
| Serialization.StrMapOf | src/fits/environment/serialization.py:55-63 | succeeds iff the value is an object of strings, and then reads it back exactly |
| Serialization.AsStrMap | src/fits/environment/serialization.py:55-63 | the entry-by-entry loop computes `StrMapOf` |
| Serialization.StrMapOfStrObject | src/fits/environment/serialization.py:55-63 | a dict of strings written as JSON reads back as itself |
| Serialization.StrObjectInjective | src/fits/environment/serialization.py:17-18 | a dict of strings is determined by its JSON object |
| Serialization.Deserialize | src/fits/environment/serialization.py:24-87 | succeeds iff the object is `WellFormed`; a non-object root and a missing `run_dir` give their errors; series and run directory come from their keys |
| Serialization.DeserializeErrors | src/fits/environment/serialization.py:24-87 | only TypeError, KeyError or ValueError; a KeyError names a missing required key; a TypeError means a non-object root or a wrong JSON type; a ValueError means a non-ISO `updated_at` |
| Serialization.DeserializeFaults | src/fits/environment/serialization.py:24-87 | with only wrong types a TypeError, with only missing required keys a KeyError, with only a bad timestamp the ValueError |
| Serialization.DeserializedFields | src/fits/environment/serialization.py:33-87 | field by field: paths parsed from their text, absent or null optional fields as None, absent maps as `{}` |
| Serialization.SerializeRoundTrip | src/fits/environment/serialization.py:8-87 | deserialize(serialize(s)) == s when the ISO format round-trips |
| Serialization.ReadWriteRead | src/fits/environment/serialization.py:24-87 | reading, writing and reading again gives the first reading |
| JsonValues.StrObject | src/fits/environment/serialization.py:17-18 | a dict of strings becomes an object with the same keys and string values |
| Paths.Join | src/fits/environment/state.py:205-207 | joining a relative path appends its parts; an absolute right side wins |
| Paths.Parent | src/fits/environment/state.py:149 | the parent drops exactly the last component |
| Paths.Suffix | src/fits/environment/discovery.py:28 | a non-empty suffix starts with a dot |
| Paths.RelativeTo | src/fits/environment/state.py:186-190 | defined iff the base is the path or one of its parents; base parts + result parts = path parts |
| Paths.Parse | src/fits/environment/serialization.py:33-36 | absolute iff the text starts with '/' |
| Paths.ParseStr | src/fits/environment/serialization.py:10-36 | `Path(str(p)) == p` |
| Paths.RelativeToJoin | src/fits/environment/state.py:186-207 | `base / p.relative_to(base) == p` |
| Paths.JoinRelativeTo | src/fits/environment/state.py:186-207 | `(base / rel).relative_to(base) == rel` for relative `rel` |
| Text.AfterLast | src/fits/environment/state.py:75 | `rsplit(sep, 1)[-1]` is no longer than the text |
| Text.ParseInt | src/fits/environment/state.py:75 | `int()` succeeds iff the stripped text is a digit text (underscores between digits) with an optional sign, and yields its value, negated for `-` |
| Text.Strip | src/fits/environment/state.py:75 | the stripped text neither starts nor ends with whitespace |
| Text.StripUnpadded | src/fits/environment/state.py:75 | a text without surrounding whitespace strips to itself |
| Text.Lower | src/fits/environment/discovery.py:28 | `lower()` keeps the length |
| Text.NatTextParses | src/fits/environment/state.py:75 | `int(str(n)) == n` |
| Text.AfterLastAbsent | src/fits/environment/state.py:75 | a text without `_` is all after the last `_s` |
| Text.AfterLastAppended | src/fits/environment/state.py:75 | the text after the last `_s` of `a + "_s" + d` is `d` when `d` has no `_` |
| Text.SeriesSuffixParses | src/fits/environment/state.py:75 | a name ending in `_s<n>` yields series n |
| Discovery.Insert | src/fits/environment/discovery.py:32 | inserting keeps the list sorted and adds exactly the new path |
| Discovery.SortedList | src/fits/environment/discovery.py:32 | `sorted(set)` is strictly increasing and has exactly the set's elements |
| Discovery.PathLessTotal | src/fits/environment/discovery.py:32 | any two distinct paths are ordered |
| Discovery.PathLessAsymmetric | src/fits/environment/discovery.py:32 | the order is strict |
| Discovery.SortedUnique | src/fits/environment/discovery.py:32 | a sorted list is determined by its elements |
| Discovery.CollectSupportedFiles | src/fits/environment/discovery.py:12-32 | sorted, and a path is listed iff the walk yields it as a regular file, not `fits_`-prefixed, with a supported suffix in any case |
| Discovery.FindFitsOutputs | src/fits/environment/discovery.py:34-48 | sorted, and a path is listed iff it is a regular file named `fits_array.tif`/`fits_mask.tif` in any case |
| Discovery.OutputsAreNotInputs | src/fits/environment/discovery.py:26 | the pipeline's own outputs are never collected as inputs |
| Runtime.DetectMode | src/fits/environment/runtime.py:40-46 | Qt wins, then notebook, otherwise cli |
| Runtime.ContextVar.constructor | src/fits/environment/runtime.py:9 | the variable starts unset |
| Runtime.ContextVar.GetCtx | src/fits/environment/runtime.py:11-15 | the current context, or the RuntimeError when unset |
| Runtime.ContextVar.Set | src/fits/environment/runtime.py:19 | sets the value and returns the previous one as token |
| Runtime.ContextVar.Reset | src/fits/environment/runtime.py:23 | restores the token's value |
| Runtime.ContextVar.UseCtx | src/fits/environment/runtime.py:17-23 | the body sees `ctx`, and the previous value is restored afterwards |
| Runtime.ContextVar.Nested | src/fits/environment/runtime.py:17-23 | an inner block sees its own context; after it the outer one is current again |
| Metadata.GetDistVersion | src/fits/provenance.py:8-12 | the installed version, or "unknown" |
| Metadata.AddStep | src/fits/provenance.py:17-35 | a copy with exactly the step added or replaced by a dist/version/timestamp record |
| Metadata.IsProcessed | src/fits/provenance.py:38-41 | true iff the metadata is a mapping holding the step |
| Metadata.GetTimestamp | src/fits/provenance.py:43-52 | present iff the step's record is a mapping with a string timestamp, and then that string |
| Metadata.AddStepThenQuery | src/fits/provenance.py:17-52 | after adding, the step is processed with the clock's timestamp; other steps answer as before |
| StepProfiles.Dump | src/fits/workflows/provenance.py:9-14 | exactly the two keys with the profile's fields |
| StepProfiles.DumpInjective | src/fits/workflows/provenance.py:9-14 | the dump determines the profile |
| Payloads.ModelDump | src/fits/workflows/payload.py:12 | the settings' fields plus `overwrite` |
| Payloads.BuildPayload | src/fits/workflows/payload.py:9-16 | keys are the settings' plus the four merged ones; settings values survive unless overwritten; profile, user and output values as given |
| Payloads.DefaultPayloadKeepsFiles | src/fits/settings/models.py:7-34 | default convert settings ask for no overwrite and export all channels |
| Registry.Profile | src/fits/workflows/registry.py:23-25 | the profile carries the step's distribution and name |
| Registry.RegistryShape | src/fits/workflows/registry.py:32-39 | one entry, `convert`, filed under its own name, output `fits_array.tif`, distribution `fits-io` |
| Workflow.SelectedSteps | src/fits/workflows/execute.py:14-21 | a step is selected iff it is in the order, registered and enabled |
| Workflow.RunWorkflow | src/fits/workflows/execute.py:12-27 | the loop returns the result and call trace of the `Workflow` function |
| Workflow.CallsFollowOrder | src/fits/workflows/execute.py:12-27 | on success every selected step was validated then run, in order; on failure the trace stops right after the failing validation or run |
| Workflow.WorkflowSplits | src/fits/workflows/execute.py:14-25 | running over `a + b` is running over `a`, then over `b` from its result |
| Workflow.NothingSelected | src/fits/workflows/execute.py:14-21 | with no step enabled the state passes through and nothing is called |
| Workflow.SelectedOnce | src/fits/workflows/execute.py:14-21 | no step runs twice when the order has no duplicates |
| Workflow.ShippedWorkflow | src/fits/workflows/execute.py:8-27 | with the shipped order and registry: convert disabled means identity; enabled means validate then run with profile (fits-io, convert) and `fits_array.tif` |
| Executors.CpuOrOne | src/fits/workflows/executors.py:15 | at least 1, and the CPU count when known and non-zero |
| Executors.DefaultWorkers | src/fits/workflows/executors.py:14-20 | thread: cpu+4 up to 28 processors and 32 beyond (so at least 5); process: the CPU count; otherwise 1 |
| Executors.RunScheduled | src/fits/workflows/executors.py:42-48 | every scheduled item has a result and only items have results |
| Executors.Stream | src/fits/workflows/executors.py:43-54 | one result per item |
| Executors.Unpicklable | src/fits/workflows/executors.py:40-46 | every task fails with the pickling error |
| Executors.Execute | src/fits/workflows/executors.py:23-54 | computes `ExecuteSpec`: serial prefix, invalid mode, invalid worker count, unpicklable task, or pool run consumed in item or completion order |
| Executors.RunSerial | src/fits/workflows/executors.py:31-34 | the loop computes the serial prefix |
| Executors.Drain | src/fits/workflows/executors.py:42-54 | the consuming loop yields the stream up to its first failure |
| Executors.SerialFailureSticks | src/fits/workflows/executors.py:31-34 | after the first exception nothing more happens |
| Executors.ConsumeFailureSticks | src/fits/workflows/executors.py:42-54 | after the first failure the consumer stops |
| Executors.SerialShape | src/fits/workflows/executors.py:31-34 | items are invoked 0,1,2,… and the only failure is the propagated exception of the last invoked item |
| Executors.SerialResults | src/fits/workflows/executors.py:31-34 | yields f of each item in order up to the first exception, which is propagated |
| Executors.PoolResults | src/fits/workflows/executors.py:42-48 | for a pure task each item's result is f of that item |
| Executors.OrderedConsumeIsSerial | src/fits/workflows/executors.py:43-46 | consuming futures in item order gives what the serial loop gives |
| Executors.OrderedPoolIsSerial | src/fits/workflows/executors.py:23-46 | ordered thread/process runs yield exactly the serial results and failure, while every item is invoked |
| Executors.UnorderedConsume | src/fits/workflows/executors.py:47-54 | completion-order results are f of the scheduled items; a failure names the failing item |
| Executors.UnorderedPoolResults | src/fits/workflows/executors.py:47-54 | a failure names an item whose task raised; with no failure the results are a permutation of f over the items |
| Executors.Permute | src/fits/workflows/executors.py:48-51 | the results in completion order |
| Executors.PermutedMultiset | src/fits/workflows/executors.py:48-51 | results in completion order are a permutation of the results in item order |
| Executors.UnpicklableRunsNothing | src/fits/workflows/executors.py:40-46 | with an unpicklable task no task runs and the first result raises |
| Convert.JobFor | src/fits/workflows/tasks/convert.py:22-27 | the payload, its hash and the channel labels the worker closes over |
| Convert.ConvertedFields | src/fits/workflows/tasks/convert.py:51-54 | a path converts iff `with_image` accepts it; the result records the image, last step, hash and done status, keeps the raw file, run directory and masks, and stays run-relative |
| Convert.MapAllInOrder | src/fits/workflows/tasks/convert.py:51-54 | the comprehension fails on the first failing path, otherwise one result per path in order |
| Convert.Work | src/fits/workflows/tasks/convert.py:37-58 | an experiment that needs no run passes through with the files untouched |
| Convert.PersistAll | src/fits/workflows/tasks/convert.py:55-57 | the write loop computes `Persist` with the job's writes |
| Convert.PersistFailureSticks | src/fits/workflows/tasks/convert.py:55-57 | the first failing write ends the loop |
| Convert.PersistKeepsFiles | src/fits/workflows/tasks/convert.py:55-57 | writing never removes a file |
| Convert.WroteAsPlanned | src/fits/workflows/tasks/convert.py:57 | each `to_json` is the job's write, and a successful one adds only a state file |
| Convert.JobStoresStates | src/fits/workflows/tasks/convert.py:57 | a successful write stores the state's serialization under its working directory and changes nothing else |
| Convert.TempNamedApart | src/fits/environment/state.py:112-117 | a temporary file's name is never `experiment_state.json` |
| Convert.StatePathInjective | src/fits/environment/state.py:108 | distinct working directories have distinct state files |
| Convert.PersistedStates | src/fits/workflows/tasks/convert.py:55-57 | after all writes succeed, each state's file holds its own document when working directories differ |
| Convert.WorkAfterCodec | src/fits/workflows/tasks/convert.py:45-58 | for a stale experiment the worker builds the outputs and writes them on the codec's files |
| Convert.WorkerFansOut | src/fits/workflows/tasks/convert.py:45-58 | one converted experiment per saved path, in path order; no file disappears |
| Convert.WorkerPersists | src/fits/workflows/tasks/convert.py:51-58 | every returned experiment reads back as itself from disk |
| Convert.ConvertedIsUpToDate | src/fits/workflows/tasks/convert.py:41-43 | re-running the worker on a converted experiment with its image present passes it through |
| Convert.RunConvert | src/fits/workflows/tasks/convert.py:20-61 | RuntimeError without a context; otherwise `execute` of the closure over the states, with the job built from the payload |
| Convert.ProcessModeConvertsNothing | src/fits/workflows/tasks/convert.py:37-61 | as written, process mode runs no conversion and fails with the pickling error |
| Convert.RunConvertPortable | src/fits/workflows/tasks/convert.py:20-61 | as `RunConvert`, with a worker the process pool can ship |
| Convert.PortableProcessModeConverts | src/fits/workflows/tasks/convert.py:37-61 | with a portable worker, process mode gives the thread-mode outcome and runs every item |

## Left out

- Logging, the progress-bar decorator `pbar` and the CLI are not modelled.
  How `pbar` turns the iterator into the runner's return value is not
  modelled; the `run_convert` result is the executor's outcome.
- JSON text is not modelled. `json.dumps`/`json.loads` are represented by the
  `Document`/`Opaque` file contents; a text that does not parse is `Opaque`.
- `datetime.isoformat`/`fromisoformat` are an `IsoCodec` parameter.
  `SerializeRoundTrip` assumes they round-trip.
- Real concurrency is not modelled. A pool run is one linearisation, given
  by `schedule`, of the calls' effects and completions. Tasks that race on
  the same file are not modelled beyond this.
- Executors.Execute: the result is not lazy. The generator is consumed to
  its end or to its first failure. A caller that stops reading early is not
  modelled.
- Executors.Execute: with an invalid explicit worker count, Python raises
  inside `ProcessPoolExecutor`/`ThreadPoolExecutor`. The model returns
  `InvalidWorkers` without giving that error's text.
- `hash_payload` is imported by `workflows/tasks/convert.py` but is not
  defined in `workflows/payload.py`. It is the opaque function
  `Environment.hashPayload`.
- `settings.execution`, `settings.workers` and `settings.ordered_execution`
  are read by `run_convert` but are not fields of `ConvertSettings`. They are
  the `ExecSettings` parameter.
- `ExecMode` and `FitsName` are imported from `constant.py`, which does not
  define them. Modes are strings, and any other string is refused as the
  code refuses it.
- The image codec (`FitsIO`) is an uninterpreted function. The model does not
  know which files it writes.
- pydantic's `model_validate` is the `validate` parameter of `RunWorkflow`,
  and the runner is the `run` parameter.
- `Text.Lower` folds only ASCII letters. `str.strip()` is the ASCII
  whitespace only.
- Directories are not modelled. `mkdir` and `is_file` are the `Fault` and
  the walk's `isFile` flag.
- `datetime.now()` is read once per operation call. `Convert` uses one clock
  reading for the whole run.
- A failing unlink of the temporary file is swallowed by `to_json`, and the
  model then keeps that file (`cleanupFails`).
- `Text.ParseInt` accepts ASCII digits only; Python's `int()` also accepts
  other Unicode decimal digits and strips Unicode whitespace.
- `State.Patch` has no `updated_at` field: `with_image`, `with_masks` and
  `commit` set `updated_at` themselves, so a caller passing it gets a
  `TypeError` for the repeated keyword, which the model does not represent.
- Some tests disagree with the code; the model follows the code.
  - `tests/workflows/tasks/test_convert.py:34` builds an `ExperimentState`
    with an `original_image` field, which the record does not have.
  - `tests/workflows/test_execute.py:56-59` passes dict config blocks, while
    `execute.py:19` unpacks a pair. A two-key dict unpacks to its key
    strings, so `enabled` is a truthy string.
  - `tests/environment/test_state.py:36-38` and `:119-122` call `with_image`
    on directories without `_s<n>`, which `state.py:75` refuses
    (`State.WithImageNeedsSeriesDir`).

## Findings

| source | as written | input that shows it | evidently intended | confidence | as-written member | corrected member |
|---|---|---|---|---|---|---|
| src/fits/workflows/tasks/convert.py:37-61 | `worker` is a local closure handed to `execute`, whose process mode submits it to a `ProcessPoolExecutor` (src/fits/workflows/executors.py:40-46), which must pickle it | `mode="process"` with at least one experiment state | process mode converts like thread mode | not executed | Convert.ProcessModeConvertsNothing | Convert.PortableProcessModeConverts |
