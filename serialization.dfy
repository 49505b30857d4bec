/** The JSON form of an experiment state and its validating reader. Values are
    JSON values as `json.loads` produces them; the text form is not modelled. */
module Serialization {
  import opened Base
  import opened Paths
  import opened JsonValues
  import opened State

  /** The keys of a serialized state. */
  const StateKeys: set<string> := {
    "run_dir", "original_image_rel", "image_rel", "masks_rel", "last_step", "experiment_id",
    "series_index", "step_status", "step_settings_hash", "last_error", "updated_at"
  }

  function OptPathJson(p: Option<Path>): Json
  {
    if p.Some? then JStr(Str(p.value)) else JNull
  }

  function OptStrJson(s: Option<string>): Json
  {
    if s.Some? then JStr(s.value) else JNull
  }

  /** `serialize_experiment_state`: every field under its own key, paths as
      their text, the timestamp in ISO form. */
  function Serialize(s: ExperimentState, iso: IsoCodec): (r: Json)
    ensures r.JObj?
  {
    JObj(map[
      "run_dir" := JStr(Str(s.runDir)),
      "original_image_rel" := JStr(Str(s.originalImageRel)),
      "image_rel" := OptPathJson(s.imageRel),
      "masks_rel" := OptPathJson(s.masksRel),
      "last_step" := OptStrJson(s.lastStep),
      "experiment_id" := OptStrJson(s.experimentId),
      "series_index" := JInt(s.seriesIndex),
      "step_status" := StrObject(s.stepStatus),
      "step_settings_hash" := StrObject(s.stepSettingsHash),
      "last_error" := OptStrJson(s.lastError),
      "updated_at" := if s.updatedAt.Some? then JStr(iso.format(s.updatedAt.value)) else JNull
    ])
  }

  /** `raw.get(key, default)`. */
  function GetOr(fields: map<string, Json>, key: string, default: Json): Json
  {
    if key in fields then fields[key] else default
  }

  /** A string or null. */
  predicate OptStrShaped(v: Json)
  {
    v.JNull? || v.JStr?
  }

  /** An object whose values are all strings. */
  predicate StrObjectShaped(v: Json)
  {
    v.JObj? && forall k :: k in v.fields ==> v.fields[k].JStr?
  }

  /** What `as_str_map` returns: the object read as a dict of strings, or the
      TypeError for a non-object or for any non-string value. */
  function StrMapOf(name: string, v: Json): (r: Result<map<string, string>, Error>)
    ensures r.Ok? <==> StrObjectShaped(v)
    ensures r.Ok? ==> StrObject(r.value) == v
    ensures r.Err? ==> r.error.TypeError?
  {
    if !v.JObj? then Err(TypeError(name + " must be an object of string keys/values."))
    else if exists k :: k in v.fields && !v.fields[k].JStr? then
      Err(TypeError(name + " must contain only string keys/values."))
    else
      var m := map k | k in v.fields :: v.fields[k].s;
      assert StrObject(m).fields == v.fields;
      Ok(m)
  }

  /** `as_str_map`, entry by entry. Python walks the dict in insertion order; the
      outcome does not depend on the order, so any order is taken here. */
  method AsStrMap(name: string, v: Json) returns (r: Result<map<string, string>, Error>)
    ensures r == StrMapOf(name, v)
  {
    if !v.JObj? {
      return Err(TypeError(name + " must be an object of string keys/values."));
    }
    var out: map<string, string> := map[];
    var todo := v.fields.Keys;
    while todo != {}
      invariant todo <= v.fields.Keys
      invariant out.Keys == v.fields.Keys - todo
      invariant forall k :: k in out ==> v.fields[k] == JStr(out[k])
      decreases todo
    {
      var k :| k in todo;
      if !v.fields[k].JStr? {
        return Err(TypeError(name + " must contain only string keys/values."));
      }
      out := out[k := v.fields[k].s];
      todo := todo - {k};
    }
    assert out == map k | k in v.fields :: v.fields[k].s;
    return Ok(out);
  }

  /** The JSON values the reader accepts, stated key by key. Unknown keys are
      ignored; the two maps may be absent but not null. */
  predicate WellFormed(raw: Json, iso: IsoCodec)
  {
    && raw.JObj?
    && "run_dir" in raw.fields && raw.fields["run_dir"].JStr?
    && "original_image_rel" in raw.fields && raw.fields["original_image_rel"].JStr?
    && OptStrShaped(Get(raw.fields, "image_rel"))
    && OptStrShaped(Get(raw.fields, "masks_rel"))
    && OptStrShaped(Get(raw.fields, "last_step"))
    && OptStrShaped(Get(raw.fields, "experiment_id"))
    && "series_index" in raw.fields && raw.fields["series_index"].JInt?
    && StrObjectShaped(GetOr(raw.fields, "step_status", JObj(map[])))
    && StrObjectShaped(GetOr(raw.fields, "step_settings_hash", JObj(map[])))
    && OptStrShaped(Get(raw.fields, "last_error"))
    && (Get(raw.fields, "updated_at").JNull?
        || (Get(raw.fields, "updated_at").JStr? && iso.parse(Get(raw.fields, "updated_at").s).Some?))
  }

  /* The reader checks the keys in the order the source lists them. It is
     written here in four stages of that order, each with the errors it can
     raise; the type checks of a stage are `PathsTyped`, `TextsTyped`,
     `CountersTyped` and `TailTyped`. */

  predicate PathsTyped(f: map<string, Json>)
  {
    && ("run_dir" in f ==> f["run_dir"].JStr?)
    && ("original_image_rel" in f ==> f["original_image_rel"].JStr?)
    && OptStrShaped(Get(f, "image_rel"))
    && OptStrShaped(Get(f, "masks_rel"))
  }

  predicate TextsTyped(f: map<string, Json>)
  {
    OptStrShaped(Get(f, "last_step")) && OptStrShaped(Get(f, "experiment_id"))
  }

  predicate CountersTyped(f: map<string, Json>)
  {
    && ("series_index" in f ==> f["series_index"].JInt?)
    && StrObjectShaped(GetOr(f, "step_status", JObj(map[])))
    && StrObjectShaped(GetOr(f, "step_settings_hash", JObj(map[])))
  }

  predicate TailTyped(f: map<string, Json>)
  {
    OptStrShaped(Get(f, "last_error")) && OptStrShaped(Get(f, "updated_at"))
  }

  /** Every key the reader looks at, when present, holds a value of the JSON
      type it expects (the ISO text itself is not checked here). */
  predicate TypesOk(f: map<string, Json>)
  {
    PathsTyped(f) && TextsTyped(f) && CountersTyped(f) && TailTyped(f)
  }

  /** The three keys `required` insists on. */
  predicate RequiredPresent(f: map<string, Json>)
  {
    "run_dir" in f && "original_image_rel" in f && "series_index" in f
  }

  function OptPathOf(v: Json): Option<Path>
  {
    if v.JStr? then Some(Parse(v.s)) else None
  }

  function OptStrOf(v: Json): Option<string>
  {
    if v.JStr? then Some(v.s) else None
  }

  /** `run_dir`, `original_image_rel`, `image_rel`, `masks_rel`. */
  function ReadPaths(f: map<string, Json>): (r: Result<(Path, Path, Option<Path>, Option<Path>), Error>)
    ensures r.Ok? <==> "run_dir" in f && "original_image_rel" in f && PathsTyped(f)
    ensures r.Ok? ==> r.value == (Parse(f["run_dir"].s), Parse(f["original_image_rel"].s),
                                  OptPathOf(Get(f, "image_rel")), OptPathOf(Get(f, "masks_rel")))
    ensures r.Err? ==>
      || (r.error.TypeError? && !PathsTyped(f))
      || ("run_dir" !in f && r.error == KeyError("Missing required key: run_dir"))
      || ("original_image_rel" !in f && r.error == KeyError("Missing required key: original_image_rel"))
    ensures "run_dir" in f && "original_image_rel" in f && !PathsTyped(f) ==> r.Err? && r.error.TypeError?
    ensures PathsTyped(f) && r.Err? ==> r.error.KeyError?
  {
    if "run_dir" !in f then Err(KeyError("Missing required key: run_dir"))
    else if !f["run_dir"].JStr? then Err(TypeError("run_dir must be a string path."))
    else if "original_image_rel" !in f then Err(KeyError("Missing required key: original_image_rel"))
    else if !f["original_image_rel"].JStr? then Err(TypeError("original_image_rel must be a string path."))
    else if !OptStrShaped(Get(f, "image_rel")) then Err(TypeError("image_rel must be a string path."))
    else if !OptStrShaped(Get(f, "masks_rel")) then Err(TypeError("masks_rel must be a string path."))
    else Ok((Parse(f["run_dir"].s), Parse(f["original_image_rel"].s),
             OptPathOf(Get(f, "image_rel")), OptPathOf(Get(f, "masks_rel"))))
  }

  /** `last_step`, `experiment_id`. */
  function ReadTexts(f: map<string, Json>): (r: Result<(Option<string>, Option<string>), Error>)
    ensures r.Ok? <==> TextsTyped(f)
    ensures r.Ok? ==> r.value == (OptStrOf(Get(f, "last_step")), OptStrOf(Get(f, "experiment_id")))
    ensures r.Err? ==> r.error.TypeError?
  {
    if !OptStrShaped(Get(f, "last_step")) then Err(TypeError("last_step must be a string or null."))
    else if !OptStrShaped(Get(f, "experiment_id")) then Err(TypeError("experiment_id must be a string or null."))
    else Ok((OptStrOf(Get(f, "last_step")), OptStrOf(Get(f, "experiment_id"))))
  }

  /** `series_index`, `step_status`, `step_settings_hash`. A bool is refused as
      `series_index` although Python's `bool` is a subclass of `int`. */
  function ReadCounters(f: map<string, Json>): (r: Result<(int, map<string, string>, map<string, string>), Error>)
    ensures r.Ok? <==> "series_index" in f && CountersTyped(f)
    ensures r.Ok? ==>
      && r.value.0 == f["series_index"].i
      && StrObject(r.value.1) == GetOr(f, "step_status", JObj(map[]))
      && StrObject(r.value.2) == GetOr(f, "step_settings_hash", JObj(map[]))
    ensures r.Err? ==>
      || (r.error.TypeError? && !CountersTyped(f))
      || ("series_index" !in f && r.error == KeyError("Missing required key: series_index"))
    ensures "series_index" in f && !CountersTyped(f) ==> r.Err? && r.error.TypeError?
    ensures CountersTyped(f) && r.Err? ==> r.error.KeyError?
  {
    if "series_index" !in f then Err(KeyError("Missing required key: series_index"))
    else if !f["series_index"].JInt? then Err(TypeError("series_index must be an integer."))
    else
      var status :- StrMapOf("step_status", GetOr(f, "step_status", JObj(map[])));
      var hashes :- StrMapOf("step_settings_hash", GetOr(f, "step_settings_hash", JObj(map[])));
      Ok((f["series_index"].i, status, hashes))
  }

  /** `last_error`, `updated_at`; `parse` answers None where `fromisoformat`
      raises ValueError. */
  function ReadTail(f: map<string, Json>, iso: IsoCodec): (r: Result<(Option<string>, Option<DateTime>), Error>)
    ensures r.Ok? <==> TailTyped(f) && (Get(f, "updated_at").JStr? ==> iso.parse(Get(f, "updated_at").s).Some?)
    ensures r.Ok? ==> r.value == (OptStrOf(Get(f, "last_error")),
                                  if Get(f, "updated_at").JStr? then iso.parse(Get(f, "updated_at").s) else None)
    ensures r.Err? ==>
      || (r.error.TypeError? && !TailTyped(f))
      || (Get(f, "updated_at").JStr? && iso.parse(Get(f, "updated_at").s).None?
          && r.error == ValueError("updated_at is not a valid ISO datetime."))
    ensures TailTyped(f) && r.Err? ==> r.error == ValueError("updated_at is not a valid ISO datetime.")
  {
    var updated := Get(f, "updated_at");
    if !OptStrShaped(Get(f, "last_error")) then Err(TypeError("last_error must be a string or null."))
    else if updated.JNull? then Ok((OptStrOf(Get(f, "last_error")), None))
    else if !updated.JStr? then Err(TypeError("updated_at must be an ISO datetime string or null."))
    else if iso.parse(updated.s).None? then Err(ValueError("updated_at is not a valid ISO datetime."))
    else Ok((OptStrOf(Get(f, "last_error")), iso.parse(updated.s)))
  }

  /** `deserialize_experiment_state` followed by the constructor call: the
      fields are checked in the order the source lists them, and the first
      failing check decides the error. */
  function Deserialize(raw: Json, iso: IsoCodec): (r: Result<ExperimentState, Error>)
    ensures r.Ok? <==> WellFormed(raw, iso)
    ensures !raw.JObj? ==> r == Err(TypeError("Experiment state JSON root must be an object."))
    ensures raw.JObj? && "run_dir" !in raw.fields ==> r == Err(KeyError("Missing required key: run_dir"))
    ensures r.Ok? ==>
      && r.value.seriesIndex == raw.fields["series_index"].i
      && r.value.runDir == Parse(raw.fields["run_dir"].s)
  {
    if !raw.JObj? then Err(TypeError("Experiment state JSON root must be an object."))
    else
      var f := raw.fields;
      var paths :- ReadPaths(f);
      var texts :- ReadTexts(f);
      var counters :- ReadCounters(f);
      var tail :- ReadTail(f, iso);
      Ok(ExperimentState(paths.0, paths.1, paths.2, paths.3, texts.0, texts.1,
                         counters.0, counters.1, counters.2, tail.0, tail.1))
  }

  /** A KeyError from the reader names a missing required key, a TypeError
      means a non-object root or a value of the wrong JSON type (a bool
      `series_index` included), and a ValueError an `updated_at` text that is
      not ISO; no other exception is raised. */
  lemma DeserializeErrors(raw: Json, iso: IsoCodec)
    ensures var r := Deserialize(raw, iso);
      r.Err? ==> r.error.TypeError? || r.error.KeyError? || r.error.ValueError?
    ensures var r := Deserialize(raw, iso);
      r.Err? && r.error.KeyError? ==>
        || ("run_dir" !in raw.fields && r.error.message == "Missing required key: run_dir")
        || ("original_image_rel" !in raw.fields && r.error.message == "Missing required key: original_image_rel")
        || ("series_index" !in raw.fields && r.error.message == "Missing required key: series_index")
    ensures var r := Deserialize(raw, iso);
      r.Err? && r.error.TypeError? ==> !raw.JObj? || !TypesOk(raw.fields)
    ensures var r := Deserialize(raw, iso);
      r.Err? && r.error.ValueError? ==>
        && raw.JObj? && Get(raw.fields, "updated_at").JStr?
        && iso.parse(Get(raw.fields, "updated_at").s).None?
        && r.error.message == "updated_at is not a valid ISO datetime."
  {
    if raw.JObj? {
      var f := raw.fields;
      if ReadPaths(f).Err? {
        assert Deserialize(raw, iso).error == ReadPaths(f).error;
      } else if ReadTexts(f).Err? {
        assert Deserialize(raw, iso).error == ReadTexts(f).error;
      } else if ReadCounters(f).Err? {
        assert Deserialize(raw, iso).error == ReadCounters(f).error;
      } else if ReadTail(f, iso).Err? {
        assert Deserialize(raw, iso).error == ReadTail(f, iso).error;
      }
    }
  }

  /** When only one kind of fault is present, that kind is raised: wrong JSON
      types give a TypeError, missing required keys a KeyError, and a
      timestamp text that is not ISO the ValueError. */
  lemma DeserializeFaults(raw: Json, iso: IsoCodec)
    requires raw.JObj?
    ensures RequiredPresent(raw.fields) && !TypesOk(raw.fields) ==>
      Deserialize(raw, iso).Err? && Deserialize(raw, iso).error.TypeError?
    ensures !RequiredPresent(raw.fields) && TypesOk(raw.fields) ==>
      Deserialize(raw, iso).Err? && Deserialize(raw, iso).error.KeyError?
    ensures RequiredPresent(raw.fields) && TypesOk(raw.fields)
            && Get(raw.fields, "updated_at").JStr? && iso.parse(Get(raw.fields, "updated_at").s).None? ==>
      Deserialize(raw, iso) == Err(ValueError("updated_at is not a valid ISO datetime."))
  {
  }

  /** What the reader returns, field by field: paths parsed from their text,
      an absent or null optional field as None, an absent map as `{}`. */
  lemma DeserializedFields(raw: Json, iso: IsoCodec)
    requires Deserialize(raw, iso).Ok?
    ensures var s := Deserialize(raw, iso).value; var f := raw.fields;
      && s.runDir == Parse(f["run_dir"].s)
      && s.originalImageRel == Parse(f["original_image_rel"].s)
      && s.imageRel == (if Get(f, "image_rel").JStr? then Some(Parse(Get(f, "image_rel").s)) else None)
      && s.masksRel == (if Get(f, "masks_rel").JStr? then Some(Parse(Get(f, "masks_rel").s)) else None)
      && s.lastStep == (if Get(f, "last_step").JStr? then Some(Get(f, "last_step").s) else None)
      && s.experimentId == (if Get(f, "experiment_id").JStr? then Some(Get(f, "experiment_id").s) else None)
      && s.seriesIndex == f["series_index"].i
      && StrObject(s.stepStatus) == GetOr(f, "step_status", JObj(map[]))
      && StrObject(s.stepSettingsHash) == GetOr(f, "step_settings_hash", JObj(map[]))
      && ("step_status" !in f ==> s.stepStatus == map[])
      && ("step_settings_hash" !in f ==> s.stepSettingsHash == map[])
      && s.lastError == (if Get(f, "last_error").JStr? then Some(Get(f, "last_error").s) else None)
      && s.updatedAt == (if Get(f, "updated_at").JStr? then iso.parse(Get(f, "updated_at").s) else None)
  {
    var s := Deserialize(raw, iso).value;
    var f := raw.fields;
    if "step_status" !in f {
      assert s.stepStatus.Keys == StrObject(s.stepStatus).fields.Keys;
    }
    if "step_settings_hash" !in f {
      assert s.stepSettingsHash.Keys == StrObject(s.stepSettingsHash).fields.Keys;
    }
  }

  /** The reader, given an object each of whose fields decodes to the
      corresponding field of `s`, returns `s`. */
  lemma DecodesAs(f: map<string, Json>, s: ExperimentState, iso: IsoCodec)
    requires ReadPaths(f) == Ok((s.runDir, s.originalImageRel, s.imageRel, s.masksRel))
    requires ReadTexts(f) == Ok((s.lastStep, s.experimentId))
    requires ReadCounters(f) == Ok((s.seriesIndex, s.stepStatus, s.stepSettingsHash))
    requires ReadTail(f, iso) == Ok((s.lastError, s.updatedAt))
    ensures Deserialize(JObj(f), iso) == Ok(s)
  {
  }

  /** Reading a serialized state gives the same state back, provided the ISO
      format parses back to the timestamp it was made from. */
  lemma {:induction false} SerializeRoundTrip(s: ExperimentState, iso: IsoCodec)
    requires IsoRoundTrips(iso)
    ensures Deserialize(Serialize(s, iso), iso) == Ok(s)
  {
    var f := Serialize(s, iso).fields;
    PathsRoundTrip(s, iso);
    TextsRoundTrip(s, iso);
    CountersRoundTrip(s, iso);
    TailRoundTrip(s, iso);
    DecodesAs(f, s, iso);
  }

  lemma PathsRoundTrip(s: ExperimentState, iso: IsoCodec)
    ensures ReadPaths(Serialize(s, iso).fields) == Ok((s.runDir, s.originalImageRel, s.imageRel, s.masksRel))
  {
    SerializedPaths(s, iso);
    ParseStr(s.runDir);
    ParseStr(s.originalImageRel);
    if s.imageRel.Some? { ParseStr(s.imageRel.value); }
    if s.masksRel.Some? { ParseStr(s.masksRel.value); }
  }

  lemma TextsRoundTrip(s: ExperimentState, iso: IsoCodec)
    ensures ReadTexts(Serialize(s, iso).fields) == Ok((s.lastStep, s.experimentId))
  {
    SerializedTexts(s, iso);
  }

  lemma CountersRoundTrip(s: ExperimentState, iso: IsoCodec)
    ensures ReadCounters(Serialize(s, iso).fields) == Ok((s.seriesIndex, s.stepStatus, s.stepSettingsHash))
  {
    var f := Serialize(s, iso).fields;
    SerializedRest(s, iso);
    var counters := ReadCounters(f).value;
    StrObjectInjective(counters.1, s.stepStatus);
    StrObjectInjective(counters.2, s.stepSettingsHash);
  }

  lemma TailRoundTrip(s: ExperimentState, iso: IsoCodec)
    requires IsoRoundTrips(iso)
    ensures ReadTail(Serialize(s, iso).fields, iso) == Ok((s.lastError, s.updatedAt))
  {
    SerializedTexts(s, iso);
    SerializedRest(s, iso);
    if s.updatedAt.Some? { assert iso.parse(iso.format(s.updatedAt.value)) == Some(s.updatedAt.value); }
  }

  /** The serialized object has exactly the state's keys. */
  lemma SerializedKeys(s: ExperimentState, iso: IsoCodec)
    ensures Serialize(s, iso).fields.Keys == StateKeys
  {
  }

  /** The path keys of the serialized object hold the paths as text. */
  lemma SerializedPaths(s: ExperimentState, iso: IsoCodec)
    ensures var f := Serialize(s, iso).fields;
      && "run_dir" in f && f["run_dir"] == JStr(Str(s.runDir))
      && "original_image_rel" in f && f["original_image_rel"] == JStr(Str(s.originalImageRel))
      && Get(f, "image_rel") == OptPathJson(s.imageRel)
      && Get(f, "masks_rel") == OptPathJson(s.masksRel)
  {
  }

  /** The optional text keys of the serialized object hold their texts. */
  lemma SerializedTexts(s: ExperimentState, iso: IsoCodec)
    ensures var f := Serialize(s, iso).fields;
      && Get(f, "last_step") == OptStrJson(s.lastStep)
      && Get(f, "experiment_id") == OptStrJson(s.experimentId)
      && Get(f, "last_error") == OptStrJson(s.lastError)
  {
  }

  /** The remaining keys hold the series index, the two step maps and the
      update time in the ISO format. */
  lemma SerializedRest(s: ExperimentState, iso: IsoCodec)
    ensures var f := Serialize(s, iso).fields;
      && "series_index" in f && f["series_index"] == JInt(s.seriesIndex)
      && GetOr(f, "step_status", JObj(map[])) == StrObject(s.stepStatus)
      && GetOr(f, "step_settings_hash", JObj(map[])) == StrObject(s.stepSettingsHash)
      && Get(f, "updated_at") == (if s.updatedAt.Some? then JStr(iso.format(s.updatedAt.value)) else JNull)
  {
  }

  /** A dict of strings is determined by its JSON object. */
  lemma StrObjectInjective(a: map<string, string>, b: map<string, string>)
    requires StrObject(a) == StrObject(b)
    ensures a == b
  {
    assert a.Keys == StrObject(a).fields.Keys;
    forall k | k in a
      ensures a[k] == b[k]
    {
      assert StrObject(a).fields[k] == JStr(a[k]);
    }
  }

  lemma StrMapOfStrObject(name: string, m: map<string, string>)
    ensures StrMapOf(name, StrObject(m)) == Ok(m)
  {
    var r := StrMapOf(name, StrObject(m));
    assert r.value == m;
  }

  /** A state read from JSON and written again reads back the same. */
  lemma ReadWriteRead(raw: Json, iso: IsoCodec)
    requires IsoRoundTrips(iso) && WellFormed(raw, iso)
    ensures Deserialize(Serialize(Deserialize(raw, iso).value, iso), iso) == Deserialize(raw, iso)
  {
    SerializeRoundTrip(Deserialize(raw, iso).value, iso);
  }
}
