/** Processing marks kept in an image's custom metadata: which step ran, from
    which distribution and version, and when. */
module Metadata {
  import opened Base
  import opened JsonValues

  /** `get_dist_version`: the installed version, or "unknown" when the
      distribution is not installed. `installed` stands for the package index. */
  function GetDistVersion(installed: map<string, string>, distName: string): (v: string)
    ensures distName !in installed ==> v == "unknown"
    ensures distName in installed ==> v == installed[distName]
  {
    if distName in installed then installed[distName] else "unknown"
  }

  /** The record `add_step` files under the step's name. */
  function StepRecord(distName: string, installed: map<string, string>, nowIso: string): Json
  {
    JObj(map["dist" := JStr(distName), "version" := JStr(GetDistVersion(installed, distName)), "timestamp" := JStr(nowIso)])
  }

  /** `add_step`: a copy of the metadata (None read as empty) with the step's
      record set. `nowIso` is the clock reading in ISO form. */
  function AddStep(meta: Option<map<string, Json>>, distName: string, step: string,
                   installed: map<string, string>, nowIso: string): (r: map<string, Json>)
    ensures r.Keys == (if meta.Some? then meta.value.Keys else {}) + {step}
    ensures meta.Some? ==> forall k :: k in meta.value && k != step ==> r[k] == meta.value[k]
    ensures r[step].JObj? && r[step].fields.Keys == {"dist", "version", "timestamp"}
    ensures r[step].fields["dist"] == JStr(distName)
  {
    var out := if meta.Some? then meta.value else map[];
    out[step := StepRecord(distName, installed, nowIso)]
  }

  /** `is_processed`: anything but a mapping is unprocessed. */
  function IsProcessed(meta: Json, step: string): (b: bool)
    ensures b <==> meta.JObj? && step in meta.fields
  {
    meta.JObj? && step in meta.fields
  }

  /** `get_timestamp`: the step's timestamp, when the step is recorded, its
      record is a mapping and the timestamp in it is a string. */
  function GetTimestamp(meta: Json, step: string): (r: Option<string>)
    ensures r.Some? <==>
      && IsProcessed(meta, step)
      && meta.fields[step].JObj?
      && "timestamp" in meta.fields[step].fields
      && meta.fields[step].fields["timestamp"].JStr?
    ensures r.Some? ==> r.value == meta.fields[step].fields["timestamp"].s
  {
    if !IsProcessed(meta, step) then None
    else
      var record := Get(meta.fields, step);
      if !record.JObj? then None
      else
        var timestamp := Get(record.fields, "timestamp");
        if !timestamp.JStr? then None else Some(timestamp.s)
  }

  /** A step just added is processed, and its timestamp is the clock reading;
      every other step keeps its answers. */
  lemma AddStepThenQuery(meta: Option<map<string, Json>>, distName: string, step: string,
                         installed: map<string, string>, nowIso: string, other: string)
    requires other != step
    ensures var r := JObj(AddStep(meta, distName, step, installed, nowIso));
      && IsProcessed(r, step)
      && GetTimestamp(r, step) == Some(nowIso)
      && (meta.Some? ==>
            && IsProcessed(r, other) == IsProcessed(JObj(meta.value), other)
            && GetTimestamp(r, other) == GetTimestamp(JObj(meta.value), other))
      && (meta.None? ==> !IsProcessed(r, other))
  {
    var r := AddStep(meta, distName, step, installed, nowIso);
    assert r[step] == StepRecord(distName, installed, nowIso);
    assert r[step].fields["timestamp"] == JStr(nowIso);
  }
}
