/** The payload handed to the image codec: the settings, the step's identity,
    the user and the output name, merged into one dict. */
module Payloads {
  import opened JsonValues
  import opened StepProfiles

  /** A validated settings object: `overwrite`, which every settings class has,
      and the fields of the concrete class. */
  datatype Settings = Settings(overwrite: bool, fields: map<string, Json>)

  /** `model_dump()`. */
  function ModelDump(s: Settings): (r: map<string, Json>)
    ensures r.Keys == s.fields.Keys + {"overwrite"}
    ensures r["overwrite"] == JBool(s.overwrite)
    ensures forall k :: k in s.fields && k != "overwrite" ==> r[k] == s.fields[k]
  {
    s.fields["overwrite" := JBool(s.overwrite)]
  }

  /** `ConvertSettings()` with every field at its default. */
  const DefaultConvertSettings := Settings(false, map[
    "channel_labels" := JNull,
    "export_channels" := JStr("all"),
    "user_defined_metadata" := JNull,
    "z_projection" := JStr("max"),
    "compression" := JStr("zlib")
  ])

  /** The keys the merge writes after the settings. */
  const MergedKeys: set<string> := {"distribution", "step_name", "user_name", "output_name"}

  /** The dict `build_payload` returns. */
  function Payload(settings: Settings, profile: StepProfile, userName: string, outputName: string): map<string, Json>
  {
    var provenanceInfo := Dump(profile);
    (ModelDump(settings) + map k | k in provenanceInfo :: JStr(provenanceInfo[k]))
      ["user_name" := JStr(userName)]["output_name" := JStr(outputName)]
  }

  /** `build_payload`: settings first, then the profile over them, then the
      user and output names over both. */
  method BuildPayload(settings: Settings, profile: StepProfile, userName: string, outputName: string)
    returns (payload: map<string, Json>)
    ensures payload == Payload(settings, profile, userName, outputName)
    ensures payload.Keys == ModelDump(settings).Keys + MergedKeys
    ensures forall k :: k in ModelDump(settings) && k !in MergedKeys ==> payload[k] == ModelDump(settings)[k]
    ensures payload["distribution"] == JStr(profile.distribution) && payload["step_name"] == JStr(profile.stepName)
    ensures payload["user_name"] == JStr(userName) && payload["output_name"] == JStr(outputName)
    ensures payload["overwrite"] == JBool(settings.overwrite)
  {
    var provenanceInfo := Dump(profile);
    payload := ModelDump(settings);
    payload := payload + map k | k in provenanceInfo :: JStr(provenanceInfo[k]);
    payload := payload["user_name" := JStr(userName)];
    payload := payload["output_name" := JStr(outputName)];
  }

  /** With default settings the payload does not ask for overwriting. */
  method DefaultPayloadKeepsFiles(profile: StepProfile, userName: string, outputName: string)
    returns (payload: map<string, Json>)
    ensures "overwrite" in payload && payload["overwrite"] == JBool(false)
    ensures "export_channels" in payload && payload["export_channels"] == JStr("all")
  {
    payload := BuildPayload(DefaultConvertSettings, profile, userName, outputName);
    assert "export_channels" in ModelDump(DefaultConvertSettings) && "export_channels" !in MergedKeys;
  }
}
