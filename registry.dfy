/** The static table of pipeline steps. */
module Registry {
  import opened StepProfiles
  import State

  const STEP_CONVERT := "convert"
  const DIST_IO := "fits-io"

  /** The settings class a step validates its parameters with. */
  datatype SettingsModel = ConvertSettingsModel

  /** The function that runs a step. */
  datatype Runner = RunConvertRunner

  datatype StepSpec = StepSpec(name: string, settingsModel: SettingsModel, outputName: string, runner: Runner, distribution: string)
  {
    /** `step_profile`: the identity the step records. */
    function Profile(): (r: StepProfile)
      ensures r.distribution == distribution && r.stepName == name
      ensures Dump(r) == map["distribution" := distribution, "step_name" := name]
    {
      StepProfile(distribution, name)
    }
  }

  const REGISTRY: map<string, StepSpec> := map[
    STEP_CONVERT := StepSpec(STEP_CONVERT, ConvertSettingsModel, State.FITS_ARRAY_NAME, RunConvertRunner, DIST_IO)
  ]

  /** Every entry is filed under its own name, and the one entry is the
      convert step writing `fits_array.tif` on behalf of `fits-io`. */
  lemma RegistryShape()
    ensures forall k :: k in REGISTRY ==> REGISTRY[k].name == k
    ensures REGISTRY.Keys == {"convert"}
    ensures REGISTRY["convert"].outputName == "fits_array.tif" && REGISTRY["convert"].distribution == "fits-io"
    ensures REGISTRY["convert"].Profile() == StepProfile("fits-io", "convert")
  {
  }
}
