/** The identity a step records in its payload: the distribution that
    implements it and the step's name. */
module StepProfiles {

  datatype StepProfile = StepProfile(distribution: string, stepName: string)

  /** `dump`: the profile as a two-entry dict. */
  function Dump(p: StepProfile): (r: map<string, string>)
    ensures r.Keys == {"distribution", "step_name"}
    ensures r["distribution"] == p.distribution && r["step_name"] == p.stepName
  {
    map["distribution" := p.distribution, "step_name" := p.stepName]
  }

  /** A dump determines its profile. */
  lemma DumpInjective(p: StepProfile, q: StepProfile)
    requires Dump(p) == Dump(q)
    ensures p == q
  {
    assert p.distribution == Dump(p)["distribution"] == Dump(q)["distribution"] == q.distribution;
  }
}
