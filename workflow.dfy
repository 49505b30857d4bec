/** The workflow loop: the steps of `WORKFLOW_ORDER` are taken in turn, and
    each step that is registered and enabled in the user's configuration
    validates its parameters and runs on the output of the previous one. */
module Workflow {
  import opened Base
  import opened Registry
  import opened StepProfiles

  const WORKFLOW_ORDER: seq<string> := ["convert"]

  /** One entry of the user's configuration, the pair `(enabled, params)`. */
  datatype StepConfig<P> = StepConfig(enabled: bool, params: P)

  /** The calls the loop makes into a step, in the order it makes them. */
  datatype Call = Validated(step: string) | Ran(step: string)

  /** Whether the loop calls into the step: it is registered, and the
      configuration enables it (a missing entry reads as `(False, {})`). */
  predicate Selected<P>(name: string, registry: map<string, StepSpec>, userCfg: map<string, StepConfig<P>>)
  {
    name in registry && name in userCfg && userCfg[name].enabled
  }

  /** `run_workflow` over the steps `order`: the state after the last step
      that ran and the calls made, or the first exception raised by a
      validation or a runner together with the calls made up to it.
      `validate` is `settings_model.model_validate`; `run` applies a runner to
      the settings, the state, the step's profile and its output name. */
  function Workflow<P, X, S>(order: seq<string>, registry: map<string, StepSpec>, userCfg: map<string, StepConfig<P>>,
                             validate: (SettingsModel, P) -> Result<X, Error>,
                             run: (Runner, X, S, StepProfile, string) -> Result<S, Error>, state: S)
    : (Result<S, Error>, seq<Call>)
    decreases |order|
  {
    if |order| == 0 then (Ok(state), [])
    else
      var name := order[0];
      if !Selected(name, registry, userCfg) then Workflow(order[1..], registry, userCfg, validate, run, state)
      else
        var spec := registry[name];
        var settings := validate(spec.settingsModel, userCfg[name].params);
        if settings.Err? then (Err(settings.error), [Validated(name)])
        else
          var next := run(spec.runner, settings.value, state, spec.Profile(), spec.outputName);
          if next.Err? then (Err(next.error), [Validated(name), Ran(name)])
          else
            var (r, calls) := Workflow(order[1..], registry, userCfg, validate, run, next.value);
            (r, [Validated(name), Ran(name)] + calls)
  }

  /** `run_workflow`, with the calls it makes recorded in `calls`;
      `noParams` is the `{}` of the default entry. */
  method RunWorkflow<P, X, S>(order: seq<string>, registry: map<string, StepSpec>, userCfg: map<string, StepConfig<P>>,
                              noParams: P, validate: (SettingsModel, P) -> Result<X, Error>,
                              run: (Runner, X, S, StepProfile, string) -> Result<S, Error>, state: S)
    returns (r: Result<S, Error>, calls: seq<Call>)
    ensures (r, calls) == Workflow(order, registry, userCfg, validate, run, state)
  {
    var current := state;
    calls := [];
    assert order[0..] == order;
    assert [] + Workflow(order, registry, userCfg, validate, run, state).1 == Workflow(order, registry, userCfg, validate, run, state).1;
    for i := 0 to |order|
      invariant Workflow(order, registry, userCfg, validate, run, state)
        == After(calls, Workflow(order[i..], registry, userCfg, validate, run, current))
    {
      var name := order[i];
      assert order[i..][0] == name && order[i..][1..] == order[i + 1..];
      var spec := if name in registry then Some(registry[name]) else None;
      if spec.None? {
        continue;
      }
      var cfg := if name in userCfg then userCfg[name] else StepConfig(false, noParams);
      if !cfg.enabled {
        continue;
      }
      var settings := validate(spec.value.settingsModel, cfg.params);
      ghost var start := calls;
      calls := calls + [Validated(name)];
      if settings.Err? {
        return Err(settings.error), calls;
      }
      var next := run(spec.value.runner, settings.value, current, spec.value.Profile(), spec.value.outputName);
      calls := calls + [Ran(name)];
      assert calls == start + [Validated(name), Ran(name)];
      if next.Err? {
        return Err(next.error), calls;
      }
      AfterAfter(start, [Validated(name), Ran(name)], Workflow(order[i + 1..], registry, userCfg, validate, run, next.value));
      current := next.value;
    }
    assert order[|order|..] == [];
    assert calls + [] == calls;
    return Ok(current), calls;
  }

  /** A run's outcome with `calls` made before it. */
  function After<S>(calls: seq<Call>, w: (Result<S, Error>, seq<Call>)): (Result<S, Error>, seq<Call>)
  {
    (w.0, calls + w.1)
  }

  lemma AfterAfter<S>(a: seq<Call>, b: seq<Call>, w: (Result<S, Error>, seq<Call>))
    ensures After(a, After(b, w)) == After(a + b, w)
  {
    assert a + (b + w.1) == (a + b) + w.1;
  }

  /** The steps the loop calls into, in order. */
  function SelectedSteps<P>(order: seq<string>, registry: map<string, StepSpec>, userCfg: map<string, StepConfig<P>>): (r: seq<string>)
    ensures forall n :: n in r <==> n in order && Selected(n, registry, userCfg)
    decreases |order|
  {
    if |order| == 0 then []
    else if Selected(order[0], registry, userCfg) then [order[0]] + SelectedSteps(order[1..], registry, userCfg)
    else SelectedSteps(order[1..], registry, userCfg)
  }

  /** A validation followed by a run, for each of `steps`. */
  function Pairs(steps: seq<string>): (r: seq<Call>)
    ensures |r| == 2 * |steps|
    ensures forall i :: 0 <= i < |steps| ==> r[2 * i] == Validated(steps[i]) && r[2 * i + 1] == Ran(steps[i])
  {
    if |steps| == 0 then [] else [Validated(steps[0]), Ran(steps[0])] + Pairs(steps[1..])
  }

  /** The calls of a run that selected `sel`: all of them validated and
      run in order when it succeeded; otherwise those before the `k`-th,
      then the failed validation or run of the `k`-th. */
  predicate CallsMatch<S>(w: (Result<S, Error>, seq<Call>), sel: seq<string>)
  {
    && (w.0.Ok? ==> w.1 == Pairs(sel))
    && (w.0.Err? ==>
          exists k :: 0 <= k < |sel| && (w.1 == Pairs(sel[..k]) + [Validated(sel[k])] || w.1 == Pairs(sel[..k]) + [Validated(sel[k]), Ran(sel[k])]))
  }

  /** The loop validates and then runs every selected step, in the order of
      `order`, and calls nothing else; when a validation or a runner raises,
      the loop stops right there. */
  lemma {:induction false} CallsFollowOrder<P, X, S>(order: seq<string>, registry: map<string, StepSpec>, userCfg: map<string, StepConfig<P>>,
                                                    validate: (SettingsModel, P) -> Result<X, Error>,
                                                    run: (Runner, X, S, StepProfile, string) -> Result<S, Error>, state: S)
    ensures CallsMatch(Workflow(order, registry, userCfg, validate, run, state), SelectedSteps(order, registry, userCfg))
    decreases |order|
  {
    if |order| > 0 {
      var name := order[0];
      var rest := SelectedSteps(order[1..], registry, userCfg);
      if !Selected(name, registry, userCfg) {
        CallsFollowOrder(order[1..], registry, userCfg, validate, run, state);
      } else {
        var spec := registry[name];
        var settings := validate(spec.settingsModel, userCfg[name].params);
        assert Pairs([name][..0]) == [];
        if settings.Ok? {
          var next := run(spec.runner, settings.value, state, spec.Profile(), spec.outputName);
          if next.Ok? {
            CallsFollowOrder(order[1..], registry, userCfg, validate, run, next.value);
            CallsMatchPrepend(Workflow(order[1..], registry, userCfg, validate, run, next.value), rest, name);
          } else {
            assert ([name] + rest)[..0] == [];
          }
        } else {
          assert ([name] + rest)[..0] == [];
        }
      }
    }
  }

  /** One more step validated and run ahead of a matching run still matches. */
  lemma CallsMatchPrepend<S>(w: (Result<S, Error>, seq<Call>), rest: seq<string>, name: string)
    requires CallsMatch(w, rest)
    ensures CallsMatch((w.0, [Validated(name), Ran(name)] + w.1), [name] + rest)
  {
    var sel := [name] + rest;
    assert sel[1..] == rest;
    if w.0.Ok? {
      assert Pairs(sel) == [Validated(name), Ran(name)] + Pairs(rest);
    } else {
      var k :| 0 <= k < |rest| &&
        (w.1 == Pairs(rest[..k]) + [Validated(rest[k])] || w.1 == Pairs(rest[..k]) + [Validated(rest[k]), Ran(rest[k])]);
      assert sel[k + 1] == rest[k];
      if w.1 == Pairs(rest[..k]) + [Validated(rest[k])] {
        PrefixPrepend(rest, name, k, [Validated(rest[k])]);
      } else {
        PrefixPrepend(rest, name, k, [Validated(rest[k]), Ran(rest[k])]);
      }
    }
  }

  /** The calls for the first `k` of `rest`, with one more step in front. */
  lemma PrefixPrepend(rest: seq<string>, name: string, k: nat, tail: seq<Call>)
    requires k <= |rest|
    ensures [Validated(name), Ran(name)] + (Pairs(rest[..k]) + tail) == Pairs(([name] + rest)[..k + 1]) + tail
  {
    PairsCons(([name] + rest)[..k + 1], name, rest[..k]);
  }

  lemma PairsCons(s: seq<string>, name: string, rest: seq<string>)
    requires s == [name] + rest
    ensures Pairs(s) == [Validated(name), Ran(name)] + Pairs(rest)
  {
    assert s[1..] == rest;
  }

  /** Running over `a + b` runs over `a`, then over `b` from the state `a`
      ended with: each runner's output is the next runner's input. */
  lemma {:induction false} WorkflowSplits<P, X, S>(a: seq<string>, b: seq<string>, registry: map<string, StepSpec>,
                                                  userCfg: map<string, StepConfig<P>>,
                                                  validate: (SettingsModel, P) -> Result<X, Error>,
                                                  run: (Runner, X, S, StepProfile, string) -> Result<S, Error>, state: S)
    ensures var (ra, ca) := Workflow(a, registry, userCfg, validate, run, state);
      Workflow(a + b, registry, userCfg, validate, run, state) ==
        if ra.Err? then (ra, ca)
        else
          var (rb, cb) := Workflow(b, registry, userCfg, validate, run, ra.value);
          (rb, ca + cb)
    decreases |a|
  {
    if |a| == 0 {
      assert a + b == b;
      assert [] + Workflow(b, registry, userCfg, validate, run, state).1 == Workflow(b, registry, userCfg, validate, run, state).1;
    } else {
      assert (a + b)[0] == a[0] && (a + b)[1..] == a[1..] + b;
      var name := a[0];
      if !Selected(name, registry, userCfg) {
        WorkflowSplits(a[1..], b, registry, userCfg, validate, run, state);
      } else {
        var spec := registry[name];
        var settings := validate(spec.settingsModel, userCfg[name].params);
        if settings.Ok? {
          var next := run(spec.runner, settings.value, state, spec.Profile(), spec.outputName);
          if next.Ok? {
            WorkflowSplits(a[1..], b, registry, userCfg, validate, run, next.value);
            var (ra, ca) := Workflow(a[1..], registry, userCfg, validate, run, next.value);
            if ra.Ok? {
              var cb := Workflow(b, registry, userCfg, validate, run, ra.value).1;
              assert [Validated(name), Ran(name)] + (ca + cb) == ([Validated(name), Ran(name)] + ca) + cb;
            }
          }
        }
      }
    }
  }

  /** When no step is selected the loop calls nothing and returns its input. */
  lemma {:induction false} NothingSelected<P, X, S>(order: seq<string>, registry: map<string, StepSpec>, userCfg: map<string, StepConfig<P>>,
                                                   validate: (SettingsModel, P) -> Result<X, Error>,
                                                   run: (Runner, X, S, StepProfile, string) -> Result<S, Error>, state: S)
    requires forall i :: 0 <= i < |order| ==> !Selected(order[i], registry, userCfg)
    ensures Workflow(order, registry, userCfg, validate, run, state) == (Ok(state), [])
    decreases |order|
  {
    if |order| > 0 {
      NothingSelected(order[1..], registry, userCfg, validate, run, state);
    }
  }

  predicate Distinct(s: seq<string>)
  {
    forall i, j :: 0 <= i < j < |s| ==> s[i] != s[j]
  }

  /** Steps listed once are run at most once. */
  lemma {:induction false} SelectedOnce<P>(order: seq<string>, registry: map<string, StepSpec>, userCfg: map<string, StepConfig<P>>)
    requires Distinct(order)
    ensures Distinct(SelectedSteps(order, registry, userCfg))
    decreases |order|
  {
    if |order| > 0 {
      SelectedOnce(order[1..], registry, userCfg);
      assert order[0] !in order[1..];
      var sel := SelectedSteps(order, registry, userCfg);
      var rest := SelectedSteps(order[1..], registry, userCfg);
      if Selected(order[0], registry, userCfg) {
        assert sel == [order[0]] + rest;
        assert order[0] !in rest;
        forall i, j | 0 <= i < j < |sel| ensures sel[i] != sel[j] {
          if i == 0 {
            assert sel[j] == rest[j - 1] && rest[j - 1] in rest;
          } else {
            assert sel[i] == rest[i - 1] && sel[j] == rest[j - 1];
          }
        }
      } else {
        assert sel == rest;
      }
    }
  }

  /** The shipped loop: with "convert" missing from the configuration or
      disabled, the states come back untouched; otherwise the convert
      settings are validated and the convert runner runs once, with the
      `fits-io` profile and `fits_array.tif` as output name. */
  lemma ShippedWorkflow<P, X, S>(userCfg: map<string, StepConfig<P>>,
                                 validate: (SettingsModel, P) -> Result<X, Error>,
                                 run: (Runner, X, S, StepProfile, string) -> Result<S, Error>, state: S)
    ensures !("convert" in userCfg && userCfg["convert"].enabled) ==>
      Workflow(WORKFLOW_ORDER, REGISTRY, userCfg, validate, run, state) == (Ok(state), [])
    ensures "convert" in userCfg && userCfg["convert"].enabled ==>
      Workflow(WORKFLOW_ORDER, REGISTRY, userCfg, validate, run, state).0 ==
        (var settings := validate(ConvertSettingsModel, userCfg["convert"].params);
         if settings.Err? then Err(settings.error)
         else run(RunConvertRunner, settings.value, state, StepProfile("fits-io", "convert"), "fits_array.tif"))
  {
    RegistryShape();
    assert WORKFLOW_ORDER[1..] == [];
  }
}
