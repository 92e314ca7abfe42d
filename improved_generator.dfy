/** CloudBuildGenerator of generate_cloudbuild_improved.py: a banner step,
    four steps per workspace (setup, plan, apply, destroy) and a fan-in
    summary step, wrapped in a build configuration; and `main`, which reads
    WORKSPACES and TF_VERSION from the environment. */
module ImprovedGenerator {
  import opened Common
  import opened Validation
  import opened Scripts
  import opened Pipeline

  const DefaultTfVersion: string := "1.11"
  const DefaultTimeout: string := "3600s"
  const UtilityImage: string := "ubuntu:22.04"

  /** The generator's state, fixed once `__init__` has validated the
      version. */
  datatype Generator = Generator(tfVersion: string, timeout: string)

  /** `CloudBuildGenerator(tf_version, timeout)`: raises on a malformed
      version. */
  function NewGenerator(tfVersion: string, timeout: string): (r: Result<Generator, ConfigError>)
    ensures r.Success? <==> ValidateTfVersion(tfVersion).Success?
    ensures r.Success? ==> r.value.tfVersion == tfVersion && r.value.timeout == timeout
    ensures r.Failure? ==> r.error == InvalidTfVersion(tfVersion)
  {
    match ValidateTfVersion(tfVersion)
    case Success(v) => Success(Generator(v, timeout))
    case Failure(e) => Failure(e)
  }

  /** The constant `options` block. */
  datatype BuildOptions = BuildOptions(
    substitutionOption: string, logging: string, logStreamingOption: string, machineType: string)

  const Options: BuildOptions := BuildOptions("ALLOW_LOOSE", "CLOUD_LOGGING_ONLY", "STREAM_ON", "E2_HIGHCPU_8")

  /** The `substitutions` block. */
  datatype Substitutions = Substitutions(prNumber: string, workspace: string, terraformVersion: string)

  /** The generated configuration; the `availableSecrets` and `artifacts`
      blocks are constants and are not modelled. */
  datatype Config = Config(
    steps: seq<Step>, timeout: string, options: BuildOptions, substitutions: Substitutions)

  // ---------------------------------------------------------------------------
  // The steps

  function SetupId(ws: string): string { "setup-" + ws }
  function PlanId(ws: string): string { "plan-" + ws }
  function ApplyId(ws: string): string { "apply-" + ws }
  function DestroyId(ws: string): string { "destroy-" + ws }

  function EnvironmentStep(): Step {
    Step("environment-info", UtilityImage, "bash", None, Some("60s"), EnvironmentInfo)
  }

  function SetupStep(g: Generator, ws: string): Step {
    Step(SetupId(ws), TerraformImage(g.tfVersion), "bash", None, Some("600s"), WorkspaceSetup(ws))
  }

  function PlanStep(g: Generator, ws: string): Step {
    Step(PlanId(ws), TerraformImage(g.tfVersion), "bash", Some([SetupId(ws)]), Some("1200s"),
         WorkspacePlan(ws, PlanPath(ws)))
  }

  function ApplyStep(g: Generator, ws: string): Step {
    Step(ApplyId(ws), TerraformImage(g.tfVersion), "bash", Some([PlanId(ws)]), Some("2400s"),
         WorkspaceApply(ws, PlanPath(ws)))
  }

  function DestroyStep(g: Generator, ws: string): Step {
    Step(DestroyId(ws), TerraformImage(g.tfVersion), "bash", None, Some("1800s"), WorkspaceDestroy(ws))
  }

  /** The four steps of one (already sanitised) workspace, in order. */
  function WorkspaceSteps(g: Generator, ws: string): seq<Step> {
    [SetupStep(g, ws), PlanStep(g, ws), ApplyStep(g, ws), DestroyStep(g, ws)]
  }

  function ApplyIds(names: seq<string>): (ids: seq<string>)
    ensures |ids| == |names|
    ensures forall i :: 0 <= i < |names| ==> ids[i] == ApplyId(names[i])
  {
    seq(|names|, i requires 0 <= i < |names| => ApplyId(names[i]))
  }

  /** The summary lists every apply step in `waitFor`; with no workspaces the key is
      still present, with an empty list. */
  function SummaryStep(names: seq<string>): Step {
    Step("build-summary", UtilityImage, "bash", Some(ApplyIds(names)), Some("60s"), BuildSummary)
  }

  function AllWorkspaceSteps(g: Generator, names: seq<string>): (steps: seq<Step>)
    ensures |steps| == 4 * |names|
  {
    if names == [] then []
    else AllWorkspaceSteps(g, names[..|names| - 1]) + WorkspaceSteps(g, names[|names| - 1])
  }

  /** The step list generate_steps returns for sanitised names. */
  function PipelineSteps(g: Generator, names: seq<string>): (steps: seq<Step>)
    ensures |steps| == 4 * |names| + 2
  {
    [EnvironmentStep()] + AllWorkspaceSteps(g, names) + [SummaryStep(names)]
  }

  /** generate_cloudbuild_config as a value: validate every name, then build
      the steps and the surrounding blocks. */
  function Configure(g: Generator, workspaces: seq<string>): (r: Result<Config, ConfigError>)
    ensures r.Success? <==> ValidateAll(workspaces).Success?
    ensures r.Failure? ==> r.error == ValidateAll(workspaces).error
  {
    match ValidateAll(workspaces)
    case Failure(e) => Failure(e)
    case Success(names) =>
      Success(Config(PipelineSteps(g, names), g.timeout, Options, Substitutions("", "default", g.tfVersion)))
  }

  // ---------------------------------------------------------------------------
  // Positions in the step list

  lemma AllWorkspaceStepsSnoc(g: Generator, names: seq<string>, ws: string)
    ensures AllWorkspaceSteps(g, names + [ws]) == AllWorkspaceSteps(g, names) + WorkspaceSteps(g, ws)
  {
    assert (names + [ws])[..|names|] == names;
  }

  lemma {:induction false} AllWorkspaceStepsAt(g: Generator, names: seq<string>, i: nat, k: nat)
    requires i < |names| && k < 4
    ensures AllWorkspaceSteps(g, names)[4 * i + k] == WorkspaceSteps(g, names[i])[k]
    decreases |names|
  {
    var n := |names| - 1;
    var front := names[..n];
    if i < n {
      AllWorkspaceStepsAt(g, front, i, k);
    }
  }

  /** The list starts with the banner and ends with the summary, and holds
      four steps per name. */
  lemma PipelineEnds(g: Generator, names: seq<string>)
    ensures var steps := PipelineSteps(g, names);
      |steps| == 4 * |names| + 2 &&
      steps[0] == EnvironmentStep() &&
      steps[|steps| - 1] == SummaryStep(names)
  {
  }

  /** Position 1 + 4i + k holds the k-th step (setup, plan, apply, destroy)
      of the i-th name. */
  lemma PipelineStepAt(g: Generator, names: seq<string>, i: nat, k: nat)
    requires i < |names| && k < 4
    ensures 1 + 4 * i + k < |PipelineSteps(g, names)|
    ensures PipelineSteps(g, names)[1 + 4 * i + k] == WorkspaceSteps(g, names[i])[k]
  {
    AllWorkspaceStepsAt(g, names, i, k);
    var all := AllWorkspaceSteps(g, names);
    assert ([EnvironmentStep()] + all + [SummaryStep(names)])[1 + 4 * i + k] == all[4 * i + k];
  }

  // ---------------------------------------------------------------------------
  // generate_steps, generate_cloudbuild_config, main

  /** Appending one workspace's four steps extends the list by that name. */
  lemma StepsGrow(g: Generator, names: seq<string>, ws: string, steps: seq<Step>)
    requires steps == [EnvironmentStep()] + AllWorkspaceSteps(g, names)
    ensures steps + [SetupStep(g, ws), PlanStep(g, ws), ApplyStep(g, ws), DestroyStep(g, ws)] ==
      [EnvironmentStep()] + AllWorkspaceSteps(g, names + [ws])
  {
    AllWorkspaceStepsSnoc(g, names, ws);
  }

  /** generate_steps: validates each name as it goes and appends its four
      steps; the first invalid name aborts with its error. */
  method GenerateSteps(g: Generator, workspaces: seq<string>) returns (r: Result<seq<Step>, ConfigError>)
    ensures r.Success? <==> ValidateAll(workspaces).Success?
    ensures r.Success? ==> r.value == PipelineSteps(g, ValidateAll(workspaces).value)
    ensures r.Failure? ==> r.error == ValidateAll(workspaces).error
  {
    var steps := [EnvironmentStep()];
    ghost var names: seq<string> := [];
    var i := 0;
    while i < |workspaces|
      invariant 0 <= i <= |workspaces|
      invariant ValidateAll(workspaces[..i]) == Success(names)
      invariant steps == [EnvironmentStep()] + AllWorkspaceSteps(g, names)
    {
      var safe := ValidateWorkspaceName(workspaces[i]);
      if safe.Failure? {
        ValidateAllSnocFailure(workspaces, i);
        ValidateAllPrefixFailure(workspaces, i + 1);
        return Failure(safe.error);
      }
      var ws := safe.value;
      ValidateAllSnoc(workspaces, i);
      StepsGrow(g, names, ws, steps);
      steps := steps + [SetupStep(g, ws), PlanStep(g, ws), ApplyStep(g, ws), DestroyStep(g, ws)];
      names := names + [ws];
      i := i + 1;
    }
    assert workspaces[..i] == workspaces;
    steps := steps + [SummaryStep(ValidateAll(workspaces).value)];
    return Success(steps);
  }

  /** generate_cloudbuild_config: validates the names, hands the sanitised
      names to generate_steps (which validates them again) and wraps the
      steps. */
  method GenerateCloudbuildConfig(g: Generator, workspaces: seq<string>) returns (r: Result<Config, ConfigError>)
    ensures r == Configure(g, workspaces)
  {
    var validated := ValidateAll(workspaces);
    if validated.Failure? {
      return Failure(validated.error);
    }
    ValidateAllIdempotent(workspaces);
    var steps := GenerateSteps(g, validated.value);
    r := Success(Config(steps.value, g.timeout, Options, Substitutions("", "default", g.tfVersion)));
  }

  /** main: WORKSPACES must be set, non-empty and name at least one
      non-blank field; TF_VERSION defaults to 1.11 when unset; then the
      generator is built and the configuration generated. */
  method GenerateFromEnvironment(env: map<string, string>) returns (r: Result<Config, ConfigError>)
    ensures var raw := EnvironGet(env, "WORKSPACES", "");
      var version := EnvironGet(env, "TF_VERSION", DefaultTfVersion);
      match ParseWorkspaceList(raw)
      case Failure(e) => r == Failure(e)
      case Success(ws) =>
        match NewGenerator(version, DefaultTimeout)
        case Failure(e) => r == Failure(e)
        case Success(g) => r == Configure(g, ws)
    ensures r.Success? ==> |r.value.steps| >= 6
  {
    var raw := EnvironGet(env, "WORKSPACES", "");
    var version := EnvironGet(env, "TF_VERSION", DefaultTfVersion);
    var ws := ParseWorkspaceList(raw);
    if ws.Failure? {
      return Failure(ws.error);
    }
    var g := NewGenerator(version, DefaultTimeout);
    if g.Failure? {
      return Failure(g.error);
    }
    r := GenerateCloudbuildConfig(g.value, ws.value);
    if r.Success? {
      PipelineEnds(g.value, ValidateAll(ws.value).value);
    }
  }

  // ---------------------------------------------------------------------------
  // Properties of the step list

  /** For N names there are 4N+2 steps: the banner first, the summary last,
      and in between each workspace's setup, plan, apply and destroy steps,
      in input order. */
  lemma PipelineShape(g: Generator, names: seq<string>)
    ensures var steps := PipelineSteps(g, names);
      |steps| == 4 * |names| + 2 &&
      steps[0] == EnvironmentStep() &&
      steps[|steps| - 1] == SummaryStep(names) &&
      forall i, k :: 0 <= i < |names| && 0 <= k < 4 ==> steps[1 + 4 * i + k] == WorkspaceSteps(g, names[i])[k]
  {
    PipelineEnds(g, names);
    forall i, k | 0 <= i < |names| && 0 <= k < 4
      ensures PipelineSteps(g, names)[1 + 4 * i + k] == WorkspaceSteps(g, names[i])[k]
    {
      PipelineStepAt(g, names, i, k);
    }
  }

  /** The declared edges of one workspace: setup and destroy declare no
      `waitFor`; plan lists its own setup only and apply its own plan only; plan and apply of the workspace use its plan file. */
  lemma WorkspaceEdges(g: Generator, names: seq<string>, i: nat)
    requires i < |names|
    ensures var steps := PipelineSteps(g, names);
      var setup, plan, apply, destroy := steps[1 + 4 * i], steps[2 + 4 * i], steps[3 + 4 * i], steps[4 + 4 * i];
      setup.waitFor == None && destroy.waitFor == None &&
      plan.waitFor == Some([setup.id]) &&
      apply.waitFor == Some([plan.id]) &&
      setup.id == SetupId(names[i]) && plan.id == PlanId(names[i]) &&
      apply.id == ApplyId(names[i]) && destroy.id == DestroyId(names[i]) &&
      plan.script == WorkspacePlan(names[i], PlanPath(names[i])) &&
      apply.script == WorkspaceApply(names[i], PlanPath(names[i]))
  {
    PipelineStepAt(g, names, i, 0);
    PipelineStepAt(g, names, i, 1);
    PipelineStepAt(g, names, i, 2);
    PipelineStepAt(g, names, i, 3);
  }

  /** The banner declares no `waitFor`, and the summary lists exactly the
      apply steps, one per name, in input order. */
  lemma SummaryFanIn(g: Generator, names: seq<string>)
    ensures var steps := PipelineSteps(g, names);
      steps[0].waitFor == None &&
      Predecessors(steps[|steps| - 1]) == seq(|names|, j requires 0 <= j < |names| => steps[3 + 4 * j].id)
  {
    PipelineEnds(g, names);
    var steps := PipelineSteps(g, names);
    var want := seq(|names|, j requires 0 <= j < |names| => steps[3 + 4 * j].id);
    forall j | 0 <= j < |names| ensures want[j] == ApplyIds(names)[j] {
      WorkspaceEdges(g, names, j);
    }
    assert want == ApplyIds(names);
  }

  lemma BackEdgeAt(g: Generator, names: seq<string>, p: nat, k: nat)
    requires p < |PipelineSteps(g, names)| && k < |Predecessors(PipelineSteps(g, names)[p])|
    ensures exists j :: 0 <= j < p && PipelineSteps(g, names)[j].id == Predecessors(PipelineSteps(g, names)[p])[k]
  {
    var steps := PipelineSteps(g, names);
    PipelineEnds(g, names);
    if p == |steps| - 1 {
      SummaryFanIn(g, names);
      assert steps[3 + 4 * k].id == Predecessors(steps[p])[k];
    } else {
      var i, m := (p - 1) / 4, (p - 1) % 4;
      assert p == 1 + 4 * i + m;
      WorkspaceEdges(g, names, i);
      assert steps[p - 1].id == Predecessors(steps[p])[k];
    }
  }

  /** Every edge of the generated list points back to an earlier step. */
  lemma PipelineWaitsOnlyBackwards(g: Generator, names: seq<string>)
    ensures WaitsOnlyBackwards(PipelineSteps(g, names))
  {
    var steps := PipelineSteps(g, names);
    forall p, k | 0 <= p < |steps| && 0 <= k < |Predecessors(steps[p])|
      ensures exists j :: 0 <= j < p && steps[j].id == Predecessors(steps[p])[k]
    {
      BackEdgeAt(g, names, p, k);
    }
  }

  /** The id of position p of the generated list. */
  function IdAt(names: seq<string>, p: nat): string
    requires p < 4 * |names| + 2
  {
    if p == 0 then "environment-info"
    else if p == 4 * |names| + 1 then "build-summary"
    else
      var ws := names[(p - 1) / 4];
      match (p - 1) % 4
      case 0 => SetupId(ws)
      case 1 => PlanId(ws)
      case 2 => ApplyId(ws)
      case _ => DestroyId(ws)
  }

  lemma PipelineIds(g: Generator, names: seq<string>, p: nat)
    requires p < 4 * |names| + 2
    ensures PipelineSteps(g, names)[p].id == IdAt(names, p)
  {
    PipelineEnds(g, names);
    if 0 < p < 4 * |names| + 1 {
      var i, m := (p - 1) / 4, (p - 1) % 4;
      assert p == 1 + 4 * i + m;
      PipelineStepAt(g, names, i, m);
    }
  }

  predicate Distinct(names: seq<string>) {
    forall i, j :: 0 <= i < j < |names| ==> names[i] != names[j]
  }

  /** Two positions with the same id name the same workspace in the same
      role: the role is fixed by the id's first letter (e, s, p, a, d, b)
      and the workspace by the rest. */
  lemma IdsDetermineSlot(names: seq<string>, p: nat, q: nat)
    requires p < q < 4 * |names| + 2 && IdAt(names, p) == IdAt(names, q)
    ensures 0 < p && q < 4 * |names| + 1 && (p - 1) % 4 == (q - 1) % 4
    ensures names[(p - 1) / 4] == names[(q - 1) / 4]
  {
    var a, b := IdAt(names, p), IdAt(names, q);
    assert a[0] == b[0];
    if p != 0 && q != 4 * |names| + 1 {
      var m := (p - 1) % 4;
      var prefix := if m == 0 then "setup-" else if m == 1 then "plan-" else if m == 2 then "apply-" else "destroy-";
      assert a == prefix + names[(p - 1) / 4];
      assert b == prefix + names[(q - 1) / 4];
      assert names[(p - 1) / 4] == a[|prefix|..];
      assert names[(q - 1) / 4] == b[|prefix|..];
    }
  }

  lemma DistinctIdsAt(g: Generator, names: seq<string>, p: nat, q: nat)
    requires Distinct(names) && p < q < 4 * |names| + 2
    ensures PipelineSteps(g, names)[p].id != PipelineSteps(g, names)[q].id
  {
    PipelineIds(g, names, p);
    PipelineIds(g, names, q);
    if IdAt(names, p) == IdAt(names, q) {
      IdsDetermineSlot(names, p, q);
    }
  }

  /** Step ids are unique exactly when the sanitised names are distinct; the
      generator itself does not check this. */
  lemma UniqueIdsIffDistinct(g: Generator, names: seq<string>)
    ensures UniqueIds(PipelineSteps(g, names)) <==> Distinct(names)
  {
    var steps := PipelineSteps(g, names);
    PipelineEnds(g, names);
    if Distinct(names) {
      forall p, q | 0 <= p < q < |steps| ensures steps[p].id != steps[q].id {
        DistinctIdsAt(g, names, p, q);
      }
    } else {
      var i, j :| 0 <= i < j < |names| && names[i] == names[j];
      WorkspaceEdges(g, names, i);
      WorkspaceEdges(g, names, j);
      assert steps[1 + 4 * i].id == steps[1 + 4 * j].id;
    }
  }

  // ---------------------------------------------------------------------------
  // Properties of the configuration

  /** Configure fails exactly when some name is invalid, with the error of
      the first invalid name; on success it holds 4N+2 steps built from the
      sanitised names, with the generator's timeout and version. */
  lemma ConfigureSpec(g: Generator, workspaces: seq<string>)
    ensures Configure(g, workspaces).Success? <==>
      forall i :: 0 <= i < |workspaces| ==> ValidateWorkspaceName(workspaces[i]).Success?
    ensures Configure(g, workspaces).Success? ==>
      var c := Configure(g, workspaces).value;
      |c.steps| == 4 * |workspaces| + 2 &&
      c.timeout == g.timeout && c.substitutions.terraformVersion == g.tfVersion &&
      forall i :: 0 <= i < |workspaces| ==>
        c.steps[1 + 4 * i].id == SetupId(ValidateWorkspaceName(workspaces[i]).value)
    ensures Configure(g, workspaces).Failure? ==>
      exists i :: 0 <= i < |workspaces| &&
        ValidateWorkspaceName(workspaces[i]) == Failure(Configure(g, workspaces).error) &&
        forall j :: 0 <= j < i ==> ValidateWorkspaceName(workspaces[j]).Success?
  {
    ValidateAllSpec(workspaces);
    match ValidateAll(workspaces)
    case Failure(e) => {}
    case Success(names) => {
      PipelineEnds(g, names);
      var c := Configure(g, workspaces).value;
      forall i | 0 <= i < |workspaces|
        ensures c.steps[1 + 4 * i].id == SetupId(ValidateWorkspaceName(workspaces[i]).value)
      {
        WorkspaceEdges(g, names, i);
      }
    }
  }

  /** Configuring from already-sanitised names gives the same configuration:
      sanitising first changes nothing. */
  lemma ConfigureIdempotent(g: Generator, workspaces: seq<string>)
    requires ValidateAll(workspaces).Success?
    ensures Configure(g, ValidateAll(workspaces).value) == Configure(g, workspaces)
  {
    ValidateAllIdempotent(workspaces);
  }

  /** generate_cloudbuild_config itself accepts an empty list: the banner and
      a summary waiting for no step. Only main rejects an empty list. */
  lemma EmptyListAccepted(g: Generator)
    ensures Configure(g, []).Success?
    ensures Configure(g, []).value.steps == [EnvironmentStep(), SummaryStep([])]
    ensures Configure(g, []).value.steps[1].waitFor == Some([])
  {
    assert ApplyIds([]) == [];
  }

  lemma DevValidates()
    ensures ValidateWorkspaceName("dev") == Success("dev")
  {
    assert IsSlotName("dev");
    SlotNamesAreFixedPoints("dev");
  }

  lemma UpperDevValidates()
    ensures ValidateWorkspaceName("Dev") == Success("dev")
  {
    StripKeepsTrimmed("Dev");
    var s := Sanitise("Dev");
    assert s[0] == SanitiseChar('D') == 'd';
    assert s == "dev";
    assert IsSlotName("dev");
  }

  /** Validation of a two-name list, from the two names' results. */
  lemma ValidatePair(a: string, b: string, x: string, y: string)
    requires ValidateWorkspaceName(a) == Success(x) && ValidateWorkspaceName(b) == Success(y)
    ensures ValidateAll([a, b]) == Success([x, y])
  {
    var ws := [a, b];
    assert ws[..0] == [];
    ValidateAllSnoc(ws, 0);
    assert ws[..1] == [a] && [] + [x] == [x];
    ValidateAllSnoc(ws, 1);
    assert ws[..2] == ws && [x] + [y] == [x, y];
  }

  /** Two raw names that sanitise alike ("dev" and "Dev") are accepted and
      give two steps with the same id. */
  lemma CollidingNamesAccepted(g: Generator)
    ensures Configure(g, ["dev", "Dev"]).Success?
    ensures var steps := Configure(g, ["dev", "Dev"]).value.steps;
      steps[1].id == "setup-dev" && steps[5].id == "setup-dev" && !UniqueIds(steps)
  {
    DevValidates();
    UpperDevValidates();
    ValidatePair("dev", "Dev", "dev", "dev");
    WorkspaceEdges(g, ["dev", "dev"], 0);
    WorkspaceEdges(g, ["dev", "dev"], 1);
    PipelineEnds(g, ["dev", "dev"]);
  }

  /** The example names sanitise to dev and staging-1, so configuring them
      means building the steps for those two ids. */
  lemma ExampleConfigure(g: Generator)
    ensures Configure(g, ["dev", "Staging 1"]) ==
      Success(Config(PipelineSteps(g, ["dev", "staging-1"]), g.timeout, Options,
                     Substitutions("", "default", g.tfVersion)))
  {
    DevValidates();
    StagingExample();
    ValidatePair("dev", "Staging 1", "dev", "staging-1");
  }

  /** The step list for the slots dev and staging-1. */
  lemma ExampleSteps(g: Generator, names: seq<string>)
    requires names == ["dev", "staging-1"]
    ensures var steps := PipelineSteps(g, names);
      |steps| == 10 &&
      steps[1].id == SetupId("dev") &&
      steps[5].id == SetupId("staging-1") &&
      steps[7].id == ApplyId("staging-1") &&
      steps[7].waitFor == Some([PlanId("staging-1")]) &&
      steps[7].image == TerraformImage(g.tfVersion) &&
      steps[9].waitFor == Some([ApplyId("dev"), ApplyId("staging-1")])
  {
    PipelineEnds(g, names);
    WorkspaceEdges(g, names, 0);
    WorkspaceEdges(g, names, 1);
    PipelineStepAt(g, names, 1, 2);
    assert ApplyIds(names) == [ApplyId(names[0]), ApplyId(names[1])];
  }

  /** The example list run through any generator: ten steps over the ids
      of dev and staging-1, and apply-staging-1 waits for plan-staging-1
      only. */
  lemma ExampleRun(g: Generator)
    ensures var r := Configure(g, ["dev", "Staging 1"]);
      r.Success? &&
      |r.value.steps| == 10 &&
      r.value.steps[1].id == SetupId("dev") &&
      r.value.steps[5].id == SetupId("staging-1") &&
      r.value.steps[7].id == ApplyId("staging-1") &&
      r.value.steps[7].waitFor == Some([PlanId("staging-1")]) &&
      r.value.steps[7].image == TerraformImage(g.tfVersion) &&
      r.value.steps[9].waitFor == Some([ApplyId("dev"), ApplyId("staging-1")])
  {
    ExampleConfigure(g);
    ExampleSteps(g, ["dev", "staging-1"]);
  }

  /** The end-to-end example: the generator main builds for version 1.8
      accepts ["dev", "Staging 1"], and its steps run the 1.8 image. */
  lemma EndToEndExample(version: string, g: Generator)
    requires version == "1.8" && NewGenerator(version, DefaultTimeout) == Success(g)
    ensures g == Generator("1.8", DefaultTimeout)
    ensures Configure(g, ["dev", "Staging 1"]).Success?
    ensures Configure(g, ["dev", "Staging 1"]).value.steps[7].image == TerraformImage("1.8")
  {
    ExampleRun(g);
  }
}
