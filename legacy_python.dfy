/** generate_cloudbuild.py: the earlier generator. A banner step and three
    steps per workspace (setup and plan, apply, destroy); the workspace list
    is _WORKSPACES split on commas with no trimming or filtering, and the
    pull-request number is read once, at generation time, and baked into
    the banner and the setup-and-plan guard. */
module LegacyPython {
  import opened Common
  import opened Scripts
  import opened Pipeline

  const DefaultWorkspaces: string := "dev,staging,gitops"
  const DefaultTfVersion: string := "1.8"

  /** The three environment reads at the top of generate_cloudbuild. */
  datatype Settings = Settings(workspaces: seq<string>, tfVersion: string, prNumber: string)

  function ReadSettings(env: map<string, string>): (s: Settings)
    ensures |s.workspaces| >= 1
  {
    Settings(
      Split(EnvironGet(env, "_WORKSPACES", DefaultWorkspaces), ','),
      EnvironGet(env, "_TF_VERSION", DefaultTfVersion),
      EnvironGet(env, "_PR_NUMBER", ""))
  }

  function SetupPlanId(ws: string): string { "setup and plan " + ws }
  function ApplyId(ws: string): string { "apply " + ws }
  function DestroyId(ws: string): string { "destroy " + ws }

  function BannerStep(pr: string): Step {
    Step("branch name", "ubuntu", "sh", None, None, BranchBanner(pr))
  }

  function SetupAndPlanStep(tf: string, pr: string, ws: string): Step {
    Step(SetupPlanId(ws), TerraformImage(tf), "bash", None, None, LegacySetupAndPlan(ws, pr, PlanPath(ws), false))
  }

  function ApplyStep(tf: string, ws: string): Step {
    Step(ApplyId(ws), TerraformImage(tf), "sh", Some([SetupPlanId(ws)]), None, LegacyApply(ws, PlanPath(ws)))
  }

  function DestroyStep(tf: string, ws: string): Step {
    Step(DestroyId(ws), TerraformImage(tf), "sh", None, None, LegacyDestroy(ws))
  }

  function WorkspaceSteps(s: Settings, ws: string): seq<Step> {
    [SetupAndPlanStep(s.tfVersion, s.prNumber, ws), ApplyStep(s.tfVersion, ws), DestroyStep(s.tfVersion, ws)]
  }

  function AllWorkspaceSteps(s: Settings, names: seq<string>): (steps: seq<Step>)
    ensures |steps| == 3 * |names|
  {
    if names == [] then []
    else AllWorkspaceSteps(s, names[..|names| - 1]) + WorkspaceSteps(s, names[|names| - 1])
  }

  /** The `steps` list generate_cloudbuild writes out. */
  function LegacySteps(s: Settings): (steps: seq<Step>)
    ensures |steps| == 1 + 3 * |s.workspaces|
  {
    [BannerStep(s.prNumber)] + AllWorkspaceSteps(s, s.workspaces)
  }

  /** generate_cloudbuild up to the YAML dump: the banner, then one `extend`
      of three steps per workspace. */
  method GenerateCloudbuild(env: map<string, string>) returns (steps: seq<Step>)
    ensures steps == LegacySteps(ReadSettings(env))
  {
    var s := ReadSettings(env);
    steps := StepsFor(s);
  }

  /** The loop over the workspace list, for settings already read. */
  method StepsFor(s: Settings) returns (steps: seq<Step>)
    ensures steps == LegacySteps(s)
  {
    var workspaces := s.workspaces;
    steps := [BannerStep(s.prNumber)];
    ghost var done: seq<string> := [];
    var i := 0;
    while i < |workspaces|
      invariant 0 <= i <= |workspaces| && done == workspaces[..i]
      invariant steps == [BannerStep(s.prNumber)] + AllWorkspaceSteps(s, done)
    {
      var workspace := workspaces[i];
      AllWorkspaceStepsSnoc(s, done, workspace);
      steps := steps + [
        SetupAndPlanStep(s.tfVersion, s.prNumber, workspace),
        ApplyStep(s.tfVersion, workspace),
        DestroyStep(s.tfVersion, workspace)];
      done := done + [workspace];
      i := i + 1;
    }
    assert done == workspaces;
  }

  // ---------------------------------------------------------------------------
  // Properties

  lemma AllWorkspaceStepsSnoc(s: Settings, names: seq<string>, ws: string)
    ensures AllWorkspaceSteps(s, names + [ws]) == AllWorkspaceSteps(s, names) + WorkspaceSteps(s, ws)
  {
    assert (names + [ws])[..|names|] == names;
  }

  lemma {:induction false} AllWorkspaceStepsAt(s: Settings, names: seq<string>, i: nat, k: nat)
    requires i < |names| && k < 3
    ensures AllWorkspaceSteps(s, names)[3 * i + k] == WorkspaceSteps(s, names[i])[k]
    decreases |names|
  {
    var n := |names| - 1;
    if i < n {
      AllWorkspaceStepsAt(s, names[..n], i, k);
    }
  }

  /** For N workspaces there are 1 + 3N steps: the banner first, then each
      workspace's setup-and-plan, apply and destroy steps in input order. */
  lemma LegacyStepAt(s: Settings, i: nat, k: nat)
    requires i < |s.workspaces| && k < 3
    ensures |LegacySteps(s)| == 1 + 3 * |s.workspaces|
    ensures LegacySteps(s)[0] == BannerStep(s.prNumber)
    ensures LegacySteps(s)[1 + 3 * i + k] == WorkspaceSteps(s, s.workspaces[i])[k]
  {
    AllWorkspaceStepsAt(s, s.workspaces, i, k);
  }

  /** The edges and images of one workspace's steps: apply lists exactly
      its own setup-and-plan step, the other two declare no `waitFor`, all three
      run the requested terraform image, and plan and apply use the same
      plan file. */
  lemma LegacyEdges(s: Settings, i: nat)
    requires i < |s.workspaces|
    ensures var steps, ws := LegacySteps(s), s.workspaces[i];
      var setup, apply, destroy := steps[1 + 3 * i], steps[2 + 3 * i], steps[3 + 3 * i];
      steps[0].waitFor == None && steps[0].id == "branch name" &&
      setup.waitFor == None && destroy.waitFor == None &&
      apply.waitFor == Some([setup.id]) &&
      setup.id == SetupPlanId(ws) && apply.id == ApplyId(ws) && destroy.id == DestroyId(ws) &&
      setup.image == apply.image == destroy.image == TerraformImage(s.tfVersion) &&
      setup.script == LegacySetupAndPlan(ws, s.prNumber, PlanPath(ws), false) &&
      apply.script == LegacyApply(ws, PlanPath(ws)) &&
      setup.timeout == apply.timeout == destroy.timeout == None
  {
    LegacyStepAt(s, i, 0);
    LegacyStepAt(s, i, 1);
    LegacyStepAt(s, i, 2);
  }

  /** Every edge points back to an earlier step. */
  lemma LegacyWaitsOnlyBackwards(s: Settings)
    ensures WaitsOnlyBackwards(LegacySteps(s))
  {
    var steps := LegacySteps(s);
    assert Predecessors(steps[0]) == [];
    forall p, k | 0 <= p < |steps| && 0 <= k < |Predecessors(steps[p])|
      ensures exists j :: 0 <= j < p && steps[j].id == Predecessors(steps[p])[k]
    {
      if p > 0 {
        var i, m := (p - 1) / 3, (p - 1) % 3;
        assert p == 1 + 3 * i + m;
        LegacyEdges(s, i);
        assert steps[p - 1].id == Predecessors(steps[p])[k];
      }
    }
  }

  /** The default list splits into dev, staging and gitops. */
  lemma DefaultWorkspaceList(w: string)
    requires w == DefaultWorkspaces
    ensures Split(w, ',') == ["dev", "staging", "gitops"]
  {
    var fs := ["dev", "staging", "gitops"];
    SplitJoin(fs, ',');
    assert Join(fs, ',') == w;
  }

  /** With _WORKSPACES unset the list is dev, staging, gitops, and the
      version is 1.8. */
  lemma DefaultSettings()
    ensures ReadSettings(map[]) == Settings(["dev", "staging", "gitops"], "1.8", "")
    ensures |LegacySteps(ReadSettings(map[]))| == 10
  {
    var env: map<string, string> := map[];
    DefaultWorkspaceList(EnvironGet(env, "_WORKSPACES", DefaultWorkspaces));
  }

  /** _WORKSPACES set to the empty string is a single workspace named "":
      the empty value is not replaced by the default. */
  lemma EmptyWorkspacesVariable()
    ensures ReadSettings(map["_WORKSPACES" := ""]).workspaces == [""]
    ensures var steps := LegacySteps(ReadSettings(map["_WORKSPACES" := ""]));
      |steps| == 4 && steps[1].id == "setup and plan "
  {
    var s := ReadSettings(map["_WORKSPACES" := ""]);
    LegacyStepAt(s, 0, 0);
  }

  /** Names are used as written: a blank after a comma stays in the id. */
  lemma NamesNotTrimmed()
    ensures ReadSettings(map["_WORKSPACES" := "dev, qa"]).workspaces == ["dev", " qa"]
  {
    var fs := ["dev", " qa"];
    SplitJoin(fs, ',');
    assert Join(fs, ',') == "dev, qa";
  }
}
