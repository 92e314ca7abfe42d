/** generate_cloudbuild.go: the Go port of the earlier generator. Its Step
    struct carries WaitFor with `omitempty`, so an empty list is not written;
    its getEnv falls back to the default also when a variable is set but
    empty; and two entrypoints differ from the Python version. */
module LegacyGo {
  import opened Common
  import opened Scripts
  import opened Pipeline
  import LegacyPython

  /** The Go Step struct; Args is the script. */
  datatype GoStep = GoStep(id: string, name: string, entrypoint: string, script: Script, waitFor: seq<string>)

  /** getEnv: the default when the variable is unset or empty. */
  function GetEnv(env: map<string, string>, key: string, fallback: string): (v: string)
    ensures key in env && env[key] != "" ==> v == env[key]
    ensures key !in env || env[key] == "" ==> v == fallback
  {
    if key !in env || env[key] == "" then fallback else env[key]
  }

  function ReadSettings(env: map<string, string>): (s: LegacyPython.Settings)
    ensures |s.workspaces| >= 1
  {
    LegacyPython.Settings(
      Split(GetEnv(env, "_WORKSPACES", LegacyPython.DefaultWorkspaces), ','),
      GetEnv(env, "_TF_VERSION", LegacyPython.DefaultTfVersion),
      GetEnv(env, "_PR_NUMBER", ""))
  }

  /** What yaml.Marshal writes for a step: `waitFor` only when non-empty;
      the struct has no timeout. */
  function Serialise(s: GoStep): (step: Step)
    ensures step.waitFor == None <==> s.waitFor == []
    ensures step.waitFor.Some? ==> step.waitFor.value == s.waitFor
    ensures Predecessors(step) == s.waitFor
  {
    Step(s.id, s.name, s.entrypoint, if s.waitFor == [] then None else Some(s.waitFor), None, s.script)
  }

  function BannerStep(pr: string): GoStep {
    GoStep("branch name", "ubuntu", "bash", BranchBanner(pr), [])
  }

  function SetupAndPlanStep(tf: string, pr: string, ws: string): GoStep {
    GoStep(LegacyPython.SetupPlanId(ws), TerraformImage(tf), "sh", LegacySetupAndPlan(ws, pr, PlanPath(ws), true), [])
  }

  function ApplyStep(tf: string, ws: string): GoStep {
    GoStep(LegacyPython.ApplyId(ws), TerraformImage(tf), "sh", LegacyApply(ws, PlanPath(ws)),
           [LegacyPython.SetupPlanId(ws)])
  }

  function DestroyStep(tf: string, ws: string): GoStep {
    GoStep(LegacyPython.DestroyId(ws), TerraformImage(tf), "sh", LegacyDestroy(ws), [])
  }

  function WorkspaceSteps(s: LegacyPython.Settings, ws: string): seq<GoStep> {
    [SetupAndPlanStep(s.tfVersion, s.prNumber, ws), ApplyStep(s.tfVersion, ws), DestroyStep(s.tfVersion, ws)]
  }

  function AllWorkspaceSteps(s: LegacyPython.Settings, names: seq<string>): (steps: seq<GoStep>)
    ensures |steps| == 3 * |names|
  {
    if names == [] then []
    else AllWorkspaceSteps(s, names[..|names| - 1]) + WorkspaceSteps(s, names[|names| - 1])
  }

  function GoSteps(s: LegacyPython.Settings): (steps: seq<GoStep>)
    ensures |steps| == 1 + 3 * |s.workspaces|
  {
    [BannerStep(s.prNumber)] + AllWorkspaceSteps(s, s.workspaces)
  }

  /** main up to yaml.Marshal: the banner, then three appended steps per
      field of strings.Split(workspaces, ","). */
  method BuildSteps(env: map<string, string>) returns (steps: seq<GoStep>)
    ensures steps == GoSteps(ReadSettings(env))
  {
    var s := ReadSettings(env);
    steps := StepsFor(s);
  }

  /** The loop over the workspace list, for settings already read. */
  method StepsFor(s: LegacyPython.Settings) returns (steps: seq<GoStep>)
    ensures steps == GoSteps(s)
  {
    var workspaces := s.workspaces;
    steps := [BannerStep(s.prNumber)];
    ghost var done: seq<string> := [];
    var i := 0;
    while i < |workspaces|
      invariant 0 <= i <= |workspaces| && done == workspaces[..i]
      invariant steps == [BannerStep(s.prNumber)] + AllWorkspaceSteps(s, done)
    {
      var workspace := workspaces[i];
      AllWorkspaceStepsSnoc(s, done, workspace);
      steps := steps + [
        SetupAndPlanStep(s.tfVersion, s.prNumber, workspace),
        ApplyStep(s.tfVersion, workspace),
        DestroyStep(s.tfVersion, workspace)];
      done := done + [workspace];
      i := i + 1;
    }
    assert done == workspaces;
  }

  // ---------------------------------------------------------------------------
  // Properties

  lemma AllWorkspaceStepsSnoc(s: LegacyPython.Settings, names: seq<string>, ws: string)
    ensures AllWorkspaceSteps(s, names + [ws]) == AllWorkspaceSteps(s, names) + WorkspaceSteps(s, ws)
  {
    assert (names + [ws])[..|names|] == names;
  }

  lemma {:induction false} AllWorkspaceStepsAt(s: LegacyPython.Settings, names: seq<string>, i: nat, k: nat)
    requires i < |names| && k < 3
    ensures AllWorkspaceSteps(s, names)[3 * i + k] == WorkspaceSteps(s, names[i])[k]
    decreases |names|
  {
    var n := |names| - 1;
    if i < n {
      AllWorkspaceStepsAt(s, names[..n], i, k);
    }
  }

  /** For the same settings the Go steps, once serialised, are the Python
      steps except in two respects: two entrypoints differ (the banner runs
      under bash instead of sh, setup-and-plan under sh instead of bash), and
      the Go setup-and-plan script first creates the plan directory
      (generate_cloudbuild.go:52), which the Python one does not. Every other
      script is the same. In particular the list has 1 + 3N entries, only
      apply has a `waitFor`, and it names setup-and-plan of the same
      workspace. */
  lemma {:induction false} GoMatchesPython(s: LegacyPython.Settings)
    ensures |GoSteps(s)| == |LegacyPython.LegacySteps(s)| == 1 + 3 * |s.workspaces|
    ensures forall p :: 0 <= p < |GoSteps(s)| ==>
      Serialise(GoSteps(s)[p]) ==
      LegacyPython.LegacySteps(s)[p].(entrypoint := GoSteps(s)[p].entrypoint, script := GoSteps(s)[p].script)
    ensures GoSteps(s)[0].entrypoint == "bash" && LegacyPython.LegacySteps(s)[0].entrypoint == "sh"
    ensures GoSteps(s)[0].script == LegacyPython.LegacySteps(s)[0].script
    ensures forall i :: 0 <= i < |s.workspaces| ==>
      GoSteps(s)[1 + 3 * i].entrypoint == "sh" && LegacyPython.LegacySteps(s)[1 + 3 * i].entrypoint == "bash"
    ensures forall i :: 0 <= i < |s.workspaces| ==>
      var goSetup, pySetup := GoSteps(s)[1 + 3 * i].script, LegacyPython.LegacySteps(s)[1 + 3 * i].script;
      pySetup.LegacySetupAndPlan? && !pySetup.createsPlanDir && goSetup == pySetup.(createsPlanDir := true)
    ensures forall i :: 0 <= i < |s.workspaces| ==>
      GoSteps(s)[2 + 3 * i].script == LegacyPython.LegacySteps(s)[2 + 3 * i].script &&
      GoSteps(s)[3 + 3 * i].script == LegacyPython.LegacySteps(s)[3 + 3 * i].script
  {
    var go, py := GoSteps(s), LegacyPython.LegacySteps(s);
    forall p | 0 <= p < |go| ensures Serialise(go[p]) == py[p].(entrypoint := go[p].entrypoint, script := go[p].script) {
      if p > 0 {
        var i, m := (p - 1) / 3, (p - 1) % 3;
        assert p == 1 + 3 * i + m;
        WorkspaceStepMatches(s, i, m);
      }
    }
    forall i | 0 <= i < |s.workspaces|
      ensures go[1 + 3 * i].entrypoint == "sh" && py[1 + 3 * i].entrypoint == "bash"
      ensures py[1 + 3 * i].script.LegacySetupAndPlan? && !py[1 + 3 * i].script.createsPlanDir
      ensures go[1 + 3 * i].script == py[1 + 3 * i].script.(createsPlanDir := true)
      ensures go[2 + 3 * i].script == py[2 + 3 * i].script && go[3 + 3 * i].script == py[3 + 3 * i].script
    {
      WorkspaceStepMatches(s, i, 0);
      WorkspaceStepMatches(s, i, 1);
      WorkspaceStepMatches(s, i, 2);
    }
  }

  /** One workspace step of each generator side by side. */
  lemma WorkspaceStepMatches(s: LegacyPython.Settings, i: nat, m: nat)
    requires i < |s.workspaces| && m < 3
    ensures var go, py := GoSteps(s)[1 + 3 * i + m], LegacyPython.LegacySteps(s)[1 + 3 * i + m];
      Serialise(go) == py.(entrypoint := go.entrypoint, script := go.script) &&
      (m == 0 ==> go.entrypoint == "sh" && py.entrypoint == "bash" &&
                  py.script.LegacySetupAndPlan? && !py.script.createsPlanDir &&
                  go.script == py.script.(createsPlanDir := true)) &&
      (m != 0 ==> go.script == py.script)
  {
    AllWorkspaceStepsAt(s, s.workspaces, i, m);
    LegacyPython.LegacyStepAt(s, i, m);
  }

  /** The two environment lookups agree except on a variable set to "":
      Python then reads "", Go the default. */
  lemma GetEnvVersusEnvironGet(env: map<string, string>, key: string, fallback: string)
    ensures GetEnv(env, key, fallback) != EnvironGet(env, key, fallback) <==>
      key in env && env[key] == "" && fallback != ""
  {
  }

  /** With _WORKSPACES set to "" the Go generator uses the three default
      workspaces (10 steps) where the Python one uses a single empty name
      (4 steps). */
  lemma EmptyWorkspacesDiffer()
    ensures |GoSteps(ReadSettings(map["_WORKSPACES" := ""]))| == 10
    ensures |LegacyPython.LegacySteps(LegacyPython.ReadSettings(map["_WORKSPACES" := ""]))| == 4
  {
    var env := map["_WORKSPACES" := ""];
    LegacyPython.DefaultWorkspaceList(GetEnv(env, "_WORKSPACES", LegacyPython.DefaultWorkspaces));
    LegacyPython.EmptyWorkspacesVariable();
  }
}
