/** What each generated step script does when the build runner executes it.

    The shell text itself is opaque; what is modelled is its control flow:
    the branch guard evaluated against the runtime trigger context, the
    retry loops around `terraform init` and `terraform workspace
    select/new`, the plan-file check of the apply step and the safety checks
    of the destroy step. A run ends in one of four ways: the guard skips the
    step (exit 0), a check or a retry loop fails it (exit 1), the wait of the
    earlier generators is still polling, or the script reaches its terraform
    action. */
module Scripts {
  import opened Common
  import opened BranchGate
  import opened LockProtocol

  /** Per-build, per-workspace location of the saved plan; plan writes it
      and apply reads it. */
  function PlanPath(ws: string): (p: string)
    ensures |p| == |PlanPathPrefix| + |ws|
    ensures p[..|PlanPathPrefix|] == PlanPathPrefix && p[|PlanPathPrefix|..] == ws
  {
    PlanPathPrefix + ws
  }

  const PlanPathPrefix: string := "/workspace/$BUILD_ID/tfplan_"

  /** Two workspaces never share a plan file. */
  lemma PlanPathInjective(a: string, b: string)
    ensures PlanPath(a) == PlanPath(b) <==> a == b
  {
    if PlanPath(a) == PlanPath(b) {
      assert a == PlanPath(a)[|PlanPathPrefix|..];
    }
  }

  /** The script carried by a step. The first six are the improved
      generator's, the last four the earlier generators'; those bake the
      pull-request number read at generation time into the script. The
      earlier setup-and-plan script records whether it first creates the
      plan directory `/workspace/$BUILD_ID`: the Go version does, the Python
      one does not; the effect on `terraform plan -out` is not modelled. */
  datatype Script =
    | EnvironmentInfo
    | WorkspaceSetup(ws: string)
    | WorkspacePlan(ws: string, planFile: string)
    | WorkspaceApply(ws: string, planFile: string)
    | WorkspaceDestroy(ws: string)
    | BuildSummary
    | BranchBanner(bakedPr: string)
    | LegacySetupAndPlan(ws: string, bakedPr: string, planFile: string, createsPlanDir: bool)
    | LegacyApply(ws: string, planFile: string)
    | LegacyDestroy(ws: string)

  /** The terraform work a script reaches once its guard and checks pass. */
  datatype TfAction =
    | Report
    | ValidateConfig
    | PlanTo(path: string)
    | ValidateAndPlanTo(path: string)
    | ApplyFrom(path: string)
    | DestroyAll
    | Summarise

  datatype FatalReason =
    | InitExhausted
    | LockExhausted
    | PlanFileMissing
    | DestroyBranchRefused
    | ProductionUnconfirmed

  datatype StepOutcome =
    | Skipped
    | Fatal(reason: FatalReason)
    | StillWaiting
    | Invokes(action: TfAction)

  /** What the outside world answers during one step run: the outcome of
      each `terraform init` attempt, of each select/new round, the files
      present in the build workspace, and (for the earlier generators'
      unbounded wait) the select outcomes observed so far. */
  datatype Oracle = Oracle(
    inits: nat -> bool,
    rounds: nat -> Round,
    existingFiles: set<string>,
    selects: seq<bool>)

  /** The shared preamble of the improved scripts: `init_terraform` then
      `setup_workspace`; either one exits the step when it gives up. */
  function Prepare(o: Oracle): (r: Option<FatalReason>)
    ensures r == None <==> InitSucceeds(o.inits) && LockOutcome(o.rounds) != Exhausted
    ensures r == Some(InitExhausted) <==> !InitSucceeds(o.inits)
  {
    if !InitSucceeds(o.inits) then Some(InitExhausted)
    else if LockOutcome(o.rounds) == Exhausted then Some(LockExhausted)
    else None
  }

  /** The four per-workspace scripts of the improved generator, which start
      with the shared preamble. */
  predicate GuardedByPreamble(script: Script) {
    script.WorkspaceSetup? || script.WorkspacePlan? || script.WorkspaceApply? || script.WorkspaceDestroy?
  }

  /** The control flow of each script, as the runner would execute it. Only
      the improved workspace scripts have checks that fail the step, only the
      earlier ones wait without bound, and an improved workspace script
      reaches its commands only after both retry loops succeed. */
  function Run(script: Script, ctx: TriggerContext, o: Oracle): (r: StepOutcome)
    ensures r.Fatal? ==> GuardedByPreamble(script)
    ensures r.StillWaiting? ==> script.LegacySetupAndPlan? || script.LegacyApply? || script.LegacyDestroy?
    ensures r.Invokes? && GuardedByPreamble(script) ==> Prepare(o) == None
  {
    match script
    case EnvironmentInfo => Invokes(Report)
    case BuildSummary => Invokes(Summarise)
    case WorkspaceSetup(ws) =>
      if !SetupPlanPermitted(ctx) then Skipped
      else if Prepare(o).Some? then Fatal(Prepare(o).value)
      else Invokes(ValidateConfig)
    case WorkspacePlan(ws, planFile) =>
      if !SetupPlanPermitted(ctx) then Skipped
      else if Prepare(o).Some? then Fatal(Prepare(o).value)
      else Invokes(PlanTo(planFile))
    case WorkspaceApply(ws, planFile) =>
      if !ApplyPermitted(ctx) then Skipped
      else if Prepare(o).Some? then Fatal(Prepare(o).value)
      else if planFile !in o.existingFiles then Fatal(PlanFileMissing)
      else Invokes(ApplyFrom(planFile))
    case WorkspaceDestroy(ws) =>
      if !DestroyPermitted(ctx) then Skipped
      else if Prepare(o).Some? then Fatal(Prepare(o).value)
      else if !DestroyPermitted(ctx) then Fatal(DestroyBranchRefused)
      else if !ProductionConfirmed(ctx, ws) then Fatal(ProductionUnconfirmed)
      else Invokes(DestroyAll)
    case BranchBanner(_) => Invokes(Report)
    case LegacySetupAndPlan(ws, bakedPr, planFile, _) =>
      if !LegacySetupPlanPermitted(ctx, bakedPr) then Skipped
      else if FirstSelect(o.selects) == |o.selects| then StillWaiting
      else Invokes(ValidateAndPlanTo(planFile))
    case LegacyApply(ws, planFile) =>
      if !ApplyPermitted(ctx) then Skipped
      else if FirstSelect(o.selects) == |o.selects| then StillWaiting
      else Invokes(ApplyFrom(planFile))
    case LegacyDestroy(ws) =>
      if !LegacyDestroyPermitted(ctx) then Skipped
      else if FirstSelect(o.selects) == |o.selects| then StillWaiting
      else Invokes(DestroyAll)
  }

  /** A step's exit status as far as its own script decides it: a skip
      ends with 0 and a failed check or retry loop with 1; an unbounded wait
      has not ended; once the script reaches its commands, their status is
      the step's, and the commands are not modelled. */
  datatype Status = Exits(code: nat) | Polling | SetByCommands

  function ExitStatus(out: StepOutcome): (s: Status)
    ensures s == Exits(0) <==> out.Skipped?
    ensures s == Exits(1) <==> out.Fatal?
    ensures s == Polling <==> out.StillWaiting?
    ensures s == SetByCommands <==> out.Invokes?
  {
    match out
    case Skipped => Exits(0)
    case Fatal(_) => Exits(1)
    case StillWaiting => Polling
    case Invokes(_) => SetByCommands
  }

  // ---------------------------------------------------------------------------
  // The improved scripts

  /** Setup and plan do their work exactly when the branch is main or master
      or a pull-request number is present at run time and both retry loops
      succeed; a failed guard is a skip with exit status 0, a failed loop is
      fatal. */
  lemma SetupPlanGate(ws: string, planFile: string, ctx: TriggerContext, o: Oracle)
    ensures Run(WorkspaceSetup(ws), ctx, o) == Invokes(ValidateConfig) <==>
      SetupPlanPermitted(ctx) && InitSucceeds(o.inits) && LockOutcome(o.rounds) != Exhausted
    ensures Run(WorkspacePlan(ws, planFile), ctx, o) == Invokes(PlanTo(planFile)) <==>
      SetupPlanPermitted(ctx) && InitSucceeds(o.inits) && LockOutcome(o.rounds) != Exhausted
    ensures Run(WorkspaceSetup(ws), ctx, o) == Skipped <==> !SetupPlanPermitted(ctx)
    ensures Run(WorkspacePlan(ws, planFile), ctx, o) == Skipped <==> !SetupPlanPermitted(ctx)
    ensures SetupPlanPermitted(ctx) && !InitSucceeds(o.inits) ==>
      Run(WorkspaceSetup(ws), ctx, o) == Fatal(InitExhausted) &&
      Run(WorkspacePlan(ws, planFile), ctx, o) == Fatal(InitExhausted)
  {
  }

  /** Apply does its work exactly on main or master, after both retry loops
      succeed, and only when the plan file exists; a missing plan is fatal
      and never regenerated. */
  lemma ApplyGate(ws: string, planFile: string, ctx: TriggerContext, o: Oracle)
    ensures Run(WorkspaceApply(ws, planFile), ctx, o) == Invokes(ApplyFrom(planFile)) <==>
      ApplyPermitted(ctx) && Prepare(o) == None && planFile in o.existingFiles
    ensures Run(WorkspaceApply(ws, planFile), ctx, o) == Fatal(PlanFileMissing) <==>
      ApplyPermitted(ctx) && Prepare(o) == None && planFile !in o.existingFiles
    ensures Run(WorkspaceApply(ws, planFile), ctx, o) == Skipped <==> !ApplyPermitted(ctx)
    ensures Run(WorkspaceApply(ws, planFile), ctx, o).Invokes? ==> planFile in o.existingFiles
  {
  }

  /** Destroy does its work exactly on destroy-all or cleanup, after both
      retry loops succeed, and, for a production-like workspace, only with a
      non-empty confirmation; an unconfirmed production destroy is fatal, not
      a skip. The script's own branch check repeats the outer guard, so it
      never fires. */
  lemma DestroyGate(ws: string, ctx: TriggerContext, o: Oracle)
    ensures Run(WorkspaceDestroy(ws), ctx, o) == Invokes(DestroyAll) <==>
      DestroyPermitted(ctx) && Prepare(o) == None && ProductionConfirmed(ctx, ws)
    ensures Run(WorkspaceDestroy(ws), ctx, o) == Fatal(ProductionUnconfirmed) <==>
      DestroyPermitted(ctx) && Prepare(o) == None &&
      IsProductionName(ws) && ctx.confirmDestroyProd == ""
    ensures Run(WorkspaceDestroy(ws), ctx, o) == Skipped <==> !DestroyPermitted(ctx)
    ensures Run(WorkspaceDestroy(ws), ctx, o) != Fatal(DestroyBranchRefused)
  {
  }

  /** An exhausted lock loop ends every guarded improved step with status 1:
      nothing after `setup_workspace` runs. */
  lemma LockExhaustionIsFatal(script: Script, ctx: TriggerContext, o: Oracle)
    requires GuardedByPreamble(script)
    requires LockOutcome(o.rounds) == Exhausted
    ensures ExitStatus(Run(script, ctx, o)) == Exits(0) || ExitStatus(Run(script, ctx, o)) == Exits(1)
    ensures !Run(script, ctx, o).Invokes?
  {
  }

  /** The policy examples: a feature branch without a pull request permits
      nothing; main permits setup, plan and apply but not destroy;
      destroy-all destroys a non-production workspace without confirmation
      and fails fatally on "prod-east" without one. */
  lemma FeatureBranchPermitsNothing(ws: string, planFile: string, o: Oracle)
    ensures var ctx := TriggerContext("feature-x", "", "");
      Run(WorkspaceSetup(ws), ctx, o) == Skipped &&
      Run(WorkspacePlan(ws, planFile), ctx, o) == Skipped &&
      Run(WorkspaceApply(ws, planFile), ctx, o) == Skipped &&
      Run(WorkspaceDestroy(ws), ctx, o) == Skipped
  {
    var ctx := TriggerContext("feature-x", "", "");
    assert ctx.branch != "main" && ctx.branch != "master";
    assert ctx.branch != "destroy-all" && ctx.branch != "cleanup";
  }

  lemma MainPermitsAllButDestroy(ws: string, planFile: string, pr: string, o: Oracle)
    requires Prepare(o) == None && planFile in o.existingFiles
    ensures var ctx := TriggerContext("main", pr, "");
      Run(WorkspaceSetup(ws), ctx, o) == Invokes(ValidateConfig) &&
      Run(WorkspacePlan(ws, planFile), ctx, o) == Invokes(PlanTo(planFile)) &&
      Run(WorkspaceApply(ws, planFile), ctx, o) == Invokes(ApplyFrom(planFile)) &&
      Run(WorkspaceDestroy(ws), ctx, o) == Skipped
  {
    var ctx := TriggerContext("main", pr, "");
    assert ctx.branch != "destroy-all" && ctx.branch != "cleanup";
  }

  lemma DestroyAllNonProduction(ws: string, o: Oracle)
    requires Prepare(o) == None && !Contains(ws, "prod")
    ensures Run(WorkspaceDestroy(ws), TriggerContext("destroy-all", "", ""), o) == Invokes(DestroyAll)
  {
    ProductionMeansProd(ws);
  }

  lemma ProdEastNeedsConfirmation(o: Oracle)
    requires Prepare(o) == None
    ensures Run(WorkspaceDestroy("prod-east"), TriggerContext("destroy-all", "", ""), o) == Fatal(ProductionUnconfirmed)
    ensures Run(WorkspaceDestroy("prod-east"), TriggerContext("destroy-all", "", "true"), o) == Invokes(DestroyAll)
  {
    assert "prod" <= "prod-east";
  }

  // ---------------------------------------------------------------------------
  // The earlier generators' scripts

  /** No check in the earlier scripts fails the step: each either skips,
      keeps polling, or reaches its commands (whose status is then the
      step's); it polls only while no select has succeeded. */
  lemma LegacyNeverFatal(script: Script, ctx: TriggerContext, o: Oracle)
    requires script.BranchBanner? || script.LegacySetupAndPlan? || script.LegacyApply? || script.LegacyDestroy?
    ensures !Run(script, ctx, o).Fatal?
    ensures Run(script, ctx, o) == StillWaiting ==> forall j :: 0 <= j < |o.selects| ==> !o.selects[j]
  {
  }

  /** The earlier apply step runs `terraform apply` exactly on main or
      master once a select has succeeded, and is skipped on every other
      branch; the earlier destroy step does the same on destroy-all alone. */
  lemma LegacyApplyDestroyGates(ws: string, planFile: string, ctx: TriggerContext, o: Oracle)
    ensures Run(LegacyApply(ws, planFile), ctx, o) == Skipped <==> !ApplyPermitted(ctx)
    ensures Run(LegacyApply(ws, planFile), ctx, o) == Invokes(ApplyFrom(planFile)) <==>
      ApplyPermitted(ctx) && FirstSelect(o.selects) < |o.selects|
    ensures Run(LegacyDestroy(ws), ctx, o) == Skipped <==> !LegacyDestroyPermitted(ctx)
    ensures Run(LegacyDestroy(ws), ctx, o) == Invokes(DestroyAll) <==>
      LegacyDestroyPermitted(ctx) && FirstSelect(o.selects) < |o.selects|
  {
  }

  /** The earlier setup-and-plan step validates and plans exactly when its
      generation-time guard passes and a select has succeeded. */
  lemma LegacySetupPlanGate(ws: string, bakedPr: string, planFile: string, mkdir: bool,
                            ctx: TriggerContext, o: Oracle)
    ensures Run(LegacySetupAndPlan(ws, bakedPr, planFile, mkdir), ctx, o) == Invokes(ValidateAndPlanTo(planFile)) <==>
      LegacySetupPlanPermitted(ctx, bakedPr) && FirstSelect(o.selects) < |o.selects|
  {
  }

  /** The earlier setup-and-plan guard reads the pull-request number baked in
      at generation time: the runtime value makes no difference. */
  lemma LegacyIgnoresRuntimePr(ws: string, bakedPr: string, planFile: string, mkdir: bool,
                               ctx: TriggerContext, pr: string, o: Oracle)
    ensures Run(LegacySetupAndPlan(ws, bakedPr, planFile, mkdir), ctx, o) ==
      Run(LegacySetupAndPlan(ws, bakedPr, planFile, mkdir), ctx.(prNumber := pr), o)
    ensures Run(LegacySetupAndPlan(ws, bakedPr, planFile, mkdir), ctx, o) == Skipped <==>
      !IsMainline(ctx.branch) && bakedPr == ""
  {
  }

  /** The earlier destroy step has no production check: "prod-east" is
      destroyed on destroy-all without confirmation, where the improved
      step fails; on cleanup it does not run at all. */
  lemma LegacyDestroysProductionUnconfirmed(o: Oracle)
    requires Prepare(o) == None
    requires exists j :: 0 <= j < |o.selects| && o.selects[j]
    ensures Run(LegacyDestroy("prod-east"), TriggerContext("destroy-all", "", ""), o) == Invokes(DestroyAll)
    ensures Run(WorkspaceDestroy("prod-east"), TriggerContext("destroy-all", "", ""), o) == Fatal(ProductionUnconfirmed)
    ensures Run(LegacyDestroy("prod-east"), TriggerContext("cleanup", "", ""), o) == Skipped
  {
    ProdEastNeedsConfirmation(o);
    var j :| 0 <= j < |o.selects| && o.selects[j];
    assert FirstSelect(o.selects) <= j;
  }

  /** However long the select keeps failing, the earlier scripts keep
      waiting: the step neither fails nor proceeds. */
  lemma LegacyWaitsForever(script: Script, ctx: TriggerContext, o: Oracle, n: nat)
    requires script.LegacySetupAndPlan? || script.LegacyApply? || script.LegacyDestroy?
    requires o.selects == seq(n, _ => false)
    ensures Run(script, ctx, o) == Skipped || Run(script, ctx, o) == StillWaiting
  {
    LegacyWaitUnbounded(n);
  }
}
