/** The trigger context each generated step reads at run time, and the
    guard predicates the step scripts test against it. The improved
    generator reads the pull-request number at run time; the two earlier
    generators bake the value they saw at generation time into the script. */
module BranchGate {
  import opened Common

  /** The runtime facts a step sees: $BRANCH_NAME, ${_PR_NUMBER:-} and
      ${CONFIRM_DESTROY_PROD:-} (an unset variable reads as ""). */
  datatype TriggerContext = TriggerContext(branch: string, prNumber: string, confirmDestroyProd: string)

  predicate IsMainline(branch: string) {
    branch == "main" || branch == "master"
  }

  /** Guard of the improved setup and plan steps. */
  predicate SetupPlanPermitted(ctx: TriggerContext) {
    IsMainline(ctx.branch) || ctx.prNumber != ""
  }

  /** Guard of the apply step, the same in all three generators. */
  predicate ApplyPermitted(ctx: TriggerContext) {
    IsMainline(ctx.branch)
  }

  /** Guard of the improved destroy step (outer guard and the script's own
      safety check test the same thing). */
  predicate DestroyPermitted(ctx: TriggerContext) {
    ctx.branch == "destroy-all" || ctx.branch == "cleanup"
  }

  /** The production test of the destroy script: the name contains "prod"
      or contains "production" (generate_cloudbuild_improved.py:277). */
  predicate IsProductionName(ws: string) {
    Contains(ws, "prod") || Contains(ws, "production")
  }

  /** Destroy's second condition: a production-like workspace needs a
      non-empty confirmation. */
  predicate ProductionConfirmed(ctx: TriggerContext, ws: string) {
    !IsProductionName(ws) || ctx.confirmDestroyProd != ""
  }

  /** Guard of the earlier generators' "setup and plan" step: the PR number
      is the one read when the pipeline was generated. */
  predicate LegacySetupPlanPermitted(ctx: TriggerContext, bakedPr: string) {
    IsMainline(ctx.branch) || bakedPr != ""
  }

  /** Guard of the earlier generators' destroy step. */
  predicate LegacyDestroyPermitted(ctx: TriggerContext) {
    ctx.branch == "destroy-all"
  }

  /** The second alternative of the production test adds nothing: a name
      containing "production" contains "prod". */
  lemma ProductionMeansProd(ws: string)
    ensures IsProductionName(ws) <==> Contains(ws, "prod")
  {
    if Contains(ws, "production") {
      assert "prod" <= "production";
      ContainsPrefix(ws, "production", "prod");
    }
  }

  /** No trigger context allows both apply and destroy, and every context
      that allows apply also allows the setup and plan it depends on. */
  lemma GateClassesConsistent(ctx: TriggerContext)
    ensures !(ApplyPermitted(ctx) && DestroyPermitted(ctx))
    ensures ApplyPermitted(ctx) ==> SetupPlanPermitted(ctx)
    ensures LegacyDestroyPermitted(ctx) ==> DestroyPermitted(ctx)
  {
  }
}
