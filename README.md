# Cloud Build step-graph generator, modelled in Dafny

The repository generates a Google Cloud Build configuration for a Terraform
pipeline that runs over several Terraform workspaces. It has three
generators:

- `generate_cloudbuild_improved.py`. It validates a Terraform version and
  sanitises every workspace name into a safe slot name. It emits a banner
  step, four steps per workspace (setup, plan, apply, destroy) and a summary
  step that waits for every apply. Each workspace step carries a bash script.
  The script checks a branch guard against the runtime trigger, retries
  `terraform init` and the workspace-lock acquisition, and then runs the
  step's own checks.
- `generate_cloudbuild.py` and `generate_cloudbuild.go`, the earlier versions.
  They emit a banner step and three steps per workspace: setup-and-plan,
  apply and destroy. The `_WORKSPACES` value is split on commas and not
  cleaned. The pull-request number is read when the file is generated and
  copied into the scripts. The wait for the workspace lock has no bound.

The model has nine modules:

| module | file | contents |
|---|---|---|
| `Common` | `common.dfy` | ASCII `strip`, comma `split`/`join`, substring containment, environment lookup |
| `Validation` | `validation.dfy` | version check, name sanitiser, list validation, how `main` parses `WORKSPACES` |
| `BranchGate` | `branch_gate.dfy` | trigger context and the branch guards the scripts test |
| `LockProtocol` | `lock_protocol.dfy` | the retry loops as imperative methods, each proved against a specification function: `init_terraform`, `setup_workspace` with its capped doubling back-off, the earlier unbounded wait |
| `Scripts` | `scripts.dfy` | what each step's script does for a given trigger context and given terraform answers |
| `Pipeline` | `pipeline.dfy` | the step record and the two graph properties (edges point backwards, ids are unique) |
| `ImprovedGenerator`, `LegacyPython`, `LegacyGo` | `improved_generator.dfy`, `legacy_python.dfy`, `legacy_go.dfy` | the three generators |

The shell text inside each step is not modelled character by character. A
step carries a `Scripts.Script` value that names the script and its
parameters. `Scripts.Run` gives that script's control flow: skipped (exit 0),
fatal (exit 1, with a reason), still waiting, or reaching its terraform
action. Calls to terraform, the clock and the file system become parameters
(`Scripts.Oracle`, `LockProtocol.Round`). The process environment becomes a
`map<string, string>`.

Several behaviours of the code are easy to miss, and the model states each
as the code has it:

- **Slot collisions.** Two raw names that sanitise to the same slot (for
  example `dev` and `Dev`) are not rejected, although step ids must be unique. The generated list then holds two
  steps with the same id (`ImprovedGenerator.CollidingNamesAccepted`,
  `ImprovedGenerator.UniqueIdsIffDistinct`).
- **Empty workspace list.** `generate_cloudbuild_config` accepts an empty
  list. Only `main` rejects one (`ImprovedGenerator.EmptyListAccepted`,
  `Validation.ParseWorkspaceList`).
- **Underscores.** The sanitiser keeps `_`, and the final pattern then rejects
  it. So `my_ws` is an error, not a renamed slot
  (`Validation.UnderscoreRejected`).
- **Empty environment values.** Python's `os.environ.get` and `os.getenv`
  return an empty value as it is. Go's `getEnv` replaces an empty value with
  the default (`LegacyGo.GetEnvVersusEnvironGet`,
  `LegacyGo.EmptyWorkspacesDiffer`).
- **Version regex.** Python's `$` also matches before one final newline, so
  `"1.8\n"` is an accepted version (`Validation.ValidateTfVersion`).
- **Destroy checks.** The improved destroy script checks the branch a second
  time, but the outer guard has already required the same condition, so that
  check never fails. The earlier destroy step has no production check and
  runs only on `destroy-all` (`Scripts.DestroyGate`,
  `Scripts.LegacyDestroysProductionUnconfirmed`).

## Model

| member | source | states |
|---|---|---|
| Common.Strip | generate_cloudbuild_improved.py:48 | `str.strip()` on ASCII whitespace: never longer than its input; its meaning is stated by StripSpec |
| Common.StripSpec | generate_cloudbuild_improved.py:48 | the result drops exactly the leading and trailing ASCII whitespace runs; it is empty iff the input is all whitespace |
| Common.StripKeepsTrimmed | generate_cloudbuild_improved.py:48 | a string that starts and ends with a non-space character is its own strip |
| Common.Split | generate_cloudbuild.py:5 | splitting on a separator gives at least one field and no field contains the separator |
| Common.JoinSplit | generate_cloudbuild.go:40 | joining the fields of a split with the same separator gives back the input |
| Common.SplitJoin | generate_cloudbuild_improved.py:514 | splitting a join of separator-free fields gives back the fields |
| Common.StripPadded | generate_cloudbuild_improved.py:514 | whitespace around a trimmed core is removed exactly |
| Validation.ValidateTfVersion | generate_cloudbuild_improved.py:36-40 | accepted iff the version is two or three dot-separated digit runs, optionally followed by one newline; an accepted version is returned unchanged; a rejected one names the input |
| Validation.VersionCheckMatchesPattern | generate_cloudbuild_improved.py:38 | the split-based matcher accepts exactly the language of the version regex |
| Validation.TwoPartVersionAccepted | generate_cloudbuild_improved.py:38 | "1.8" is accepted |
| Validation.ThreePartVersionAccepted | generate_cloudbuild_improved.py:38 | a three-part version is accepted |
| Validation.TrailingNewlineAccepted | generate_cloudbuild_improved.py:38 | a version followed by one newline is accepted |
| Validation.SingleNumberRejected | generate_cloudbuild_improved.py:38-39 | a bare number is rejected |
| Validation.FourPartVersionRejected | generate_cloudbuild_improved.py:38-39 | a four-part version is rejected |
| Validation.PrefixedVersionRejected | generate_cloudbuild_improved.py:38-39 | a "v"-prefixed version is rejected |
| Validation.ToLower | generate_cloudbuild_improved.py:48 | an upper-case ASCII letter becomes the lower-case letter 32 code points on; every other character is unchanged |
| Validation.SanitiseChar | generate_cloudbuild_improved.py:48 | lower-cases, then replaces every character outside letters, digits, `-` and `_` with `-`: upper-case letters become lower-case, lower-case letters, digits, `-` and `_` are kept, anything else becomes `-`; every result is a lower-case letter, digit, `-` or `_` |
| Validation.Sanitise | generate_cloudbuild_improved.py:48-50 | the sanitised name is never longer than 63 characters; its meaning is stated by SanitiseSpec |
| Validation.SanitiseSpec | generate_cloudbuild_improved.py:48-50 | the sanitised name is as long as the stripped name, cut to at most 63 characters, and each of its characters is the mapped character at the same position of the stripped name |
| Validation.ValidateWorkspaceName | generate_cloudbuild_improved.py:42-55 | the EmptyWorkspaceName error is returned exactly for an empty name; an accepted name has at most 63 characters; its meaning is stated by ValidateWorkspaceNameSpec |
| Validation.ValidateWorkspaceNameSpec | generate_cloudbuild_improved.py:42-55 | an empty raw name is an EmptyWorkspaceName error; otherwise it succeeds iff the sanitised name matches the slot pattern; a result is always a slot name equal to the sanitised input; a failure carries the sanitised name |
| Validation.SlotNamesAreFixedPoints | generate_cloudbuild_improved.py:52-55 | a name validates to itself iff it is already a slot name |
| Validation.ValidateIdempotent | generate_cloudbuild_improved.py:42-55 | validating a validated name changes nothing |
| Validation.UnderscoreRejected | generate_cloudbuild_improved.py:48-53 | an underscore inside the kept 63 characters always makes validation fail |
| Validation.TruncationToSeparatorRejected | generate_cloudbuild_improved.py:49-53 | a name cut at 63 characters right after a `-` or `_` is rejected |
| Validation.StagingExample | generate_cloudbuild_improved.py:48-55 | "Staging 1" becomes "staging-1" |
| Validation.ValidationSeesStrippedName | generate_cloudbuild_improved.py:48 | two non-empty names with the same stripped form validate alike |
| Validation.PaddedNameTrimmed | generate_cloudbuild_improved.py:48 | "  dev  " becomes "dev" |
| Validation.UnderscoreExample | generate_cloudbuild_improved.py:48-53 | "my_ws" is rejected |
| Validation.BlankNameRejected | generate_cloudbuild_improved.py:44-53 | a blank name passes the emptiness test and fails the pattern with sanitised name "" |
| Validation.CheckAllSpec | generate_cloudbuild_improved.py:465 | for any per-name check, the list comprehension succeeds iff the check accepts every name; success holds each accepted value in order; failure carries the error of the first rejected name |
| Validation.CheckAllPrefixFailure | generate_cloudbuild_improved.py:465 | for any per-name check, a failing prefix makes the whole list fail with the prefix's error |
| Validation.ValidateAll | generate_cloudbuild_improved.py:465 | a validated list has one slot per input name |
| Validation.ValidateAllSpec | generate_cloudbuild_improved.py:465 | the list validates iff every name does; success gives each name's sanitised slot in order; failure carries the error of the first invalid name |
| Validation.ValidateAllPrefixFailure | generate_cloudbuild_improved.py:465 | once a prefix of the list fails, the whole list fails with the same error |
| Validation.ValidateAllIdempotent | generate_cloudbuild_improved.py:465-466 | re-validating validated names, as generate_steps does, changes nothing |
| Validation.StrippedNonEmptySpec | generate_cloudbuild_improved.py:514 | every kept entry is non-empty and stripped; the result is empty iff every field is blank |
| Validation.StrippedNonEmptyAppend | generate_cloudbuild_improved.py:514 | filtering a concatenation of field lists is the concatenation of the filtered lists |
| Validation.StrippedKeepsField | generate_cloudbuild_improved.py:514 | a non-blank field is kept, stripped, right after the entries kept from the fields before it |
| Validation.ParseWorkspaceList | generate_cloudbuild_improved.py:508-516 | MissingWorkspaces is returned exactly for an empty value; on success the list is non-empty and equals the stripped non-blank comma fields |
| Validation.ParseWorkspaceListSpec | generate_cloudbuild_improved.py:508-516 | a non-empty value is accepted iff some comma field is non-blank, and is otherwise refused with NoWorkspaces; every accepted entry is non-empty and stripped |
| Validation.ExampleListSplits | generate_cloudbuild_improved.py:514 | "dev, Staging 1,," splits on commas into "dev", " Staging 1", "" and "" |
| Validation.ExampleFieldsStrip | generate_cloudbuild_improved.py:514 | stripping those fields and dropping the blank ones gives "dev" and "Staging 1" |
| Validation.ParseWorkspaceListExample | generate_cloudbuild_improved.py:514 | "dev, Staging 1,," gives ["dev", "Staging 1"] |
| Validation.BlankWorkspaceListRejected | generate_cloudbuild_improved.py:515-516 | " , " gives NoWorkspaces |
| BranchGate.IsMainline | generate_cloudbuild_improved.py:406 | the branch is main or master |
| BranchGate.SetupPlanPermitted | generate_cloudbuild_improved.py:364 | the improved setup and plan guard: a mainline branch, or a non-empty pull-request number read at run time |
| BranchGate.ApplyPermitted | generate_cloudbuild_improved.py:406 | the apply guard of all three generators: a mainline branch |
| BranchGate.DestroyPermitted | generate_cloudbuild_improved.py:426 | the improved destroy guard: the branch is destroy-all or cleanup |
| BranchGate.IsProductionName | generate_cloudbuild_improved.py:277 | the name contains "prod" or "production" |
| BranchGate.ProductionConfirmed | generate_cloudbuild_improved.py:277-281 | a production-like name needs a non-empty confirmation; any other name needs none |
| BranchGate.LegacySetupPlanPermitted | generate_cloudbuild.py:31 | the earlier setup-and-plan guard: a mainline branch, or a pull-request number baked in at generation time |
| BranchGate.LegacyDestroyPermitted | generate_cloudbuild.py:89 | the earlier destroy guard: the branch is destroy-all |
| BranchGate.ProductionMeansProd | generate_cloudbuild_improved.py:277 | the production test holds iff the name contains "prod"; the "production" alternative adds nothing |
| BranchGate.GateClassesConsistent | generate_cloudbuild_improved.py:364-426 | no branch allows both apply and destroy; every branch allowing apply allows setup and plan; the earlier destroy branch is one of the improved ones |
| LockProtocol.FirstLockSuccess | generate_cloudbuild_improved.py:68-72 | the number of rounds the loop tries before stopping lies between the starting round and 10 |
| LockProtocol.FirstLockSuccessSpec | generate_cloudbuild_improved.py:72-85 | no round before the stopping one succeeds, and a stop before round 10 is at a round whose select or create succeeds |
| LockProtocol.NextWait | generate_cloudbuild_improved.py:91-94 | the next wait is the current one doubled, or 120 when the doubled value exceeds 120 |
| LockProtocol.WaitDoublesUpToCap | generate_cloudbuild_improved.py:91-94 | each wait is twice the previous, capped at 120 |
| LockProtocol.WaitMonotone | generate_cloudbuild_improved.py:91-94 | a later round never waits less than an earlier one |
| LockProtocol.LockCalls | generate_cloudbuild_improved.py:72-95 | the specification of the loop's calls: select, create and the capped wait for each failed round before the stopping one, then the select (and create, when select failed) that succeeded |
| LockProtocol.LockOutcome | generate_cloudbuild_improved.py:76-100 | the specification of the loop's result: the lock is acquired in round k+1 of the 10 (created when select failed), or the loop gives up; an acquired round lies between 1 and 10 |
| LockProtocol.SetupWorkspace | generate_cloudbuild_improved.py:63-101 | the loop's terraform calls and sleeps and its outcome equal the specification functions LockCalls and LockOutcome |
| LockProtocol.LockSleeps | generate_cloudbuild_improved.py:87-94 | the sleeps of the loop are exactly the waits of the failed rounds before the stopping one, in round order |
| LockProtocol.WaitSchedule | generate_cloudbuild_improved.py:65-94 | the first wait is 5 s, waits never decrease, never exceed 120 s, and are 120 s from the sixth on |
| LockProtocol.LockSleepSchedule | generate_cloudbuild_improved.py:87-94 | one sleep per failed round; the k-th sleep is the capped doubling value; the sleeps never decrease and never exceed the cap |
| LockProtocol.LockExhaustion | generate_cloudbuild_improved.py:72-100 | the loop gives up iff all ten rounds fail, and then it has slept 5, 10, 20, 40, 80 and five times 120 seconds |
| LockProtocol.SelectSkipsCreate | generate_cloudbuild_improved.py:75-85 | create is tried only in rounds whose select failed; the select count equals the round count; the last call is the one that succeeded |
| LockProtocol.InitCalls | generate_cloudbuild_improved.py:108-122 | the specification of the init loop's calls: failed inits each followed by a 10 s pause, ending in an init call |
| LockProtocol.InitTerraform | generate_cloudbuild_improved.py:104-126 | the loop's calls and its success equal the specification functions InitCalls and InitSucceeds |
| LockProtocol.FirstInitSuccess | generate_cloudbuild_improved.py:105-108 | the number of init attempts made lies between the starting attempt and 3 |
| LockProtocol.FirstInitSuccessSpec | generate_cloudbuild_improved.py:108-114 | no attempt before the stopping one succeeds, and a stop before the third is at a successful init |
| LockProtocol.InitRetryShape | generate_cloudbuild_improved.py:104-126 | at most three init attempts, the last call is an init, every pause lasts 10 s and is followed by another attempt; success iff some attempt of the three succeeds |
| LockProtocol.FirstSelect | generate_cloudbuild.py:39-42 | the index of the first successful select, or the window length when none succeeds |
| LockProtocol.FirstSelectIsFirst | generate_cloudbuild.py:39-42 | an index before which every select fails and at which one succeeds (or the window ends) is the first success |
| LockProtocol.WaitForWorkspace | generate_cloudbuild.go:59-62 | the wait ends iff some select succeeds; it sleeps 10 s once per failed select before the first success |
| LockProtocol.LegacyWaitUnbounded | generate_cloudbuild.py:39-42 | however many selects fail, the wait has not ended |
| Scripts.PlanPath | generate_cloudbuild_improved.py:351 | the plan file is the fixed build prefix followed by the workspace name |
| Scripts.PlanPathInjective | generate_cloudbuild_improved.py:351 | two workspaces share a plan file iff they are the same workspace |
| Scripts.Run | generate_cloudbuild_improved.py:364-432 | each script's control flow for a trigger context and terraform's answers: only improved workspace scripts fail a check, only earlier ones wait without bound, and an improved workspace script reaches its commands only after both retry loops succeed |
| Scripts.Prepare | generate_cloudbuild_improved.py:128-130 | the preamble passes iff init succeeds and the lock is acquired; a failed init is reported before the lock is tried |
| Scripts.ExitStatus | generate_cloudbuild_improved.py:364-370 | a skipped step exits 0 and a failed check or retry loop exits 1; an unbounded wait has no status yet; a step that reaches its commands has the status of those commands, which is not modelled |
| Scripts.SetupPlanGate | generate_cloudbuild_improved.py:364-391 | setup and plan reach their action iff the branch is main or master or the runtime PR number is non-empty, and both retry loops succeed; they are skipped iff the guard fails; a failed init is fatal |
| Scripts.ApplyGate | generate_cloudbuild_improved.py:406-412 | apply reaches `terraform apply` iff the branch is main or master, the preamble passes and the plan file exists; a missing plan is fatal; any other branch skips |
| Scripts.DestroyGate | generate_cloudbuild_improved.py:260-282 | destroy runs iff the branch is destroy-all or cleanup, the preamble passes and a production-like name has a non-empty confirmation; an unconfirmed production destroy is fatal; the inner branch check never fires |
| Scripts.LockExhaustionIsFatal | generate_cloudbuild_improved.py:99-100 | an exhausted lock loop makes every guarded improved step either skip or exit 1, never reach its action |
| Scripts.FeatureBranchPermitsNothing | generate_cloudbuild_improved.py:364-432 | on a feature branch without a PR number every workspace step is skipped |
| Scripts.MainPermitsAllButDestroy | generate_cloudbuild_improved.py:364-432 | on main, setup, plan and apply reach their actions and destroy is skipped |
| Scripts.DestroyAllNonProduction | generate_cloudbuild_improved.py:270-282 | on destroy-all a name without "prod" is destroyed without confirmation |
| Scripts.ProdEastNeedsConfirmation | generate_cloudbuild_improved.py:277-281 | on destroy-all "prod-east" fails without confirmation and is destroyed with one |
| Scripts.LegacyNeverFatal | generate_cloudbuild.py:29-108 | no check in an earlier script fails the step: it skips, polls, or reaches its terraform commands, whose status is then the step's; it polls only while no select has succeeded |
| Scripts.LegacyApplyDestroyGates | generate_cloudbuild.go:80-107 | the earlier apply is skipped iff the branch is not main or master, and runs `terraform apply` iff it is and a select succeeded; the earlier destroy likewise with destroy-all |
| Scripts.LegacySetupPlanGate | generate_cloudbuild.py:31-45 | the earlier setup-and-plan validates and plans iff its generation-time guard passes and a select succeeded |
| Scripts.LegacyIgnoresRuntimePr | generate_cloudbuild.py:31 | the earlier setup-and-plan guard depends on the PR number copied in at generation time, not on the runtime one |
| Scripts.LegacyDestroysProductionUnconfirmed | generate_cloudbuild.py:89-104 | the earlier destroy removes "prod-east" on destroy-all without confirmation, where the improved one fails; on cleanup it is skipped |
| Scripts.LegacyWaitsForever | generate_cloudbuild.py:39-42 | while selects keep failing, an earlier step is only ever skipped or still waiting |
| Pipeline.TerraformImage | generate_cloudbuild_improved.py:356 | the image is the terraform repository followed by the version tag |
| Pipeline.Predecessors | generate_cloudbuild_improved.py:380 | the ids a step declares in `waitFor`; none when the key is absent |
| Pipeline.EdgesAreTopological | generate_cloudbuild_improved.py:380-442 | in a list whose edges point backwards and whose ids are unique, the step an edge names sits strictly earlier |
| ImprovedGenerator.NewGenerator | generate_cloudbuild_improved.py:26-40 | construction succeeds iff the version is valid, keeping version and timeout; otherwise it fails with InvalidTfVersion |
| ImprovedGenerator.ApplyIds | generate_cloudbuild_improved.py:442 | one apply id per name, in order |
| ImprovedGenerator.GenerateSteps | generate_cloudbuild_improved.py:317-460 | succeeds iff every name validates; the result is the banner, four steps per sanitised name and the summary; a failure is the first invalid name's error |
| ImprovedGenerator.GenerateCloudbuildConfig | generate_cloudbuild_improved.py:462-497 | the configuration equals Configure on the same inputs |
| ImprovedGenerator.GenerateFromEnvironment | generate_cloudbuild_improved.py:504-523 | missing or blank WORKSPACES fails, a bad TF_VERSION fails, otherwise the result is the configuration of the parsed names; a success has at least six steps |
| ImprovedGenerator.PipelineSteps | generate_cloudbuild_improved.py:317-460 | the step list generate_steps builds: 4N+2 steps for N names; its shape is stated by PipelineShape |
| ImprovedGenerator.Configure | generate_cloudbuild_improved.py:462-497 | the configuration value: it succeeds exactly when validation of the names does, and fails with validation's error; its contents are stated by ConfigureSpec |
| ImprovedGenerator.PipelineEnds | generate_cloudbuild_improved.py:322-458 | 4N+2 steps, the banner first and the summary last |
| ImprovedGenerator.PipelineStepAt | generate_cloudbuild_improved.py:349-436 | position 1+4i+k holds step k of workspace i |
| ImprovedGenerator.PipelineShape | generate_cloudbuild_improved.py:317-460 | for N names, 4N+2 steps: the banner, then each workspace's setup, plan, apply and destroy in input order, then the summary |
| ImprovedGenerator.WorkspaceEdges | generate_cloudbuild_improved.py:354-436 | setup and destroy declare no `waitFor`, plan lists only its own setup, apply only its own plan, and plan and apply share the workspace's plan file |
| ImprovedGenerator.SummaryFanIn | generate_cloudbuild_improved.py:439-443 | the banner declares no `waitFor`; the summary lists exactly the apply steps, in input order |
| ImprovedGenerator.PipelineWaitsOnlyBackwards | generate_cloudbuild_improved.py:380-442 | every `waitFor` entry names an earlier step, so the graph is acyclic |
| ImprovedGenerator.PipelineIds | generate_cloudbuild_improved.py:355-441 | the id at each position is the id of that position's role and workspace |
| ImprovedGenerator.IdsDetermineSlot | generate_cloudbuild_improved.py:355-420 | two positions with the same id are workspace steps of the same role whose sanitised names are equal |
| ImprovedGenerator.UniqueIdsIffDistinct | generate_cloudbuild_improved.py:355-420 | step ids are unique iff the sanitised names are distinct |
| ImprovedGenerator.ConfigureSpec | generate_cloudbuild_improved.py:462-497 | the configuration succeeds iff every name validates; then it holds 4N+2 steps with the generator's timeout and version and the sanitised setup ids; otherwise it fails with the first invalid name's error |
| ImprovedGenerator.ConfigureIdempotent | generate_cloudbuild_improved.py:465-466 | configuring from already-sanitised names gives the same configuration |
| ImprovedGenerator.EmptyListAccepted | generate_cloudbuild_improved.py:462-466 | an empty list gives the banner and a summary with an empty `waitFor` |
| ImprovedGenerator.CollidingNamesAccepted | generate_cloudbuild_improved.py:465 | "dev" and "Dev" are both accepted and give two steps with id "setup-dev" |
| ImprovedGenerator.ExampleConfigure | generate_cloudbuild_improved.py:465-466 | ["dev", "Staging 1"] is configured from the slots dev and staging-1 |
| ImprovedGenerator.ExampleSteps | generate_cloudbuild_improved.py:317-460 | the slots dev and staging-1 give 10 steps; step 1 is setup-dev, step 5 setup-staging-1, step 7 apply-staging-1 waiting for plan-staging-1 with the generator's image; the summary waits for both applies |
| ImprovedGenerator.ExampleRun | generate_cloudbuild_improved.py:462-497 | configuring ["dev", "Staging 1"] succeeds with the same ten steps and edges |
| ImprovedGenerator.EndToEndExample | generate_cloudbuild_improved.py:504-523 | a generator built from version 1.8 keeps that version and the default timeout, configures ["dev", "Staging 1"] successfully, and apply-staging-1 runs the 1.8 image |
| LegacyPython.ReadSettings | generate_cloudbuild.py:5-7 | the workspace list always has at least one entry |
| LegacyPython.LegacySteps | generate_cloudbuild.py:9-111 | the `steps` list: the banner and three steps per workspace, 1+3N in all |
| LegacyPython.GenerateCloudbuild | generate_cloudbuild.py:4-111 | the emitted steps are the banner plus three steps per comma field of the environment's settings |
| LegacyPython.StepsFor | generate_cloudbuild.py:9-111 | the loop builds exactly the banner and three steps per workspace |
| LegacyPython.LegacyStepAt | generate_cloudbuild.py:9-111 | 1+3N steps, the banner first, step k of workspace i at 1+3i+k |
| LegacyPython.LegacyEdges | generate_cloudbuild.py:21-111 | apply lists only its own setup-and-plan, the others declare no `waitFor`; all three use the version's image; plan and apply share the plan file; the setup-and-plan script does not create the plan directory; no timeouts |
| LegacyPython.LegacyWaitsOnlyBackwards | generate_cloudbuild.py:55 | every `waitFor` entry names an earlier step |
| LegacyPython.DefaultWorkspaceList | generate_cloudbuild.py:5 | the default list "dev,staging,gitops" splits into dev, staging and gitops |
| LegacyPython.DefaultSettings | generate_cloudbuild.py:5-7 | with nothing set: dev, staging, gitops, version 1.8, no PR number, 10 steps |
| LegacyPython.EmptyWorkspacesVariable | generate_cloudbuild.py:5 | `_WORKSPACES=""` gives one workspace named "", so 4 steps and the id "setup and plan " |
| LegacyPython.NamesNotTrimmed | generate_cloudbuild.py:5 | "dev, qa" gives the names "dev" and " qa" |
| LegacyGo.GetEnv | generate_cloudbuild.go:150-156 | a set, non-empty value is returned; an unset or empty one gives the default |
| LegacyGo.ReadSettings | generate_cloudbuild.go:24-26 | the workspace list always has at least one entry |
| LegacyGo.Serialise | generate_cloudbuild.go:11-17 | an empty `WaitFor` is left out of the output, a non-empty one is kept as it is |
| LegacyGo.GoSteps | generate_cloudbuild.go:28-129 | the Go step list: the banner and three appended steps per workspace, 1+3N in all |
| LegacyGo.BuildSteps | generate_cloudbuild.go:23-129 | the emitted steps are the banner plus three appended steps per comma field |
| LegacyGo.StepsFor | generate_cloudbuild.go:28-129 | the loop builds exactly the banner and three steps per workspace |
| LegacyGo.GoMatchesPython | generate_cloudbuild.go:28-129 | for the same settings the serialised Go steps equal the Python steps except for the entrypoints and one script: the banner runs under bash rather than sh, setup-and-plan under sh rather than bash, and only the Go setup-and-plan script first creates the plan directory (generate_cloudbuild.go:52); every other script is the same |
| LegacyGo.WorkspaceStepMatches | generate_cloudbuild.go:40-52 | the Go and Python steps of one workspace differ only in entrypoint and script; the scripts differ only on setup-and-plan, where the Go one creates the plan directory and the Python one does not |
| LegacyGo.GetEnvVersusEnvironGet | generate_cloudbuild.go:150-156 | the Go and Python lookups differ exactly on a variable set to "" with a non-empty default |
| LegacyGo.EmptyWorkspacesDiffer | generate_cloudbuild.go:24 | `_WORKSPACES=""` gives 10 Go steps (the defaults) but 4 Python steps |

## Left out

- Writing the YAML file is not modelled. That covers `yaml.dump` and `yaml.Marshal`, the file writes, logging, `print`/`fmt.Println`, the `__main__` handling and `sys.exit`: all of them are output. The model stops at the step list or configuration value.
- The terraform commands themselves are not modelled. That covers validate, `fmt -check`, tfsec, plan with `-detailed-exitcode` and its exit-code `case`, the state backups, `date`, `tee`/`grep` and the status files. The model names only the action a script reaches (`Scripts.TfAction`); what terraform then does is outside it.
- The shell behaviour of `set -euo pipefail` is not modelled beyond the retry loops and checks listed above. A command that fails after them ends the step inside terraform's own work, which is not modelled.
- The commands of the banner and summary scripts are not modelled, and neither is their exit status. Both echo build facts and read or write a status file. The improved banner is a plain string rather than a formatted one, so `${{_PR_NUMBER:-'N/A'}}` and `${{_WORKSPACES}}` (generate_cloudbuild_improved.py:332, 342) reach the shell with doubled braces, which bash does not accept as a parameter expansion; what the runner's substitution and bash then make of the step is not modelled.
- The `availableSecrets` and `artifacts` blocks of the configuration are constants with no control flow, so they are left out of `ImprovedGenerator.Config`.
- The `isinstance(workspace, str)` test is not modelled: every name has type `string`.
- The runner's implicit ordering is not modelled. Cloud Build starts a step that declares no `waitFor` only after every earlier step, and only `waitFor: ['-']` starts one at once. The graph properties are about the declared `waitFor` edges alone. The enforcement of step timeouts is not modelled either. Timeouts are kept as the strings the generator writes.
- The earlier scripts' `terraform init` and `workspace new || workspace select` lines run without `set -e` and do not change control flow, so only the wait loop after them is modelled.
- Whether the earlier setup-and-plan script creates the plan directory `/workspace/$BUILD_ID` is recorded (`createsPlanDir`: the Go script does, the Python one does not), but what `terraform plan -out` does when the directory is missing is not modelled.
- LockProtocol.WaitForWorkspace: the earlier unbounded wait is modelled over a finite window of observed select outcomes. Running out of the window without a success is `StillWaiting`, not termination.
- The model treats non-ASCII whitespace, letters and digits as ordinary characters, where Python's `str.strip`, `str.lower` and `\d` recognise Unicode ones.
- Sleeping itself is left out: a sleep is recorded as a `Sleep(seconds)` call, and no clock is modelled.
- Scripts.ExitStatus: the status of a step that reaches its commands (terraform's, or the banner's and summary's echo commands) is left to those commands. So `terraform apply` failing (generate_cloudbuild_improved.py:248-256) is outside the model.
