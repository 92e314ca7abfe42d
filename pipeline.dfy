/** The build step as the three generators emit it, and the two graph
    properties a step list should have: every declared `waitFor` entry names a step
    emitted earlier, and no two steps share an id. */
module Pipeline {
  import opened Common
  import opened Scripts

  /** One entry of the `steps` list: `id`, `name` (the container image),
      `entrypoint`, the optional `waitFor` list, the optional `timeout`, and
      the script passed as the `-c` argument. An absent key is None. */
  datatype Step = Step(
    id: string,
    image: string,
    entrypoint: string,
    waitFor: Option<seq<string>>,
    timeout: Option<string>,
    script: Script)

  const TerraformRepository: string := "hashicorp/terraform:"

  /** The terraform image for a version tag. */
  function TerraformImage(version: string): (image: string)
    ensures |image| == |TerraformRepository| + |version|
    ensures image[..|TerraformRepository|] == TerraformRepository
    ensures image[|TerraformRepository|..] == version
  {
    TerraformRepository + version
  }

  /** The ids a step lists in `waitFor`; an absent key lists none. How the
      runner orders a step that declares no `waitFor` is not modelled. */
  function Predecessors(s: Step): (ids: seq<string>)
    ensures s.waitFor.None? ==> ids == []
    ensures s.waitFor.Some? ==> ids == s.waitFor.value
  {
    if s.waitFor.Some? then s.waitFor.value else []
  }

  /** Declared edges only point back to steps already emitted: the declared
      dependency graph is acyclic by construction. */
  predicate WaitsOnlyBackwards(steps: seq<Step>) {
    forall i, k :: 0 <= i < |steps| && 0 <= k < |Predecessors(steps[i])| ==>
      exists j :: 0 <= j < i && steps[j].id == Predecessors(steps[i])[k]
  }

  predicate UniqueIds(steps: seq<Step>) {
    forall i, j :: 0 <= i < j < |steps| ==> steps[i].id != steps[j].id
  }

  /** With unique ids, a backwards-only list is topologically ordered: the
      step an edge names sits strictly before the step that waits for it, so
      no step can (transitively) wait for itself. */
  lemma EdgesAreTopological(steps: seq<Step>, i: nat, k: nat, j: nat)
    requires WaitsOnlyBackwards(steps) && UniqueIds(steps)
    requires i < |steps| && k < |Predecessors(steps[i])| && j < |steps|
    requires steps[j].id == Predecessors(steps[i])[k]
    ensures j < i
  {
  }
}
