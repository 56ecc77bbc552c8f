/**
 * The flow list, what the server accepts of it, and the graph it spans
 * (ui/src/api/flows.ts, crates/takuto-core/src/db/user_work_item_flows.rs).
 */
module Flows {
  import opened Prelude
  import opened Text
  import opened Graphs
  import opened Slugs
  import CycleCheck

  datatype Skill = Skill(name: string, args: seq<string>)
  datatype Step = Step(name: string, prompt: string, skills: seq<Skill>)
  datatype Flow = Flow(name: Name, dependsOn: seq<Name>, steps: seq<Step>)

  const MAX_FLOWS: nat := 20

  predicate StepOk(step: Step)
  {
    !Blank(step.name) && !Blank(step.prompt) && forall k :: 0 <= k < |step.skills| ==> !Blank(step.skills[k].name)
  }

  predicate StepsOk(steps: seq<Step>)
  {
    steps != [] && forall k :: 0 <= k < |steps| ==> StepOk(steps[k])
  }

  function Names(flows: seq<Flow>): (names: seq<Name>)
    ensures |names| == |flows| && forall k :: 0 <= k < |flows| ==> names[k] == flows[k].name
  {
    seq(|flows|, k requires 0 <= k < |flows| => flows[k].name)
  }

  function Nodes(flows: seq<Flow>): (nodes: seq<Node>)
    ensures |nodes| == |flows|
    ensures forall k :: 0 <= k < |flows| ==> nodes[k] == Node(flows[k].name, flows[k].dependsOn)
  {
    seq(|flows|, k requires 0 <= k < |flows| => Node(flows[k].name, flows[k].dependsOn))
  }

  function FlowGraph(flows: seq<Flow>): Graph { GraphOf(Nodes(flows)) }

  /** No two flows share a slug, and every name has one. Names then differ as well. */
  ghost predicate DistinctSlugs(flows: seq<Flow>)
  {
    && (forall i {:trigger SlugOf(flows[i].name)} :: 0 <= i < |flows| ==> SlugOf(flows[i].name) != "")
    && (forall i, j {:trigger SlugOf(flows[i].name), SlugOf(flows[j].name)} ::
          0 <= i < j < |flows| ==> SlugOf(flows[i].name) != SlugOf(flows[j].name))
  }

  ghost predicate KnownDependencies(flows: seq<Flow>)
  {
    forall i, d :: 0 <= i < |flows| && d in flows[i].dependsOn ==> d in Names(flows)
  }

  ghost predicate AllStepsOk(flows: seq<Flow>)
  {
    forall i :: 0 <= i < |flows| ==> StepsOk(flows[i].steps)
  }

  /** What the server demands of a flow list. */
  ghost predicate Acceptable(flows: seq<Flow>)
  {
    && |flows| <= MAX_FLOWS
    && DistinctSlugs(flows)
    && AllStepsOk(flows)
    && KnownDependencies(flows)
    && Acyclic(FlowGraph(flows))
  }

  // ---- Edges between flows ------------------------------------------------------------

  ghost predicate Needs(flows: seq<Flow>, i: nat, d: Name)
  {
    i < |flows| && d in flows[i].dependsOn && d in Names(flows)
  }

  ghost predicate NeedsNamed(flows: seq<Flow>, i: nat, x: Name, d: Name)
  {
    Needs(flows, i, d) && flows[i].name == x
  }

  lemma {:induction false} KnownNames(flows: seq<Flow>, n: Name)
    ensures n in FlowGraph(flows) <==> n in Names(flows)
  {
    if n in FlowGraph(flows) {
      var k :| 0 <= k < |flows| && Nodes(flows)[k].name == n;
      assert Names(flows)[k] == n;
    }
    if n in Names(flows) {
      var k :| 0 <= k < |flows| && Names(flows)[k] == n;
      assert Nodes(flows)[k].name == n;
    }
  }

  lemma {:induction false} OwnDependencies(flows: seq<Flow>, i: nat)
    requires i < |flows| && DistinctSlugs(flows)
    ensures flows[i].name in FlowGraph(flows) && FlowGraph(flows)[flows[i].name] == flows[i].dependsOn
  {
    forall j | i < j < |flows| ensures flows[j].name != flows[i].name {
      if flows[j].name == flows[i].name { NamesDiffer(flows, i, j); }
    }
    GraphValue(Nodes(flows), i);
  }

  lemma {:induction false} NamesDiffer(flows: seq<Flow>, i: nat, j: nat)
    requires DistinctSlugs(flows) && i < |flows| && j < |flows| && flows[i].name == flows[j].name
    ensures i == j
  {
    assert SlugOf(flows[i].name) == SlugOf(flows[j].name);
  }

  /** Edges of the graph and dependencies in the list are the same thing. */
  lemma {:induction false} EdgesAreNeeds(flows: seq<Flow>)
    requires DistinctSlugs(flows)
    ensures forall x, y :: Edge(FlowGraph(flows), x, y) <==> exists i: nat :: NeedsNamed(flows, i, x, y)
  {
    var g := FlowGraph(flows);
    forall x, y ensures Edge(g, x, y) <==> exists i: nat :: NeedsNamed(flows, i, x, y) {
      KnownNames(flows, x);
      KnownNames(flows, y);
      if Edge(g, x, y) {
        var i: nat :| i < |flows| && Names(flows)[i] == x;
        OwnDependencies(flows, i);
        assert NeedsNamed(flows, i, x, y);
      }
      if i: nat :| NeedsNamed(flows, i, x, y) {
        OwnDependencies(flows, i);
      }
    }
  }

  // ---- The server's check -----------------------------------------------------------------

  datatype Rejection =
    | TooManyFlows(count: nat, max: nat)
    | EmptyFlowName
    | DuplicateFlowName(name: Name)
    | EmptySlug(name: Name)
    | DuplicateSlug(first: Name, second: Name, slug: string)
    | NoSteps(flow: Name)
    | EmptyStepName(flow: Name)
    | EmptyStepPrompt(flow: Name, step: string)
    | EmptySkillName(flow: Name, step: string)
    | UnknownDependency(flow: Name, dependency: Name)
    | DependencyCycle(flow: Name)

  /** Step `i` is the first that is not as it should be. */
  ghost predicate FirstBadStep(steps: seq<Step>, i: nat)
  {
    i < |steps| && !StepOk(steps[i]) && forall k :: 0 <= k < i ==> StepOk(steps[k])
  }

  /** The complaint about the steps is true, and none comes before it. */
  ghost predicate StepFault(flow: Flow, r: Rejection)
  {
    match r
    case NoSteps(name) => name == flow.name && flow.steps == []
    case EmptyStepName(name) =>
      name == flow.name && exists i: nat :: FirstBadStep(flow.steps, i) && Blank(flow.steps[i].name)
    case EmptyStepPrompt(name, step) =>
      name == flow.name && !Blank(step) &&
      exists i: nat :: FirstBadStep(flow.steps, i) && flow.steps[i].name == step && Blank(flow.steps[i].prompt)
    case EmptySkillName(name, step) =>
      name == flow.name && !Blank(step) &&
      exists i: nat :: FirstBadStep(flow.steps, i) && flow.steps[i].name == step && !Blank(flow.steps[i].prompt)
    case _ => false
  }

  method CheckSteps(flow: Flow) returns (r: Option<Rejection>)
    ensures r == None <==> StepsOk(flow.steps)
    ensures r.Some? ==> StepFault(flow, r.value)
  {
    if flow.steps == [] {
      return Some(NoSteps(flow.name));
    }
    for i := 0 to |flow.steps|
      invariant forall k :: 0 <= k < i ==> StepOk(flow.steps[k])
    {
      var step := flow.steps[i];
      if Blank(step.name) {
        assert FirstBadStep(flow.steps, i);
        return Some(EmptyStepName(flow.name));
      }
      if Blank(step.prompt) {
        assert FirstBadStep(flow.steps, i);
        return Some(EmptyStepPrompt(flow.name, step.name));
      }
      for j := 0 to |step.skills|
        invariant forall k :: 0 <= k < j ==> !Blank(step.skills[k].name)
      {
        if Blank(step.skills[j].name) {
          assert FirstBadStep(flow.steps, i);
          return Some(EmptySkillName(flow.name, step.name));
        }
      }
    }
    return None;
  }

  lemma {:induction false} BlankHasNoSlug(name: string)
    requires Blank(name)
    ensures SlugOf(name) == ""
  {
    SlugIsNormal(name);
  }

  lemma {:induction false} NoEmptyName(flows: seq<Flow>)
    requires DistinctSlugs(flows)
    ensures "" !in FlowGraph(flows)
  {
    KnownNames(flows, "");
    BlankHasNoSlug("");
    if k :| 0 <= k < |flows| && Names(flows)[k] == "" {
      assert SlugOf(flows[k].name) != "";
    }
  }

  ghost predicate SlugIsNew(flows: seq<Flow>, i: nat)
    requires i < |flows|
  {
    SlugOf(flows[i].name) != "" &&
    forall k {:trigger SlugOf(flows[k].name)} :: 0 <= k < i ==> SlugOf(flows[k].name) != SlugOf(flows[i].name)
  }

  /** The flows before `i` are in order, and the complaint is true of flow `i` and the first there is. */
  ghost predicate FlowFault(flows: seq<Flow>, i: nat, r: Rejection)
  {
    SlugsPassed(flows, i) && i < |flows| && var name := flows[i].name;
    match r
    case EmptyFlowName => Blank(name)
    case DuplicateFlowName(n) => n == name && exists k :: 0 <= k < i && flows[k].name == name
    case EmptySlug(n) => n == name && !Blank(name) && SlugOf(name) == ""
    case DuplicateSlug(first, second, slug) =>
      second == name && first != second && slug == SlugOf(first) == SlugOf(second) &&
      exists k :: 0 <= k < i && flows[k].name == first
    case _ => SlugIsNew(flows, i) && StepFault(flows[i], r)
  }

  /** The first of `validate_user_flows`'s two passes: names, slugs and steps. */
  method CheckEachFlow(flows: seq<Flow>) returns (r: Option<Rejection>)
    ensures r == None <==> DistinctSlugs(flows) && AllStepsOk(flows)
    ensures r.Some? ==> exists i: nat :: FlowFault(flows, i, r.value)
  {
    var seenNames: set<Name>, seenSlugs: map<string, Name> := {}, map[];
    for i := 0 to |flows|
      invariant PassedUpTo(flows, i, seenNames, seenSlugs)
    {
      var flow := flows[i];
      if Blank(flow.name) {
        BlankHasNoSlug(flow.name);
        assert FlowFault(flows, i, EmptyFlowName);
        return Some(EmptyFlowName);
      }
      if flow.name in seenNames {
        SeenBefore(flows, i, seenNames, seenSlugs);
        assert FlowFault(flows, i, DuplicateFlowName(flow.name));
        return Some(DuplicateFlowName(flow.name));
      }
      var slug := Slugify(flow.name);
      if slug == "" {
        assert FlowFault(flows, i, EmptySlug(flow.name));
        return Some(EmptySlug(flow.name));
      }
      if slug in seenSlugs {
        SeenBefore(flows, i, seenNames, seenSlugs);
        assert FlowFault(flows, i, DuplicateSlug(seenSlugs[slug], flow.name, slug));
        return Some(DuplicateSlug(seenSlugs[slug], flow.name, slug));
      }
      var steps := CheckSteps(flow);
      if steps != None {
        assert SlugIsNew(flows, i);
        assert FlowFault(flows, i, steps.value);
        return steps;
      }
      PassedOneMore(flows, i, seenNames, seenSlugs);
      seenNames, seenSlugs := seenNames + {flow.name}, seenSlugs[slug := flow.name];
    }
    return None;
  }

  ghost predicate SlugsPassed(flows: seq<Flow>, n: nat)
  {
    && n <= |flows|
    && (forall k :: 0 <= k < n ==> StepsOk(flows[k].steps))
    && (forall k {:trigger SlugOf(flows[k].name)} :: 0 <= k < n ==> SlugOf(flows[k].name) != "")
    && (forall j, k {:trigger SlugOf(flows[j].name), SlugOf(flows[k].name)} ::
          0 <= j < k < n ==> SlugOf(flows[j].name) != SlugOf(flows[k].name))
  }

  ghost predicate NamesSeen(flows: seq<Flow>, n: nat, names: set<Name>)
  {
    n <= |flows| && forall x :: x in names <==> exists k :: 0 <= k < n && flows[k].name == x
  }

  ghost predicate SlugsSeen(flows: seq<Flow>, n: nat, slugs: map<string, Name>)
  {
    && n <= |flows|
    && (forall k {:trigger SlugOf(flows[k].name)} :: 0 <= k < n ==> SlugOf(flows[k].name) in slugs)
    && (forall x :: x in slugs ==> SlugOf(slugs[x]) == x && exists k :: 0 <= k < n && flows[k].name == slugs[x])
  }

  ghost predicate PassedUpTo(flows: seq<Flow>, n: nat, names: set<Name>, slugs: map<string, Name>)
  {
    SlugsPassed(flows, n) && NamesSeen(flows, n, names) && SlugsSeen(flows, n, slugs)
  }

  lemma {:induction false} NameSeen(flows: seq<Flow>, n: nat, names: set<Name>)
    requires n < |flows| && NamesSeen(flows, n, names)
    ensures NamesSeen(flows, n + 1, names + {flows[n].name})
  {
  }

  lemma {:induction false} SlugSeen(flows: seq<Flow>, n: nat, slugs: map<string, Name>)
    requires n < |flows| && SlugsSeen(flows, n, slugs)
    ensures SlugsSeen(flows, n + 1, slugs[SlugOf(flows[n].name) := flows[n].name])
  {
  }

  lemma {:induction false} PassedOneMore(flows: seq<Flow>, n: nat, names: set<Name>, slugs: map<string, Name>)
    requires n < |flows| && PassedUpTo(flows, n, names, slugs)
    requires StepsOk(flows[n].steps) && SlugOf(flows[n].name) != "" && SlugOf(flows[n].name) !in slugs
    ensures PassedUpTo(flows, n + 1, names + {flows[n].name}, slugs[SlugOf(flows[n].name) := flows[n].name])
  {
    NameSeen(flows, n, names);
    SlugSeen(flows, n, slugs);
    SlugPassed(flows, n, slugs);
  }

  lemma {:induction false} SlugPassed(flows: seq<Flow>, n: nat, slugs: map<string, Name>)
    requires n < |flows| && SlugsPassed(flows, n) && StepsOk(flows[n].steps) && SlugOf(flows[n].name) != ""
    requires SlugOf(flows[n].name) !in slugs
    requires forall k {:trigger SlugOf(flows[k].name)} :: 0 <= k < n ==> SlugOf(flows[k].name) in slugs
    ensures SlugsPassed(flows, n + 1)
  {
    assert forall k {:trigger SlugOf(flows[k].name)} :: 0 <= k < n ==> SlugOf(flows[k].name) != SlugOf(flows[n].name);
  }

  lemma {:induction false} SeenBefore(flows: seq<Flow>, n: nat, names: set<Name>, slugs: map<string, Name>)
    requires n < |flows| && PassedUpTo(flows, n, names, slugs)
    requires flows[n].name in names || SlugOf(flows[n].name) in slugs
    ensures !DistinctSlugs(flows)
    ensures SlugOf(flows[n].name) in slugs && flows[n].name !in names ==> slugs[SlugOf(flows[n].name)] != flows[n].name
  {
    var slug := SlugOf(flows[n].name);
    var name := if flows[n].name in names then flows[n].name else slugs[slug];
    var k :| 0 <= k < n && flows[k].name == name;
    assert SlugOf(flows[k].name) == SlugOf(flows[n].name);
  }

  /** Dependency `j` of flow `i` is the first that no flow is called. */
  ghost predicate FirstUnknown(flows: seq<Flow>, i: nat, j: nat)
  {
    && i < |flows| && j < |flows[i].dependsOn| && flows[i].dependsOn[j] !in Names(flows)
    && (forall x, d :: 0 <= x < i && d in flows[x].dependsOn ==> d in Names(flows))
    && (forall y :: 0 <= y < j ==> flows[i].dependsOn[y] in Names(flows))
  }

  ghost predicate DependencyFault(flows: seq<Flow>, r: Rejection)
  {
    exists i: nat, j: nat :: FirstUnknown(flows, i, j) && r == UnknownDependency(flows[i].name, flows[i].dependsOn[j])
  }

  method CheckDependencies(flows: seq<Flow>) returns (r: Option<Rejection>)
    ensures r == None <==> KnownDependencies(flows)
    ensures r.Some? ==> DependencyFault(flows, r.value)
  {
    for i := 0 to |flows|
      invariant forall x, d :: 0 <= x < i && d in flows[x].dependsOn ==> d in Names(flows)
    {
      for j := 0 to |flows[i].dependsOn|
        invariant forall y :: 0 <= y < j ==> flows[i].dependsOn[y] in Names(flows)
      {
        var d := flows[i].dependsOn[j];
        if d !in Names(flows) {
          assert FirstUnknown(flows, i, j);
          return Some(UnknownDependency(flows[i].name, d));
        }
      }
    }
    return None;
  }

  /** The complaint is true and the first that the order of the checks comes to. */
  ghost predicate Faults(flows: seq<Flow>, r: Rejection)
  {
    match r
    case TooManyFlows(count, max) => count == |flows| > 20 == max
    case UnknownDependency(_, _) => |flows| <= 20 && DistinctSlugs(flows) && AllStepsOk(flows) && DependencyFault(flows, r)
    case DependencyCycle(flow) =>
      |flows| <= 20 && DistinctSlugs(flows) && AllStepsOk(flows) && KnownDependencies(flows) && OnCycle(FlowGraph(flows), flow)
    case _ => |flows| <= 20 && exists i: nat :: FlowFault(flows, i, r)
  }

  /** `validate_user_flows` accepts exactly the acceptable lists, and every complaint is true and the first there is. */
  method ValidateUserFlows(flows: seq<Flow>) returns (r: Option<Rejection>)
    ensures r == None <==> Acceptable(flows)
    ensures r.Some? ==> Faults(flows, r.value)
  {
    if |flows| > MAX_FLOWS {
      return Some(TooManyFlows(|flows|, MAX_FLOWS));
    }
    r := CheckEachFlow(flows);
    if r != None {
      return r;
    }
    r := CheckDependencies(flows);
    if r != None {
      return r;
    }
    var involved := CycleCheck.DetectCycle(Nodes(flows));
    NoEmptyName(flows);
    return if involved == None then None else Some(DependencyCycle(involved.value));
  }

  // ---- The guard before storing -------------------------------------------------------------

  predicate SkillNulFree(s: Skill) { '\0' !in s.name && forall a :: a in s.args ==> '\0' !in a }

  predicate StepNulFree(s: Step)
  {
    '\0' !in s.name && '\0' !in s.prompt && forall k :: k in s.skills ==> SkillNulFree(k)
  }

  predicate NulFree(f: Flow)
  {
    && '\0' !in f.name
    && (forall d :: d in f.dependsOn ==> '\0' !in d)
    && (forall s :: s in f.steps ==> StepNulFree(s))
  }

  /** What the server stores: an acceptable list without a NUL character in it. */
  ghost predicate Storable(flows: seq<Flow>)
  {
    Acceptable(flows) && forall k :: 0 <= k < |flows| ==> NulFree(flows[k])
  }

  /** `guard_nul`, for the strings of the list. */
  method GuardNul(flows: seq<Flow>) returns (ok: bool)
    ensures ok <==> forall k :: 0 <= k < |flows| ==> NulFree(flows[k])
  {
    for k := 0 to |flows|
      invariant forall x :: 0 <= x < k ==> NulFree(flows[x])
    {
      if !NulFree(flows[k]) {
        return false;
      }
    }
    return true;
  }
}
