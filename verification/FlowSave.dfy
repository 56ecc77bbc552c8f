/** The editor's checks before a save and the list it then submits (ui/src/components/FlowEditor.tsx). */
module FlowSave {
  import opened Prelude
  import opened Text
  import opened Graphs
  import opened Slugs
  import opened Flows
  import opened FlowEdits
  import CycleCheck

  // ---- From the form to a flow -----------------------------------------------------------

  datatype SkillDraft = SkillDraft(name: string, argsText: string)
  datatype StepDraft = StepDraft(name: string, prompt: string, skills: seq<SkillDraft>)
  datatype Draft = Draft(name: Name, dependsOn: seq<Name>, steps: seq<StepDraft>)

  predicate StepValid(step: StepDraft)
  {
    && !Blank(step.name) && !Blank(step.prompt)
    && forall j :: 0 <= j < |step.skills| ==> !(Blank(step.skills[j].name) && !Blank(step.skills[j].argsText))
  }

  predicate StepsValid(steps: seq<StepDraft>)
  {
    |steps| >= 1 && forall k :: 0 <= k < |steps| ==> StepValid(steps[k])
  }

  /** `text.split(",")`, each piece trimmed, the empty ones dropped; `piece` is the one being read. */
  function SplitArgs(text: string, piece: string := ""): seq<string>
    decreases text
  {
    if text == "" then Kept(piece)
    else if text[0] == ',' then Kept(piece) + SplitArgs(text[1..], "")
    else SplitArgs(text[1..], piece + [text[0]])
  }

  function Kept(piece: string): seq<string> { if Trim(piece) == "" then [] else [Trim(piece)] }

  function BuildSkills(skills: seq<SkillDraft>): (r: seq<Skill>)
    ensures forall k :: 0 <= k < |r| ==> !Blank(r[k].name)
  {
    if skills == [] then []
    else
      var rest := BuildSkills(skills[1..]);
      if Blank(skills[0].name) then rest
      else [Skill(Trim(skills[0].name), SplitArgs(skills[0].argsText))] + rest
  }

  function BuildSteps(steps: seq<StepDraft>): (r: seq<Step>)
    ensures |r| == |steps|
    ensures forall k :: 0 <= k < |steps| ==>
      r[k] == Step(steps[k].name, steps[k].prompt, BuildSkills(steps[k].skills))
  {
    seq(|steps|, k requires 0 <= k < |steps| =>
      Step(steps[k].name, steps[k].prompt, BuildSkills(steps[k].skills)))
  }

  function BuildFlow(draft: Draft): Flow
  {
    Flow(Trim(draft.name), draft.dependsOn, BuildSteps(draft.steps))
  }

  /** `args.join(", ")`, as the editor shows saved arguments. */
  function JoinArgs(args: seq<string>): string
  {
    if args == [] then "" else if |args| == 1 then args[0] else args[0] + ", " + JoinArgs(args[1..])
  }

  /** An argument the editor's one-line text can hold. */
  ghost predicate Plain(arg: string) { arg != "" && Trim(arg) == arg && ',' !in arg }

  lemma {:induction false} SplitArgsArePlain(text: string, piece: string)
    requires ',' !in piece
    ensures forall a :: a in SplitArgs(text, piece) ==> Plain(a)
    decreases text
  {
    TrimKeepsChars(piece);
    if text != "" {
      if text[0] == ',' {
        SplitArgsArePlain(text[1..], "");
      } else {
        SplitArgsArePlain(text[1..], piece + [text[0]]);
      }
    }
  }

  lemma {:induction false} SplitAtComma(arg: string, rest: string, piece: string)
    requires ',' !in arg
    ensures SplitArgs(arg, piece) == Kept(piece + arg)
    ensures SplitArgs(arg + "," + rest, piece) == Kept(piece + arg) + SplitArgs(rest, "")
    decreases arg
  {
    if arg == "" {
      assert piece + arg == piece && (arg + "," + rest)[1..] == rest;
    } else {
      SplitAtComma(arg[1..], rest, piece + [arg[0]]);
      assert (arg + "," + rest)[1..] == arg[1..] + "," + rest;
      assert piece + [arg[0]] + arg[1..] == piece + arg;
    }
  }

  lemma {:induction false} PlainIsKept(arg: string, pad: string)
    requires Plain(arg) && (pad == "" || pad == " ")
    ensures Kept(pad + arg) == [arg]
  {
    assert TrimStart(arg) == arg;
    if pad == " " { assert (pad + arg)[1..] == arg; } else { assert pad + arg == arg; }
  }

  lemma {:induction false} BlankGoesToPiece(rest: string)
    ensures SplitArgs(" " + rest, "") == SplitArgs(rest, " ")
  {
    var tail := " " + rest;
    assert tail[0] == ' ' && tail[1..] == rest && "" + [' '] == " ";
  }

  /** A plain argument, the comma and blank behind it, and the rest. */
  lemma {:induction false} SplitFirst(arg: string, rest: string, pad: string)
    requires Plain(arg) && (pad == "" || pad == " ")
    ensures SplitArgs(arg, pad) == [arg]
    ensures SplitArgs(arg + ("," + (" " + rest)), pad) == [arg] + SplitArgs(rest, " ")
  {
    PlainIsKept(arg, pad);
    SplitAtComma(arg, " " + rest, pad);
    Assoc(arg, ",", " " + rest);
    BlankGoesToPiece(rest);
  }

  lemma {:induction false} CommaBlank(arg: string, rest: string)
    ensures arg + ", " + rest == arg + ("," + (" " + rest))
  {
    assert ", " + rest == "," + (" " + rest);
  }

  lemma {:induction false} JoinedArgsSplit(args: seq<string>, pad: string)
    requires args != [] && (forall a :: a in args ==> Plain(a)) && (pad == "" || pad == " ")
    ensures SplitArgs(JoinArgs(args), pad) == args
  {
    assert Plain(args[0]);
    if |args| == 1 {
      SplitFirst(args[0], "", pad);
    } else {
      SplitFirst(args[0], JoinArgs(args[1..]), pad);
      CommaBlank(args[0], JoinArgs(args[1..]));
      JoinedArgsSplit(args[1..], " ");
      assert args == [args[0]] + args[1..];
    }
  }

  /** What the one-line text looks like. */
  lemma {:induction false} JoinedArgs(a: seq<string>, b: seq<string>)
    requires a != [] && b != []
    ensures JoinArgs(a + b) == JoinArgs(a) + ", " + JoinArgs(b)
  {
    if |a| == 1 {
      assert (a + b)[1..] == b;
    } else {
      assert (a + b)[1..] == a[1..] + b;
      JoinedArgs(a[1..], b);
      Assoc(a[0] + ", ", JoinArgs(a[1..]), ", ");
      Assoc(a[0] + ", ", JoinArgs(a[1..]) + ", ", JoinArgs(b));
    }
  }

  /** The pieces that are not blank, trimmed. */
  function KeptOf(pieces: seq<string>): seq<string>
  {
    if pieces == [] then [] else Kept(pieces[0]) + KeptOf(pieces[1..])
  }

  /** Whatever is typed, the arguments are the pieces between its commas. */
  lemma {:induction false} ArgsArePieces(text: string, piece: string)
    ensures var pieces := SplitOn(text, ',');
      SplitArgs(text, piece) == KeptOf([piece + pieces[0]] + pieces[1..])
    decreases text
  {
    var pieces := SplitOn(text, ',');
    assert ([piece + pieces[0]] + pieces[1..])[1..] == pieces[1..];
    if text == "" {
      assert piece + "" == piece;
    } else {
      var rest := SplitOn(text[1..], ',');
      if text[0] == ',' {
        ArgsArePieces(text[1..], "");
        assert piece + "" == piece && "" + rest[0] == rest[0] && [rest[0]] + rest[1..] == rest;
      } else {
        ArgsArePieces(text[1..], piece + [text[0]]);
        assert piece + [text[0]] + rest[0] == piece + ([text[0]] + rest[0]);
        assert ([piece + pieces[0]] + rest[1..])[1..] == rest[1..];
      }
    }
  }

  /** Opening saved arguments in the editor and saving them again keeps them exactly when they are plain. */
  lemma {:induction false} ArgsSurviveEditing(args: seq<string>)
    ensures SplitArgs(JoinArgs(args)) == args <==> forall a :: a in args ==> Plain(a)
  {
    SplitArgsArePlain(JoinArgs(args), "");
    if args != [] && forall a :: a in args ==> Plain(a) {
      JoinedArgsSplit(args, "");
    }
  }

  // ---- What a save stores --------------------------------------------------------------------

  /** `at` lists, in order, the skills that have a name. */
  ghost predicate ListsNamed(at: seq<nat>, skills: seq<SkillDraft>)
  {
    && (forall k :: 0 <= k < |at| ==> at[k] < |skills|)
    && (forall k, l :: 0 <= k < l < |at| ==> at[k] < at[l])
    && (forall i: nat :: i < |skills| ==> (i in at <==> !Blank(skills[i].name)))
  }

  function Behind(at: seq<nat>): (r: seq<nat>)
    ensures |r| == |at| && forall k :: 0 <= k < |at| ==> r[k] == at[k] + 1
  {
    seq(|at|, k requires 0 <= k < |at| => at[k] + 1)
  }

  lemma {:induction false} ListsNamedBehind(at: seq<nat>, skills: seq<SkillDraft>)
    requires skills != [] && ListsNamed(at, skills[1..])
    ensures ListsNamed((if Blank(skills[0].name) then [] else [0]) + Behind(at), skills)
  {
    var all := (if Blank(skills[0].name) then [] else [0]) + Behind(at);
    forall i: nat | i < |skills| ensures i in all <==> !Blank(skills[i].name) {
      if i > 0 {
        assert skills[i] == skills[1..][i - 1];
        if i - 1 in at {
          var k :| 0 <= k < |at| && at[k] == i - 1;
          assert Behind(at)[k] == i;
        }
        if i in Behind(at) {
          var k :| 0 <= k < |at| && Behind(at)[k] == i;
          assert at[k] == i - 1;
        }
      }
    }
  }

  function Stored(draft: SkillDraft): Skill { Skill(Trim(draft.name), SplitArgs(draft.argsText)) }

  ghost predicate Picked(r: seq<Skill>, at: seq<nat>, skills: seq<SkillDraft>)
  {
    |r| == |at| && forall k :: 0 <= k < |at| ==> at[k] < |skills| && r[k] == Stored(skills[at[k]])
  }

  lemma {:induction false} PickedBehind(r: seq<Skill>, at: seq<nat>, skills: seq<SkillDraft>)
    requires skills != [] && Picked(r, at, skills[1..])
    ensures Picked(r, Behind(at), skills)
    ensures Picked([Stored(skills[0])] + r, [0] + Behind(at), skills)
  {
  }

  /** A save keeps exactly the skills with a name, in order, each with its trimmed name and its arguments. */
  lemma {:induction false} SavedSkills(skills: seq<SkillDraft>) returns (at: seq<nat>)
    ensures ListsNamed(at, skills) && Picked(BuildSkills(skills), at, skills)
  {
    at := [];
    if skills != [] {
      var rest := SavedSkills(skills[1..]);
      at := (if Blank(skills[0].name) then [] else [0]) + Behind(rest);
      ListsNamedBehind(rest, skills);
      PickedBehind(BuildSkills(skills[1..]), rest, skills);
      assert [] + Behind(rest) == Behind(rest);
    }
  }

  /** What the editor opens with. */
  function SkillDrafts(skills: seq<Skill>): (r: seq<SkillDraft>)
    ensures |r| == |skills|
    ensures forall k :: 0 <= k < |skills| ==> r[k] == SkillDraft(skills[k].name, JoinArgs(skills[k].args))
  {
    seq(|skills|, k requires 0 <= k < |skills| => SkillDraft(skills[k].name, JoinArgs(skills[k].args)))
  }

  function StepDrafts(steps: seq<Step>): (r: seq<StepDraft>)
    ensures |r| == |steps|
    ensures forall k :: 0 <= k < |steps| ==> r[k] == StepDraft(steps[k].name, steps[k].prompt, SkillDrafts(steps[k].skills))
  {
    seq(|steps|, k requires 0 <= k < |steps| => StepDraft(steps[k].name, steps[k].prompt, SkillDrafts(steps[k].skills)))
  }

  function DraftOf(flow: Flow): Draft
  {
    Draft(flow.name, flow.dependsOn, if flow.steps == [] then [StepDraft("", "", [])] else StepDrafts(flow.steps))
  }

  ghost predicate SkillKept(skill: Skill)
  {
    skill.name != "" && Trim(skill.name) == skill.name && forall a :: a in skill.args ==> Plain(a)
  }

  ghost predicate SkillsKept(skills: seq<Skill>) { forall s :: s in skills ==> SkillKept(s) }

  lemma {:induction false} SkillsSurviveEditing(skills: seq<Skill>)
    ensures BuildSkills(SkillDrafts(skills)) == skills <==> SkillsKept(skills)
  {
    if skills != [] {
      var s, rest := skills[0], skills[1..];
      var drafts := SkillDrafts(skills);
      assert drafts[1..] == SkillDrafts(rest) && skills == [s] + rest;
      SkillsSurviveEditing(rest);
      ArgsSurviveEditing(s.args);
      var built := BuildSkills(SkillDrafts(rest));
      assert SkillsKept(skills) <==> SkillKept(s) && SkillsKept(rest);
      if Blank(s.name) {
        FewerSkills(SkillDrafts(rest));
        assert s in skills && !SkillKept(s);
      } else {
        assert BuildSkills(drafts) == [Skill(Trim(s.name), SplitArgs(JoinArgs(s.args)))] + built;
        assert BuildSkills(drafts) == skills <==> Skill(Trim(s.name), SplitArgs(JoinArgs(s.args))) == s && built == rest;
      }
    }
  }

  lemma {:induction false} FewerSkills(skills: seq<SkillDraft>)
    ensures |BuildSkills(skills)| <= |skills|
  {
    if skills != [] { FewerSkills(skills[1..]); }
  }

  /** What a flow must be like for the form to hold it. */
  ghost predicate FlowKept(flow: Flow)
  {
    Trim(flow.name) == flow.name && flow.steps != [] && forall k :: 0 <= k < |flow.steps| ==> SkillsKept(flow.steps[k].skills)
  }

  /** Opening a flow in the editor and saving it unchanged stores the same flow exactly when the form can hold it. */
  lemma {:induction false} EditorRoundTripIff(flow: Flow)
    ensures BuildFlow(DraftOf(flow)) == flow <==> FlowKept(flow)
  {
    var steps, built := flow.steps, BuildSteps(DraftOf(flow).steps);
    forall k | 0 <= k < |steps| ensures built[k] == steps[k] <==> SkillsKept(steps[k].skills) {
      SkillsSurviveEditing(steps[k].skills);
    }
    if FlowKept(flow) { assert built == steps; }
  }

  /** The form takes the steps exactly when the steps it would store are in order and no arguments would be lost with a nameless skill. */
  lemma {:induction false} StepsValidIff(steps: seq<StepDraft>)
    ensures StepsValid(steps) <==> StepsOk(BuildSteps(steps)) && forall k, j ::
      0 <= k < |steps| && 0 <= j < |steps[k].skills| && Blank(steps[k].skills[j].name) ==> Blank(steps[k].skills[j].argsText)
  {
    var built := BuildSteps(steps);
    if StepsValid(steps) {
      forall k | 0 <= k < |built| ensures StepOk(built[k]) { assert StepValid(steps[k]); }
    }
    if StepsOk(built) {
      forall k | 0 <= k < |steps| ensures !Blank(steps[k].name) && !Blank(steps[k].prompt) { assert StepOk(built[k]); }
    }
  }

  // ---- The checks ----------------------------------------------------------------------------

  function Others(flows: seq<Flow>, edit: Option<nat>): seq<Flow>
    requires edit.Some? ==> edit.value < |flows|
  {
    if edit == None then flows else RemoveAt(flows, edit.value)
  }

  /** The list whose graph `cycleError` inspects: the other flows as they are, then the draft. */
  function Inspected(flows: seq<Flow>, edit: Option<nat>, flow: Flow): seq<Flow>
    requires edit.Some? ==> edit.value < |flows|
  {
    Others(flows, edit) + [flow]
  }

  ghost predicate CanSave(flows: seq<Flow>, edit: Option<nat>, draft: Draft)
    requires edit.Some? ==> edit.value < |flows|
  {
    var flow := BuildFlow(draft);
    && DistinctSlugs(Inspected(flows, edit, flow))
    && Acyclic(FlowGraph(Inspected(flows, edit, flow)))
    && StepsValid(draft.steps)
  }

  /** `nameError`, the empty name included: nothing in the way of the draft's name. */
  method NameIsFree(others: seq<Flow>, flow: Flow) returns (ok: bool)
    requires DistinctSlugs(others)
    ensures ok <==> DistinctSlugs(others + [flow])
  {
    var all := others + [flow];
    var slug := Slugify(flow.name);
    if flow.name == "" || slug == "" {
      BlankHasNoSlug("");
      assert SlugOf(all[|others|].name) == "";
      return false;
    }
    for k := 0 to |others|
      invariant forall x {:trigger SlugOf(others[x].name)} :: 0 <= x < k ==> SlugOf(others[x].name) != slug
    {
      var theirs := Slugify(others[k].name);
      if others[k].name == flow.name || theirs == slug {
        assert SlugOf(all[k].name) == SlugOf(all[|others|].name);
        return false;
      }
    }
    forall i, j | 0 <= i < j < |all| ensures SlugOf(all[i].name) != SlugOf(all[j].name) {
      assert SlugOf(others[i].name) != "";
      assert j < |others| ==> SlugOf(others[i].name) != SlugOf(others[j].name);
    }
    forall i | 0 <= i < |all| ensures SlugOf(all[i].name) != "" {
      assert i < |others| ==> SlugOf(others[i].name) != "";
    }
    return true;
  }

  /** `canSave`, for an editor that is not already saving. */
  method ComputeCanSave(flows: seq<Flow>, edit: Option<nat>, draft: Draft) returns (ok: bool)
    requires edit.Some? ==> edit.value < |flows|
    requires DistinctSlugs(flows)
    ensures ok <==> CanSave(flows, edit, draft)
  {
    var flow := BuildFlow(draft);
    OthersDistinct(flows, edit);
    var free := NameIsFree(Others(flows, edit), flow);
    if !free {
      return false;
    }
    NoEmptyName(Inspected(flows, edit, flow));
    var involved := CycleCheck.DetectCycle(Nodes(Inspected(flows, edit, flow)));
    return !CycleCheck.Truthy(involved) && StepsValid(draft.steps);
  }

  lemma {:induction false} OthersDistinct(flows: seq<Flow>, edit: Option<nat>)
    requires edit.Some? ==> edit.value < |flows|
    requires DistinctSlugs(flows)
    ensures DistinctSlugs(Others(flows, edit))
  {
    if edit.Some? {
      var others := Others(flows, edit);
      var src := (k: int) => if k < edit.value then k else k + 1;
      forall i, j | 0 <= i < j < |others| ensures SlugOf(others[i].name) != SlugOf(others[j].name) {
        assert SlugOf(flows[src(i)].name) != SlugOf(flows[src(j)].name);
      }
      forall i | 0 <= i < |others| ensures SlugOf(others[i].name) != "" {
        assert SlugOf(flows[src(i)].name) != "";
      }
    }
  }

  // ---- What is submitted -------------------------------------------------------------------------

  function Saved(flows: seq<Flow>, edit: Option<nat>, flow: Flow): seq<Flow>
    requires edit.Some? ==> edit.value < |flows|
  {
    if edit == None then flows + [flow]
    else PropagateRename(flows, flows[edit.value].name, flow.name)[edit.value := flow]
  }

  /** The other flows whose reference to the edited flow the save rewrites. */
  ghost function Repointed(flows: seq<Flow>, edit: Option<nat>, flow: Flow): set<Name>
    requires edit.Some? ==> edit.value < |flows|
  {
    if edit == None || flows[edit.value].name == flow.name then {}
    else set k | 0 <= k < |flows| && k != edit.value && flows[edit.value].name in flows[k].dependsOn :: flows[k].name
  }

  /**
   * What the editor knows when it submits. Its own checks say nothing of a dependency that was
   * picked from a sibling since deleted or renamed, nor of the length of the list.
   */
  ghost predicate ReadyToSave(flows: seq<Flow>, edit: Option<nat>, draft: Draft)
  {
    (edit.Some? ==> edit.value < |flows|) && Acceptable(flows) && CanSave(flows, edit, draft)
  }

  /** There is room for the flow, and the siblings it depends on are still there under those names. */
  ghost predicate SiblingsStand(flows: seq<Flow>, edit: Option<nat>, draft: Draft)
    requires edit.Some? ==> edit.value < |flows|
  {
    && (edit == None ==> |flows| < MAX_FLOWS)
    && forall d :: d in draft.dependsOn ==> d in Names(Others(flows, edit))
  }

  /** Where flow `k` of the saved list stands in the inspected one. */
  function Place(n: nat, i: nat, k: nat): int
  {
    if k == i then n - 1 else if k < i then k else k - 1
  }

  lemma {:induction false} InspectedAt(flows: seq<Flow>, i: nat, flow: Flow, k: nat)
    requires i < |flows| && k < |flows|
    ensures |Inspected(flows, Some(i), flow)| == |flows| && 0 <= Place(|flows|, i, k) < |flows|
    ensures Inspected(flows, Some(i), flow)[Place(|flows|, i, k)] == if k == i then flow else flows[k]
  {
  }

  /** The saved list is the inspected one but for its order and the repointed dependencies. */
  lemma {:induction false} SavedAt(flows: seq<Flow>, i: nat, flow: Flow, k: nat)
    requires i < |flows| && k < |flows|
    ensures |Saved(flows, Some(i), flow)| == |flows|
    ensures k == i ==> Saved(flows, Some(i), flow)[k] == flow
    ensures k == i || Saved(flows, Some(i), flow)[k] ==
      flows[k].(dependsOn := RenamedAll(flows[k].dependsOn, flows[i].name, flow.name))
  {
  }

  lemma {:induction false} SameNames(flows: seq<Flow>, i: nat, flow: Flow)
    requires i < |flows|
    ensures forall n :: n in Names(Saved(flows, Some(i), flow)) <==> n in Names(Inspected(flows, Some(i), flow))
  {
    var next, seen := Saved(flows, Some(i), flow), Inspected(flows, Some(i), flow);
    SavedAt(flows, i, flow, i);
    InspectedAt(flows, i, flow, i);
    forall n | n in Names(next) ensures n in Names(seen) {
      var k := NameAt(next, n);
      SavedAt(flows, i, flow, k);
      InspectedAt(flows, i, flow, k);
      NameIsListed(seen, Place(|flows|, i, k));
    }
    forall n | n in Names(seen) ensures n in Names(next) {
      var p := NameAt(seen, n);
      var k := if p == |flows| - 1 then i else if p < i then p else p + 1;
      SavedAt(flows, i, flow, k);
      InspectedAt(flows, i, flow, k);
      NameIsListed(next, k);
    }
  }

  lemma {:induction false} SavedHasDistinctSlugs(flows: seq<Flow>, i: nat, flow: Flow)
    requires i < |flows| && DistinctSlugs(Inspected(flows, Some(i), flow))
    ensures DistinctSlugs(Saved(flows, Some(i), flow))
  {
    var next, seen := Saved(flows, Some(i), flow), Inspected(flows, Some(i), flow);
    SavedAt(flows, i, flow, i);
    forall j: nat, k: nat | j < k < |next| ensures SlugOf(next[j].name) != SlugOf(next[k].name) {
      SavedAt(flows, i, flow, j);
      SavedAt(flows, i, flow, k);
      InspectedAt(flows, i, flow, j);
      InspectedAt(flows, i, flow, k);
      assert SlugOf(seen[Place(|flows|, i, j)].name) != SlugOf(seen[Place(|flows|, i, k)].name);
    }
    forall k: nat | k < |next| ensures SlugOf(next[k].name) != "" {
      SavedAt(flows, i, flow, k);
      InspectedAt(flows, i, flow, k);
      assert SlugOf(seen[Place(|flows|, i, k)].name) != "";
    }
  }

  /** No sibling is called what the edited flow is called, before or after. */
  lemma {:induction false} OldNameIsGone(flows: seq<Flow>, i: nat, flow: Flow)
    requires i < |flows| && DistinctSlugs(flows) && flow.name != flows[i].name
    ensures flows[i].name !in Names(Inspected(flows, Some(i), flow))
  {
    var seen := Inspected(flows, Some(i), flow);
    if flows[i].name in Names(seen) {
      var p := NameAt(seen, flows[i].name);
      InspectedAt(flows, i, flow, i);
      InspectedAt(flows, i, flow, if p < i then p else p + 1);
      NamesDiffer(flows, i, if p < i then p else p + 1);
    }
  }

  lemma {:induction false} DependenciesOfSaved(flows: seq<Flow>, i: nat, flow: Flow, k: nat, y: Name)
    requires i < |flows| && k < |flows| && DistinctSlugs(flows)
    ensures Needs(Saved(flows, Some(i), flow), k, y) <==>
      || Needs(Inspected(flows, Some(i), flow), Place(|flows|, i, k), y)
      || (k != i && y == flow.name != flows[i].name && flows[i].name in flows[k].dependsOn)
  {
    var next, seen, old_ := Saved(flows, Some(i), flow), Inspected(flows, Some(i), flow), flows[i].name;
    SavedAt(flows, i, flow, k);
    SavedAt(flows, i, flow, i);
    InspectedAt(flows, i, flow, k);
    SameNames(flows, i, flow);
    NameIsListed(next, i);
    if flow.name != old_ { OldNameIsGone(flows, i, flow); }
    if k != i {
      var was, now := flows[k].dependsOn, next[k].dependsOn;
      if y in now {
        var j :| 0 <= j < |now| && now[j] == y;
        assert was[j] in was;
      }
      if y in was {
        var j :| 0 <= j < |was| && was[j] == y;
        assert now[j] in now;
      }
      if old_ in was {
        var j :| 0 <= j < |was| && was[j] == old_;
        assert now[j] in now;
      }
    }
  }

  lemma {:induction false} EdgesOfSaved(flows: seq<Flow>, i: nat, flow: Flow)
    requires i < |flows| && DistinctSlugs(flows) && DistinctSlugs(Inspected(flows, Some(i), flow))
    ensures AddsEdgesInto(FlowGraph(Inspected(flows, Some(i), flow)), FlowGraph(Saved(flows, Some(i), flow)),
                          flow.name, Repointed(flows, Some(i), flow))
  {
    var next, seen := Saved(flows, Some(i), flow), Inspected(flows, Some(i), flow);
    var g, n, from := FlowGraph(seen), FlowGraph(next), Repointed(flows, Some(i), flow);
    SavedHasDistinctSlugs(flows, i, flow);
    SameNames(flows, i, flow);
    forall x ensures x in g <==> x in n {
      KnownNames(seen, x);
      KnownNames(next, x);
    }
    InspectedAt(flows, i, flow, i);
    NameIsListed(seen, |flows| - 1);
    KnownNames(seen, flow.name);
    forall x | x in from ensures x in g {
      var k: nat :| k < |flows| && k != i && flows[i].name in flows[k].dependsOn && flows[k].name == x;
      InspectedAt(flows, i, flow, k);
      NameIsListed(seen, Place(|flows|, i, k));
      KnownNames(seen, x);
    }
    forall x, y ensures Edge(n, x, y) <==> Edge(g, x, y) || (y == flow.name && x in from) {
      EdgeOfSaved(flows, i, flow, x, y);
    }
  }

  lemma {:induction false} EdgeOfSaved(flows: seq<Flow>, i: nat, flow: Flow, x: Name, y: Name)
    requires i < |flows| && DistinctSlugs(flows) && DistinctSlugs(Inspected(flows, Some(i), flow))
    requires DistinctSlugs(Saved(flows, Some(i), flow))
    ensures Edge(FlowGraph(Saved(flows, Some(i), flow)), x, y) <==>
      || Edge(FlowGraph(Inspected(flows, Some(i), flow)), x, y)
      || (y == flow.name && x in Repointed(flows, Some(i), flow))
  {
    EdgesAreNeeds(Saved(flows, Some(i), flow));
    EdgesAreNeeds(Inspected(flows, Some(i), flow));
    if Edge(FlowGraph(Saved(flows, Some(i), flow)), x, y) {
      var k: nat :| NeedsNamed(Saved(flows, Some(i), flow), k, x, y);
      NeedAfter(flows, i, flow, k, x, y);
    }
    if Edge(FlowGraph(Inspected(flows, Some(i), flow)), x, y) {
      var p: nat :| NeedsNamed(Inspected(flows, Some(i), flow), p, x, y);
      var k := NeedBefore(flows, i, flow, p, x, y);
    }
    if y == flow.name && x in Repointed(flows, Some(i), flow) {
      var k: nat :| k < |flows| && k != i && flows[i].name in flows[k].dependsOn && flows[k].name == x;
      SavedAt(flows, i, flow, k);
      DependenciesOfSaved(flows, i, flow, k, y);
      assert NeedsNamed(Saved(flows, Some(i), flow), k, x, y);
    }
  }

  lemma {:induction false} NeedAfter(flows: seq<Flow>, i: nat, flow: Flow, k: nat, x: Name, y: Name)
    requires i < |flows| && DistinctSlugs(flows)
    requires NeedsNamed(Saved(flows, Some(i), flow), k, x, y)
    ensures (exists p: nat :: NeedsNamed(Inspected(flows, Some(i), flow), p, x, y))
      || (y == flow.name && x in Repointed(flows, Some(i), flow))
  {
    SavedAt(flows, i, flow, i);
    SavedAt(flows, i, flow, k);
    InspectedAt(flows, i, flow, k);
    DependenciesOfSaved(flows, i, flow, k, y);
    assert Needs(Inspected(flows, Some(i), flow), Place(|flows|, i, k), y) ==>
        NeedsNamed(Inspected(flows, Some(i), flow), Place(|flows|, i, k), x, y);
  }

  lemma {:induction false} NeedBefore(flows: seq<Flow>, i: nat, flow: Flow, p: nat, x: Name, y: Name) returns (k: nat)
    requires i < |flows| && DistinctSlugs(flows)
    requires NeedsNamed(Inspected(flows, Some(i), flow), p, x, y)
    ensures NeedsNamed(Saved(flows, Some(i), flow), k, x, y)
  {
    InspectedAt(flows, i, flow, i);
    k := if p == |flows| - 1 then i else if p < i then p else p + 1;
    SavedAt(flows, i, flow, k);
    InspectedAt(flows, i, flow, k);
    DependenciesOfSaved(flows, i, flow, k, y);
  }

  lemma {:induction false} BuiltStepsOk(draft: Draft)
    requires StepsValid(draft.steps)
    ensures StepsOk(BuildFlow(draft).steps)
  {
  }

  /** In the graph the editor looked at, the draft reaches no flow that the save repoints to it. */
  ghost predicate RepointsSafely(flows: seq<Flow>, edit: Option<nat>, flow: Flow)
    requires edit.Some? ==> edit.value < |flows|
  {
    forall x :: x in Repointed(flows, edit, flow) ==> !Reaches(FlowGraph(Inspected(flows, edit, flow)), flow.name, x)
  }

  /**
   * A save the editor lets through is accepted exactly when the siblings it needs are still there
   * and it closes no cycle. It closes one exactly when it renames the flow while the draft, in the
   * graph the editor looked at, already reaches a flow whose dependency on the old name is repointed.
   */
  lemma {:induction false} SaveAcceptableIff(flows: seq<Flow>, edit: Option<nat>, draft: Draft)
    requires ReadyToSave(flows, edit, draft)
    ensures Acceptable(Saved(flows, edit, BuildFlow(draft))) <==>
      SiblingsStand(flows, edit, draft) && RepointsSafely(flows, edit, BuildFlow(draft))
  {
    var flow := BuildFlow(draft);
    if SiblingsStand(flows, edit, draft) {
      StandingSaveIff(flows, edit, draft);
    } else if d :| d in draft.dependsOn && d !in Names(Others(flows, edit)) {
      LostSiblingIsUnknown(flows, edit, draft, d);
    } else {
      assert |Saved(flows, edit, flow)| == |flows| + 1;
    }
  }

  lemma {:induction false} StandingSaveIff(flows: seq<Flow>, edit: Option<nat>, draft: Draft)
    requires ReadyToSave(flows, edit, draft) && SiblingsStand(flows, edit, draft)
    ensures Acceptable(Saved(flows, edit, BuildFlow(draft))) <==> RepointsSafely(flows, edit, BuildFlow(draft))
  {
    var flow := BuildFlow(draft);
    BuiltStepsOk(draft);
    if edit == None {
      AppendedIsKnown(flows, flow);
    } else {
      EdgesOfSaved(flows, edit.value, flow);
      NewEdgesCloseIff(FlowGraph(Inspected(flows, edit, flow)), FlowGraph(Saved(flows, edit, flow)),
                       flow.name, Repointed(flows, edit, flow));
      SavedHasDistinctSlugs(flows, edit.value, flow);
      SavedIsKnown(flows, edit.value, flow);
    }
  }

  /** The search skips a name it does not know, so the editor lets it through; the server does not. */
  lemma {:induction false} LostSiblingIsUnknown(flows: seq<Flow>, edit: Option<nat>, draft: Draft, d: Name)
    requires ReadyToSave(flows, edit, draft)
    requires d in draft.dependsOn && d !in Names(Others(flows, edit))
    ensures !KnownDependencies(Saved(flows, edit, BuildFlow(draft)))
  {
    var flow := BuildFlow(draft);
    var seen, next := Inspected(flows, edit, flow), Saved(flows, edit, flow);
    DraftIsNoDependency(seen, |seen| - 1);
    if d in Names(seen) {
      var k := NameAt(seen, d);
      assert k < |seen| - 1;
      NameIsListed(Others(flows, edit), k);
    }
    var at := if edit == None then |flows| else edit.value;
    if edit.Some? {
      SameNames(flows, edit.value, flow);
      SavedAt(flows, edit.value, flow, edit.value);
    }
    assert next[at] == flow && d in next[at].dependsOn && d !in Names(next);
  }

  /** In an acyclic graph no flow depends on itself. */
  lemma {:induction false} DraftIsNoDependency(seen: seq<Flow>, i: nat)
    requires i < |seen| && DistinctSlugs(seen) && Acyclic(FlowGraph(seen))
    ensures seen[i].name !in seen[i].dependsOn
  {
    OwnDependencies(seen, i);
    if seen[i].name in seen[i].dependsOn {
      BackEdgeCloses(FlowGraph(seen), [seen[i].name], seen[i].name);
    }
  }

  lemma {:induction false} AppendedIsKnown(flows: seq<Flow>, flow: Flow)
    requires KnownDependencies(flows) && AllStepsOk(flows) && StepsOk(flow.steps)
    requires forall d :: d in flow.dependsOn ==> d in Names(flows)
    ensures KnownDependencies(flows + [flow]) && AllStepsOk(flows + [flow])
  {
    var next := flows + [flow];
    forall i, d | 0 <= i < |next| && d in next[i].dependsOn ensures d in Names(next) {
      assert i < |flows| ==> d in flows[i].dependsOn;
      var k := NameAt(flows, d);
      NameIsListed(next, k);
    }
  }

  lemma {:induction false} SavedIsKnown(flows: seq<Flow>, i: nat, flow: Flow)
    requires i < |flows| && KnownDependencies(flows) && AllStepsOk(flows) && StepsOk(flow.steps)
    requires forall d :: d in flow.dependsOn ==> d in Names(Others(flows, Some(i)))
    ensures |Saved(flows, Some(i), flow)| == |flows|
    ensures KnownDependencies(Saved(flows, Some(i), flow)) && AllStepsOk(Saved(flows, Some(i), flow))
  {
    var next, others := Saved(flows, Some(i), flow), Others(flows, Some(i));
    SavedAt(flows, i, flow, i);
    forall k: nat | k < |next| ensures StepsOk(next[k].steps) {
      SavedAt(flows, i, flow, k);
    }
    forall k: nat, d | k < |next| && d in next[k].dependsOn ensures d in Names(next) {
      SavedAt(flows, i, flow, k);
      var at: nat;
      if k == i {
        var p := NameAt(others, d);
        at := if p < i then p else p + 1;
      } else {
        var j :| 0 <= j < |next[k].dependsOn| && next[k].dependsOn[j] == d;
        var was := flows[k].dependsOn[j];
        assert was in flows[k].dependsOn;
        at := NameAt(flows, was);
        at := if was == flows[i].name then i else at;
      }
      SavedAt(flows, i, flow, at);
      NameIsListed(next, at);
    }
  }

  /** Without a rename, or when nothing depends on the renamed flow, only lost siblings stand in the way. */
  lemma {:induction false} PlainSaveIsAccepted(flows: seq<Flow>, edit: Option<nat>, draft: Draft)
    requires ReadyToSave(flows, edit, draft)
    requires Repointed(flows, edit, BuildFlow(draft)) == {}
    ensures Acceptable(Saved(flows, edit, BuildFlow(draft))) <==> SiblingsStand(flows, edit, draft)
  {
    SaveAcceptableIff(flows, edit, draft);
  }

  lemma {:induction false} SaveNulFreeIff(flows: seq<Flow>, edit: Option<nat>, flow: Flow)
    requires (edit.Some? ==> edit.value < |flows|) && AllNulFree(flows)
    ensures AllNulFree(Saved(flows, edit, flow)) <==> NulFree(flow)
  {
    var next := Saved(flows, edit, flow);
    var at := if edit == None then |flows| else edit.value;
    if edit.Some? { SavedAt(flows, edit.value, flow, edit.value); }
    assert next[at] == flow;
    if NulFree(flow) {
      forall k: nat | k < |next| ensures NulFree(next[k]) {
        if k != at {
          assert NulFree(flows[k]);
          if edit.Some? {
            SavedAt(flows, edit.value, flow, k);
            RenamedNulFree(flows[k], flows[edit.value].name, flow.name);
          }
        }
      }
    }
  }

  /** The place of sibling `k` among the others; deleting it leaves an open editor of an earlier or a new flow open. */
  function PlaceOf(edit: Option<nat>, k: nat): nat
    requires edit.Some? ==> edit.value < k
  {
    match edit
    case None => k
    case Some(i) => k - 1
  }

  lemma {:induction false} InspectedSibling(flows: seq<Flow>, edit: Option<nat>, flow: Flow, p: nat)
    requires (edit.Some? ==> edit.value < |flows|) && p < |Others(flows, edit)|
    ensures |Inspected(flows, edit, flow)| == |Others(flows, edit)| + 1
    ensures Inspected(flows, edit, flow)[|Others(flows, edit)|] == flow
    ensures var q := if edit == None then p else SkipPast(edit.value, p);
      q < |flows| && Inspected(flows, edit, flow)[p] == flows[q]
  {
  }

  /** The inspected list after the deletion of sibling `k`: the same without it and the references to it. */
  lemma {:induction false} InspectedAfterDelete(flows: seq<Flow>, edit: Option<nat>, k: nat, flow: Flow, p: nat)
    requires k < |flows| && (edit.Some? ==> edit.value < k) && p < |Inspected(flows, edit, flow)| - 1
    ensures |Delete(flows, k)| == |flows| - 1
    ensures |Inspected(Delete(flows, k), edit, flow)| == |Inspected(flows, edit, flow)| - 1
    ensures SkipPast(PlaceOf(edit, k), p) < |Inspected(flows, edit, flow)|
    ensures var was := Inspected(flows, edit, flow)[SkipPast(PlaceOf(edit, k), p)];
      var now := Inspected(Delete(flows, k), edit, flow)[p];
      now.name == was.name && forall d :: d in now.dependsOn ==> d in was.dependsOn
  {
    DeleteSelects(flows, k);
    var n := |Others(flows, edit)|;
    if p < n - 1 {
      InspectedSibling(Delete(flows, k), edit, flow, p);
      InspectedSibling(flows, edit, flow, SkipPast(PlaceOf(edit, k), p));
      DeletedAt(flows, k, if edit == None then p else SkipPast(edit.value, p));
    }
  }

  /** Deleting a sibling does not make the editor's checks fail. */
  lemma {:induction false} DeleteKeepsPermitted(flows: seq<Flow>, edit: Option<nat>, k: nat, flow: Flow)
    requires k < |flows| && (edit.Some? ==> edit.value < k)
    requires DistinctSlugs(Inspected(flows, edit, flow)) && Acyclic(FlowGraph(Inspected(flows, edit, flow)))
    ensures |Delete(flows, k)| == |flows| - 1
    ensures DistinctSlugs(Inspected(Delete(flows, k), edit, flow))
    ensures Acyclic(FlowGraph(Inspected(Delete(flows, k), edit, flow)))
  {
    DeleteSelects(flows, k);
    var seen, next := Inspected(flows, edit, flow), Inspected(Delete(flows, k), edit, flow);
    var hole := PlaceOf(edit, k);
    var src := (p: nat) => SkipPast(hole, p);
    forall p: nat | p < |next|
      ensures src(p) < |seen| && seen[src(p)].name == next[p].name
      ensures forall d :: d in next[p].dependsOn ==> d in seen[src(p)].dependsOn
    {
      InspectedAfterDelete(flows, edit, k, flow, p);
    }
    SelectionHasDistinctSlugs(next, seen, src);
    DerivedListIsAcyclic(next, seen, src, n => n);
  }

  /**
   * The other condition is not idle either. With the editor open on a new flow, or on one further up
   * the list, delete a sibling the draft depends on: as far as the editor is concerned the draft can
   * still be saved, but the server refuses it.
   */
  lemma {:induction false} DeletedSiblingIsMissed(flows: seq<Flow>, edit: Option<nat>, k: nat, draft: Draft)
    requires ReadyToSave(flows, edit, draft) && k < |flows| && flows[k].name in draft.dependsOn
    requires edit.Some? ==> edit.value < k
    ensures |Delete(flows, k)| == |flows| - 1 && ReadyToSave(Delete(flows, k), edit, draft)
    ensures !Acceptable(Saved(Delete(flows, k), edit, BuildFlow(draft)))
  {
    DeleteStaysAcceptable(flows, k);
    DeleteKeepsPermitted(flows, edit, k, BuildFlow(draft));
    DeletedIsGone(flows, edit, k);
    LostSiblingIsUnknown(Delete(flows, k), edit, draft, flows[k].name);
  }

  lemma {:induction false} SelectionHasDistinctSlugs(next: seq<Flow>, seen: seq<Flow>, src: nat -> nat)
    requires DistinctSlugs(seen)
    requires forall p: nat :: p < |next| ==> src(p) < |seen| && seen[src(p)].name == next[p].name
    requires forall p: nat, q: nat :: p < q < |next| ==> src(p) != src(q)
    ensures DistinctSlugs(next)
  {
    forall p, q | 0 <= p < q < |next| ensures SlugOf(next[p].name) != SlugOf(next[q].name) {
      assert SlugOf(seen[src(p)].name) != SlugOf(seen[src(q)].name);
    }
    forall p | 0 <= p < |next| ensures SlugOf(next[p].name) != "" {
      assert SlugOf(seen[src(p)].name) != "";
    }
  }

  lemma {:induction false} DeletedIsGone(flows: seq<Flow>, edit: Option<nat>, k: nat)
    requires DistinctSlugs(flows) && k < |flows| && (edit.Some? ==> edit.value < k)
    ensures |Delete(flows, k)| == |flows| - 1
    ensures flows[k].name !in Names(Others(Delete(flows, k), edit))
  {
    DeleteSelects(flows, k);
    var others := Others(Delete(flows, k), edit);
    if flows[k].name in Names(others) {
      var p := NameAt(others, flows[k].name);
      var q := if edit == None then p else SkipPast(edit.value, p);
      DeletedAt(flows, k, q);
      NamesDiffer(flows, k, SkipPast(k, q));
    }
  }

  /**
   * The condition on cycles is not idle: with `y` depending on `x`, renaming `x` to `z` while making it
   * depend on `y` passes the editor's checks, and the list it submits holds a cycle.
   */
  lemma {:induction false} RenamingSaveCanCloseCycle(x: Name, y: Name, z: Name, steps: seq<StepDraft>)
    returns (flows: seq<Flow>, draft: Draft)
    requires SlugOf(x) != "" && SlugOf(y) != "" && SlugOf(z) != "" && Trim(z) == z
    requires SlugOf(x) != SlugOf(y) && SlugOf(y) != SlugOf(z) && SlugOf(x) != SlugOf(z)
    requires StepsValid(steps)
    ensures ReadyToSave(flows, Some(0), draft) && SiblingsStand(flows, Some(0), draft)
    ensures !Acceptable(Saved(flows, Some(0), BuildFlow(draft)))
  {
    draft := Draft(z, [y], steps);
    BuiltStepsOk(draft);
    var built := BuildSteps(steps);
    flows := [Flow(x, [], built), Flow(y, [x], built)];
    PairIsAcceptable(x, y, built);
    var flow := BuildFlow(draft);
    assert flow == Flow(z, [y], built);
    PairCanSave(flows, draft);
    EdgeReaches(FlowGraph(Inspected(flows, Some(0), flow)), z, y);
    assert flows[1].name in Repointed(flows, Some(0), flow);
    SaveAcceptableIff(flows, Some(0), draft);
  }

  lemma {:induction false} PairCanSave(flows: seq<Flow>, draft: Draft)
    requires |flows| == 2 && flows[1].dependsOn == [flows[0].name]
    requires draft.dependsOn == [flows[1].name] && StepsValid(draft.steps)
    requires SlugOf(flows[1].name) != "" && SlugOf(Trim(draft.name)) != ""
    requires SlugOf(flows[1].name) != SlugOf(Trim(draft.name))
    requires flows[0].name != flows[1].name && flows[0].name != Trim(draft.name)
    ensures CanSave(flows, Some(0), draft)
    ensures forall d :: d in draft.dependsOn ==> d in Names(Others(flows, Some(0)))
    ensures Edge(FlowGraph(Inspected(flows, Some(0), BuildFlow(draft))), Trim(draft.name), flows[1].name)
  {
    var x, y, flow := flows[0].name, flows[1].name, BuildFlow(draft);
    var seen := Inspected(flows, Some(0), flow);
    PairInspected(flows, flow);
    PairIsAcyclic(y, [x], flow.name, [y]);
    NameIsListed(Others(flows, Some(0)), 0);
    assert seen[0] == flows[1] && seen[1] == flow;
  }

  lemma {:induction false} PairInspected(flows: seq<Flow>, flow: Flow)
    requires |flows| == 2
    ensures Others(flows, Some(0)) == [flows[1]] && Inspected(flows, Some(0), flow) == [flows[1], flow]
    ensures FlowGraph(Inspected(flows, Some(0), flow)) ==
      GraphOf([Node(flows[1].name, flows[1].dependsOn), Node(flow.name, flow.dependsOn)])
  {
    assert Others(flows, Some(0)) == [flows[1]];
    assert Nodes([flows[1], flow]) == [Node(flows[1].name, flows[1].dependsOn), Node(flow.name, flow.dependsOn)];
  }

  lemma {:induction false} PairIsAcceptable(x: Name, y: Name, steps: seq<Step>)
    requires SlugOf(x) != "" && SlugOf(y) != "" && SlugOf(x) != SlugOf(y) && StepsOk(steps)
    ensures Acceptable([Flow(x, [], steps), Flow(y, [x], steps)])
  {
    var flows := [Flow(x, [], steps), Flow(y, [x], steps)];
    NameIsListed(flows, 0);
    PairIsAcyclic(x, [], y, [x]);
    assert Nodes(flows) == [Node(x, []), Node(y, [x])];
  }

  /** Such names and steps exist. */
  lemma {:induction false} RenamingSaveExample() returns (flows: seq<Flow>, draft: Draft)
    ensures ReadyToSave(flows, Some(0), draft)
    ensures !Acceptable(Saved(flows, Some(0), BuildFlow(draft)))
  {
    NormalIsFixed("a");
    NormalIsFixed("b");
    NormalIsFixed("c");
    assert "s"[0] == 's';
    flows, draft := RenamingSaveCanCloseCycle("a", "b", "c", [StepDraft("s", "s", [])]);
  }

  lemma {:induction false} PairIsAcyclic(x: Name, xDeps: seq<Name>, y: Name, yDeps: seq<Name>)
    requires x != y && x !in xDeps && y !in xDeps && y !in yDeps
    ensures Acyclic(GraphOf([Node(x, xDeps), Node(y, yDeps)]))
    ensures GraphOf([Node(x, xDeps), Node(y, yDeps)]) == map[x := xDeps, y := yDeps]
  {
    var nodes := [Node(x, xDeps), Node(y, yDeps)];
    var g := GraphOf(nodes);
    assert nodes[..1] == [Node(x, xDeps)] && [Node(x, xDeps)][..0] == [];
    assert GraphOf([Node(x, xDeps)]) == map[x := xDeps];
    assert g == map[x := xDeps, y := yDeps];
    AppendInOrder(g, [], x);
    AppendInOrder(g, [x], y);
    OrderedIsAcyclic(g, [x] + [y]);
  }
}
