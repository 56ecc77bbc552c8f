/**
 * Which flow may be started or retried (ui/src/components/WorkflowDefButtons.tsx,
 * ui/src/components/workflowDefState.ts), and what the buttons allow over whole runs.
 */
module RunGate {
  import opened Prelude
  import opened Graphs
  import opened TopoSort

  datatype RunState = Idle | Running | Completed | Failed

  type RunStates = map<Name, RunState>

  function RunStateOf(def: Def, states: RunStates): RunState
  {
    if def.filename in states then states[def.filename] else Idle
  }

  predicate IsCompleted(file: Name, states: RunStates)
  {
    file in states && states[file] == Completed
  }

  predicate DepsAreMet(def: Def, states: RunStates)
  {
    forall k :: 0 <= k < |def.dependsOn| ==> IsCompleted(def.dependsOn[k], states)
  }

  datatype Button =
    | SpinnerLabel          // running
    | DoneLabel             // completed
    | FailedLabel           // failed, retrying blocked
    | RetryButton(enabled: bool)
    | LockedLabel           // idle, a dependency is missing
    | BlockedLabel          // idle and ready, starting blocked
    | StartButton(enabled: bool)

  /** `renderButton`; `loading` is the flow whose request is still under way. */
  function RenderButton(def: Def, states: RunStates, blocked: bool, loading: Option<Name>): Button
  {
    match RunStateOf(def, states)
    case Running => SpinnerLabel
    case Completed => DoneLabel
    case Failed =>
      if blocked then FailedLabel else RetryButton(loading != Some(def.filename))
    case Idle =>
      if !DepsAreMet(def, states) then LockedLabel
      else if blocked then BlockedLabel
      else StartButton(loading != Some(def.filename))
  }

  predicate Clickable(b: Button)
  {
    (b.RetryButton? || b.StartButton?) && b.enabled
  }

  ghost predicate Has(states: RunStates, file: Name, s: RunState) { file in states && states[file] == s }

  /** Nothing is known of a run of the flow, or it is back to idle. */
  ghost predicate NotRun(states: RunStates, file: Name) { file in states ==> states[file] == Idle }

  ghost predicate NeedsMet(def: Def, states: RunStates) { forall f :: f in def.dependsOn ==> Has(states, f, Completed) }

  /** What each button tells of its flow. */
  lemma {:induction false} ButtonShows(def: Def, states: RunStates, blocked: bool, loading: Option<Name>)
    ensures var b, file := RenderButton(def, states, blocked, loading), def.filename;
      && (b == SpinnerLabel <==> Has(states, file, Running))
      && (b == DoneLabel <==> Has(states, file, Completed))
      && (b == FailedLabel <==> Has(states, file, Failed) && blocked)
      && (b.RetryButton? <==> Has(states, file, Failed) && !blocked)
      && (b.StartButton? <==> NotRun(states, file) && NeedsMet(def, states) && !blocked)
      && (b == LockedLabel <==> NotRun(states, file) && !NeedsMet(def, states))
      && (b == BlockedLabel <==> NotRun(states, file) && NeedsMet(def, states) && blocked)
  {
    assert DepsAreMet(def, states) <==> NeedsMet(def, states) by { DepsAreNeeds(def, states); }
  }

  lemma {:induction false} DepsAreNeeds(def: Def, states: RunStates)
    ensures DepsAreMet(def, states) <==> NeedsMet(def, states)
  {
    if DepsAreMet(def, states) {
      forall f | f in def.dependsOn ensures Has(states, f, Completed) {
        var k :| 0 <= k < |def.dependsOn| && def.dependsOn[k] == f;
        assert IsCompleted(def.dependsOn[k], states);
      }
    }
    if NeedsMet(def, states) {
      forall k | 0 <= k < |def.dependsOn| ensures IsCompleted(def.dependsOn[k], states) {
        assert Has(states, def.dependsOn[k], Completed);
      }
    }
  }

  /** What a click takes: nothing blocks starting, the flow is not loading, and it failed or may start. */
  ghost predicate MayStart(def: Def, states: RunStates, blocked: bool, loading: Option<Name>)
  {
    && !blocked && loading != Some(def.filename)
    && (Has(states, def.filename, Failed) || (NotRun(states, def.filename) && NeedsMet(def, states)))
  }

  lemma {:induction false} ClickableIff(def: Def, states: RunStates, blocked: bool, loading: Option<Name>)
    ensures Clickable(RenderButton(def, states, blocked, loading)) <==> MayStart(def, states, blocked, loading)
  {
    DepsAreNeeds(def, states);
  }

  // ---- Runs ------------------------------------------------------------------------------

  /** What the screen goes by: the run states, whether starting is blocked, and the flow being requested. */
  datatype Screen = Screen(states: RunStates, blocked: bool, loading: Option<Name>)

  /** A click sends a request that the server accepts or refuses; the others happen without the user. */
  datatype Event = Block(on: bool) | Click(def: Def, accepted: bool) | Settle | Finish(file: Name, ok: bool)

  ghost predicate Possible(defs: seq<Def>, screen: Screen, e: Event)
  {
    match e
    case Block(_) => true
    case Click(def, _) => def in defs && Clickable(RenderButton(def, screen.states, screen.blocked, screen.loading))
    case Settle => screen.loading.Some?
    case Finish(file, _) => file in screen.states && screen.states[file] == Running
  }

  function After(screen: Screen, e: Event): Screen
  {
    match e
    case Block(on) => screen.(blocked := on)
    case Click(def, accepted) =>
      screen.(loading := Some(def.filename),
              states := if accepted then screen.states[def.filename := Running] else screen.states)
    case Settle => screen.(loading := None)
    case Finish(file, ok) => screen.(states := screen.states[file := if ok then Completed else Failed])
  }

  /** The screen after some events, nothing having run before them. */
  function ScreenAfter(events: seq<Event>): Screen
  {
    if events == [] then Screen(map[], false, None) else After(ScreenAfter(events[..|events| - 1]), events[|events| - 1])
  }

  function StatesAfter(events: seq<Event>): RunStates { ScreenAfter(events).states }

  /** Each event was possible in its turn. */
  ghost predicate PossibleRun(defs: seq<Def>, events: seq<Event>)
  {
    events == [] || (
      && PossibleRun(defs, events[..|events| - 1])
      && Possible(defs, ScreenAfter(events[..|events| - 1]), events[|events| - 1]))
  }

  lemma {:induction false} EventWasPossible(defs: seq<Def>, events: seq<Event>, k: nat)
    requires PossibleRun(defs, events) && k < |events|
    ensures Possible(defs, ScreenAfter(events[..k]), events[k])
    ensures events[..k + 1][..k] == events[..k] && ScreenAfter(events[..k + 1]) == After(ScreenAfter(events[..k]), events[k])
    decreases |events|
  {
    var pre := events[..|events| - 1];
    assert events[..k + 1][..k] == events[..k];
    if k < |events| - 1 {
      EventWasPossible(defs, pre, k);
      assert pre[..k] == events[..k];
    }
  }

  /**
   * At whatever point of whatever run a flow starts, it was clicked: nothing blocked starting then, the flow
   * was not being requested, and it had failed or its dependencies had completed.
   */
  lemma {:induction false} StartsAreClicks(defs: seq<Def>, events: seq<Event>, k: nat, d: Def)
    requires PossibleRun(defs, events) && k < |events| && UniqueFiles(defs) && d in defs
    requires !Has(StatesAfter(events[..k]), d.filename, Running) && Has(StatesAfter(events[..k + 1]), d.filename, Running)
    ensures events[k] == Click(d, true)
    ensures var before := ScreenAfter(events[..k]); MayStart(d, before.states, before.blocked, before.loading)
  {
    var before := ScreenAfter(events[..k]);
    EventWasPossible(defs, events, k);
    assert events[k].Click?;
    SameFile(defs, d, events[k].def);
    ClickableIff(d, before.states, before.blocked, before.loading);
  }

  // ---- Safety ---------------------------------------------------------------------------------

  /** Only known flows have a state, and every flow that is not idle has all its dependencies completed. */
  ghost predicate Gated(defs: seq<Def>, states: RunStates)
  {
    && (forall f :: f in states ==> f in Files(defs))
    && (forall d :: d in defs && RunStateOf(d, states) != Idle ==> DepsAreMet(d, states))
  }

  lemma {:induction false} StepStaysGated(defs: seq<Def>, screen: Screen, e: Event)
    requires UniqueFiles(defs) && Gated(defs, screen.states) && Possible(defs, screen, e)
    ensures Gated(defs, After(screen, e).states)
    ensures forall f :: IsCompleted(f, screen.states) ==> IsCompleted(f, After(screen, e).states)
  {
    var states, next := screen.states, After(screen, e).states;
    if e.Click? {
      FileIsListed(defs, e.def);
      assert RunStateOf(e.def, states) != Completed;
    }
    forall f | IsCompleted(f, states) ensures IsCompleted(f, next) {}
    forall d | d in defs && RunStateOf(d, next) != Idle ensures DepsAreMet(d, next) {
      if e.Click? && d.filename == e.def.filename {
        SameFile(defs, d, e.def);
      }
      assert DepsAreMet(d, states);
    }
  }

  lemma {:induction false} FileIsListed(defs: seq<Def>, d: Def)
    requires d in defs
    ensures d.filename in Files(defs)
  {
    assert Files(defs)[IndexOf(defs, d)] == d.filename;
  }

  /** Whatever is clicked and however the runs end, no flow gets ahead of its dependencies. */
  lemma {:induction false} RunsStayGated(defs: seq<Def>, events: seq<Event>)
    requires UniqueFiles(defs) && PossibleRun(defs, events)
    ensures Gated(defs, StatesAfter(events))
  {
    if events != [] {
      var pre := events[..|events| - 1];
      RunsStayGated(defs, pre);
      StepStaysGated(defs, ScreenAfter(pre), events[|events| - 1]);
    }
  }

  // ---- Progress ----------------------------------------------------------------------------------

  ghost predicate KnownFiles(defs: seq<Def>)
  {
    forall d, f :: d in defs && f in d.dependsOn ==> f in Files(defs)
  }

  ghost predicate AllCompleted(defs: seq<Def>, states: RunStates)
  {
    forall d :: d in defs ==> IsCompleted(d.filename, states)
  }

  /**
   * In dependency order, the first flow not completed is clickable unless it is running: every
   * known flow before it is completed, so nothing it waits for can be missing.
   */
  lemma {:induction false} FirstUnfinishedIsClickable(defs: seq<Def>, order: seq<Def>, states: RunStates, loading: Option<Name>,
                                                       k: nat)
    requires UniqueFiles(defs) && KnownFiles(defs)
    requires multiset(order) == multiset(defs) && DependenciesFirst(DefGraph(defs), Files(order))
    requires k < |order| && !IsCompleted(order[k].filename, states)
    requires forall j :: 0 <= j < k ==> IsCompleted(order[j].filename, states)
    requires RunStateOf(order[k], states) != Running && loading != Some(order[k].filename)
    ensures Clickable(RenderButton(order[k], states, false, loading))
  {
    var d := order[k];
    assert d in multiset(defs);
    forall i | 0 <= i < |d.dependsOn| ensures IsCompleted(d.dependsOn[i], states) {
      var f := d.dependsOn[i];
      assert f in d.dependsOn;
      DefEdge(defs, d, f);
      assert Edge(DefGraph(defs), Files(order)[k], f);
      assert f in Files(order)[..k];
    }
  }

  lemma {:induction false} DefEdge(defs: seq<Def>, d: Def, f: Name)
    requires UniqueFiles(defs) && d in defs
    ensures Edge(DefGraph(defs), d.filename, f) <==> f in d.dependsOn && f in Files(defs)
  {
    var i := IndexOf(defs, d);
    assert forall j :: i < j < |defs| ==> Files(defs)[i] != Files(defs)[j];
    GraphValue(Nodes(defs), i);
    GraphKeys(defs, f);
  }

  // ---- What can be completed at all ------------------------------------------------------------------

  ghost predicate Completable(defs: seq<Def>)
  {
    exists events :: PossibleRun(defs, events) && AllCompleted(defs, StatesAfter(events))
  }

  /** The completed flows of a run, in the order they completed. */
  lemma {:induction false} CompletionOrder(defs: seq<Def>, events: seq<Event>) returns (order: seq<Name>)
    requires UniqueFiles(defs) && PossibleRun(defs, events)
    ensures forall f :: f in order <==> IsCompleted(f, StatesAfter(events))
    ensures DependenciesFirst(DefGraph(defs), order)
  {
    order := [];
    if events != [] {
      var pre, e := events[..|events| - 1], events[|events| - 1];
      var before := StatesAfter(pre);
      order := CompletionOrder(defs, pre);
      RunsStayGated(defs, pre);
      StepStaysGated(defs, ScreenAfter(pre), e);
      if e.Finish? && e.ok {
        var k :| 0 <= k < |defs| && Files(defs)[k] == e.file;
        forall f | Edge(DefGraph(defs), e.file, f) ensures f in order {
          DefEdge(defs, defs[k], f);
          var i :| 0 <= i < |defs[k].dependsOn| && defs[k].dependsOn[i] == f;
          assert DepsAreMet(defs[k], before);
        }
        AppendInOrder(DefGraph(defs), order, e.file);
        order := order + [e.file];
      }
    }
  }

  lemma {:induction false} CompletableNeedsAcyclic(defs: seq<Def>, events: seq<Event>)
    requires UniqueFiles(defs) && PossibleRun(defs, events) && AllCompleted(defs, StatesAfter(events))
    ensures KnownFiles(defs) && Acyclic(DefGraph(defs))
  {
    var states := StatesAfter(events);
    RunsStayGated(defs, events);
    forall d, f | d in defs && f in d.dependsOn ensures f in Files(defs) {
      assert RunStateOf(d, states) != Idle;
      var i :| 0 <= i < |d.dependsOn| && d.dependsOn[i] == f;
      assert IsCompleted(f, states);
    }
    var order := CompletionOrder(defs, events);
    forall n | n in DefGraph(defs) ensures n in order {
      GraphKeys(defs, n);
      var k :| 0 <= k < |defs| && Files(defs)[k] == n;
      assert defs[k] in defs;
    }
    OrderedIsAcyclic(DefGraph(defs), order);
  }

  /** Starting the flows one by one in dependency order completes them all. */
  lemma {:induction false} RunInOrder(defs: seq<Def>, order: seq<Name>, n: nat) returns (events: seq<Event>)
    requires UniqueFiles(defs) && KnownFiles(defs) && n <= |order|
    requires DependenciesFirst(DefGraph(defs), order) && Distinct(order)
    requires forall f :: f in order ==> f in Files(defs)
    ensures PossibleRun(defs, events)
    ensures forall f :: f in StatesAfter(events) <==> f in order[..n]
    ensures forall f :: f in StatesAfter(events) ==> StatesAfter(events)[f] == Completed
    ensures !ScreenAfter(events).blocked && ScreenAfter(events).loading == None
  {
    events := [];
    if n > 0 {
      events := RunInOrder(defs, order, n - 1);
      var before, f := StatesAfter(events), order[n - 1];
      TakeOneMore(order, n - 1);
      assert f in order;
      var k :| 0 <= k < |defs| && Files(defs)[k] == f;
      var d := defs[k];
      forall i | 0 <= i < |d.dependsOn| ensures IsCompleted(d.dependsOn[i], before) {
        assert d.dependsOn[i] in d.dependsOn;
        DefEdge(defs, d, d.dependsOn[i]);
        assert Edge(DefGraph(defs), order[n - 1], d.dependsOn[i]);
      }
      events := AddEvent(defs, events, Click(d, true));
      events := AddEvent(defs, events, Settle);
      events := AddEvent(defs, events, Finish(f, true));
    }
  }

  lemma {:induction false} AddEvent(defs: seq<Def>, events: seq<Event>, e: Event) returns (longer: seq<Event>)
    requires PossibleRun(defs, events) && Possible(defs, ScreenAfter(events), e)
    ensures PossibleRun(defs, longer) && ScreenAfter(longer) == After(ScreenAfter(events), e)
  {
    longer := events + [e];
    assert longer[..|longer| - 1] == events;
  }

  /** All the flows can be completed exactly when every dependency is known and none is circular. */
  lemma {:induction false} CompletableIff(defs: seq<Def>)
    requires UniqueFiles(defs)
    ensures Completable(defs) <==> KnownFiles(defs) && Acyclic(DefGraph(defs))
  {
    if Completable(defs) {
      var events :| PossibleRun(defs, events) && AllCompleted(defs, StatesAfter(events));
      CompletableNeedsAcyclic(defs, events);
    }
    if KnownFiles(defs) && Acyclic(DefGraph(defs)) {
      var order := AcyclicHasOrder(DefGraph(defs));
      forall n ensures n in order <==> n in Files(defs) { GraphKeys(defs, n); }
      var events := RunInOrder(defs, order, |order|);
      TakeAll(order);
      forall d | d in defs ensures IsCompleted(d.filename, StatesAfter(events)) { FileIsListed(defs, d); }
      assert AllCompleted(defs, StatesAfter(events));
    }
  }
}
