/**
 * The flows tab over the flows endpoint: optimistic updates and their rollback
 * (ui/src/components/FlowsTab.tsx, crates/takuto-web/src/routes/me_flows.rs).
 */
module FlowsTab {
  import opened Prelude
  import opened Flows
  import opened FlowEdits
  import opened FlowSave

  /** What happens to a request, apart from validation. An answer lost after storing covers a failing read-back. */
  datatype Network = Delivered | RequestLost | StoreFails | ResponseLost

  datatype Reply = Stored(flows: seq<Flow>) | Refused(reason: Rejection) | Failed

  class Server {
    var stored: seq<Flow>

    constructor ()
      ensures stored == []
    {
      stored := [];
    }

    /** `PUT /api/me/flows`: validate, guard against NUL, replace the row, answer with the row. */
    method Put(next: seq<Flow>, stores: bool) returns (reply: Reply)
      modifies this
      ensures stored == if Storable(next) && stores then next else old(stored)
      ensures reply.Stored? <==> Storable(next) && stores
      ensures reply.Stored? ==> reply.flows == next
      ensures reply.Refused? <==> !Acceptable(next)
    {
      var rejected := ValidateUserFlows(next);
      if rejected != None {
        return Refused(rejected.value);
      }
      var clean := GuardNul(next);
      if !clean || !stores {
        return Failed;
      }
      stored := next;
      return Stored(stored);
    }
  }

  class Tab {
    const server: Server
    var flows: seq<Flow>
    ghost var inStep: bool  // no response has been lost since the list was loaded

    ghost predicate Valid()
      reads this, server
    {
      Storable(flows) && Storable(server.stored) && (inStep ==> flows == server.stored)
    }

    constructor (server: Server)
      requires Storable(server.stored)
      ensures this.server == server && flows == server.stored && inStep && Valid()
    {
      this.server, this.flows, this.inStep := server, server.stored, true;
    }

    /**
     * `submitList`: show the new list at once, keep what the server stored, roll back on any
     * failure. The list on the screen is acceptable again once the call is over.
     */
    method SubmitList(next: seq<Flow>, network: Network) returns (ok: bool)
      requires Valid()
      modifies this, server
      ensures Valid()
      ensures ok <==> network.Delivered? && Storable(next)
      ensures flows == if ok then next else old(flows)
      ensures server.stored ==
        if (network.Delivered? || network.ResponseLost?) && Storable(next) then next else old(server.stored)
      ensures inStep <==> ok || (old(inStep) && !(network.ResponseLost? && Storable(next)))
    {
      var prev := flows;
      flows := next;
      ok := false;
      if network.RequestLost? {
        flows := prev;
        return;
      }
      var reply := server.Put(next, !network.StoreFails?);
      if network.ResponseLost? || !reply.Stored? {
        flows := prev;
        inStep := inStep && !reply.Stored?;
        return;
      }
      flows := reply.flows;
      inStep, ok := true, true;
    }

    method HandleInlineRename(index: nat, newName: string, network: Network) returns (ok: bool)
      requires Valid() && index < |flows|
      modifies this, server
      ensures Valid()
      ensures ok <==> network.Delivered? && Safe(old(flows), Renaming(index, newName))
      ensures flows == if ok then InlineRename(old(flows), index, newName) else old(flows)
    {
      EditStorableIff(flows, Renaming(index, newName));
      ok := SubmitList(InlineRename(flows, index, newName), network);
    }

    method HandleDelete(index: nat, network: Network) returns (ok: bool)
      requires Valid() && index < |flows|
      modifies this, server
      ensures Valid()
      ensures ok <==> network.Delivered?
      ensures flows == if ok then Delete(old(flows), index) else old(flows)
    {
      EditStorableIff(flows, Deleting(index));
      ok := SubmitList(Delete(flows, index), network);
    }

    /** The two splices of `handleDrop` on a copy of the list. */
    static method SpliceMoved(flows: seq<Flow>, from: nat, insertAt: nat) returns (next: seq<Flow>)
      requires from < |flows| && insertAt <= |flows| && insertAt != from && insertAt != from + 1
      ensures next == Moved(flows, from, insertAt)
    {
      next := flows;
      var moved := next[from];
      next := RemoveAt(next, from);
      var adjusted := if insertAt > from then insertAt - 1 else insertAt;
      next := InsertAt(next, adjusted, moved);
    }

    /** `handleDrop`: nothing is sent for the two positions next to the dragged card. */
    method HandleDrop(from: nat, insertAt: nat, network: Network) returns (ok: bool)
      requires Valid() && from < |flows| && insertAt <= |flows|
      modifies this, server
      ensures Valid()
      ensures ok <==> network.Delivered? || insertAt == from || insertAt == from + 1
      ensures flows == if ok then Moved(old(flows), from, insertAt) else old(flows)
      ensures insertAt == from || insertAt == from + 1 ==> server.stored == old(server.stored)
    {
      if insertAt == from || insertAt == from + 1 {
        return true;
      }
      EditStorableIff(flows, Moving(from, insertAt));
      var next := SpliceMoved(flows, from, insertAt);
      ok := SubmitList(next, network);
    }

    /** `handleSave` behind an enabled button: the server has the last word on siblings, cycles and NUL. */
    method HandleSave(edit: Option<nat>, draft: Draft, network: Network) returns (ok: bool)
      requires Valid() && (edit.Some? ==> edit.value < |flows|) && CanSave(flows, edit, draft)
      modifies this, server
      ensures Valid()
      ensures ok <==> network.Delivered? && Safe(old(flows), Saving(edit, draft))
      ensures flows == if ok then Saved(old(flows), edit, BuildFlow(draft)) else old(flows)
    {
      EditStorableIff(flows, Saving(edit, draft));
      ok := SubmitList(Saved(flows, edit, BuildFlow(draft)), network);
    }
  }

  // ---- Histories of edits ----------------------------------------------------------------

  datatype Edit =
    | Deleting(index: nat)
    | Renaming(index: nat, newName: string)
    | Moving(from: nat, insertAt: nat)
    | Saving(edit: Option<nat>, draft: Draft)

  /** What the user can do to a list: cards and positions that exist, and an enabled save button. */
  ghost predicate Possible(flows: seq<Flow>, e: Edit)
  {
    match e
    case Deleting(i) => i < |flows|
    case Renaming(i, _) => i < |flows|
    case Moving(from, at) => from < |flows| && at <= |flows|
    case Saving(edit, draft) => (edit.Some? ==> edit.value < |flows|) && CanSave(flows, edit, draft)
  }

  /** The list an edit submits. */
  ghost function Candidate(flows: seq<Flow>, e: Edit): seq<Flow>
    requires Possible(flows, e)
  {
    match e
    case Deleting(i) => Delete(flows, i)
    case Renaming(i, n) => InlineRename(flows, i, n)
    case Moving(from, at) => Moved(flows, from, at)
    case Saving(edit, draft) => Saved(flows, edit, BuildFlow(draft))
  }

  /** What the client does not see to: the new slug is free, the siblings stand, no cycle closes, no NUL. */
  ghost predicate Safe(flows: seq<Flow>, e: Edit)
    requires Possible(flows, e)
  {
    match e
    case Deleting(_) => true
    case Renaming(i, n) => FreshSlug(flows, i, n) && '\0' !in n
    case Moving(_, _) => true
    case Saving(edit, draft) =>
      SiblingsStand(flows, edit, draft) && RepointsSafely(flows, edit, BuildFlow(draft)) && NulFree(BuildFlow(draft))
  }

  /** Of everything the user can do, the server stores exactly the safe edits. */
  lemma {:induction false} EditStorableIff(flows: seq<Flow>, e: Edit)
    requires Storable(flows) && Possible(flows, e)
    ensures Storable(Candidate(flows, e)) <==> Safe(flows, e)
  {
    assert AllNulFree(flows);
    match e
    case Deleting(i) =>
      DeleteStaysAcceptable(flows, i);
      DeleteStaysNulFree(flows, i);
    case Renaming(i, n) =>
      RenameAcceptableIffFresh(flows, i, n);
      RenameNulFreeIff(flows, i, n);
    case Moving(from, at) =>
      MoveStaysAcceptable(flows, from, at);
      MoveStaysNulFree(flows, from, at);
    case Saving(edit, draft) =>
      SaveAcceptableIff(flows, edit, draft);
      SaveNulFreeIff(flows, edit, BuildFlow(draft));
  }

  /** The list after an edit: a refused one is rolled back. */
  ghost function Shown(flows: seq<Flow>, e: Edit): seq<Flow>
    requires Possible(flows, e)
  {
    if Safe(flows, e) then Candidate(flows, e) else flows
  }

  ghost predicate PossibleHistory(flows: seq<Flow>, edits: seq<Edit>)
    decreases |edits|
  {
    edits != [] ==> Possible(flows, edits[0]) && PossibleHistory(Shown(flows, edits[0]), edits[1..])
  }

  ghost function AfterHistory(flows: seq<Flow>, edits: seq<Edit>): seq<Flow>
    requires PossibleHistory(flows, edits)
    decreases |edits|
  {
    if edits == [] then flows else AfterHistory(Shown(flows, edits[0]), edits[1..])
  }

  /** No history of edits, safe or refused, ever reaches a list the server would not store. */
  lemma {:induction false} HistoriesStayAcceptable(flows: seq<Flow>, edits: seq<Edit>)
    requires Storable(flows) && PossibleHistory(flows, edits)
    ensures Storable(AfterHistory(flows, edits))
    decreases |edits|
  {
    if edits != [] {
      EditStorableIff(flows, edits[0]);
      HistoriesStayAcceptable(Shown(flows, edits[0]), edits[1..]);
    }
  }
}
