/**
 * Edits of the flow list: inline rename, delete and drag reorder
 * (ui/src/components/FlowsTab.tsx), and the editor's save (ui/src/components/FlowEditor.tsx).
 */
module FlowEdits {
  import opened Graphs
  import opened Slugs
  import opened Flows

  // ---- Rewriting references (ui/src/api/flows.ts) -------------------------------------

  function Renamed(d: Name, oldName: Name, newName: Name): Name
  {
    if d == oldName then newName else d
  }

  function RenamedAll(deps: seq<Name>, oldName: Name, newName: Name): (r: seq<Name>)
    ensures |r| == |deps| && forall k :: 0 <= k < |deps| ==> r[k] == Renamed(deps[k], oldName, newName)
  {
    seq(|deps|, k requires 0 <= k < |deps| => Renamed(deps[k], oldName, newName))
  }

  function PropagateRename(flows: seq<Flow>, oldName: Name, newName: Name): (r: seq<Flow>)
    ensures |r| == |flows|
    ensures forall k :: 0 <= k < |flows| ==>
      r[k] == flows[k].(dependsOn := RenamedAll(flows[k].dependsOn, oldName, newName))
  {
    if oldName == newName then
      assert forall k :: 0 <= k < |flows| ==> RenamedAll(flows[k].dependsOn, oldName, newName) == flows[k].dependsOn;
      flows
    else
      seq(|flows|, k requires 0 <= k < |flows| =>
        flows[k].(dependsOn := RenamedAll(flows[k].dependsOn, oldName, newName)))
  }

  function Without(deps: seq<Name>, removed: Name): (r: seq<Name>)
    ensures forall d :: d in r <==> d in deps && d != removed
  {
    if deps == [] then []
    else if deps[0] == removed then Without(deps[1..], removed)
    else [deps[0]] + Without(deps[1..], removed)
  }

  function DropDependency(flows: seq<Flow>, removed: Name): (r: seq<Flow>)
    ensures |r| == |flows|
    ensures forall k :: 0 <= k < |flows| ==>
      && r[k].name == flows[k].name && r[k].steps == flows[k].steps
      && forall d :: d in r[k].dependsOn <==> d in flows[k].dependsOn && d != removed
  {
    seq(|flows|, k requires 0 <= k < |flows| =>
      if removed in flows[k].dependsOn then flows[k].(dependsOn := Without(flows[k].dependsOn, removed))
      else flows[k])
  }

  // ---- The edits ----------------------------------------------------------------------------

  function InlineRename(flows: seq<Flow>, index: nat, newName: Name): seq<Flow>
    requires index < |flows|
  {
    PropagateRename(flows[index := flows[index].(name := newName)], flows[index].name, newName)
  }

  function RemoveAt<T>(s: seq<T>, i: nat): (r: seq<T>)
    requires i < |s|
    ensures |r| == |s| - 1
    ensures forall k :: 0 <= k < i ==> r[k] == s[k]
    ensures forall k :: i <= k < |r| ==> r[k] == s[k + 1]
  {
    s[..i] + s[i + 1..]
  }

  function InsertAt<T>(s: seq<T>, i: nat, x: T): (r: seq<T>)
    requires i <= |s|
    ensures |r| == |s| + 1 && r[i] == x
    ensures forall k :: 0 <= k < i ==> r[k] == s[k]
    ensures forall k :: i < k < |r| ==> r[k] == s[k - 1]
  {
    s[..i] + [x] + s[i..]
  }

  function Delete(flows: seq<Flow>, index: nat): seq<Flow>
    requires index < |flows|
  {
    DropDependency(RemoveAt(flows, index), flows[index].name)
  }

  /** The two splices of `handleDrop`, without its shortcut. */
  function Spliced<T>(s: seq<T>, from: nat, insertAt: nat): seq<T>
    requires from < |s| && insertAt <= |s|
  {
    var rest := RemoveAt(s, from);
    InsertAt(rest, if insertAt > from then insertAt - 1 else insertAt, s[from])
  }

  function Moved<T>(s: seq<T>, from: nat, insertAt: nat): seq<T>
    requires from < |s| && insertAt <= |s|
  {
    if insertAt == from || insertAt == from + 1 then s else Spliced(s, from, insertAt)
  }

  // ---- Reordering ------------------------------------------------------------------------------

  /** Taking the moved item out again leaves the others in the order they had. */
  lemma {:induction false} MoveKeepsTheRest<T>(s: seq<T>, from: nat, insertAt: nat) returns (to: nat)
    requires from < |s| && insertAt <= |s|
    ensures |Moved(s, from, insertAt)| == |s| && to < |s|
    ensures to == if insertAt > from then insertAt - 1 else insertAt
    ensures Moved(s, from, insertAt)[to] == s[from]
    ensures RemoveAt(Moved(s, from, insertAt), to) == RemoveAt(s, from)
  {
    to := if insertAt > from then insertAt - 1 else insertAt;
  }

  /** The skipped drops are exactly the ones that would change nothing, the items being distinct. */
  lemma {:induction false} SkippedDrops<T>(s: seq<T>, from: nat, insertAt: nat)
    requires from < |s| && insertAt <= |s|
    requires forall i, j :: 0 <= i < j < |s| ==> s[i] != s[j]
    ensures Spliced(s, from, insertAt) == s <==> insertAt == from || insertAt == from + 1
    ensures Moved(s, from, insertAt) == Spliced(s, from, insertAt)
  {
    var to := if insertAt > from then insertAt - 1 else insertAt;
    if to != from {
      assert Spliced(s, from, insertAt)[to] == s[from];
    } else {
      assert Spliced(s, from, insertAt) == s;
    }
  }

  /** Where the item now at `k` stood before, and where the one at `k` has gone. */
  function Source(from: nat, to: nat, k: nat): nat
  {
    if k == to then from else SkipPast(from, if k > to then k - 1 else k)
  }

  function SkipPast(hole: nat, k: nat): nat { if k >= hole then k + 1 else k }

  lemma {:induction false} SourceRange(from: nat, to: nat, n: nat, k: nat)
    requires from < n && to < n && k < n
    ensures Source(from, to, k) < n && Source(to, from, Source(from, to, k)) == k
  {
  }

  lemma {:induction false} MovedAt<T>(s: seq<T>, from: nat, insertAt: nat, to: nat, k: nat)
    requires from < |s| && insertAt <= |s| && k < |s|
    requires to == if insertAt > from then insertAt - 1 else insertAt
    ensures |Moved(s, from, insertAt)| == |s| && to < |s| && Source(from, to, k) < |s|
    ensures Moved(s, from, insertAt)[k] == s[Source(from, to, k)]
  {
  }

  /** A move sends positions to positions, and the move back is its inverse. */
  lemma {:induction false} MoveIsPermutation<T>(s: seq<T>, from: nat, insertAt: nat) returns (to: nat)
    requires from < |s| && insertAt <= |s|
    ensures |Moved(s, from, insertAt)| == |s| && to < |s|
    ensures forall k: nat :: k < |s| ==>
      Source(from, to, k) < |s| && Moved(s, from, insertAt)[k] == s[Source(from, to, k)]
    ensures forall k: nat :: k < |s| ==>
      Source(to, from, k) < |s| && Source(to, from, Source(from, to, k)) == k == Source(from, to, Source(to, from, k))
  {
    to := if insertAt > from then insertAt - 1 else insertAt;
    MovedAt(s, from, insertAt, to, from);
    var moved := Moved(s, from, insertAt);
    forall k: nat | k < |s|
      ensures Source(from, to, k) < |s| && moved[k] == s[Source(from, to, k)]
      ensures Source(to, from, k) < |s|
      ensures Source(to, from, Source(from, to, k)) == k == Source(from, to, Source(to, from, k))
    {
      MovedAt(s, from, insertAt, to, k);
      SourceRange(from, to, |s|, k);
      SourceRange(to, from, |s|, k);
    }
  }

  // ---- Edits keep the list acceptable --------------------------------------------------------------

  /**
   * A list whose flows each come from a flow of a list without cycles, with names and dependencies
   * carried along by `f`, has no new cycles.
   */
  lemma {:induction false} DerivedListIsAcyclic(next: seq<Flow>, flows: seq<Flow>, src: nat -> nat, f: Name -> Name)
    requires DistinctSlugs(flows) && Acyclic(FlowGraph(flows)) && DistinctSlugs(next)
    requires forall i: nat :: i < |next| ==> src(i) < |flows| && flows[src(i)].name == f(next[i].name)
    requires forall i: nat, d :: i < |next| && d in next[i].dependsOn ==> f(d) in flows[src(i)].dependsOn
    ensures Acyclic(FlowGraph(next))
  {
    EdgesAreNeeds(next);
    EdgesAreNeeds(flows);
    var g, h := FlowGraph(next), FlowGraph(flows);
    forall x | x in g ensures f(x) in h {
      KnownNames(next, x);
      var i: nat :| i < |next| && Names(next)[i] == x;
      assert Names(flows)[src(i)] == f(x);
      KnownNames(flows, f(x));
    }
    forall x, y | Edge(g, x, y) ensures Edge(h, f(x), f(y)) {
      var i: nat :| NeedsNamed(next, i, x, y);
      KnownNames(next, y);
      KnownNames(flows, f(y));
      assert NeedsNamed(flows, src(i), f(x), f(y));
    }
    CarryCycles(g, h, f);
  }

  lemma {:induction false} NameAt(flows: seq<Flow>, n: Name) returns (k: nat)
    requires n in Names(flows)
    ensures k < |flows| && flows[k].name == n
  {
    k :| k < |flows| && Names(flows)[k] == n;
  }

  lemma {:induction false} NameIsListed(flows: seq<Flow>, k: nat)
    requires k < |flows|
    ensures flows[k].name in Names(flows)
  {
    assert Names(flows)[k] == flows[k].name;
  }

  /**
   * Keeping some flows of an acceptable list, in any order, stays acceptable when the references
   * to the flows left out go too. `src` and `tgt` say where a flow was and where it is now.
   */
  lemma {:induction false} SelectionStaysAcceptable(next: seq<Flow>, flows: seq<Flow>, gone: set<Name>,
                                                    src: nat -> nat, tgt: nat -> nat)
    requires Acceptable(flows) && |next| <= |flows|
    requires forall i: nat :: i < |next| ==>
      src(i) < |flows| && next[i].name == flows[src(i)].name && next[i].steps == flows[src(i)].steps
    requires forall i: nat, j: nat :: i < j < |next| ==> src(i) != src(j)
    requires forall i: nat, d :: i < |next| && d in next[i].dependsOn ==> d in flows[src(i)].dependsOn
    requires forall i: nat, d :: i < |next| && d in next[i].dependsOn ==> d !in gone
    requires forall k: nat :: k < |flows| && flows[k].name !in gone ==>
      tgt(k) < |next| && next[tgt(k)].name == flows[k].name
    ensures Acceptable(next)
  {
    forall i, j | 0 <= i < j < |next| ensures SlugOf(next[i].name) != SlugOf(next[j].name) {
      assert SlugOf(flows[src(i)].name) != SlugOf(flows[src(j)].name);
    }
    forall i | 0 <= i < |next| ensures SlugOf(next[i].name) != "" {
      assert SlugOf(flows[src(i)].name) != "";
    }
    forall i: nat, d | i < |next| && d in next[i].dependsOn ensures d in Names(next) {
      assert d in flows[src(i)].dependsOn;
      var k := NameAt(flows, d);
      NameIsListed(next, tgt(k));
    }
    DerivedListIsAcyclic(next, flows, src, n => n);
  }

  /** Reordering is always accepted. */
  lemma {:induction false} MoveStaysAcceptable(flows: seq<Flow>, from: nat, insertAt: nat)
    requires Acceptable(flows) && from < |flows| && insertAt <= |flows|
    ensures Acceptable(Moved(flows, from, insertAt))
  {
    var next := Moved(flows, from, insertAt);
    var to := MoveIsPermutation(flows, from, insertAt);
    var src, tgt := (k: nat) => Source(from, to, k), (k: nat) => Source(to, from, k);
    ReorderStaysAcceptable(next, flows, src, tgt);
  }

  lemma {:induction false} ReorderStaysAcceptable(next: seq<Flow>, flows: seq<Flow>, src: nat -> nat, tgt: nat -> nat)
    requires Acceptable(flows) && |next| == |flows|
    requires forall k: nat :: k < |flows| ==> src(k) < |flows| && tgt(k) < |flows| && tgt(src(k)) == k && src(tgt(k)) == k
    requires forall k: nat :: k < |flows| ==> next[k] == flows[src(k)]
    ensures Acceptable(next)
  {
    forall k: nat | k < |flows| ensures next[tgt(k)].name == flows[k].name {
      assert next[tgt(k)] == flows[src(tgt(k))];
    }
    SelectionStaysAcceptable(next, flows, {}, src, tgt);
  }

  /** Deleting a flow together with the references to it is always accepted. */
  lemma {:induction false} DeleteStaysAcceptable(flows: seq<Flow>, index: nat)
    requires Acceptable(flows) && index < |flows|
    ensures Acceptable(Delete(flows, index))
  {
    var next := Delete(flows, index);
    var src, tgt := (i: nat) => SkipPast(index, i), (k: nat) => if k > index then k - 1 else k;
    DeleteSelects(flows, index);
    forall i: nat | i < |next|
      ensures next[i].name == flows[src(i)].name && next[i].steps == flows[src(i)].steps
      ensures forall d :: d in next[i].dependsOn <==> d in flows[src(i)].dependsOn && d != flows[index].name
    {
      DeletedAt(flows, index, i);
    }
    forall k: nat | k < |flows| && flows[k].name != flows[index].name
      ensures tgt(k) < |next| && next[tgt(k)].name == flows[k].name
    {
      DeletedAt(flows, index, tgt(k));
    }
    SelectionStaysAcceptable(next, flows, {flows[index].name}, src, tgt);
  }

  lemma {:induction false} DeleteSelects(flows: seq<Flow>, index: nat)
    requires index < |flows|
    ensures |Delete(flows, index)| == |flows| - 1
  {
  }

  lemma {:induction false} DeletedAt(flows: seq<Flow>, index: nat, i: nat)
    requires index < |flows| && i < |flows| - 1
    ensures |Delete(flows, index)| == |flows| - 1 && SkipPast(index, i) < |flows|
    ensures var next, was := Delete(flows, index)[i], flows[SkipPast(index, i)];
      && next.name == was.name && next.steps == was.steps
      && forall d :: d in next.dependsOn <==> d in was.dependsOn && d != flows[index].name
  {
  }

  /** One reference drops out of a list of dependencies and the others keep their order. */
  lemma {:induction false} WithoutDropsOne(before: seq<Name>, removed: Name, behind: seq<Name>)
    requires removed !in before
    ensures Without(before + [removed] + behind, removed) == before + Without(behind, removed)
    ensures Without(before, removed) == before
  {
    var all := before + [removed] + behind;
    if before == [] {
      assert all[1..] == behind;
    } else {
      assert all[1..] == before[1..] + [removed] + behind;
      WithoutDropsOne(before[1..], removed, behind);
    }
  }

  /** Deleting a flow takes it and the references to it out of the list, and leaves everything else as it was. */
  lemma {:induction false} DeleteKeepsTheRest(flows: seq<Flow>, index: nat, i: nat)
    requires index < |flows| && i < |flows| - 1
    ensures |Delete(flows, index)| == |flows| - 1
    ensures var was := flows[if i < index then i else i + 1];
      Delete(flows, index)[i] == was.(dependsOn := Without(was.dependsOn, flows[index].name))
  {
    var was := flows[if i < index then i else i + 1];
    if flows[index].name !in was.dependsOn { WithoutDropsOne(was.dependsOn, flows[index].name, []); }
  }

  /** The new slug is non-empty and no other flow has it. */
  ghost predicate FreshSlug(flows: seq<Flow>, index: nat, newName: Name)
  {
    && SlugOf(newName) != ""
    && forall k {:trigger SlugOf(flows[k].name)} ::
         0 <= k < |flows| && k != index ==> SlugOf(flows[k].name) != SlugOf(newName)
  }

  /** An inline rename is accepted exactly when the new slug is free. */
  lemma {:induction false} RenameAcceptableIffFresh(flows: seq<Flow>, index: nat, newName: Name)
    requires Acceptable(flows) && index < |flows|
    ensures Acceptable(InlineRename(flows, index, newName)) <==> FreshSlug(flows, index, newName)
  {
    var next, oldName := InlineRename(flows, index, newName), flows[index].name;
    RenameKeepsTheRest(flows, index, newName);
    if FreshSlug(flows, index, newName) {
      forall i, d | 0 <= i < |next| && d in next[i].dependsOn
        ensures d in Names(next) && Renamed(d, newName, oldName) in flows[i].dependsOn
      {
        RenamedDependency(flows, index, newName, i, d);
      }
      DerivedListIsAcyclic(next, flows, i => i, n => Renamed(n, newName, oldName));
    } else if SlugOf(newName) != "" {
      var k {:trigger SlugOf(flows[k].name)} :|
        0 <= k < |flows| && k != index && SlugOf(flows[k].name) == SlugOf(newName);
      assert SlugOf(next[k].name) == SlugOf(next[index].name);
    }
  }

  lemma {:induction false} RenameKeepsTheRest(flows: seq<Flow>, index: nat, newName: Name)
    requires index < |flows|
    ensures var next := InlineRename(flows, index, newName);
      && |next| == |flows| && next[index].name == newName
      && (forall k :: 0 <= k < |flows| ==> next[k].steps == flows[k].steps)
      && (forall k :: 0 <= k < |flows| && k != index ==> next[k].name == flows[k].name)
      && (forall k :: 0 <= k < |flows| ==>
            next[k].dependsOn == RenamedAll(flows[k].dependsOn, flows[index].name, newName))
  {
  }

  /** Under a fresh name every dependency after the rename is known and stems from one before it. */
  lemma {:induction false} RenamedDependency(flows: seq<Flow>, index: nat, newName: Name, i: nat, d: Name)
    requires Acceptable(flows) && index < |flows| && FreshSlug(flows, index, newName) && i < |flows|
    requires d in InlineRename(flows, index, newName)[i].dependsOn
    ensures d in Names(InlineRename(flows, index, newName))
    ensures Renamed(d, newName, flows[index].name) in flows[i].dependsOn
  {
    var next, oldName := InlineRename(flows, index, newName), flows[index].name;
    RenameKeepsTheRest(flows, index, newName);
    var k :| 0 <= k < |next[i].dependsOn| && next[i].dependsOn[k] == d;
    var was := flows[i].dependsOn[k];
    assert was in flows[i].dependsOn;
    var j := NameAt(flows, was);
    NameIsListed(next, if was == oldName then index else j);
    assert was == newName ==> j == index;
  }

  // ---- NUL characters --------------------------------------------------------------------------

  ghost predicate AllNulFree(flows: seq<Flow>) { forall k :: 0 <= k < |flows| ==> NulFree(flows[k]) }

  lemma {:induction false} DeleteStaysNulFree(flows: seq<Flow>, index: nat)
    requires AllNulFree(flows) && index < |flows|
    ensures AllNulFree(Delete(flows, index))
  {
    DeleteSelects(flows, index);
    forall i: nat | i < |flows| - 1 ensures NulFree(Delete(flows, index)[i]) {
      DeletedAt(flows, index, i);
      assert NulFree(flows[SkipPast(index, i)]);
    }
  }

  lemma {:induction false} MoveStaysNulFree(flows: seq<Flow>, from: nat, insertAt: nat)
    requires AllNulFree(flows) && from < |flows| && insertAt <= |flows|
    ensures AllNulFree(Moved(flows, from, insertAt))
  {
    var to := MoveIsPermutation(flows, from, insertAt);
    forall k: nat | k < |flows| ensures NulFree(Moved(flows, from, insertAt)[k]) {
      assert NulFree(flows[Source(from, to, k)]);
    }
  }

  /** A reference rewritten to a name without NUL brings none in. */
  lemma {:induction false} RenamedNulFree(f: Flow, oldName: Name, newName: Name)
    requires NulFree(f) && '\0' !in newName
    ensures NulFree(f.(dependsOn := RenamedAll(f.dependsOn, oldName, newName)))
  {
    var now := RenamedAll(f.dependsOn, oldName, newName);
    forall d | d in now ensures '\0' !in d {
      var j :| 0 <= j < |now| && now[j] == d;
      assert f.dependsOn[j] in f.dependsOn;
    }
  }

  lemma {:induction false} RenameNulFreeIff(flows: seq<Flow>, index: nat, newName: Name)
    requires AllNulFree(flows) && index < |flows|
    ensures AllNulFree(InlineRename(flows, index, newName)) <==> '\0' !in newName
  {
    var next := InlineRename(flows, index, newName);
    if '\0' in newName {
      assert next[index].name == newName;
    } else {
      forall k | 0 <= k < |next| ensures NulFree(next[k]) {
        assert NulFree(flows[k]);
        RenamedNulFree(if k == index then flows[k].(name := newName) else flows[k], flows[index].name, newName);
      }
    }
  }
}
