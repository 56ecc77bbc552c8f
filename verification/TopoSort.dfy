/** The order of the flow buttons (ui/src/components/workflowDefState.ts). */
module TopoSort {
  import opened Prelude
  import opened Graphs

  datatype Def = Def(filename: Name, name: string, dependsOn: seq<Name>)

  function Files(defs: seq<Def>): (files: seq<Name>)
    ensures |files| == |defs| && forall k :: 0 <= k < |defs| ==> files[k] == defs[k].filename
  {
    seq(|defs|, k requires 0 <= k < |defs| => defs[k].filename)
  }

  function Nodes(defs: seq<Def>): (nodes: seq<Node>)
    ensures |nodes| == |defs|
    ensures forall k :: 0 <= k < |defs| ==> nodes[k] == Node(defs[k].filename, defs[k].dependsOn)
  {
    seq(|defs|, k requires 0 <= k < |defs| => Node(defs[k].filename, defs[k].dependsOn))
  }

  function DefGraph(defs: seq<Def>): Graph { GraphOf(Nodes(defs)) }

  ghost predicate UniqueFiles(defs: seq<Def>)
  {
    Distinct(Files(defs))
  }

  /** The file index agrees with the graph: each file stands for its own definition. */
  ghost predicate Indexes(byFile: map<Name, Def>, g: Graph)
  {
    && byFile.Keys == g.Keys
    && forall f :: f in byFile ==> byFile[f].filename == f && byFile[f].dependsOn == g[f]
  }

  // ---- What the two sets mean, over plain values ----------------------------------------

  ghost predicate IsSetOf(visited: set<Name>, names: seq<Name>)
  {
    forall n :: n in visited <==> n in names
  }

  ghost predicate Listed(byFile: map<Name, Def>, visited: set<Name>, sorted: seq<Def>)
  {
    && IsSetOf(visited, Files(sorted))
    && (forall d :: d in sorted ==> d.filename in byFile && byFile[d.filename] == d)
    && Distinct(Files(sorted))
  }

  /** Until a cycle shows up, `visiting` is the open path and `sorted` is in order. */
  ghost predicate Coherent(g: Graph, byFile: map<Name, Def>, visited: set<Name>, visiting: set<Name>,
                           sorted: seq<Def>, hasCycle: bool, stack: seq<Name>)
  {
    && Indexes(byFile, g)
    && visited !! visiting
    && (hasCycle ==> !Acyclic(g))
    && (!hasCycle ==>
          && Listed(byFile, visited, sorted)
          && (forall f :: f in visiting <==> f in stack)
          && (stack == [] || Walk(g, stack))
          && DependenciesFirst(g, Files(sorted)))
  }

  ghost predicate Settled(g: Graph, names: seq<Name>, visited: set<Name>)
  {
    forall n :: n in names && n in g ==> n in visited
  }

  lemma {:induction false} SettleOneMore(g: Graph, names: seq<Name>, k: nat, was: set<Name>, now: set<Name>)
    requires k < |names| && Settled(g, names[..k], was) && was <= now
    requires names[k] in g ==> names[k] in now
    ensures Settled(g, names[..k + 1], now)
  {
    TakeOneMore(names, k);
  }

  lemma {:induction false} Enter(g: Graph, byFile: map<Name, Def>, visited: set<Name>, visiting: set<Name>,
                                 sorted: seq<Def>, hasCycle: bool, stack: seq<Name>, f: Name)
    requires Coherent(g, byFile, visited, visiting, sorted, hasCycle, stack)
    requires f in g && f !in visited && f !in visiting
    requires !hasCycle && stack != [] ==> Edge(g, stack[|stack| - 1], f)
    ensures Coherent(g, byFile, visited, visiting + {f}, sorted, hasCycle, stack + [f])
  {
    if !hasCycle && stack != [] {
      ExtendWalk(g, stack, f);
    }
  }

  lemma {:induction false} Leave(g: Graph, byFile: map<Name, Def>, visited: set<Name>, visiting: set<Name>,
                                 sorted: seq<Def>, hasCycle: bool, stack: seq<Name>, d: Def)
    requires Coherent(g, byFile, visited, visiting + {d.filename}, sorted, hasCycle, stack + [d.filename])
    requires d.filename in byFile && byFile[d.filename] == d && d.filename !in visiting
    requires !hasCycle ==> d.filename !in stack
    requires !hasCycle ==> Settled(g, d.dependsOn, visited)
    ensures Coherent(g, byFile, visited + {d.filename}, visiting, sorted + [d], hasCycle, stack)
  {
    if !hasCycle {
      var f := d.filename;
      assert forall n :: n in stack ==> n in stack + [f];
      assert Files(sorted + [d]) == Files(sorted) + [f];
      if stack != [] {
        PrefixWalk(g, stack, f);
      }
      AppendInOrder(g, Files(sorted), f);
    }
  }

  lemma {:induction false} MeetOpen(g: Graph, byFile: map<Name, Def>, visited: set<Name>, visiting: set<Name>,
                                    sorted: seq<Def>, hasCycle: bool, stack: seq<Name>, f: Name)
    requires Coherent(g, byFile, visited, visiting, sorted, hasCycle, stack)
    requires f in visiting
    requires !hasCycle ==> stack != [] && Edge(g, stack[|stack| - 1], f)
    ensures Coherent(g, byFile, visited, visiting, sorted, true, stack)
  {
    if !hasCycle {
      BackEdgeCloses(g, stack, f);
    }
  }

  // ---- The search itself ------------------------------------------------------------------

  class Sorter {
    const byFile: map<Name, Def>
    var visited: set<Name>
    var visiting: set<Name>
    var sorted: seq<Def>
    var hasCycle: bool
    ghost const g: Graph
    ghost const unique: bool    // no two definitions share a file
    ghost var stack: seq<Name>  // the files being visited, outermost first

    ghost predicate Valid()
      reads this
    {
      unique ==> Coherent(g, byFile, visited, visiting, sorted, hasCycle, stack)
    }

    constructor (byFile: map<Name, Def>, ghost g: Graph, ghost unique: bool)
      requires unique ==> Indexes(byFile, g)
      ensures this.byFile == byFile && this.g == g && this.unique == unique && Valid()
      ensures visited == {} && visiting == {} && sorted == [] && !hasCycle && stack == []
    {
      this.byFile, this.g, this.unique := byFile, g, unique;
      visited, visiting, sorted, hasCycle, stack := {}, {}, [], false, [];
    }

    method Visit(d: Def)
      requires Valid() && d.filename in byFile
      requires forall f :: f in byFile ==> byFile[f].filename == f
      requires unique ==> byFile[d.filename] == d
      requires unique && !hasCycle && stack != [] ==> Edge(g, stack[|stack| - 1], d.filename)
      requires unique && !hasCycle && stack == [] ==> visiting == {}
      modifies this
      ensures Valid()
      ensures visiting == old(visiting) && old(visited) <= visited
      ensures d.filename in visited || d.filename in old(visiting)
      ensures old(hasCycle) ==> hasCycle
      ensures !hasCycle ==> stack == old(stack) && d.filename in visited
      ensures d.filename in old(visited) ==> unchanged(this)
      ensures unique && !hasCycle && d.filename !in old(visited) && Settled(g, d.dependsOn, old(visited)) ==>
        sorted == old(sorted) + [d] && visited == old(visited) + {d.filename}
      decreases byFile.Keys - visited - visiting
    {
      if d.filename in visited {
        return;
      }
      if d.filename in visiting {
        if unique { MeetOpen(g, byFile, visited, visiting, sorted, hasCycle, stack, d.filename); }
        hasCycle := true;
        return;
      }
      ghost var outer := stack;
      if unique { Enter(g, byFile, visited, visiting, sorted, hasCycle, stack, d.filename); }
      visiting := visiting + {d.filename};
      stack := stack + [d.filename];
      for k := 0 to |d.dependsOn|
        invariant Valid()
        invariant visiting == old(visiting) + {d.filename} && old(visited) <= visited
        invariant old(hasCycle) ==> hasCycle
        invariant !hasCycle ==> stack == outer + [d.filename]
        invariant unique && !hasCycle ==> Settled(g, d.dependsOn[..k], visited)
        invariant unique && !hasCycle && Settled(g, d.dependsOn, old(visited)) ==>
          sorted == old(sorted) && visited == old(visited)
      {
        var dep := d.dependsOn[k];
        ghost var was := visited;
        if dep in byFile {
          Visit(byFile[dep]);
        }
        if unique && !hasCycle {
          SettleOneMore(g, d.dependsOn, k, was, visited);
        }
      }
      assert d.dependsOn[..|d.dependsOn|] == d.dependsOn;
      stack := outer;
      if unique { Leave(g, byFile, visited, old(visiting), sorted, hasCycle, outer, d); }
      visiting := visiting - {d.filename};
      visited := visited + {d.filename};
      sorted := sorted + [d];
    }
  }

  // ---- The fallback: `sort` by name ----------------------------------------------------------

  ghost predicate SortedByName(defs: seq<Def>, collate: string -> int)
  {
    forall i, j :: 0 <= i < j < |defs| ==> collate(defs[i].name) <= collate(defs[j].name)
  }

  /** Insertion after the entries whose name collates no later, so equal names keep their order. */
  function InsertByName(d: Def, into: seq<Def>, collate: string -> int): (r: seq<Def>)
    ensures multiset(r) == multiset(into) + multiset{d}
  {
    if into == [] || collate(d.name) < collate(into[0].name) then [d] + into
    else
      assert into == [into[0]] + into[1..];
      [into[0]] + InsertByName(d, into[1..], collate)
  }

  lemma {:induction false} InsertKeepsSorted(d: Def, into: seq<Def>, collate: string -> int)
    requires SortedByName(into, collate)
    ensures SortedByName(InsertByName(d, into, collate), collate)
  {
    if into != [] && collate(into[0].name) <= collate(d.name) {
      var rest := InsertByName(d, into[1..], collate);
      InsertKeepsSorted(d, into[1..], collate);
      forall k | 0 <= k < |rest| ensures collate(into[0].name) <= collate(rest[k].name) {
        OneOf(d, into[1..], rest, k);
      }
      SortedFront(into[0], rest, collate);
    }
  }

  lemma {:induction false} OneOf(d: Def, into: seq<Def>, rest: seq<Def>, k: nat)
    requires multiset(rest) == multiset(into) + multiset{d} && k < |rest|
    ensures rest[k] == d || exists j :: 0 <= j < |into| && into[j] == rest[k]
  {
    assert rest[k] in multiset(rest);
    assert rest[k] == d || rest[k] in into;
  }

  lemma {:induction false} SortedFront(d: Def, rest: seq<Def>, collate: string -> int)
    requires SortedByName(rest, collate)
    requires forall k :: 0 <= k < |rest| ==> collate(d.name) <= collate(rest[k].name)
    ensures SortedByName([d] + rest, collate)
  {
  }

  /** `[...defs].sort(...)`; `collate` stands for the place `localeCompare` gives a name. */
  function SortByName(defs: seq<Def>, collate: string -> int): (r: seq<Def>)
    ensures SortedByName(r, collate) && multiset(r) == multiset(defs)
  {
    if defs == [] then []
    else
      var front := SortByName(defs[..|defs| - 1], collate);
      assert defs == defs[..|defs| - 1] + [defs[|defs| - 1]];
      InsertKeepsSorted(defs[|defs| - 1], front, collate);
      InsertByName(defs[|defs| - 1], front, collate)
  }

  // ---- Putting it together ---------------------------------------------------------------------

  method IndexByFile(defs: seq<Def>) returns (byFile: map<Name, Def>)
    ensures forall f :: f in byFile <==> f in Files(defs)
    ensures forall f :: f in byFile ==> byFile[f] in defs && byFile[f].filename == f
    ensures UniqueFiles(defs) ==> Indexes(byFile, DefGraph(defs))
    ensures UniqueFiles(defs) ==> forall d :: d in defs ==> byFile[d.filename] == d
  {
    byFile := map[];
    for i := 0 to |defs|
      invariant forall f :: f in byFile <==> f in Files(defs[..i])
      invariant forall f :: f in byFile ==> byFile[f] in defs[..i] && byFile[f].filename == f
    {
      assert Files(defs[..i + 1]) == Files(defs[..i]) + [defs[i].filename];
      byFile := byFile[defs[i].filename := defs[i]];
    }
    assert defs[..|defs|] == defs;
    if UniqueFiles(defs) {
      forall d | d in defs ensures byFile[d.filename] == d {
        SameFile(defs, d, byFile[d.filename]);
      }
      forall f | f in byFile ensures f in DefGraph(defs) && DefGraph(defs)[f] == byFile[f].dependsOn {
        GraphValue(Nodes(defs), IndexOf(defs, byFile[f]));
      }
    }
  }

  ghost function IndexOf(defs: seq<Def>, d: Def): (i: nat)
    requires d in defs
    ensures i < |defs| && defs[i] == d
  {
    var i :| 0 <= i < |defs| && defs[i] == d;
    i
  }

  lemma {:induction false} SameFile(defs: seq<Def>, d: Def, e: Def)
    requires UniqueFiles(defs) && d in defs && e in defs && d.filename == e.filename
    ensures d == e
  {
    var i, j := IndexOf(defs, d), IndexOf(defs, e);
    assert Files(defs)[i] == Files(defs)[j];
  }

  lemma {:induction false} SameElements<T>(s: seq<T>, t: seq<T>)
    requires Distinct(s) && Distinct(t) && forall x :: x in s <==> x in t
    ensures multiset(s) == multiset(t)
  {
    forall x ensures multiset(s)[x] == multiset(t)[x] {
      CountOnce(s, x);
      CountOnce(t, x);
    }
  }

  lemma {:induction false} CountOnce<T>(s: seq<T>, x: T)
    requires Distinct(s)
    ensures multiset(s)[x] == if x in s then 1 else 0
  {
    if s != [] {
      CountOnce(s[1..], x);
      assert s == [s[0]] + s[1..];
    }
  }

  lemma {:induction false} DistinctFiles(defs: seq<Def>)
    requires UniqueFiles(defs)
    ensures Distinct(defs)
  {
    forall i, j | 0 <= i < j < |defs| ensures defs[i] != defs[j] {
      assert Files(defs)[i] != Files(defs)[j];
    }
  }

  /** A complete, duplicate-free listing is a permutation, and being in order it rules out cycles. */
  lemma {:induction false} ListingIsPermutation(g: Graph, defs: seq<Def>, byFile: map<Name, Def>, visited: set<Name>,
                                                sorted: seq<Def>)
    requires UniqueFiles(defs) && Listed(byFile, visited, sorted)
    requires byFile.Keys == g.Keys && Settled(g, Files(defs)[..|defs|], visited)
    requires forall f :: f in byFile ==> byFile[f] in defs
    requires forall d :: d in defs ==> d.filename in byFile && byFile[d.filename] == d
    ensures multiset(sorted) == multiset(defs)
  {
    DistinctFiles(defs);
    DistinctFiles(sorted);
    forall d ensures d in defs <==> d in sorted {
      if d in defs {
        assert d.filename == Files(defs)[..|defs|][IndexOf(defs, d)];
        var k :| 0 <= k < |sorted| && Files(sorted)[k] == d.filename;
        assert sorted[k] in sorted;
      }
    }
    SameElements(sorted, defs);
  }

  lemma {:induction false} GraphKeys(defs: seq<Def>, n: Name)
    ensures n in DefGraph(defs) <==> n in Files(defs)
  {
    if n in Files(defs) {
      var k :| 0 <= k < |defs| && Files(defs)[k] == n;
      assert Nodes(defs)[k].name == n;
    }
    if n in DefGraph(defs) {
      var k :| 0 <= k < |defs| && Nodes(defs)[k].name == n;
      assert Files(defs)[k] == n;
    }
  }

  lemma {:induction false} PermutationKeepsFiles(defs: seq<Def>, other: seq<Def>)
    requires multiset(defs) == multiset(other)
    ensures forall n :: n in Files(defs) ==> n in Files(other)
  {
    forall n | n in Files(defs) ensures n in Files(other) {
      var k :| 0 <= k < |defs| && Files(defs)[k] == n;
      assert defs[k] in multiset(other);
      var l :| 0 <= l < |other| && other[l] == defs[k];
      assert Files(other)[l] == n;
    }
  }

  /** An order of all the definitions with dependencies first exists only without cycles. */
  lemma {:induction false} OrderMeansAcyclic(defs: seq<Def>, order: seq<Def>)
    requires multiset(order) == multiset(defs)
    requires DependenciesFirst(DefGraph(defs), Files(order))
    ensures Acyclic(DefGraph(defs))
  {
    forall n | n in DefGraph(defs) ensures n in Files(order) {
      GraphKeys(defs, n);
      PermutationKeepsFiles(defs, order);
    }
    OrderedIsAcyclic(DefGraph(defs), Files(order));
  }

  /** In a list already in order, the next definition is new and its dependencies are settled. */
  lemma {:induction false} NextIsNew(g: Graph, defs: seq<Def>, i: nat, visited: set<Name>)
    requires i < |defs| && UniqueFiles(defs) && g == DefGraph(defs)
    requires DependenciesFirst(g, Files(defs))
    requires IsSetOf(visited, Files(defs)[..i])
    ensures defs[i].filename !in visited
    ensures Settled(g, defs[i].dependsOn, visited)
    ensures IsSetOf(visited + {defs[i].filename}, Files(defs)[..i + 1])
  {
    TakeOneMore(Files(defs), i);
    var f := Files(defs)[i];
    GraphValue(Nodes(defs), i);
    forall n | n in defs[i].dependsOn && n in g ensures n in visited {
      assert Edge(g, f, n);
    }
  }

  /** The visits of `topoSort`, before the choice of what to return. */
  method VisitAll(defs: seq<Def>) returns (sorted: seq<Def>, hasCycle: bool)
    ensures UniqueFiles(defs) ==> (hasCycle <==> !Acyclic(DefGraph(defs)))
    ensures UniqueFiles(defs) && !hasCycle ==>
      multiset(sorted) == multiset(defs) && DependenciesFirst(DefGraph(defs), Files(sorted))
    ensures UniqueFiles(defs) && DependenciesFirst(DefGraph(defs), Files(defs)) ==> sorted == defs
  {
    var byFile := IndexByFile(defs);
    ghost var g, unique := DefGraph(defs), UniqueFiles(defs);
    ghost var inOrder := unique && DependenciesFirst(g, Files(defs));
    if inOrder { OrderMeansAcyclic(defs, defs); }
    var s := new Sorter(byFile, g, unique);
    for i := 0 to |defs|
      invariant s.Valid() && s.visiting == {} && s.byFile == byFile && s.g == g && s.unique == unique
      invariant !s.hasCycle ==> s.stack == [] && Settled(g, Files(defs)[..i], s.visited)
      invariant inOrder ==> s.sorted == defs[..i] && IsSetOf(s.visited, Files(defs)[..i])
    {
      ghost var was := s.visited;
      assert Files(defs)[i] == defs[i].filename;
      if inOrder { NextIsNew(g, defs, i, was); }
      s.Visit(defs[i]);
      if !s.hasCycle { SettleOneMore(g, Files(defs), i, was, s.visited); }
      TakeOneMore(defs, i);
    }
    sorted, hasCycle := s.sorted, s.hasCycle;
    TakeAll(defs);
    if unique && !hasCycle {
      ListingIsPermutation(g, defs, byFile, s.visited, sorted);
      OrderMeansAcyclic(defs, sorted);
    }
  }

  /**
   * `topoSort`. For distinct files the result is a permutation of the definitions, in
   * dependency order exactly when the graph has no cycle and by name otherwise. A list that
   * is already in dependency order comes back as it is.
   */
  method TopoSort(defs: seq<Def>, collate: string -> int) returns (r: seq<Def>)
    ensures UniqueFiles(defs) ==> multiset(r) == multiset(defs)
    ensures UniqueFiles(defs) ==> (DependenciesFirst(DefGraph(defs), Files(r)) <==> Acyclic(DefGraph(defs)))
    ensures UniqueFiles(defs) && !Acyclic(DefGraph(defs)) ==> SortedByName(r, collate)
    ensures UniqueFiles(defs) && DependenciesFirst(DefGraph(defs), Files(defs)) ==> r == defs
  {
    var sorted, hasCycle := VisitAll(defs);
    r := if hasCycle then SortByName(defs, collate) else sorted;
    if UniqueFiles(defs) && DependenciesFirst(DefGraph(defs), Files(r)) {
      OrderMeansAcyclic(defs, r);
    }
    if UniqueFiles(defs) && DependenciesFirst(DefGraph(defs), Files(defs)) {
      OrderMeansAcyclic(defs, defs);
    }
  }
}
