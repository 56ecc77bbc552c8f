/** The editor's cycle check (ui/src/components/FlowEditor.tsx). */
module CycleCheck {
  import opened Prelude
  import opened Graphs

  datatype Color = White | Gray | Black

  /** JavaScript's `if (found)`: the empty string counts as nothing found. */
  predicate Truthy(found: Option<Name>)
  {
    found.Some? && found.value != ""
  }

  // ---- What the colours mean, over plain values -------------------------------------

  ghost function Painted(color: map<Name, Color>, c: Color): set<Name>
  {
    set n | n in color && color[n] == c
  }

  /** Every known name of the list is black. */
  ghost predicate Finished(names: seq<Name>, color: map<Name, Color>)
  {
    forall n :: n in names && n in color ==> n in Painted(color, Black)
  }

  lemma {:induction false} FinishOneMore(names: seq<Name>, k: nat, was: map<Name, Color>, now: map<Name, Color>)
    requires k < |names| && Finished(names[..k], was)
    requires was.Keys == now.Keys && Painted(was, Black) <= Painted(now, Black)
    requires names[k] in now ==> names[k] in Painted(now, Black)
    ensures Finished(names[..k + 1], now)
  {
    TakeOneMore(names, k);
  }

  /** While nothing is found: grey names are the open path, black ones are finished in order. */
  ghost predicate Searching(g: Graph, color: map<Name, Color>, stack: seq<Name>, done: seq<Name>)
    requires color.Keys == g.Keys
  {
    && (forall n :: n in g ==> (color[n] == Gray <==> n in stack))
    && (forall n :: n in g ==> (color[n] == Black <==> n in done))
    && (stack == [] || Walk(g, stack))
    && DependenciesFirst(g, done)
  }

  ghost predicate Coherent(g: Graph, color: map<Name, Color>, found: Option<Name>,
                           stack: seq<Name>, done: seq<Name>)
  {
    && color.Keys == g.Keys
    && match found
       case None => Searching(g, color, stack, done)
       case Some(n) => n in g && !Acyclic(g) && ("" !in g ==> OnCycle(g, n))
  }

  lemma {:induction false} OpenNode(g: Graph, color: map<Name, Color>, found: Option<Name>,
                                    stack: seq<Name>, done: seq<Name>, node: Name)
    requires Coherent(g, color, found, stack, done) && node in g && color[node] == White
    requires found == None && stack != [] ==> Edge(g, stack[|stack| - 1], node)
    ensures Coherent(g, color[node := Gray], found, stack + [node], done)
    ensures Painted(color[node := Gray], White) <= Painted(color, White) - {node}
    ensures Painted(color[node := Gray], Black) == Painted(color, Black)
    ensures found == None ==> node !in stack
  {
    if found == None && stack != [] {
      ExtendWalk(g, stack, node);
    }
  }

  lemma {:induction false} CloseNode(g: Graph, color: map<Name, Color>, found: Option<Name>,
                                     stack: seq<Name>, done: seq<Name>, node: Name)
    requires Coherent(g, color, found, stack + [node], done) && node in g
    requires found == None ==> node !in stack
    requires found == None ==> Finished(g[node], color)
    ensures Coherent(g, color[node := Black], found, stack, done + [node])
    ensures Painted(color[node := Black], White) == Painted(color, White) - {node}
    ensures Painted(color[node := Black], Black) == Painted(color, Black) + {node}
  {
    if found == None {
      assert forall n :: n in stack ==> n in stack + [node];
      if stack != [] {
        PrefixWalk(g, stack, node);
      }
      AppendInOrder(g, done, node);
    }
  }

  /** A grey child is on the open path, so the edge to it closes a cycle. */
  lemma {:induction false} MeetGrey(g: Graph, color: map<Name, Color>, found: Option<Name>,
                                    stack: seq<Name>, done: seq<Name>, node: Name, child: Name)
    requires Coherent(g, color, found, stack, done) && !Truthy(found)
    requires Edge(g, node, child) && color[child] == Gray
    requires found == None ==> stack != [] && stack[|stack| - 1] == node
    ensures Coherent(g, color, Some(child), stack, done)
  {
    if found == None {
      BackEdgeCloses(g, stack, child);
    }
  }

  // ---- The search itself ----------------------------------------------------------------

  class Detector {
    const deps: Graph
    var color: map<Name, Color>
    var found: Option<Name>
    ghost var stack: seq<Name>  // the names being visited, outermost first
    ghost var done: seq<Name>   // the names finished, in the order they finished

    ghost predicate Valid()
      reads this
    {
      Coherent(deps, color, found, stack, done)
    }

    constructor (deps: Graph)
      ensures this.deps == deps && Valid() && found == None && stack == [] && done == []
    {
      this.deps := deps;
      color := map n | n in deps :: White;
      found := None;
      stack, done := [], [];
    }

    method Visit(node: Name)
      requires Valid() && node in deps && color[node] == White
      requires found == None && stack != [] ==> Edge(deps, stack[|stack| - 1], node)
      modifies this
      ensures Valid()
      ensures Painted(color, White) <= old(Painted(color, White))
      ensures !Truthy(old(found)) ==> node !in Painted(color, White)
      ensures old(found).Some? ==> found.Some?
      ensures found == None ==> stack == old(stack)
      ensures found == None ==> old(Painted(color, Black)) + {node} <= Painted(color, Black)
      decreases Painted(color, White)
    {
      if Truthy(found) {
        return;
      }
      ghost var outer := stack;
      OpenNode(deps, color, found, stack, done, node);
      color := color[node := Gray];
      stack := stack + [node];
      var children := deps[node];
      for k := 0 to |children|
        invariant Valid() && !Truthy(found)
        invariant Painted(color, White) <= old(Painted(color, White)) - {node}
        invariant old(found).Some? ==> found.Some?
        invariant found == None ==> stack == outer + [node]
        invariant found == None ==> old(Painted(color, Black)) <= Painted(color, Black)
        invariant found == None ==> Finished(children[..k], color)
      {
        var child := children[k];
        ghost var was := color;
        if child !in deps {
          if found == None {
            FinishOneMore(children, k, was, color);
          }
          continue;
        }
        assert Edge(deps, node, child);
        if color[child] == Gray {
          MeetGrey(deps, color, found, stack, done, node, child);
          found := Some(child);
          return;
        }
        if color[child] == White {
          Visit(child);
          if Truthy(found) {
            return;
          }
        }
        if found == None {
          FinishOneMore(children, k, was, color);
        }
      }
      assert children[..|children|] == children;
      stack := outer;
      CloseNode(deps, color, found, outer, done, node);
      color := color[node := Black];
      done := done + [node];
    }
  }

  /** The `deps` map and its keys, which JavaScript iterates in order of first insertion. */
  method IndexByName(graph: seq<Node>) returns (deps: Graph, keys: seq<Name>)
    ensures deps == GraphOf(graph)
    ensures forall n :: n in keys <==> n in deps
  {
    deps, keys := map[], [];
    for i := 0 to |graph|
      invariant deps == GraphOf(graph[..i])
      invariant forall n :: n in keys <==> n in deps
    {
      assert graph[..i + 1][..i] == graph[..i];
      if graph[i].name !in deps {
        keys := keys + [graph[i].name];
      }
      deps := deps[graph[i].name := graph[i].dependsOn];
    }
    assert graph[..|graph|] == graph;
  }

  /**
   * `detectCycle`. It answers nothing exactly when the graph has no cycle. The name it answers
   * lies on a cycle and reads as true, provided no flow has an empty name.
   */
  method DetectCycle(graph: seq<Node>) returns (involved: Option<Name>)
    ensures involved == None <==> Acyclic(GraphOf(graph))
    ensures involved.Some? ==> involved.value in GraphOf(graph)
    ensures involved.Some? && "" !in GraphOf(graph) ==>
      Truthy(involved) && OnCycle(GraphOf(graph), involved.value)
  {
    var deps, keys := IndexByName(graph);
    var d := new Detector(deps);
    for k := 0 to |keys|
      invariant d.Valid() && !Truthy(d.found)
      invariant d.found == None ==> d.stack == []
      invariant d.found == None ==> Finished(keys[..k], d.color)
    {
      ghost var was := d.color;
      if d.color[keys[k]] == White {
        d.Visit(keys[k]);
        if Truthy(d.found) {
          return d.found;
        }
      }
      if d.found == None {
        FinishOneMore(keys, k, was, d.color);
      }
    }
    if d.found == None {
      assert forall n :: n in deps ==> n in keys[..|keys|];
      OrderedIsAcyclic(deps, d.done);
    }
    return d.found;
  }

  /** The caveat is real: a flow named "" that depends on itself passes the check unnoticed. */
  method EmptyNameGoesUnnoticed() returns (involved: Option<Name>, graph: seq<Node>)
    ensures !Acyclic(GraphOf(graph)) && involved.Some? && !Truthy(involved)
  {
    graph := [Node("", [""])];
    BackEdgeCloses(GraphOf(graph), [""], "");
    involved := DetectCycle(graph);
  }
}
