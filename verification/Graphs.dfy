/**
 * Dependency graphs between named flows. A name that is not a key of the graph is unknown:
 * the searches skip it, so it takes part in no edge.
 */
module Graphs {
  import opened Prelude


  type Name = string
  type Graph = map<Name, seq<Name>>

  datatype Node = Node(name: Name, dependsOn: seq<Name>)

  /** The map built by inserting the nodes in turn: a later node replaces an earlier namesake. */
  function GraphOf(nodes: seq<Node>): (g: Graph)
    ensures forall n :: n in g <==> exists k :: 0 <= k < |nodes| && nodes[k].name == n
  {
    if nodes == [] then map[]
    else
      var last := nodes[|nodes| - 1];
      GraphOf(nodes[..|nodes| - 1])[last.name := last.dependsOn]
  }

  /** With no later namesake, the graph holds the node's own dependencies. */
  lemma {:induction false} GraphValue(nodes: seq<Node>, i: nat)
    requires i < |nodes|
    requires forall j :: i < j < |nodes| ==> nodes[j].name != nodes[i].name
    ensures nodes[i].name in GraphOf(nodes) && GraphOf(nodes)[nodes[i].name] == nodes[i].dependsOn
  {
    if i < |nodes| - 1 {
      GraphValue(nodes[..|nodes| - 1], i);
    }
  }

  ghost predicate Edge(g: Graph, from: Name, to: Name)
  {
    from in g && to in g && to in g[from]
  }

  /** A non-empty list of known names, each depending on the next. */
  ghost predicate Walk(g: Graph, p: seq<Name>)
  {
    && p != []
    && p[0] in g
    && forall k :: 0 <= k < |p| - 1 ==> Edge(g, p[k], p[k + 1])
  }

  ghost predicate Reaches(g: Graph, from: Name, to: Name)
  {
    exists p :: Walk(g, p) && p[0] == from && p[|p| - 1] == to
  }

  ghost predicate Closes(g: Graph, p: seq<Name>)
  {
    Walk(g, p) && |p| > 1 && p[0] == p[|p| - 1]
  }

  ghost predicate OnCycle(g: Graph, n: Name)
  {
    exists p :: Closes(g, p) && p[0] == n
  }

  ghost predicate Acyclic(g: Graph)
  {
    forall p :: !Closes(g, p)
  }

  /** Each listed name comes after all its known dependencies. */
  ghost predicate DependenciesFirst(g: Graph, order: seq<Name>)
  {
    forall i, d :: 0 <= i < |order| && Edge(g, order[i], d) ==> d in order[..i]
  }

  lemma {:induction false} WalkGoesBack(g: Graph, order: seq<Name>, p: seq<Name>, i: nat)
    requires DependenciesFirst(g, order) && Walk(g, p) && |p| > 1
    requires i < |order| && order[i] == p[0]
    ensures p[|p| - 1] in order[..i]
    decreases |p|
  {
    assert Edge(g, p[0], p[1]);
    if |p| > 2 {
      var j :| 0 <= j < i && order[j] == p[1];
      SuffixWalk(g, p, 1);
      WalkGoesBack(g, order, p[1..], j);
    }
  }

  /** An order that lists every name, dependencies first, leaves no room for a cycle. */
  lemma {:induction false} OrderedIsAcyclic(g: Graph, order: seq<Name>)
    requires DependenciesFirst(g, order)
    requires forall n :: n in g ==> n in order
    ensures Acyclic(g)
  {
    forall p ensures !Closes(g, p) {
      if Closes(g, p) {
        var i := FirstIndex(order, p[0]);
        WalkGoesBack(g, order, p, i);
      }
    }
  }

  lemma {:induction false} FirstIndex(s: seq<Name>, n: Name) returns (i: nat)
    requires n in s
    ensures i < |s| && s[i] == n && n !in s[..i]
  {
    i := 0;
    while s[i] != n
      invariant i < |s| && n !in s[..i] && n in s[i..]
      decreases |s| - i
    {
      i := i + 1;
    }
  }

  lemma {:induction false} ExtendWalk(g: Graph, p: seq<Name>, to: Name)
    requires Walk(g, p) && Edge(g, p[|p| - 1], to)
    ensures Walk(g, p + [to])
  {
    var q := p + [to];
    forall k | 0 <= k < |q| - 1 ensures Edge(g, q[k], q[k + 1]) {
      if k < |p| - 1 { assert Edge(g, p[k], p[k + 1]); }
    }
  }

  lemma {:induction false} PrefixWalk(g: Graph, p: seq<Name>, last: Name)
    requires p != [] && Walk(g, p + [last])
    ensures Walk(g, p)
  {
    var q := p + [last];
    assert q[0] == p[0];
    forall k | 0 <= k < |p| - 1 ensures Edge(g, p[k], p[k + 1]) {
      assert Edge(g, q[k], q[k + 1]);
    }
  }

  lemma {:induction false} AppendInOrder(g: Graph, order: seq<Name>, n: Name)
    requires DependenciesFirst(g, order)
    requires forall d :: Edge(g, n, d) ==> d in order
    ensures DependenciesFirst(g, order + [n])
  {
    var longer := order + [n];
    forall i, d | 0 <= i < |longer| && Edge(g, longer[i], d) ensures d in longer[..i] {
      assert longer[..i] == order[..i];
      assert i < |order| ==> Edge(g, order[i], d);
    }
  }

  lemma {:induction false} EdgeReaches(g: Graph, from: Name, to: Name)
    requires Edge(g, from, to)
    ensures Reaches(g, from, to)
  {
    assert Walk(g, [from, to]);
  }

  lemma {:induction false} SuffixWalk(g: Graph, p: seq<Name>, i: nat)
    requires Walk(g, p) && i < |p|
    ensures Walk(g, p[i..])
  {
    var q := p[i..];
    if i > 0 { assert Edge(g, p[i - 1], p[i]); }
    forall k | 0 <= k < |q| - 1 ensures Edge(g, q[k], q[k + 1]) {
      assert Edge(g, p[i + k], p[i + k + 1]);
    }
  }

  /** Stepping from the end of a walk to a name on it closes a cycle. */
  lemma {:induction false} BackEdgeCloses(g: Graph, p: seq<Name>, to: Name)
    requires Walk(g, p) && Edge(g, p[|p| - 1], to) && to in p
    ensures OnCycle(g, to) && !Acyclic(g)
  {
    var i :| 0 <= i < |p| && p[i] == to;
    SuffixWalk(g, p, i);
    ExtendWalk(g, p[i..], to);
    assert Closes(g, p[i..] + [to]);
  }

  /** A map of names that carries edges to edges carries cycles to cycles. */
  lemma {:induction false} CarryCycles(g: Graph, h: Graph, f: Name -> Name)
    requires forall x :: x in g ==> f(x) in h
    requires forall x, y :: Edge(g, x, y) ==> Edge(h, f(x), f(y))
    requires Acyclic(h)
    ensures Acyclic(g)
  {
    forall p ensures !Closes(g, p) {
      if Closes(g, p) {
        var q := seq(|p|, k requires 0 <= k < |p| => f(p[k]));
        forall k | 0 <= k < |q| - 1 ensures Edge(h, q[k], q[k + 1]) {
          assert Edge(g, p[k], p[k + 1]);
        }
        assert Closes(h, q);
      }
    }
  }

  /** Joining two walks by an edge. */
  lemma {:induction false} JoinWalks(g: Graph, p: seq<Name>, q: seq<Name>)
    requires Walk(g, p) && Walk(g, q) && Edge(g, p[|p| - 1], q[0])
    ensures Walk(g, p + q)
  {
    var r := p + q;
    forall k | 0 <= k < |r| - 1 ensures Edge(g, r[k], r[k + 1]) {
      if k < |p| - 1 {
        assert Edge(g, p[k], p[k + 1]);
      } else if k >= |p| {
        assert Edge(g, q[k - |p|], q[k - |p| + 1]);
      }
    }
  }

  // ---- Adding edges into one name ---------------------------------------------------------

  /** `n` has the edges of `g` and, besides, one from each of `from` to `hub`. */
  ghost predicate AddsEdgesInto(g: Graph, n: Graph, hub: Name, from: set<Name>)
  {
    && g.Keys == n.Keys && hub in g && from <= g.Keys
    && forall x, y :: Edge(n, x, y) <==> Edge(g, x, y) || (y == hub && x in from)
  }

  /** The part of a walk after its last new edge is a walk in the old graph. */
  lemma {:induction false} AfterLastNewEdge(g: Graph, n: Graph, hub: Name, from: set<Name>, p: seq<Name>)
    requires AddsEdgesInto(g, n, hub, from) && Walk(n, p)
    ensures Walk(g, p) || Reaches(g, hub, p[|p| - 1])
  {
    if |p| > 1 {
      SuffixWalk(n, p, 1);
      AfterLastNewEdge(g, n, hub, from, p[1..]);
      assert Edge(n, p[0], p[1]);
      if Walk(g, p[1..]) {
        if Edge(g, p[0], p[1]) {
          JoinWalks(g, [p[0]], p[1..]);
          assert [p[0]] + p[1..] == p;
        } else {
          assert p[1..][0] == hub;
        }
      }
    }
  }

  /** The new edges close a cycle exactly when the hub already reached one of their sources. */
  lemma {:induction false} NewEdgesCloseIff(g: Graph, n: Graph, hub: Name, from: set<Name>)
    requires AddsEdgesInto(g, n, hub, from) && Acyclic(g)
    ensures Acyclic(n) <==> forall x :: x in from ==> !Reaches(g, hub, x)
  {
    forall x | x in from && Reaches(g, hub, x) ensures !Acyclic(n) {
      var p :| Walk(g, p) && p[0] == hub && p[|p| - 1] == x;
      forall k | 0 <= k < |p| - 1 ensures Edge(n, p[k], p[k + 1]) {
        assert Edge(g, p[k], p[k + 1]);
      }
      BackEdgeCloses(n, p, hub);
    }
    if p :| Closes(n, p) {
      var x := NewEdgeOnCycle(g, n, hub, from, p);
    }
  }

  lemma {:induction false} NewEdgeOnCycle(g: Graph, n: Graph, hub: Name, from: set<Name>, p: seq<Name>) returns (x: Name)
    requires AddsEdgesInto(g, n, hub, from) && Acyclic(g) && Closes(n, p)
    ensures x in from && Reaches(g, hub, x)
  {
    assert !Closes(g, p);
    var k :| 0 <= k < |p| - 1 && !Edge(g, p[k], p[k + 1]);
    assert Edge(n, p[k], p[k + 1]);
    x := p[k];
    var q := Rotate(n, p, k);
    AfterLastNewEdge(g, n, hub, from, q);
  }

  /** Going once round a cycle from just after its `k`th edge to just before it. */
  lemma {:induction false} Rotate(g: Graph, p: seq<Name>, k: nat) returns (q: seq<Name>)
    requires Closes(g, p) && k < |p| - 1
    ensures Walk(g, q) && q[0] == p[k + 1] && q[|q| - 1] == p[k]
  {
    q := p[k + 1..];
    SuffixWalk(g, p, k + 1);
    if k > 0 {
      SuffixWalk(g, p, 1);
      TakeWalk(g, p[1..], k);
      assert Edge(g, p[0], p[1]);
      JoinWalks(g, q, p[1..][..k]);
      q := q + p[1..][..k];
    }
  }

  lemma {:induction false} TakeWalk(g: Graph, p: seq<Name>, k: nat)
    requires Walk(g, p) && 0 < k <= |p|
    ensures Walk(g, p[..k])
  {
    forall i | 0 <= i < k - 1 ensures Edge(g, p[..k][i], p[..k][i + 1]) {
      assert Edge(g, p[i], p[i + 1]);
    }
  }

  // ---- Acyclic graphs can be listed in order -------------------------------------------------

  /** Following unlisted dependencies from an unlisted name ends at one whose dependencies are all listed. */
  lemma {:induction false} ReadyName(g: Graph, order: seq<Name>, path: seq<Name>, seen: set<Name>) returns (n: Name)
    requires Acyclic(g) && Walk(g, path) && path[|path| - 1] !in order
    requires seen <= g.Keys && forall x :: x in path <==> x in seen
    ensures n in g && n !in order && forall d :: Edge(g, n, d) ==> d in order
    decreases g.Keys - seen
  {
    n := path[|path| - 1];
    assert n in seen;
    if d :| Edge(g, n, d) && d !in order {
      if d in path {
        BackEdgeCloses(g, path, d);
      }
      ExtendWalk(g, path, d);
      n := ReadyName(g, order, path + [d], seen + {d});
    }
  }

  lemma {:induction false} AcyclicHasOrder(g: Graph) returns (order: seq<Name>)
    requires Acyclic(g)
    ensures DependenciesFirst(g, order) && Distinct(order)
    ensures forall n :: n in g <==> n in order
  {
    order := [];
    ghost var left := g.Keys;
    while left != {}
      invariant DependenciesFirst(g, order) && Distinct(order)
      invariant left <= g.Keys && forall n :: n in order <==> n in g && n !in left
      decreases left
    {
      var start :| start in left;
      var n := ReadyName(g, order, [start], {start});
      AppendInOrder(g, order, n);
      order, left := order + [n], left - {n};
    }
  }
}
