/**
 * What a document says of every path, whatever headers it has or leaves out and however its keys
 * are dotted (e2e/src/api/toml.ts).
 */
module TomlPaths {
  import opened Prelude
  import opened Text
  import opened Toml
  import opened TomlPrint
  import opened TomlDoc

  /** What a table has at a path. */
  datatype Shape = Vacant | Subtable | Leaf(value: Value)

  function ShapeAt(t: Table, path: seq<string>): Shape
    decreases |path|
  {
    if path == [] then Subtable
    else if path[0] !in t then Vacant
    else if t[path[0]].Nested? then ShapeAt(t[path[0]].entries, path[1..])
    else if |path| == 1 then Leaf(t[path[0]])
    else Vacant
  }

  // ---- Tables at the end of a path --------------------------------------------------------

  lemma {:induction false} ChildShape(t: Table, path: seq<string>)
    requires |path| > 1
    ensures ShapeAt(Child(t, path[0]), path[1..]) == ShapeAt(t, path)
  {
  }

  lemma {:induction false} TableShape(t: Table, path: seq<string>, rest: seq<string>)
    requires rest != []
    ensures ShapeAt(TableAt(t, path), rest) == ShapeAt(t, path + rest)
    decreases |path|
  {
    var all := path + rest;
    if path == [] {
      assert all == rest;
    } else {
      assert all[1..] == path[1..] + rest;
      ChildShape(t, all);
      TableShape(Child(t, path[0]), path[1..], rest);
    }
  }

  /** Along the path a grafted table is a grafted child. */
  lemma {:induction false} GraftStep(t: Table, path: seq<string>, sub: Table, q: seq<string>)
    requires path != [] && q != [] && q[0] == path[0]
    ensures ShapeAt(Graft(t, path, sub), q) == ShapeAt(Graft(Child(t, path[0]), path[1..], sub), q[1..])
  {
  }

  lemma {:induction false} GraftAside(t: Table, path: seq<string>, sub: Table, q: seq<string>)
    requires path != [] && q != [] && q[0] != path[0]
    ensures ShapeAt(Graft(t, path, sub), q) == ShapeAt(t, q)
    ensures !(path <= q) && !(q <= path)
  {
  }

  /** What a table has at `q` once `sub` is grafted at `path`. */
  function Grafted(t: Table, path: seq<string>, sub: Table, q: seq<string>): Shape
  {
    if path <= q then ShapeAt(sub, q[|path|..]) else if q <= path then Subtable else ShapeAt(t, q)
  }

  /** Grafting a table changes what is at the path, makes everything above a table, and nothing else. */
  lemma {:induction false} GraftShape(t: Table, path: seq<string>, sub: Table, q: seq<string>)
    ensures ShapeAt(Graft(t, path, sub), q) == Grafted(t, path, sub, q)
    decreases |path|
  {
    if path == [] {
      assert q[0..] == q;
    } else if q != [] && q[0] == path[0] {
      GraftShape(Child(t, path[0]), path[1..], sub, q[1..]);
      GraftStep(t, path, sub, q);
      GraftedStep(t, path, sub, q);
    } else if q != [] {
      GraftAside(t, path, sub, q);
    }
  }

  lemma {:induction false} GraftedStep(t: Table, path: seq<string>, sub: Table, q: seq<string>)
    requires path != [] && q != [] && q[0] == path[0]
    ensures Grafted(t, path, sub, q) == Grafted(Child(t, path[0]), path[1..], sub, q[1..])
  {
    PrefixTails(path, q);
    PrefixTails(q, path);
    if path <= q {
      assert q[1..][|path| - 1..] == q[|path|..];
    } else if |q| > 1 {
      ChildShape(t, q);
    }
  }

  lemma {:induction false} PrefixTails(p: seq<string>, q: seq<string>)
    requires p != [] && q != [] && p[0] == q[0]
    ensures p <= q <==> p[1..] <= q[1..]
  {
    if p[1..] <= q[1..] {
      assert p == [p[0]] + p[1..] && q == [q[0]] + q[1..];
    }
  }

  /** A header makes its path and all above it tables and leaves the rest. */
  lemma {:induction false} OpenShape(doc: Doc, path: seq<string>, q: seq<string>)
    ensures ShapeAt(Open(doc, path).root, q) == if q <= path then Subtable else ShapeAt(doc.root, q)
  {
    GraftShape(doc.root, path, TableAt(doc.root, path), q);
    if path <= q && q != path {
      TableShape(doc.root, path, q[|path|..]);
      assert path + q[|path|..] == q;
    }
  }

  /** An assignment puts its value at its path under the current table, clears what is below, and makes all above it tables. */
  lemma {:induction false} AssignShape(doc: Doc, path: seq<string>, value: Value, q: seq<string>)
    requires path != [] && !value.Nested?
    ensures ShapeAt(Assign(doc, path, value).root, q) ==
      Mark(Stored(doc.current + path, value), q, ShapeAt(doc.root, q))
  {
    var target, leaf := doc.current + path[..|path| - 1], path[|path| - 1];
    var before, full := TableAt(doc.root, target), doc.current + path;
    assert full == target + [leaf];
    GraftShape(doc.root, target, before[leaf := value], q);
    if target <= q && q != target {
      var rest := q[|target|..];
      assert q == target + rest;
      TableShape(doc.root, target, rest);
      LeafBelow(target, leaf, rest);
    } else {
      LeafAbove(target, leaf, q);
    }
  }

  lemma {:induction false} LeafBelow(target: seq<string>, leaf: string, rest: seq<string>)
    requires rest != []
    ensures target + rest == target + [leaf] <==> rest == [leaf]
    ensures target + [leaf] <= target + rest <==> rest[0] == leaf
    ensures target + rest <= target + [leaf] <==> rest == [leaf]
  {
    var full, q := target + [leaf], target + rest;
    assert q[|target|..] == rest && full[|target|..] == [leaf];
    assert q[|target|] == rest[0] && full[|target|] == leaf;
    if rest[0] == leaf {
      assert q == full + rest[1..];
    }
  }

  lemma {:induction false} LeafAbove(target: seq<string>, leaf: string, q: seq<string>)
    requires !(target <= q) || q == target
    ensures q <= target + [leaf] <==> q <= target
    ensures !(target + [leaf] <= q)
  {
    var full := target + [leaf];
    LongerPrefix(target, leaf, q);
    if q <= full { assert q == full[..|q|]; }
    if q <= target { assert q == target[..|q|] == full[..|q|]; }
  }

  lemma {:induction false} LongerPrefix(target: seq<string>, leaf: string, q: seq<string>)
    ensures target + [leaf] <= q ==> target <= q && |q| > |target|
    ensures q <= target + [leaf] && |q| == |target| + 1 ==> target <= q
  {
    var full := target + [leaf];
    if q <= full && |q| == |full| { assert q == full; }
  }

  // ---- What statements say of paths -------------------------------------------------------

  /** A path that a header opens, or at which a value is stored. */
  datatype Target = Opened(path: seq<string>) | Stored(path: seq<string>, value: Value)

  /** The absolute paths of the statements: a header counts from the root, a key from the header above it. */
  function Targets(stmts: seq<Stmt>, current: seq<string>): seq<Target>
    decreases |stmts|
  {
    if stmts == [] then []
    else
      match stmts[0]
      case Note(_) => Targets(stmts[1..], current)
      case Header(path, _, _) => [Opened(Names(path))] + Targets(stmts[1..], Names(path))
      case Let(path, value, _, _) => [Stored(current + Names(path), ToValue(value))] + Targets(stmts[1..], current)
  }

  /** What becomes of a path: a later statement overrides what is there above and below its own path. */
  function Mark(t: Target, q: seq<string>, before: Shape): Shape
  {
    match t
    case Opened(path) => if q <= path then Subtable else before
    case Stored(path, value) =>
      if q == path then Leaf(value) else if q <= path then Subtable else if path <= q then Vacant else before
  }

  function Marks(ts: seq<Target>, q: seq<string>, before: Shape): Shape
    decreases |ts|
  {
    if ts == [] then before else Marks(ts[1..], q, Mark(ts[0], q, before))
  }

  ghost predicate AllFit(stmts: seq<Stmt>) { forall k :: 0 <= k < |stmts| ==> StmtFits(stmts[k]) }

  lemma {:induction false} RunMarks(stmts: seq<Stmt>, doc: Doc, q: seq<string>)
    requires AllFit(stmts)
    ensures ShapeAt(RunAll(stmts, doc).root, q) == Marks(Targets(stmts, doc.current), q, ShapeAt(doc.root, q))
    decreases |stmts|
  {
    if stmts != [] {
      var s, rest := stmts[0], Targets(stmts[1..], Run(stmts[0], doc).current);
      RunMarks(stmts[1..], Run(s, doc), q);
      match s {
        case Note(_) =>
        case Header(path, _, _) =>
          OpenShape(doc, Names(path), q);
          assert ([Opened(Names(path))] + rest)[1..] == rest;
        case Let(path, value, _, _) =>
          AssignShape(doc, Names(path), ToValue(value), q);
          assert ([Stored(doc.current + Names(path), ToValue(value))] + rest)[1..] == rest;
      }
    }
  }

  function Nothing(q: seq<string>): Shape { if q == [] then Subtable else Vacant }

  /** Reading a printed document gives every path exactly the shape its statements mark it with. */
  lemma {:induction false} PathsRoundTrip(stmts: seq<Stmt>, q: seq<string>)
    requires AllFit(stmts)
    ensures ShapeAt(Parse(JoinLines(Print(stmts))), q) == Marks(Targets(stmts, []), q, Nothing(q))
  {
    ParsePrinted(stmts);
    RunMarks(stmts, EMPTY, q);
  }
}
