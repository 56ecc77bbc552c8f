/**
 * Nested tables come back whole from any layout: with or without the headers of sections, in any
 * order, and with keys dotted from any open section (e2e/src/api/toml.ts).
 */
module TomlTree {
  import opened Prelude
  import opened Text
  import opened Toml
  import opened TomlPrint
  import opened TomlDoc
  import opened TomlPaths

  datatype Setting = Setting(key: Key, value: Node)

  /** A section without a header of its own is named only in the keys and headers of what it holds. */
  datatype Section = Section(key: Key, headed: bool, body: Tree)

  datatype Tree = Tree(settings: seq<Setting>, sections: seq<Section>)

  function KeyNames(tree: Tree): seq<string>
  {
    seq(|tree.settings|, k requires 0 <= k < |tree.settings| => tree.settings[k].key.name) +
    seq(|tree.sections|, k requires 0 <= k < |tree.sections| => tree.sections[k].key.name)
  }

  /** The table holds exactly the settings and sections of the tree. */
  ghost predicate Represents(t: Table, tree: Tree)
    decreases tree
  {
    (forall n :: n in t <==> n in KeyNames(tree)) &&
    (forall k :: 0 <= k < |tree.settings| ==>
      tree.settings[k].key.name in t && t[tree.settings[k].key.name] == ToValue(tree.settings[k].value)) &&
    (forall k :: 0 <= k < |tree.sections| ==>
      tree.sections[k].key.name in t && t[tree.sections[k].key.name].Nested? &&
      Represents(t[tree.sections[k].key.name].entries, tree.sections[k].body))
  }

  /** No name stands twice in a section. */
  ghost predicate NoRepeats(tree: Tree)
  {
    Distinct(KeyNames(tree)) && forall k :: 0 <= k < |tree.sections| ==> NoRepeats(tree.sections[k].body)
  }

  // ---- What a tree has at a path ----------------------------------------------------------

  function SettingAt(settings: seq<Setting>, name: string): Option<Value>
  {
    if settings == [] then None
    else if settings[0].key.name == name then Some(ToValue(settings[0].value))
    else SettingAt(settings[1..], name)
  }

  function SectionAt(sections: seq<Section>, name: string): Option<Tree>
  {
    if sections == [] then None
    else if sections[0].key.name == name then Some(sections[0].body)
    else SectionAt(sections[1..], name)
  }

  function TreeShape(tree: Tree, path: seq<string>): Shape
    decreases |path|
  {
    if path == [] then Subtable
    else
      match SettingAt(tree.settings, path[0])
      case Some(value) => if |path| == 1 then Leaf(value) else Vacant
      case None =>
        match SectionAt(tree.sections, path[0])
        case Some(body) => TreeShape(body, path[1..])
        case None => Vacant
  }

  lemma {:induction false} SettingFound(settings: seq<Setting>, name: string)
    ensures SettingAt(settings, name).Some? <==>
      exists k :: 0 <= k < |settings| && settings[k].key.name == name
  {
    if settings != [] && settings[0].key.name != name {
      SettingFound(settings[1..], name);
      assert forall k :: 0 < k < |settings| ==> settings[k] == settings[1..][k - 1];
    }
  }

  lemma {:induction false} SectionFound(sections: seq<Section>, name: string)
    ensures SectionAt(sections, name).Some? <==>
      exists k :: 0 <= k < |sections| && sections[k].key.name == name
  {
    if sections != [] && sections[0].key.name != name {
      SectionFound(sections[1..], name);
      assert forall k :: 0 < k < |sections| ==> sections[k] == sections[1..][k - 1];
    }
  }

  lemma {:induction false} NamesOf(tree: Tree)
    ensures |KeyNames(tree)| == |tree.settings| + |tree.sections|
    ensures forall k :: 0 <= k < |tree.settings| ==> KeyNames(tree)[k] == tree.settings[k].key.name
    ensures forall k :: 0 <= k < |tree.sections| ==>
      KeyNames(tree)[|tree.settings| + k] == tree.sections[k].key.name
  {
  }

  lemma {:induction false} FirstSetting(settings: seq<Setting>, k: nat)
    requires k < |settings| && forall l :: 0 <= l < k ==> settings[l].key.name != settings[k].key.name
    ensures SettingAt(settings, settings[k].key.name) == Some(ToValue(settings[k].value))
  {
    if k > 0 { FirstSetting(settings[1..], k - 1); }
  }

  lemma {:induction false} FirstSection(sections: seq<Section>, k: nat)
    requires k < |sections| && forall l :: 0 <= l < k ==> sections[l].key.name != sections[k].key.name
    ensures SectionAt(sections, sections[k].key.name) == Some(sections[k].body)
  {
    if k > 0 { FirstSection(sections[1..], k - 1); }
  }

  lemma {:induction false} SettingShape(tree: Tree, k: nat)
    requires Distinct(KeyNames(tree)) && k < |tree.settings|
    ensures SettingAt(tree.settings, tree.settings[k].key.name) == Some(ToValue(tree.settings[k].value))
  {
    var names := KeyNames(tree);
    NamesOf(tree);
    forall l | 0 <= l < k ensures tree.settings[l].key.name != tree.settings[k].key.name {
      assert names[l] != names[k];
    }
    FirstSetting(tree.settings, k);
  }

  lemma {:induction false} SectionShape(tree: Tree, k: nat)
    requires Distinct(KeyNames(tree)) && k < |tree.sections|
    ensures SettingAt(tree.settings, tree.sections[k].key.name) == None
    ensures SectionAt(tree.sections, tree.sections[k].key.name) == Some(tree.sections[k].body)
  {
    var names, m := KeyNames(tree), |tree.settings|;
    NamesOf(tree);
    forall l | 0 <= l < m ensures tree.settings[l].key.name != tree.sections[k].key.name {
      assert names[l] != names[m + k];
    }
    forall l | 0 <= l < k ensures tree.sections[l].key.name != tree.sections[k].key.name {
      assert names[m + l] != names[m + k];
    }
    SettingFound(tree.settings, tree.sections[k].key.name);
    FirstSection(tree.sections, k);
  }

  lemma {:induction false} ShapeOfName(tree: Tree, name: string)
    ensures TreeShape(tree, [name]) != Vacant <==> name in KeyNames(tree)
  {
    var names, m := KeyNames(tree), |tree.settings|;
    NamesOf(tree);
    SettingFound(tree.settings, name);
    SectionFound(tree.sections, name);
    if name in names {
      var i :| 0 <= i < |names| && names[i] == name;
      assert if i < m then tree.settings[i].key.name == name else tree.sections[i - m].key.name == name;
    }
    if k :| 0 <= k < m && tree.settings[k].key.name == name { assert names[k] == name; }
    if k :| 0 <= k < |tree.sections| && tree.sections[k].key.name == name { assert names[m + k] == name; }
  }

  lemma {:induction false} ShapeOfKey(t: Table, n: string)
    ensures ShapeAt(t, [n]) ==
      if n !in t then Vacant else if t[n].Nested? then Subtable else Leaf(t[n])
  {
    assert [n][1..] == [];
  }

  /** A table with the shapes of the tree represents it. */
  lemma {:induction false} ShapesRepresent(t: Table, tree: Tree)
    requires NoRepeats(tree) && forall q :: ShapeAt(t, q) == TreeShape(tree, q)
    ensures Represents(t, tree)
    decreases tree
  {
    forall n ensures n in t <==> n in KeyNames(tree) {
      assert ShapeAt(t, [n]) == TreeShape(tree, [n]);
      ShapeOfKey(t, n);
      ShapeOfName(tree, n);
    }
    forall k | 0 <= k < |tree.settings|
      ensures var n := tree.settings[k].key.name; n in t && t[n] == ToValue(tree.settings[k].value)
    {
      var n := tree.settings[k].key.name;
      SettingShape(tree, k);
      ShapeOfKey(t, n);
      assert ShapeAt(t, [n]) == TreeShape(tree, [n]) == Leaf(ToValue(tree.settings[k].value));
    }
    forall k | 0 <= k < |tree.sections|
      ensures var n := tree.sections[k].key.name;
        n in t && t[n].Nested? && Represents(t[n].entries, tree.sections[k].body)
    {
      SectionShape(tree, k);
      SectionRepresents(t, tree, tree.sections[k]);
    }
  }

  lemma {:induction false} SectionRepresents(t: Table, tree: Tree, s: Section)
    requires NoRepeats(s.body) && SettingAt(tree.settings, s.key.name) == None
    requires SectionAt(tree.sections, s.key.name) == Some(s.body)
    requires forall q :: ShapeAt(t, q) == TreeShape(tree, q)
    ensures s.key.name in t && t[s.key.name].Nested? && Represents(t[s.key.name].entries, s.body)
    decreases s
  {
    var n := s.key.name;
    ShapeOfKey(t, n);
    assert ShapeAt(t, [n]) == TreeShape(tree, [n]) == TreeShape(s.body, []) by { assert [n][1..] == []; }
    forall q ensures ShapeAt(t[n].entries, q) == TreeShape(s.body, q) {
      assert ([n] + q)[1..] == q;
      assert ShapeAt(t, [n] + q) == TreeShape(tree, [n] + q);
    }
    ShapesRepresent(t[n].entries, s.body);
  }

  /** Everything above what a tree has is a section of it, and a value has nothing below. */
  lemma {:induction false} TreeAbove(tree: Tree, path: seq<string>, q: seq<string>)
    requires q < path && TreeShape(tree, path) != Vacant
    ensures TreeShape(tree, q) == Subtable
    decreases |path|
  {
    if q != [] {
      assert q[1..] < path[1..];
      TreeAbove(SectionAt(tree.sections, path[0]).value, path[1..], q[1..]);
    }
  }

  // ---- Any layout of a tree ---------------------------------------------------------------

  /** A header opens a section of the tree; an assignment stores what the tree has there. */
  predicate Agrees(t: Target, tree: Tree)
  {
    match t
    case Opened(path) => TreeShape(tree, path) == Subtable
    case Stored(path, value) => TreeShape(tree, path) == Leaf(value)
  }

  ghost predicate AllAgree(ts: seq<Target>, tree: Tree) { forall t :: t in ts ==> Agrees(t, tree) }

  /** Some statement names the path or something below it. */
  ghost predicate Reaches(ts: seq<Target>, q: seq<string>) { exists t :: t in ts && q <= t.path }

  /** The statements say nothing but what the tree has, and all of it. */
  ghost predicate Describes(stmts: seq<Stmt>, tree: Tree)
  {
    AllAgree(Targets(stmts, []), tree) &&
    forall q :: q != [] && TreeShape(tree, q) != Vacant ==> Reaches(Targets(stmts, []), q)
  }

  lemma {:induction false} MarkAgrees(t: Target, tree: Tree, q: seq<string>, before: Shape)
    requires Agrees(t, tree) && (q <= t.path || before == TreeShape(tree, q))
    ensures Mark(t, q, before) == TreeShape(tree, q)
  {
    if q < t.path { TreeAbove(tree, t.path, q); }
    if q <= t.path && |q| == |t.path| { assert q == t.path; }
    if t.path <= q && |q| == |t.path| { assert q == t.path; }
    if t.path < q && t.Stored? && TreeShape(tree, q) != Vacant { TreeAbove(tree, q, t.path); }
  }

  lemma {:induction false} MarksAgree(ts: seq<Target>, tree: Tree, q: seq<string>, before: Shape)
    requires AllAgree(ts, tree) && (Reaches(ts, q) || before == TreeShape(tree, q))
    ensures Marks(ts, q, before) == TreeShape(tree, q)
    decreases |ts|
  {
    if ts != [] {
      var after := Mark(ts[0], q, before);
      assert ts == [ts[0]] + ts[1..];
      if q <= ts[0].path || before == TreeShape(tree, q) {
        MarkAgrees(ts[0], tree, q, before);
      } else {
        var t :| t in ts && q <= t.path;
        assert t in ts[1..];
      }
      MarksAgree(ts[1..], tree, q, after);
    }
  }

  /**
   * Whatever the order of the statements, whatever headers are left out or repeated, and however the
   * keys are dotted: a document that describes the tree is read back as the tree.
   */
  lemma {:induction false} AnyLayout(stmts: seq<Stmt>, tree: Tree)
    requires AllFit(stmts) && NoRepeats(tree) && Describes(stmts, tree)
    ensures Represents(Parse(JoinLines(Print(stmts))), tree)
  {
    var t := Parse(JoinLines(Print(stmts)));
    forall q ensures ShapeAt(t, q) == TreeShape(tree, q) {
      PathsRoundTrip(stmts, q);
      MarksAgree(Targets(stmts, []), tree, q, Nothing(q));
    }
    ShapesRepresent(t, tree);
  }

  // ---- A printer with and without headers -------------------------------------------------

  function SettingStmts(settings: seq<Setting>, rel: seq<Key>): seq<Stmt>
  {
    seq(|settings|, k requires 0 <= k < |settings| => Let(rel + [settings[k].key], settings[k].value, TIDY, ""))
  }

  /** What stands below one header: its settings, and with dotted keys those of the sections without a header. */
  function Region(tree: Tree, rel: seq<Key>): seq<Stmt>
    decreases tree
  {
    SettingStmts(tree.settings, rel) + Regions(tree.sections, rel)
  }

  function Regions(sections: seq<Section>, rel: seq<Key>): seq<Stmt>
    decreases sections
  {
    if sections == [] then [] else SubRegion(sections[0], rel + [sections[0].key]) + Regions(sections[1..], rel)
  }

  function SubRegion(s: Section, rel: seq<Key>): seq<Stmt>
    decreases s
  {
    if s.headed then [] else Region(s.body, rel)
  }

  /** The headers below a path, each with its region. */
  function Heads(sections: seq<Section>, path: seq<Key>): seq<Stmt>
    decreases sections
  {
    if sections == [] then [] else Head(sections[0], path + [sections[0].key]) + Heads(sections[1..], path)
  }

  function Head(s: Section, path: seq<Key>): seq<Stmt>
    decreases s
  {
    (if s.headed then [Header(path, TIDY, "")] + Region(s.body, []) else []) + Heads(s.body.sections, path)
  }

  function TreeStmts(tree: Tree): seq<Stmt> { Region(tree, []) + Heads(tree.sections, []) }

  function PrintTree(tree: Tree): string
    requires AllFit(TreeStmts(tree))
  {
    JoinLines(Print(TreeStmts(tree)))
  }

  /** Every section is printed: it has a header, or something to be named with. */
  ghost predicate Shown(tree: Tree)
  {
    forall k :: 0 <= k < |tree.sections| ==>
      (tree.sections[k].headed || tree.sections[k].body != Tree([], [])) && Shown(tree.sections[k].body)
  }

  /** The same in absolute paths. */
  function SettingTargets(settings: seq<Setting>, base: seq<string>): seq<Target>
  {
    seq(|settings|, k requires 0 <= k < |settings| => Stored(base + [settings[k].key.name], ToValue(settings[k].value)))
  }

  function RegionTargets(tree: Tree, base: seq<string>): seq<Target>
    decreases tree
  {
    SettingTargets(tree.settings, base) + RegionsTargets(tree.sections, base)
  }

  function RegionsTargets(sections: seq<Section>, base: seq<string>): seq<Target>
    decreases sections
  {
    if sections == [] then []
    else SubRegionTargets(sections[0], base + [sections[0].key.name]) + RegionsTargets(sections[1..], base)
  }

  function SubRegionTargets(s: Section, base: seq<string>): seq<Target>
    decreases s
  {
    if s.headed then [] else RegionTargets(s.body, base)
  }

  function HeadsTargets(sections: seq<Section>, base: seq<string>): seq<Target>
    decreases sections
  {
    if sections == [] then []
    else HeadTargets(sections[0], base + [sections[0].key.name]) + HeadsTargets(sections[1..], base)
  }

  function HeadTargets(s: Section, base: seq<string>): seq<Target>
    decreases s
  {
    (if s.headed then [Opened(base)] + RegionTargets(s.body, base) else []) + HeadsTargets(s.body.sections, base)
  }

  lemma {:induction false} NamesOfSum(p: seq<Key>, k: Key)
    ensures Names(p + [k]) == Names(p) + [k.name]
  {
  }

  lemma {:induction false} NamesBelow(current: seq<string>, p: seq<Key>, k: Key)
    ensures current + Names(p + [k]) == current + Names(p) + [k.name]
  {
    NamesOfSum(p, k);
  }

  lemma {:induction false} SettingsSay(settings: seq<Setting>, rel: seq<Key>, rest: seq<Stmt>, current: seq<string>)
    ensures Targets(SettingStmts(settings, rel) + rest, current) ==
            SettingTargets(settings, current + Names(rel)) + Targets(rest, current)
    decreases |settings|
  {
    var stmts, ts := SettingStmts(settings, rel) + rest, SettingTargets(settings, current + Names(rel));
    if settings == [] {
      assert stmts == rest && ts + Targets(rest, current) == Targets(rest, current);
    } else {
      assert stmts[1..] == SettingStmts(settings[1..], rel) + rest;
      assert ts == [ts[0]] + SettingTargets(settings[1..], current + Names(rel));
      SettingsSay(settings[1..], rel, rest, current);
      NamesBelow(current, rel, settings[0].key);
      AssocT([ts[0]], SettingTargets(settings[1..], current + Names(rel)), Targets(rest, current));
    }
  }

  lemma AssocT(a: seq<Target>, b: seq<Target>, c: seq<Target>)
    ensures (a + b) + c == a + (b + c)
  {
  }

  lemma AssocS(a: seq<Stmt>, b: seq<Stmt>, c: seq<Stmt>)
    ensures (a + b) + c == a + (b + c)
  {
  }

  lemma {:induction false} RegionSays(tree: Tree, rel: seq<Key>, rest: seq<Stmt>, current: seq<string>)
    ensures Targets(Region(tree, rel) + rest, current) ==
            RegionTargets(tree, current + Names(rel)) + Targets(rest, current)
    decreases tree
  {
    var base := current + Names(rel);
    AssocS(SettingStmts(tree.settings, rel), Regions(tree.sections, rel), rest);
    SettingsSay(tree.settings, rel, Regions(tree.sections, rel) + rest, current);
    RegionsSay(tree.sections, rel, rest, current);
    AssocT(SettingTargets(tree.settings, base), RegionsTargets(tree.sections, base), Targets(rest, current));
  }

  lemma {:induction false} RegionsSay(sections: seq<Section>, rel: seq<Key>, rest: seq<Stmt>, current: seq<string>)
    ensures Targets(Regions(sections, rel) + rest, current) ==
            RegionsTargets(sections, current + Names(rel)) + Targets(rest, current)
    decreases sections
  {
    if sections == [] {
      assert [] + rest == rest && [] + Targets(rest, current) == Targets(rest, current);
    } else {
      var s, base := sections[0], current + Names(rel);
      AssocS(SubRegion(s, rel + [s.key]), Regions(sections[1..], rel), rest);
      SubRegionSays(s, rel + [s.key], Regions(sections[1..], rel) + rest, current);
      NamesBelow(current, rel, s.key);
      RegionsSay(sections[1..], rel, rest, current);
      AssocT(SubRegionTargets(s, base + [s.key.name]), RegionsTargets(sections[1..], base), Targets(rest, current));
    }
  }

  lemma {:induction false} SubRegionSays(s: Section, rel: seq<Key>, rest: seq<Stmt>, current: seq<string>)
    ensures Targets(SubRegion(s, rel) + rest, current) ==
            SubRegionTargets(s, current + Names(rel)) + Targets(rest, current)
    decreases s
  {
    if s.headed {
      assert [] + rest == rest && [] + Targets(rest, current) == Targets(rest, current);
    } else {
      RegionSays(s.body, rel, rest, current);
    }
  }

  lemma {:induction false} TargetsSum(a: seq<Stmt>, b: seq<Stmt>, current: seq<string>) returns (ends: seq<string>)
    ensures Targets(a + b, current) == Targets(a, current) + Targets(b, ends)
    decreases |a|
  {
    if a == [] {
      assert a + b == b && [] + Targets(b, current) == Targets(b, current);
      ends := current;
    } else {
      assert (a + b)[1..] == a[1..] + b;
      match a[0] {
        case Note(_) => ends := TargetsSum(a[1..], b, current);
        case Header(path, _, _) =>
          ends := TargetsSum(a[1..], b, Names(path));
          AssocT([Opened(Names(path))], Targets(a[1..], Names(path)), Targets(b, ends));
        case Let(path, value, _, _) =>
          ends := TargetsSum(a[1..], b, current);
          AssocT([Stored(current + Names(path), ToValue(value))], Targets(a[1..], current), Targets(b, ends));
      }
    }
  }

  lemma {:induction false} HeadsSay(sections: seq<Section>, path: seq<Key>, current: seq<string>)
    ensures Targets(Heads(sections, path), current) == HeadsTargets(sections, Names(path))
    decreases sections
  {
    if sections != [] {
      var s, below := sections[0], path + [sections[0].key];
      var ends := TargetsSum(Head(s, below), Heads(sections[1..], path), current);
      HeadSays(s, below, current);
      NamesOfSum(path, s.key);
      HeadsSay(sections[1..], path, ends);
    }
  }

  lemma {:induction false} HeadSays(s: Section, path: seq<Key>, current: seq<string>)
    ensures Targets(Head(s, path), current) == HeadTargets(s, Names(path))
    decreases s
  {
    var first := if s.headed then [Header(path, TIDY, "")] + Region(s.body, []) else [];
    var ends := TargetsSum(first, Heads(s.body.sections, path), current);
    HeadsSay(s.body.sections, path, ends);
    if s.headed {
      assert first[0] == Header(path, TIDY, "") && first[1..] == Region(s.body, []) + [];
      RegionSays(s.body, [], [], Names(path));
      assert Names(path) + Names([]) == Names(path);
    }
  }

  lemma {:induction false} TreeSays(tree: Tree)
    ensures Targets(TreeStmts(tree), []) == RegionTargets(tree, []) + HeadsTargets(tree.sections, [])
  {
    RegionSays(tree, [], Heads(tree.sections, []), []);
    HeadsSay(tree.sections, [], []);
    assert Names([]) == [] && [] + Names([]) == [];
  }

  // ---- The printer says what the tree has -------------------------------------------------

  /** `tree` is what `top` has at the path. */
  ghost predicate Sits(top: Tree, base: seq<string>, tree: Tree)
  {
    forall q :: TreeShape(top, base + q) == TreeShape(tree, q)
  }

  ghost predicate SectionSits(top: Tree, base: seq<string>, s: Section)
  {
    Sits(top, base + [s.key.name], s.body) && NoRepeats(s.body)
  }

  ghost predicate AllSit(top: Tree, base: seq<string>, sections: seq<Section>)
  {
    forall k :: 0 <= k < |sections| ==> SectionSits(top, base, sections[k])
  }

  lemma {:induction false} SitBelow(top: Tree, base: seq<string>, tree: Tree)
    requires Sits(top, base, tree) && NoRepeats(tree)
    ensures AllSit(top, base, tree.sections)
  {
    forall k | 0 <= k < |tree.sections| ensures SectionSits(top, base, tree.sections[k]) {
      var s := tree.sections[k];
      SectionShape(tree, k);
      forall q ensures TreeShape(top, base + [s.key.name] + q) == TreeShape(s.body, q) {
        assert base + [s.key.name] + q == base + ([s.key.name] + q);
        assert ([s.key.name] + q)[1..] == q;
      }
    }
  }

  lemma {:induction false} SettingsAgree(top: Tree, base: seq<string>, tree: Tree)
    requires Sits(top, base, tree) && NoRepeats(tree)
    ensures AllAgree(SettingTargets(tree.settings, base), top)
  {
    forall k | 0 <= k < |tree.settings| ensures Agrees(SettingTargets(tree.settings, base)[k], top) {
      SettingShape(tree, k);
      assert TreeShape(top, base + [tree.settings[k].key.name]) == TreeShape(tree, [tree.settings[k].key.name]);
    }
  }

  lemma {:induction false} RegionAgrees(top: Tree, base: seq<string>, tree: Tree)
    requires Sits(top, base, tree) && NoRepeats(tree)
    ensures AllAgree(RegionTargets(tree, base), top)
    decreases tree
  {
    SettingsAgree(top, base, tree);
    SitBelow(top, base, tree);
    RegionsAgree(top, base, tree.sections);
  }

  lemma {:induction false} RegionsAgree(top: Tree, base: seq<string>, sections: seq<Section>)
    requires AllSit(top, base, sections)
    ensures AllAgree(RegionsTargets(sections, base), top)
    decreases sections
  {
    if sections != [] {
      assert SectionSits(top, base, sections[0]);
      SubRegionAgrees(top, base + [sections[0].key.name], sections[0]);
      RegionsAgree(top, base, sections[1..]);
    }
  }

  lemma {:induction false} SubRegionAgrees(top: Tree, base: seq<string>, s: Section)
    requires Sits(top, base, s.body) && NoRepeats(s.body)
    ensures AllAgree(SubRegionTargets(s, base), top)
    decreases s
  {
    if !s.headed { RegionAgrees(top, base, s.body); }
  }

  lemma {:induction false} HeadsAgree(top: Tree, base: seq<string>, sections: seq<Section>)
    requires AllSit(top, base, sections)
    ensures AllAgree(HeadsTargets(sections, base), top)
    decreases sections
  {
    if sections != [] {
      assert SectionSits(top, base, sections[0]);
      HeadAgrees(top, base + [sections[0].key.name], sections[0]);
      HeadsAgree(top, base, sections[1..]);
    }
  }

  lemma {:induction false} HeadAgrees(top: Tree, base: seq<string>, s: Section)
    requires Sits(top, base, s.body) && NoRepeats(s.body)
    ensures AllAgree(HeadTargets(s, base), top)
    decreases s
  {
    if s.headed {
      assert base + [] == base;
      assert TreeShape(top, base + []) == TreeShape(s.body, []);
      RegionAgrees(top, base, s.body);
    }
    SitBelow(top, base, s.body);
    HeadsAgree(top, base, s.body.sections);
  }

  // ---- The printer says all of it ---------------------------------------------------------

  lemma {:induction false} SettingReached(settings: seq<Setting>, base: seq<string>, name: string)
    requires SettingAt(settings, name).Some?
    ensures Reaches(SettingTargets(settings, base), base + [name])
  {
    SettingFound(settings, name);
    var k :| 0 <= k < |settings| && settings[k].key.name == name;
    assert SettingTargets(settings, base)[k].path == base + [name];
  }

  lemma {:induction false} SectionIndex(sections: seq<Section>, name: string) returns (k: nat)
    requires SectionAt(sections, name).Some?
    ensures k < |sections| && sections[k].key.name == name && sections[k].body == SectionAt(sections, name).value
  {
    if sections[0].key.name == name {
      k := 0;
    } else {
      k := SectionIndex(sections[1..], name);
      k := k + 1;
    }
  }

  lemma {:induction false} OneOfSections(sections: seq<Section>, base: seq<string>, k: nat)
    requires k < |sections|
    ensures forall t :: t in SubRegionTargets(sections[k], base + [sections[k].key.name]) ==> t in RegionsTargets(sections, base)
    ensures forall t :: t in HeadTargets(sections[k], base + [sections[k].key.name]) ==> t in HeadsTargets(sections, base)
  {
    if k > 0 { OneOfSections(sections[1..], base, k - 1); }
  }

  lemma {:induction false} TreeReached(tree: Tree, base: seq<string>, q: seq<string>)
    requires Shown(tree) && q != [] && TreeShape(tree, q) != Vacant
    ensures Reaches(RegionTargets(tree, base) + HeadsTargets(tree.sections, base), base + q)
    decreases tree, 1
  {
    if SettingAt(tree.settings, q[0]).Some? {
      SettingReached(tree.settings, base, q[0]);
      assert q == [q[0]];
    } else {
      var k := SectionIndex(tree.sections, q[0]);
      var s, below := tree.sections[k], base + [q[0]];
      SectionReached(s, below, q[1..]);
      OneOfSections(tree.sections, base, k);
      assert below + q[1..] == base + q;
    }
  }

  lemma {:induction false} SectionReached(s: Section, base: seq<string>, q: seq<string>)
    requires Shown(s.body) && (s.headed || s.body != Tree([], [])) && TreeShape(s.body, q) != Vacant
    ensures Reaches(SubRegionTargets(s, base) + HeadTargets(s, base), base + q)
    decreases s
  {
    if q != [] {
      TreeReached(s.body, base, q);
    } else if s.headed {
      assert HeadTargets(s, base)[0] == Opened(base);
      assert base + q == base;
    } else {
      var name := KeyNames(s.body)[0];
      ShapeOfName(s.body, name);
      TreeReached(s.body, base, [name]);
      assert base + q <= base + [name];
    }
  }

  /** A document of nested tables is read back exactly, with and without headers: every key, every value, and nothing else. */
  lemma {:induction false} TreeRoundTrip(tree: Tree)
    requires NoRepeats(tree) && Shown(tree) && AllFit(TreeStmts(tree))
    ensures Represents(Parse(PrintTree(tree)), tree)
  {
    TreeSays(tree);
    var ts := Targets(TreeStmts(tree), []);
    assert Sits(tree, [], tree) by { assert forall q: seq<string> :: [] + q == q; }
    RegionAgrees(tree, [], tree);
    SitBelow(tree, [], tree);
    HeadsAgree(tree, [], tree.sections);
    forall q | q != [] && TreeShape(tree, q) != Vacant ensures Reaches(ts, q) {
      TreeReached(tree, [], q);
      assert [] + q == q;
    }
    AnyLayout(TreeStmts(tree), tree);
  }

  /** No two tables represent the same document. */
  lemma {:induction false} OneTable(t: Table, u: Table, tree: Tree)
    requires Represents(t, tree) && Represents(u, tree)
    ensures t == u
    decreases tree, 1
  {
    forall n | n in t ensures n in u && t[n] == u[n] {
      OneValue(t, u, tree, n);
    }
  }

  lemma {:induction false} OneValue(t: Table, u: Table, tree: Tree, n: string)
    requires Represents(t, tree) && Represents(u, tree) && n in t
    ensures n in u && t[n] == u[n]
    decreases tree, 0
  {
    var names, m := KeyNames(tree), |tree.settings|;
    NamesOf(tree);
    var i :| 0 <= i < |names| && names[i] == n;
    if i < m {
      assert tree.settings[i].key.name == n;
    } else {
      assert tree.sections[i - m].key.name == n;
      OneSectionTable(t[n].entries, u[n].entries, tree.sections[i - m]);
    }
  }

  lemma {:induction false} OneSectionTable(t: Table, u: Table, s: Section)
    requires Represents(t, s.body) && Represents(u, s.body)
    ensures t == u
    decreases s
  {
    OneTable(t, u, s.body);
  }

  // ---- Keys the reader does not understand ------------------------------------------------

  lemma {:induction false} UnquotedPart(s: string, c: char)
    requires c in Unquote(Trim(s))
    ensures c in s
  {
    TrimKeepsChars(s);
  }

  lemma {:induction false} FirstEquals(line: string)
    ensures Find(line, "=").None? ==> '=' !in line
    ensures Find(line, "=").Some? ==> '=' !in line[..Find(line, "=").value]
  {
    if line != "" && line[0] != '=' {
      FirstEquals(line[1..]);
    } else if line != "" {
      assert "=" <= line;
    }
  }

  /** A single segment holds no dot, and no character the key did not hold. */
  lemma {:induction false} OneSegment(key: string, name: string)
    requires SplitPath(key) == [name]
    ensures '.' !in name && ('=' in name ==> '=' in key)
  {
    assert |SplitOn(key, '.')| == 1;
    JoinOfSplit(key, '.');
    assert SplitOn(key, '.')[0] == key;
    assert SplitPath(key)[0] == Unquote(Trim(key));
    if '.' in name { UnquotedPart(key, '.'); }
    if '=' in name { UnquotedPart(key, '='); }
  }

  lemma {:induction false} QuotedSegment(name: string, mark: char)
    requires IsQuote(mark) && mark !in name && '.' !in name
    ensures SplitPath([mark] + name + [mark]) == [name]
  {
    var shown := [mark] + name + [mark];
    SplitPastPiece(shown, "", '.');
    TrimTight(shown);
    assert Inside(shown) == name;
  }

  /**
   * A quoted key names what stands between its quotes exactly when that holds neither a dot
   * nor an equals sign: both are read as if the quotes were not there.
   */
  lemma {:induction false} QuotedKeySurvivesIff(name: string, mark: char, pad: string, value: string)
    requires IsQuote(mark) && mark !in name && Gap(pad) && Tight(value)
    ensures var line := ShowKey(MarkedKey(name, mark)) + pad + "=" + pad + value;
      Find(line, "=").Some? &&
      (SplitPath(Trim(line[..Find(line, "=").value])) == [name] <==> '.' !in name && '=' !in name)
  {
    var shown := ShowKey(MarkedKey(name, mark));
    var line := shown + pad + "=" + pad + value;
    FirstEquals(line);
    assert line[|shown + pad|] == '=';
    var left := line[..Find(line, "=").value];
    TrimKeepsChars(left);
    if SplitPath(Trim(left)) == [name] {
      OneSegment(Trim(left), name);
    }
    if '.' !in name && '=' !in name {
      BlankHolds(pad);
      Sides(shown, value, pad);
      EqualsFound(shown + pad, pad + value);
      QuotedSegment(name, mark);
    }
  }
}
