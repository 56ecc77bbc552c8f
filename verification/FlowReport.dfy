/**
 * The per-item report and its marker-delimited sections, one per flow
 * (crates/takuto-core/src/agent_prompt.rs, crates/takuto-core/src/workflow/engine/step_runner.rs).
 */
module FlowReport {
  import opened Prelude
  import opened Text
  import opened Slugs

  const PREFIX: string := "<!-- takuto-report:flow="
  const SUFFIX: string := " -->"

  // ---- As written ------------------------------------------------------------------------

  function Marker(slug: string): string { PREFIX + slug + SUFFIX }

  /** What follows the marker in `flow_section_header`. */
  function Heading(name: string): string { "\n## " + name + "\n" }

  /** `strip_flow_section` before the final trim. */
  function Cut(existing: string, slug: string): string { CutMarker(existing, Marker(slug), PREFIX) }

  function CutMarker(existing: string, marker: string, prefix: string): string
  {
    CutFound(existing, Find(existing, marker), |marker|, prefix)
  }

  function CutFound(existing: string, found: Option<nat>, n: nat, prefix: string): string
    requires found.Some? ==> found.value + n <= |existing|
  {
    match found
    case None => existing
    case Some(start) => CutAt(existing, start, start + n, prefix)
  }

  /** The text without the section whose marker stands from `start` to `after`. */
  function CutAt(existing: string, start: nat, after: nat, prefix: string): string
    requires start <= after <= |existing|
  {
    existing[..start] + existing[SectionEnd(existing, after, prefix)..]
  }

  /** The next marker prefix after a section's own marker, or the end of the text. */
  function SectionEnd(existing: string, after: nat, prefix: string): (end: nat)
    requires after <= |existing|
    ensures after <= end <= |existing|
  {
    match Find(existing[after..], prefix)
    case None => |existing|
    case Some(i) => after + i
  }

  function StripFlowSection(existing: string, slug: string): string { TrimEnd(Cut(existing, slug)) }

  /** `reset_flow_report_section`: the text written for a flow called `name`. */
  function ResetSection(existing: string, name: string): string
  {
    var content := StripFlowSection(existing, FlowSlug(name));
    Gap(content) + Marker(FlowSlug(name)) + Heading(name)
  }

  function Gap(content: string): string { if content == "" then "" else content + "\n\n" }

  /** One run of a flow: reset its section, then the agents append `body`. */
  datatype Run = Run(name: string, body: string)

  function AfterRun(existing: string, run: Run): string { ResetSection(existing, run.name) + run.body }

  function AfterRuns(first: string, runs: seq<Run>): string
  {
    if runs == [] then first else AfterRun(AfterRuns(first, runs[..|runs| - 1]), runs[|runs| - 1])
  }

  /** A flow without a section gets one behind the report, to the character. */
  lemma {:induction false} FirstRunAppends(existing: string, run: Run)
    requires forall i :: !OccursAt(existing, Marker(FlowSlug(run.name)), i)
    ensures AfterRun(existing, run) ==
      (if Blank(existing) then "" else TrimEnd(existing) + "\n\n") +
      "<!-- takuto-report:flow=" + FlowSlug(run.name) + " -->\n## " + run.name + "\n" + run.body
  {
    var gap, slug, name := Gap(TrimEnd(existing)), FlowSlug(run.name), run.name;
    FindNothing(existing, Marker(slug));
    assert gap + (PREFIX + slug + SUFFIX) + ("\n## " + name + "\n") + run.body ==
      gap + PREFIX + slug + " -->\n## " + name + "\n" + run.body;
  }

  // ---- As a list of sections ------------------------------------------------------------------

  datatype Section = Section(slug: string, content: string)

  function Tagged(s: Section): string { Marker(s.slug) + s.content }

  function Render(sections: seq<Section>): string
  {
    if sections == [] then "" else Tagged(sections[0]) + Render(sections[1..])
  }

  function Remove(sections: seq<Section>, slug: string): seq<Section>
  {
    if sections == [] then []
    else if sections[0].slug == slug then Remove(sections[1..], slug)
    else [sections[0]] + Remove(sections[1..], slug)
  }

  /** The flow's section replaced and moved to the end. */
  function Upsert(sections: seq<Section>, s: Section): seq<Section> { Remove(sections, s.slug) + [s] }

  function SectionOf(run: Run): Section { Section(FlowSlug(run.name), Heading(run.name) + run.body) }

  /** Each flow's latest run, in the order of those runs. */
  function LatestSections(runs: seq<Run>): seq<Section>
  {
    if runs == [] then [] else Upsert(LatestSections(runs[..|runs| - 1]), SectionOf(runs[|runs| - 1]))
  }

  // ---- Nothing but the section starts looks like a marker --------------------------------------

  /** The text contains no marker prefix. */
  ghost predicate Clean(t: string) { forall i :: !OccursAt(t, PREFIX, i) }

  ghost predicate SlugText(slug: string) { forall k :: 0 <= k < |slug| ==> SlugChar(slug[k]) }

  ghost predicate Proper(s: Section) { SlugText(s.slug) && Clean(s.content) }

  ghost predicate AllProper(sections: seq<Section>) { forall k :: 0 <= k < |sections| ==> Proper(sections[k]) }

  ghost predicate DistinctSections(sections: seq<Section>)
  {
    forall i, j :: 0 <= i < j < |sections| ==> sections[i].slug != sections[j].slug
  }

  /** Text that can follow: nothing, or something starting with a marker. */
  ghost predicate StartsSection(t: string) { t == "" || PREFIX <= t }

  /** A prefix inside clean text would have to reach past its end, onto another `<`. */
  lemma {:induction false} NoPrefixInClean(c: string, next: string, i: nat)
    requires Clean(c) && StartsSection(next) && i < |c|
    ensures !OccursAt(c + next, PREFIX, i)
  {
    if i + |PREFIX| <= |c| {
      assert (c + next)[i..][..|PREFIX|] == c[i..][..|PREFIX|];
      assert !OccursAt(c, PREFIX, i);
    } else if next != "" {
      assert (c + next)[i..][|c| - i] == '<';
      assert PREFIX[|c| - i] != '<';
    }
  }

  /** Past its first character a section shows no prefix: its marker has no other `<`. */
  lemma {:induction false} NoPrefixInSection(s: Section, next: string, i: nat)
    requires Proper(s) && StartsSection(next) && 0 < i < |Tagged(s)|
    ensures !OccursAt(Tagged(s) + next, PREFIX, i)
  {
    var m, t := Marker(s.slug), Tagged(s) + next;
    if i < |m| {
      assert t[i] == m[i] != '<';
      assert t[i..][0] == t[i];
    } else {
      NoPrefixInClean(s.content, next, i - |m|);
      assert t[i..] == (s.content + next)[i - |m|..];
    }
  }

  lemma {:induction false} MarkerStartsWithPrefix(slug: string, t: string, i: nat)
    ensures OccursAt(t, Marker(slug), i) ==> OccursAt(t, PREFIX, i)
  {
    assert PREFIX <= Marker(slug);
  }

  /** Two different slugs never share a marker, not even when one begins the other. */
  lemma {:induction false} MarkersDiffer(s: Section, slug: string, next: string)
    requires SlugText(s.slug) && SlugText(slug) && s.slug != slug
    ensures !(Marker(slug) <= Tagged(s) + next)
  {
    var n := |PREFIX|;
    var m, t := Marker(slug), Tagged(s) + next;
    assert forall k :: 0 <= k < |slug| ==> m[n + k] == slug[k];
    assert forall k :: 0 <= k < |s.slug| ==> t[n + k] == s.slug[k];
    assert m[n + |slug|] == ' ' && t[n + |s.slug|] == ' ';
    if |slug| == |s.slug| {
      var k :| 0 <= k < |slug| && slug[k] != s.slug[k];
      assert m[n + k] != t[n + k];
    } else if |slug| < |s.slug| {
      assert m[n + |slug|] != t[n + |slug|];
    } else {
      assert m[n + |s.slug|] != t[n + |s.slug|];
    }
  }

  lemma {:induction false} RenderStarts(sections: seq<Section>)
    ensures StartsSection(Render(sections))
    ensures sections != [] ==> Render(sections) != "" && Find(Render(sections), PREFIX) == Some(0)
  {
    if sections != [] {
      assert Tagged(sections[0]) + Render(sections[1..]) == PREFIX +
        (sections[0].slug + SUFFIX + sections[0].content + Render(sections[1..]));
    }
  }

  // ---- Cutting a section out ------------------------------------------------------------------

  /** Text before the section in question goes through untouched. */
  lemma {:induction false} CutPast(u: string, v: string, marker: string, prefix: string)
    requires forall i :: 0 <= i < |u| ==> !OccursAt(u + v, marker, i)
    ensures CutMarker(u + v, marker, prefix) == u + CutMarker(v, marker, prefix)
  {
    FindPast(u, v, marker);
    var cut := CutFoundPast(u, v, Find(v, marker), |marker|, Find(u + v, marker), prefix);
  }

  lemma {:induction false} CutFoundPast(u: string, v: string, found: Option<nat>, n: nat, found': Option<nat>, prefix: string)
    returns (cut: string)
    requires (found.Some? ==> found.value + n <= |v|) && found' == Shifted(|u|, found)
    ensures cut == CutFound(v, found, n, prefix) && CutFound(u + v, found', n, prefix) == u + cut
  {
    if found == None {
      cut := v;
    } else {
      var start, start', after, after' := found.value, found'.value, found.value + n, found'.value + n;
      cut := CutAtPast(u, v, start, after, start', after', prefix);
      CutIs(v, start, after, n, prefix, cut);
      CutIs(u + v, start', after', n, prefix, u + cut);
    }
  }

  lemma {:induction false} CutIs(t: string, start: nat, after: nat, n: nat, prefix: string, cut: string)
    requires after == start + n <= |t| && CutAt(t, start, after, prefix) == cut
    ensures CutFound(t, Some(start), n, prefix) == cut
  {
  }

  lemma {:induction false} CutAtPast(u: string, v: string, start: nat, after: nat, start': nat, after': nat, prefix: string)
    returns (cut: string)
    requires start <= after <= |v| && start' == |u| + start && after' == |u| + after
    ensures cut == CutAt(v, start, after, prefix) && CutAt(u + v, start', after', prefix) == u + cut
  {
    cut := CutAt(v, start, after, prefix);
    SectionEndPast(u, v, after, after', prefix);
    SplitPast(u, v, start, SectionEnd(v, after, prefix), start', SectionEnd(u + v, after', prefix));
  }

  lemma {:induction false} SectionEndPast(u: string, v: string, after: nat, after': nat, prefix: string)
    requires after <= |v| && after' == |u| + after
    ensures SectionEnd(u + v, after', prefix) == |u| + SectionEnd(v, after, prefix)
  {
    assert (u + v)[after'..] == v[after..];
  }

  lemma {:induction false} SplitPast(u: string, v: string, i: nat, j: nat, i': nat, j': nat)
    requires i <= |v| && j <= |v| && i' == |u| + i && j' == |u| + j
    ensures (u + v)[..i'] + (u + v)[j'..] == u + (v[..i] + v[j..])
  {
  }

  /** The section that starts the text goes, up to the next one or to the end. */
  lemma {:induction false} CutFirst(s: Section, next: string)
    requires Proper(s) && StartsSection(next)
    ensures Cut(Tagged(s) + next, s.slug) == next
  {
    var m, t := Marker(s.slug), Tagged(s) + next;
    assert t == m + (s.content + next);
    assert m <= t && t[|m|..] == s.content + next;
    assert Find(t, m) == Some(0);
    forall i | 0 <= i < |s.content| ensures !OccursAt(s.content + next, PREFIX, i) {
      NoPrefixInClean(s.content, next, i);
    }
    FindPast(s.content, next, PREFIX);
    if next == "" {
      assert t[|t|..] == "";
    } else {
      assert t[|m| + |s.content|..] == next;
    }
  }

  /** Cutting a slug out of rendered sections removes its section and disturbs no other. */
  lemma {:induction false} CutRendered(sections: seq<Section>, slug: string)
    requires AllProper(sections) && DistinctSections(sections) && SlugText(slug)
    ensures Cut(Render(sections), slug) == Render(Remove(sections, slug))
  {
    if sections == [] {
      assert Find("", Marker(slug)) == None;
    } else {
      var s, rest := sections[0], sections[1..];
      RenderStarts(rest);
      if s.slug == slug {
        CutFirst(s, Render(rest));
        RemoveAbsent(rest, slug);
      } else {
        CutRendered(rest, slug);
        forall i | 0 <= i < |Tagged(s)| ensures !OccursAt(Tagged(s) + Render(rest), Marker(slug), i) {
          MarkerStartsWithPrefix(slug, Tagged(s) + Render(rest), i);
          if i == 0 {
            MarkersDiffer(s, slug, Render(rest));
            assert (Tagged(s) + Render(rest))[0..] == Tagged(s) + Render(rest);
          } else {
            NoPrefixInSection(s, Render(rest), i);
          }
        }
        CutPast(Tagged(s), Render(rest), Marker(slug), PREFIX);
        assert ([s] + Remove(rest, slug))[1..] == Remove(rest, slug);
      }
    }
  }

  lemma {:induction false} RemoveAbsent(sections: seq<Section>, slug: string)
    requires forall k :: 0 <= k < |sections| ==> sections[k].slug != slug
    ensures Remove(sections, slug) == sections
  {
    if sections != [] { RemoveAbsent(sections[1..], slug); }
  }

  /** The same with text in front that belongs to no section. */
  lemma {:induction false} CutReport(front: string, sections: seq<Section>, slug: string)
    requires Clean(front) && AllProper(sections) && DistinctSections(sections) && SlugText(slug)
    ensures Cut(front + Render(sections), slug) == front + Render(Remove(sections, slug))
  {
    RenderStarts(sections);
    forall i | 0 <= i < |front| ensures !OccursAt(front + Render(sections), Marker(slug), i) {
      NoPrefixInClean(front, Render(sections), i);
      MarkerStartsWithPrefix(slug, front + Render(sections), i);
    }
    CutPast(front, Render(sections), Marker(slug), PREFIX);
    CutRendered(sections, slug);
  }

  // ---- How a report is laid out ---------------------------------------------------------------

  function Padded(s: Section): Section { s.(content := TrimEnd(s.content) + "\n\n") }

  function Pad(sections: seq<Section>): (r: seq<Section>)
    ensures |r| == |sections| && forall k :: 0 <= k < |r| ==> r[k] == Padded(sections[k])
  {
    seq(|sections|, k requires 0 <= k < |sections| => Padded(sections[k]))
  }

  /** The text before the first section, once some flow has run. */
  function Front(first: string): string { Gap(TrimEnd(first)) }

  function Init(sections: seq<Section>): seq<Section>
    requires sections != []
  {
    sections[..|sections| - 1]
  }

  function Last(sections: seq<Section>): Section
    requires sections != []
  {
    sections[|sections| - 1]
  }

  /** The whole report: every section but the last trimmed and set apart by an empty line. */
  function Layout(first: string, sections: seq<Section>): string
  {
    if sections == [] then first else Front(first) + (Render(Pad(Init(sections))) + Tagged(Last(sections)))
  }

  /** The same with the last section trimmed as well. */
  function Compact(first: string, sections: seq<Section>): string
  {
    if sections == [] then TrimEnd(first)
    else Front(first) + (Render(Pad(Init(sections))) + TaggedTrimmed(Last(sections)))
  }

  function TaggedTrimmed(s: Section): string { Marker(s.slug) + TrimEnd(s.content) }

  lemma {:induction false} RenderMore(sections: seq<Section>, s: Section)
    ensures Render(sections + [s]) == Render(sections) + Tagged(s)
  {
    if sections == [] {
      assert [s][1..] == [];
    } else {
      assert (sections + [s])[1..] == sections[1..] + [s];
      RenderMore(sections[1..], s);
    }
  }

  lemma {:induction false} TrimTagged(t: string, s: Section)
    ensures TrimEnd(t + Tagged(s)) == t + TaggedTrimmed(s)
  {
    var m := Marker(s.slug);
    assert m[|m| - 1] == '>';
    TrimBehind(t, m, s.content);
  }

  lemma {:induction false} TrimBehind(t: string, m: string, content: string)
    requires m != "" && !IsSpace(m[|m| - 1])
    ensures TrimEnd(t + (m + content)) == t + (m + TrimEnd(content))
  {
    TrimEndOfSum(t + m, content);
    Assoc(t, m, content);
    Assoc(t, m, TrimEnd(content));
  }

  lemma {:induction false} TrimLayout(first: string, sections: seq<Section>)
    requires sections != []
    ensures TrimEnd(Layout(first, sections)) == Compact(first, sections)
  {
    var f, r, s := Front(first), Render(Pad(Init(sections))), Last(sections);
    TrimTagged(f + r, s);
    Assoc(f, r, Tagged(s));
    Assoc(f, r, TaggedTrimmed(s));
  }

  lemma {:induction false} PadSplits(sections: seq<Section>)
    requires sections != []
    ensures Render(Pad(sections)) == Render(Pad(Init(sections))) + Tagged(Padded(Last(sections)))
  {
    assert Pad(sections) == Pad(Init(sections)) + [Padded(Last(sections))];
    RenderMore(Pad(Init(sections)), Padded(Last(sections)));
  }

  lemma {:induction false} TrimPadded(first: string, sections: seq<Section>)
    ensures TrimEnd(Front(first) + Render(Pad(sections))) == Compact(first, sections)
  {
    if sections == [] {
      assert Front(first) + Render(Pad(sections)) == Front(first);
      TrimEndTwice(first);
    } else {
      var f, r, s := Front(first), Render(Pad(Init(sections))), Last(sections);
      PadSplits(sections);
      TrimTagged(f + r, Padded(s));
      TrimEndTwice(s.content);
      Assoc(f, r, Tagged(Padded(s)));
      Assoc(f, r, TaggedTrimmed(s));
    }
  }

  lemma {:induction false} TrimEndTwice(t: string)
    ensures TrimEnd(TrimEnd(t)) == TrimEnd(t)
    ensures TrimEnd(TrimEnd(t) + "\n\n") == TrimEnd(t)
  {
    TrimEndDropsBlank(TrimEnd(t), "\n\n");
  }

  lemma {:induction false} AppendToCompact(first: string, sections: seq<Section>, s: Section)
    ensures Gap(Compact(first, sections)) + Tagged(s) == Layout(first, sections + [s])
  {
    assert Init(sections + [s]) == sections;
    if sections == [] {
      assert Render(Pad(sections)) == "";
    } else {
      PadSplits(sections);
      var f, r, l := Front(first), Render(Pad(Init(sections))), Last(sections);
      PaddedIsGap(l);
      Assoc(r, TaggedTrimmed(l), "\n\n");
      Assoc(f, r + TaggedTrimmed(l), "\n\n");
      Assoc(f, Render(Pad(sections)), Tagged(s));
      assert TaggedTrimmed(l) != "";
    }
  }

  lemma {:induction false} PaddedIsGap(s: Section)
    ensures Tagged(Padded(s)) == TaggedTrimmed(s) + "\n\n" && TaggedTrimmed(s) != ""
  {
    Assoc(Marker(s.slug), TrimEnd(s.content), "\n\n");
  }

  // ---- Clean text stays clean -----------------------------------------------------------------------

  lemma {:induction false} CleanStart(t: string, u: string)
    requires Clean(u) && t <= u
    ensures Clean(t)
  {
    forall i ensures !OccursAt(t, PREFIX, i) {
      if OccursAt(t, PREFIX, i) {
        assert u[i..][..|PREFIX|] == t[i..][..|PREFIX|];
        assert OccursAt(u, PREFIX, i);
      }
    }
  }

  lemma {:induction false} CleanGap(t: string)
    requires Clean(t)
    ensures Clean(t + "\n\n")
  {
    var u := t + "\n\n";
    forall i ensures !OccursAt(u, PREFIX, i) {
      if 0 <= i && i + |PREFIX| <= |u| {
        if i + |PREFIX| <= |t| {
          assert u[i..][..|PREFIX|] == t[i..][..|PREFIX|];
          assert !OccursAt(t, PREFIX, i);
        } else {
          var k := if i <= |t| then |t| - i else 0;
          assert u[i..][k] == '\n' != PREFIX[k];
        }
      }
    }
  }

  lemma {:induction false} PaddedIsProper(s: Section)
    requires Proper(s)
    ensures Proper(Padded(s))
  {
    CleanStart(TrimEnd(s.content), s.content);
    CleanGap(TrimEnd(s.content));
  }

  lemma {:induction false} FrontIsClean(first: string)
    requires Clean(first)
    ensures Clean(Front(first))
  {
    CleanStart(TrimEnd(first), first);
    CleanGap(TrimEnd(first));
    CleanStart("", first);
  }

  // ---- Stripping a laid-out report ---------------------------------------------------------------------

  lemma {:induction false} RemoveMore(sections: seq<Section>, s: Section, slug: string)
    ensures Remove(sections + [s], slug) == Remove(sections, slug) + if s.slug == slug then [] else [s]
  {
    if sections == [] {
      assert [s][1..] == [];
    } else {
      assert (sections + [s])[1..] == sections[1..] + [s];
      RemoveMore(sections[1..], s, slug);
    }
  }

  lemma {:induction false} RemovePadded(sections: seq<Section>, slug: string)
    ensures Remove(Pad(sections), slug) == Pad(Remove(sections, slug))
  {
    if sections != [] {
      assert Pad(sections)[1..] == Pad(sections[1..]);
      RemovePadded(sections[1..], slug);
      assert Pad([sections[0]] + Remove(sections[1..], slug)) == [Padded(sections[0])] + Pad(Remove(sections[1..], slug));
    }
  }

  lemma {:induction false} RemoveKeeps(sections: seq<Section>, slug: string)
    requires AllProper(sections) && DistinctSections(sections)
    ensures AllProper(Remove(sections, slug)) && DistinctSections(Remove(sections, slug))
    ensures forall s :: s in Remove(sections, slug) <==> s in sections && s.slug != slug
  {
    if sections != [] {
      var rest := Remove(sections[1..], slug);
      RemoveKeeps(sections[1..], slug);
      assert sections == [sections[0]] + sections[1..];
      forall k | 0 <= k < |rest| ensures rest[k].slug != sections[0].slug {
        assert rest[k] in sections[1..];
      }
    }
  }

  lemma {:induction false} ShownIsProper(front: seq<Section>, last: Section)
    requires AllProper(front + [last]) && DistinctSections(front + [last])
    ensures AllProper(Pad(front) + [last]) && DistinctSections(Pad(front) + [last])
  {
    var all, shown := front + [last], Pad(front) + [last];
    forall k | 0 <= k < |all| ensures Proper(shown[k]) && shown[k].slug == all[k].slug {
      assert Proper(all[k]);
      PaddedIsProper(all[k]);
    }
  }

  lemma {:induction false} CutLayout(first: string, front: seq<Section>, last: Section, slug: string)
    requires Clean(first) && AllProper(front + [last]) && DistinctSections(front + [last]) && SlugText(slug)
    ensures Cut(Layout(first, front + [last]), slug) ==
      Front(first) + Render(Pad(Remove(front, slug)) + if last.slug == slug then [] else [last])
  {
    assert Init(front + [last]) == front;
    ShownIsProper(front, last);
    RenderMore(Pad(front), last);
    FrontIsClean(first);
    CutReport(Front(first), Pad(front) + [last], slug);
    RemoveMore(Pad(front), last, slug);
    RemovePadded(front, slug);
  }

  /** Stripping a flow from the report leaves the report of the other flows, trimmed. */
  lemma {:induction false} StripLayout(first: string, sections: seq<Section>, slug: string)
    requires Clean(first) && AllProper(sections) && DistinctSections(sections) && SlugText(slug)
    ensures StripFlowSection(Layout(first, sections), slug) == Compact(first, Remove(sections, slug))
  {
    if sections == [] {
      CutReport(first, [], slug);
      assert first + "" == first;
    } else {
      var front, last := Init(sections), Last(sections);
      var rest := Remove(front, slug);
      assert front + [last] == sections;
      CutLayout(first, front, last, slug);
      RemoveMore(front, last, slug);
      if last.slug == slug {
        assert Pad(rest) + [] == Pad(rest) && rest + [] == rest;
        TrimPadded(first, rest);
      } else {
        RenderMore(Pad(rest), last);
        assert Init(rest + [last]) == rest;
        TrimLayout(first, rest + [last]);
      }
    }
  }

  // ---- Histories -------------------------------------------------------------------------------------------

  /** What the agents write contains no marker, and neither does the flow's name. */
  ghost predicate HonestRun(run: Run) { Clean(SectionOf(run).content) }

  lemma {:induction false} RunText(existing: string, run: Run, content: string)
    requires StripFlowSection(existing, FlowSlug(run.name)) == content
    ensures AfterRun(existing, run) == Gap(content) + Tagged(SectionOf(run))
  {
    var m := Marker(FlowSlug(run.name));
    Assoc(Gap(content) + m, Heading(run.name), run.body);
    Assoc(Gap(content), m, Heading(run.name) + run.body);
  }

  lemma {:induction false} RunUpserts(first: string, sections: seq<Section>, run: Run)
    requires Clean(first) && AllProper(sections) && DistinctSections(sections) && HonestRun(run)
    ensures AfterRun(Layout(first, sections), run) == Layout(first, Upsert(sections, SectionOf(run)))
    ensures AllProper(Upsert(sections, SectionOf(run))) && DistinctSections(Upsert(sections, SectionOf(run)))
  {
    var s, rest := SectionOf(run), Remove(sections, FlowSlug(run.name));
    StripLayout(first, sections, s.slug);
    RunText(Layout(first, sections), run, Compact(first, rest));
    AppendToCompact(first, rest, s);
    RemoveKeeps(sections, s.slug);
    forall k | 0 <= k < |rest| ensures rest[k].slug != s.slug {
      assert rest[k] in rest;
    }
  }

  /**
   * After any sequence of runs the report is, to the character, the text it started with and one
   * section per flow, each with its latest body, in the order of the latest runs.
   */
  lemma {:induction false} ReportHistory(first: string, runs: seq<Run>)
    requires Clean(first) && forall k :: 0 <= k < |runs| ==> HonestRun(runs[k])
    ensures AfterRuns(first, runs) == Layout(first, LatestSections(runs))
    ensures AllProper(LatestSections(runs)) && DistinctSections(LatestSections(runs))
  {
    if runs != [] {
      var pre := runs[..|runs| - 1];
      ReportHistory(first, pre);
      RunUpserts(first, LatestSections(pre), runs[|runs| - 1]);
    }
  }

  /** Two flows of an acceptable list never write to the same section. */
  lemma {:induction false} FlowsKeepApart(x: Run, y: Run)
    requires SlugOf(x.name) != SlugOf(y.name)
    ensures SectionOf(x).slug != SectionOf(y).slug
  {
    if FlowSlug(x.name) == FlowSlug(y.name) { FlowSlugSeparates(x.name, y.name); }
  }

  /** Some run from `k` on has this slug. */
  predicate RunsAgain(runs: seq<Run>, slug: string)
  {
    exists k :: 0 <= k < |runs| && FlowSlug(runs[k].name) == slug
  }

  /** The runs no later run of the same flow has replaced, in their order. */
  function Survivors(runs: seq<Run>): seq<Section>
  {
    if runs == [] then []
    else if RunsAgain(runs[1..], FlowSlug(runs[0].name)) then Survivors(runs[1..])
    else [SectionOf(runs[0])] + Survivors(runs[1..])
  }

  /** Replacing and moving to the end, run after run, keeps exactly the latest run of each flow. */
  lemma {:induction false} LatestAreSurvivors(runs: seq<Run>)
    ensures LatestSections(runs) == Survivors(runs)
  {
    if runs != [] {
      var pre, run := runs[..|runs| - 1], runs[|runs| - 1];
      LatestAreSurvivors(pre);
      SurvivorsMore(pre, run);
      assert pre + [run] == runs;
    }
  }

  lemma {:induction false} SurvivorsMore(runs: seq<Run>, run: Run)
    ensures Survivors(runs + [run]) == Upsert(Survivors(runs), SectionOf(run))
  {
    var all, slug := runs + [run], FlowSlug(run.name);
    if runs == [] {
      assert all[1..] == [] && Survivors(all[1..]) == [];
      assert all[0] == run;
    } else {
      var later := runs[1..];
      assert all[1..] == later + [run];
      SurvivorsMore(later, run);
      var mine := FlowSlug(runs[0].name);
      assert RunsAgain(later + [run], mine) <==> RunsAgain(later, mine) || slug == mine by {
        assert (later + [run])[|later|] == run;
        forall k | 0 <= k < |later| ensures (later + [run])[k] == later[k] {}
      }
      if !RunsAgain(later, mine) {
        assert ([SectionOf(runs[0])] + Survivors(later))[1..] == Survivors(later);
      }
    }
  }
}
