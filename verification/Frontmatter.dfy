/** The YAML block in front of a skill's text (crates/takuto-core/src/skill_resolve.rs). */
module Frontmatter {
  import opened Prelude
  import opened Text

  const FENCE := "---"

  /** What ends the block: a line break and a fence. */
  const CLOSE := "\n---"

  function TrimNewlines(s: string): string
  {
    if s != "" && s[0] == '\n' then TrimNewlines(s[1..]) else s
  }

  /** `strip_frontmatter`. */
  function StripFrontmatter(content: string): string
  {
    var trimmed := TrimStart(content);
    if !(FENCE <= trimmed) then content
    else
      match Find(trimmed[3..], CLOSE)
      case None => content
      case Some(end) => TrimNewlines(trimmed[3..][end + 4..])
  }

  lemma {:induction false} TrimStartDropsBlank(lead: string, text: string)
    requires Blank(lead) && text != "" && !IsSpace(text[0])
    ensures TrimStart(lead + text) == text
  {
    if lead == "" {
      assert lead + text == text;
    } else {
      assert (lead + text)[1..] == lead[1..] + text;
      TrimStartDropsBlank(lead[1..], text);
    }
  }

  /** A closing fence that starts inside the block lies inside it: a fence has no line break in it. */
  lemma {:induction false} NoCloseAcross(meta: string, rest: string, i: int)
    requires 0 <= i < |meta| && CLOSE <= rest
    requires OccursAt(meta + rest, CLOSE, i)
    ensures OccursAt(meta, CLOSE, i)
  {
    var all := meta + rest;
    assert forall k :: 0 <= k < 4 ==> all[i..][k] == CLOSE[k];
    assert all[i + 1] == all[i + 2] == all[i + 3] == '-';
    assert all[|meta|] == rest[0] == CLOSE[0] == '\n';
    assert i + 4 <= |meta|;
    assert meta[i..] == all[i..|meta|];
    assert all[i..][..4] == meta[i..][..4];
  }

  lemma {:induction false} CloseFound(meta: string, rest: string)
    requires CLOSE <= rest && forall i :: !OccursAt(meta, CLOSE, i)
    ensures Find(meta + rest, CLOSE) == Some(|meta|)
  {
    forall i | 0 <= i < |meta| ensures !OccursAt(meta + rest, CLOSE, i) {
      if OccursAt(meta + rest, CLOSE, i) { NoCloseAcross(meta, rest, i); }
    }
    FindPast(meta, rest, CLOSE);
  }

  lemma {:induction false} GapDropped(gap: string, body: string)
    requires (forall k :: 0 <= k < |gap| ==> gap[k] == '\n') && (body == "" || body[0] != '\n')
    ensures TrimNewlines(gap + body) == body
  {
    if gap == "" {
      assert gap + body == body;
    } else {
      assert (gap + body)[1..] == gap[1..] + body;
      GapDropped(gap[1..], body);
    }
  }

  /** The block, its fences and the empty lines behind it go; the text stays. */
  lemma {:induction false} FrontmatterIsStripped(lead: string, meta: string, gap: string, body: string)
    requires Blank(lead) && (forall i :: !OccursAt(meta, CLOSE, i))
    requires (forall k :: 0 <= k < |gap| ==> gap[k] == '\n') && (body == "" || body[0] != '\n')
    ensures StripFrontmatter(lead + (FENCE + (meta + (CLOSE + (gap + body))))) == body
  {
    var rest := CLOSE + (gap + body);
    var text := FENCE + (meta + rest);
    TrimStartDropsBlank(lead, text);
    assert text[3..] == meta + rest;
    CloseFound(meta, rest);
    assert (meta + rest)[|meta| + 4..] == gap + body;
    GapDropped(gap, body);
  }

  /** Without an opening or a closing fence the content comes back as it is. */
  lemma {:induction false} UnfencedIsKept(content: string)
    requires FENCE <= TrimStart(content) ==> forall i :: !OccursAt(TrimStart(content)[3..], CLOSE, i)
    ensures StripFrontmatter(content) == content
  {
    if FENCE <= TrimStart(content) { FindNothing(TrimStart(content)[3..], CLOSE); }
  }
}
