/**
 * Flow slugs: the editor's `slugify` (ui/src/api/flows.ts), its backend twin
 * (crates/takuto-core/src/db/user_work_item_flows.rs) and the report's `flow_slug`
 * (crates/takuto-core/src/agent_prompt.rs).
 */
module Slugs {
  import opened Prelude
  import opened Text

  const MAX_SLUG_LEN: nat := 64

  predicate IsUpper(c: char) { 'A' <= c <= 'Z' }

  predicate IsAlnum(c: char) { IsUpper(c) || 'a' <= c <= 'z' || '0' <= c <= '9' }

  function Lower(c: char): (r: char)
    ensures IsAlnum(c) ==> IsAlnum(r) && !IsUpper(r)
    ensures !IsUpper(c) ==> r == c
  {
    if IsUpper(c) then (c as int + 32) as char else c
  }

  // ---- A reference definition: the words of a name, joined by dashes ------------------

  /** The maximal runs of letters and digits, in lower case. */
  function Words(s: string): (words: seq<string>)
    ensures s != [] && IsAlnum(s[0]) ==> words != []
  {
    if s == [] then []
    else
      var rest := Words(s[1..]);
      if !IsAlnum(s[0]) then rest
      else if |s| > 1 && IsAlnum(s[1]) then [[Lower(s[0])] + rest[0]] + rest[1..]
      else [[Lower(s[0])]] + rest
  }

  function Dashed(words: seq<string>): string
  {
    if words == [] then ""
    else if |words| == 1 then words[0]
    else words[0] + "-" + Dashed(words[1..])
  }

  // ---- The loop, character by character ------------------------------------------------

  /** What the loop still appends for the characters `s`, given its `prevDash` flag. */
  function Emitted(s: string, prevDash: bool): string
  {
    if s == [] then []
    else if IsAlnum(s[0]) then [Lower(s[0])] + Emitted(s[1..], false)
    else if !prevDash then ['-'] + Emitted(s[1..], true)
    else Emitted(s[1..], true)
  }

  function TrimFront(s: string): (r: string)
    ensures r == [] || r[0] != '-'
  {
    if s != [] && s[0] == '-' then TrimFront(s[1..]) else s
  }

  function TrimBack(s: string): (r: string)
    ensures r <= s && (r == [] || r[|r| - 1] != '-')
    ensures forall k :: |r| <= k < |s| ==> s[k] == '-'
  {
    if s != [] && s[|s| - 1] == '-' then TrimBack(s[..|s| - 1]) else s
  }

  function Cap(s: string): string
  {
    if |s| > MAX_SLUG_LEN then s[..MAX_SLUG_LEN] else s
  }

  /** The slug a name stands for. */
  function SlugOf(name: string): string
  {
    TrimBack(Cap(Dashed(Words(name))))
  }

  // ---- Normal form -----------------------------------------------------------------------

  predicate SlugChar(c: char) { c == '-' || (IsAlnum(c) && !IsUpper(c)) }

  /** Only lower-case letters, digits and single inner dashes. */
  ghost predicate Tidy(s: string)
  {
    && (forall k :: 0 <= k < |s| ==> SlugChar(s[k]))
    && (forall k :: 0 <= k < |s| && s[k] == '-' ==> 0 < k < |s| - 1 && s[k + 1] != '-')
  }

  ghost predicate Normal(s: string)
  {
    |s| <= MAX_SLUG_LEN && Tidy(s)
  }

  ghost predicate LowerWord(w: string)
  {
    w != [] && forall k :: 0 <= k < |w| ==> IsAlnum(w[k]) && !IsUpper(w[k])
  }

  lemma {:induction false} WordsAreLower(s: string)
    ensures forall w :: w in Words(s) ==> LowerWord(w)
  {
    if s != [] {
      var rest := Words(s[1..]);
      WordsAreLower(s[1..]);
      assert rest != [] ==> forall w :: w in rest[1..] ==> w in rest;
      if IsAlnum(s[0]) && |s| > 1 && IsAlnum(s[1]) {
        assert LowerWord(rest[0]);
      }
    }
  }

  lemma {:induction false} DashedIsTidy(words: seq<string>)
    requires forall w :: w in words ==> LowerWord(w)
    ensures Tidy(Dashed(words)) && (words != [] ==> Dashed(words) != [])
  {
    if |words| > 1 {
      var w, rest := words[0], Dashed(words[1..]);
      DashedIsTidy(words[1..]);
      var d := Dashed(words);
      assert d == w + "-" + rest && LowerWord(w);
      forall k | 0 <= k < |d| && d[k] == '-' ensures 0 < k < |d| - 1 && d[k + 1] != '-' {
        if k > |w| { assert d[k] == rest[k - |w| - 1]; }
      }
    } else if |words| == 1 {
      assert LowerWord(words[0]);
    }
  }

  lemma {:induction false} DashedGrowsFirst(c: char, w: string, rest: seq<string>)
    ensures Dashed([[c] + w] + rest) == [c] + Dashed([w] + rest)
    ensures rest != [] ==> Dashed([[c]] + rest) == [c] + "-" + Dashed(rest)
  {
    assert ([[c] + w] + rest)[1..] == rest && ([w] + rest)[1..] == rest && ([[c]] + rest)[1..] == rest;
  }

  function Lead(s: string, prevDash: bool): string
  {
    if s != [] && !IsAlnum(s[0]) && !prevDash then "-" else ""
  }

  /** The dashed words of a string, one character further left. */
  lemma {:induction false} DashedWordsStep(s: string)
    requires s != [] && IsAlnum(s[0])
    ensures |s| > 1 && IsAlnum(s[1]) ==> Dashed(Words(s)) == [Lower(s[0])] + Dashed(Words(s[1..]))
    ensures !(|s| > 1 && IsAlnum(s[1])) ==>
      Dashed(Words(s)) == [Lower(s[0])] + if Words(s[1..]) == [] then "" else "-" + Dashed(Words(s[1..]))
  {
    var c, rest := Lower(s[0]), Words(s[1..]);
    if |s| > 1 && IsAlnum(s[1]) {
      DashedGrowsFirst(c, rest[0], rest[1..]);
      assert rest == [rest[0]] + rest[1..];
    } else if rest != [] {
      DashedGrowsFirst(c, "", rest);
    }
  }

  lemma {:induction false} Regroup(c: char, lead: string, later: string, trail: string)
    ensures [c] + (lead + (later + trail)) == ([c] + (lead + later)) + trail
    ensures later == "" && trail == "" ==> [c] + (lead + (later + trail)) == [c] + lead
  {
  }

  /** The loop emits the dashed words, with at most one stray dash on either side. */
  lemma {:induction false} EmittedIsDashed(s: string, prevDash: bool) returns (trail: string)
    ensures Emitted(s, prevDash) == Lead(s, prevDash) + (Dashed(Words(s)) + trail)
    ensures trail == "" || (trail == "-" && Words(s) != [])
  {
    if s == [] {
      trail := "";
    } else if !IsAlnum(s[0]) {
      trail := EmittedIsDashed(s[1..], true);
      assert Emitted(s[1..], true) == Dashed(Words(s)) + trail;
    } else {
      trail := EmittedIsDashed(s[1..], false);
      var c, later, lead := Lower(s[0]), Dashed(Words(s[1..])), Lead(s[1..], false);
      DashedWordsStep(s);
      Regroup(c, lead, later, trail);
      assert "" + (Dashed(Words(s)) + trail) == Dashed(Words(s)) + trail;
      if Words(s[1..]) == [] {
        trail := lead;
        assert Dashed(Words(s)) == [c];
        assert "" + ([c] + trail) == [c] + trail;
      } else {
        assert Dashed(Words(s)) == [c] + (lead + later);
      }
    }
  }

  lemma {:induction false} TrimFrontDash(s: string)
    ensures TrimFront("-" + s) == TrimFront(s)
    ensures s == [] || s[0] != '-' ==> TrimFront(s) == s
  {
    assert ("-" + s)[1..] == s;
  }

  lemma {:induction false} TrimBackDash(s: string)
    ensures TrimBack(s + "-") == TrimBack(s)
    ensures s == [] || s[|s| - 1] != '-' ==> TrimBack(s) == s
  {
    assert (s + "-")[..|s|] == s;
  }

  lemma {:induction false} TrimmedEmission(name: string)
    ensures TrimBack(TrimFront(Emitted(name, false))) == Dashed(Words(name))
  {
    var d := Dashed(Words(name));
    WordsAreLower(name);
    DashedIsTidy(Words(name));
    var trail := EmittedIsDashed(name, false);
    TrimFrontDash(d + trail);
    assert "" + (d + trail) == d + trail && d + "" == d;
    assert d + trail == [] || (d + trail)[0] != '-';
    TrimBackDash(d);
  }

  /** Slugs are in normal form, and are empty only for names without a letter or digit. */
  lemma {:induction false} SlugIsNormal(name: string)
    ensures Normal(SlugOf(name))
    ensures SlugOf(name) == [] <==> forall k :: 0 <= k < |name| ==> !IsAlnum(name[k])
  {
    var d := Dashed(Words(name));
    WordsAreLower(name);
    DashedIsTidy(Words(name));
    NoWords(name);
    var c := Cap(d);
    assert forall k :: 0 <= k < |c| ==> c[k] == d[k];
    var slug := TrimBack(c);
    assert d != [] ==> c[0] != '-' && slug != [];
    forall k | 0 <= k < |slug| && slug[k] == '-' ensures 0 < k < |slug| - 1 && slug[k + 1] != '-' {
      assert d[k] == '-';
    }
  }

  lemma {:induction false} NoWords(s: string)
    ensures Words(s) == [] <==> forall k :: 0 <= k < |s| ==> !IsAlnum(s[k])
  {
    if s != [] { NoWords(s[1..]); }
  }

  lemma {:induction false} TidyIsEmittedAsIs(s: string, prevDash: bool)
    requires forall k :: 0 <= k < |s| ==> SlugChar(s[k])
    requires forall k :: 0 <= k < |s| - 1 && s[k] == '-' ==> s[k + 1] != '-'
    requires prevDash && s != [] ==> s[0] != '-'
    ensures Emitted(s, prevDash) == s
  {
    if s != [] {
      TidyIsEmittedAsIs(s[1..], s[0] == '-');
    }
  }

  /** The slugs are exactly the names that are their own slug, so slugging twice changes nothing. */
  lemma {:induction false} SlugFixedPoints(s: string)
    ensures SlugOf(s) == s <==> Normal(s)
    ensures SlugOf(SlugOf(s)) == SlugOf(s)
  {
    SlugIsNormal(s);
    if Normal(s) { NormalIsFixed(s); }
    NormalIsFixed(SlugOf(s));
  }

  lemma {:induction false} NormalIsFixed(s: string)
    requires Normal(s)
    ensures SlugOf(s) == s
  {
    TidyIsEmittedAsIs(s, false);
    TrimmedEmission(s);
    TrimFrontDash(s);
    TrimBackDash(s);
  }

  lemma {:induction false} EmittedNext(out: string, name: string, i: nat, prevDash: bool)
    requires i < |name|
    ensures IsAlnum(name[i]) ==>
      out + Emitted(name[i..], prevDash) == (out + [Lower(name[i])]) + Emitted(name[i + 1..], false)
    ensures !IsAlnum(name[i]) && !prevDash ==>
      out + Emitted(name[i..], prevDash) == (out + "-") + Emitted(name[i + 1..], true)
    ensures !IsAlnum(name[i]) && prevDash ==> Emitted(name[i..], prevDash) == Emitted(name[i + 1..], true)
  {
    assert name[i..][1..] == name[i + 1..];
    Assoc(out, [Lower(name[i])], Emitted(name[i + 1..], false));
    Assoc(out, "-", Emitted(name[i + 1..], true));
  }

  /** `slugify`, as written: one pass, then trim, cap and trim again. */
  method Slugify(name: string) returns (slug: string)
    ensures slug == SlugOf(name)
  {
    var out, prevDash := "", false;
    for i := 0 to |name|
      invariant out + Emitted(name[i..], prevDash) == Emitted(name, false)
    {
      EmittedNext(out, name, i, prevDash);
      var ch := name[i];
      if IsAlnum(ch) {
        out := out + [Lower(ch)];
        prevDash := false;
      } else if !prevDash {
        out := out + "-";
        prevDash := true;
      }
    }
    var trimmed := TrimBack(TrimFront(out));
    slug := TrimBack(Cap(trimmed));
    assert out + "" == out;
    TrimmedEmission(name);
  }

  // ---- Names spelled out ---------------------------------------------------------------------

  const CAPITALS := "ABCDEFGHIJKLMNOPQRSTUVWXYZ"
  const SMALL := "abcdefghijklmnopqrstuvwxyz"
  const DIGITS := "0123456789"

  /** `c` is written for `r`: itself, or the capital of the letter. */
  predicate Spells(c: char, r: char)
  {
    (c == r && (c in SMALL || c in DIGITS)) || Capital(c, r)
  }

  predicate Capital(c: char, r: char) { exists i :: 0 <= i < 26 && CAPITALS[i] == c && SMALL[i] == r }

  /** No letter and no digit. */
  predicate Other(c: char) { c !in CAPITALS && c !in SMALL && c !in DIGITS }

  ghost predicate Written(text: string, word: string)
  {
    word != "" && |text| == |word| && forall k :: 0 <= k < |text| ==> Spells(text[k], word[k])
  }

  ghost predicate Filler(text: string) { forall k :: 0 <= k < |text| ==> Other(text[k]) }

  /** Texts with a gap behind each. */
  function Spread(texts: seq<string>, gaps: seq<string>): string
    requires |texts| == |gaps|
  {
    if texts == [] then "" else texts[0] + gaps[0] + Spread(texts[1..], gaps[1..])
  }

  lemma {:induction false} Alphabet()
    ensures |CAPITALS| == |SMALL| == 26
    ensures forall i :: 0 <= i < 26 ==> CAPITALS[i] as int == 'A' as int + i && SMALL[i] as int == 'a' as int + i
  {
  }

  lemma {:induction false} Members(c: char)
    ensures c in CAPITALS <==> 'A' <= c <= 'Z'
    ensures c in SMALL <==> 'a' <= c <= 'z'
    ensures c in DIGITS <==> '0' <= c <= '9'
  {
    Alphabet();
    if 'A' <= c <= 'Z' { assert CAPITALS[c as int - 'A' as int] == c; }
    if 'a' <= c <= 'z' { assert SMALL[c as int - 'a' as int] == c; }
    if '0' <= c <= '9' { assert DIGITS[c as int - '0' as int] == c; }
  }

  lemma {:induction false} CapitalIs(c: char, r: char)
    ensures Capital(c, r) <==> IsUpper(c) && r == Lower(c)
  {
    Alphabet();
    if IsUpper(c) { assert CAPITALS[c as int - 'A' as int] == c; }
  }

  lemma {:induction false} SpellsIs(c: char, r: char)
    ensures Spells(c, r) <==> IsAlnum(c) && r == Lower(c)
    ensures Other(c) <==> !IsAlnum(c)
  {
    CapitalIs(c, r);
    Members(c);
  }

  lemma {:induction false} WordsPastFiller(gap: string, rest: string)
    requires Filler(gap)
    ensures Words(gap + rest) == Words(rest)
  {
    if gap == "" {
      assert gap + rest == rest;
    } else {
      SpellsIs(gap[0], gap[0]);
      assert (gap + rest)[1..] == gap[1..] + rest;
      WordsPastFiller(gap[1..], rest);
    }
  }

  ghost predicate Lowered(text: string, word: string)
  {
    word != "" && |text| == |word| && forall k :: 0 <= k < |text| ==> IsAlnum(text[k]) && word[k] == Lower(text[k])
  }

  lemma {:induction false} WrittenIsLowered(text: string, word: string)
    requires Written(text, word)
    ensures Lowered(text, word)
  {
    forall k | 0 <= k < |text| ensures IsAlnum(text[k]) && word[k] == Lower(text[k]) { SpellsIs(text[k], word[k]); }
  }

  lemma {:induction false} WordsPastText(text: string, word: string, rest: string)
    requires Lowered(text, word) && (rest == "" || !IsAlnum(rest[0]))
    ensures Words(text + rest) == [word] + Words(rest)
  {
    var all := text + rest;
    assert all[1..] == text[1..] + rest;
    if |text| == 1 {
      assert word == [word[0]] && text[1..] + rest == rest;
    } else {
      WordsPastText(text[1..], word[1..], rest);
      assert [word[0]] + word[1..] == word;
      assert ([word[1..]] + Words(rest))[1..] == Words(rest);
    }
  }

  ghost predicate WellSpread(texts: seq<string>, gaps: seq<string>, words: seq<string>)
  {
    && |texts| == |gaps| == |words|
    && (forall k :: 0 <= k < |texts| ==> Written(texts[k], words[k]) && Filler(gaps[k]))
    && (forall k :: 0 <= k < |texts| - 1 ==> gaps[k] != "")
  }

  lemma {:induction false} SpreadWords(texts: seq<string>, gaps: seq<string>, words: seq<string>)
    requires WellSpread(texts, gaps, words)
    ensures Words(Spread(texts, gaps)) == words
    decreases |texts|
  {
    if texts != [] {
      var rest := Spread(texts[1..], gaps[1..]);
      SpreadWords(texts[1..], gaps[1..], words[1..]);
      WordsPastFiller(gaps[0], rest);
      assert texts[0] + gaps[0] + rest == texts[0] + (gaps[0] + rest);
      WrittenIsLowered(texts[0], words[0]);
      if gaps[0] != "" { SpellsIs(gaps[0][0], gaps[0][0]); }
      WordsPastText(texts[0], words[0], gaps[0] + rest);
      assert [words[0]] + words[1..] == words;
    }
  }

  lemma {:induction false} DashedIsJoined(words: seq<string>)
    ensures Dashed(words) == JoinOn(words, '-')
  {
    if |words| > 1 { DashedIsJoined(words[1..]); }
  }

  /** A text cut at the cap loses the dash it then ends with. */
  function CutAt64(text: string): string
  {
    if |text| <= 64 then text else if text[63] == '-' then text[..63] else text[..64]
  }

  lemma {:induction false} TidyIsCut(s: string)
    requires Tidy(s)
    ensures TrimBack(Cap(s)) == CutAt64(s)
  {
    if |s| <= 64 {
      TrimBackDash(s);
    } else if s[63] == '-' {
      assert Cap(s) == s[..63] + "-";
      assert s[62] != '-';
      TrimBackDash(s[..63]);
    } else {
      TrimBackDash(s[..64]);
    }
  }

  /**
   * However the words of a name are capitalized, whatever separates and surrounds them: the slug is
   * the words in lower case, joined by single dashes and cut at 64 characters.
   */
  lemma {:induction false} SlugSpelled(lead: string, texts: seq<string>, gaps: seq<string>, words: seq<string>)
    requires Filler(lead) && WellSpread(texts, gaps, words)
    ensures SlugOf(lead + Spread(texts, gaps)) == CutAt64(JoinOn(words, '-'))
  {
    WordsPastFiller(lead, Spread(texts, gaps));
    SpreadWords(texts, gaps, words);
    WordsAreLower(lead + Spread(texts, gaps));
    DashedIsTidy(words);
    DashedIsJoined(words);
    TidyIsCut(Dashed(words));
  }

  // ---- The report's slug ---------------------------------------------------------------------

  /** `flow_slug`: the same characters, but dashes are neither merged nor trimmed. */
  function FlowSlug(name: string): (slug: string)
    ensures |slug| == |name| && forall k :: 0 <= k < |slug| ==> SlugChar(slug[k])
  {
    seq(|name|, k requires 0 <= k < |name| => if IsAlnum(name[k]) then Lower(name[k]) else '-')
  }

  /** The report's slug spells out each letter and digit where it stands and has a dash for everything else. */
  lemma {:induction false} FlowSlugSpelled(name: string, k: nat)
    requires k < |name|
    ensures if Other(name[k]) then FlowSlug(name)[k] == '-' else Spells(name[k], FlowSlug(name)[k])
  {
    SpellsIs(name[k], FlowSlug(name)[k]);
  }

  /** A stored slug passes through `flow_slug` unchanged, so the two agree on its section. */
  lemma {:induction false} FlowSlugKeepsSlugs(name: string)
    ensures FlowSlug(SlugOf(name)) == SlugOf(name)
  {
    SlugIsNormal(name);
  }

  lemma {:induction false} FlowSlugKeepsWords(name: string)
    ensures Words(FlowSlug(name)) == Words(name)
  {
    if name != "" {
      var slug := FlowSlug(name);
      FlowSlugKeepsWords(name[1..]);
      assert slug[1..] == FlowSlug(name[1..]);
      assert slug[0] == if IsAlnum(name[0]) then Lower(name[0]) else '-';
    }
  }

  /** Names with different slugs, as any two stored flows have, get different slugs in the report too. */
  lemma {:induction false} FlowSlugSeparates(x: string, y: string)
    requires FlowSlug(x) == FlowSlug(y)
    ensures SlugOf(x) == SlugOf(y)
  {
    FlowSlugKeepsWords(x);
    FlowSlugKeepsWords(y);
  }
}
