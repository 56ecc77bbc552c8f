/** Whitespace, trimming, joining and searching in strings. */
module Text {
  import opened Prelude

  predicate IsSpace(c: char) { c == ' ' || '\t' <= c <= '\r' }

  lemma {:induction false} SpacesAre(c: char)
    ensures IsSpace(c) <==> c in " \t\n\U{B}\U{C}\r"
  {
    assert " \t\n\U{B}\U{C}\r" == [' ', '\t', '\n', 11 as char, 12 as char, '\r'];
  }

  /** Nothing but whitespace. */
  predicate Blank(s: string) { forall k :: 0 <= k < |s| ==> IsSpace(s[k]) }

  function TrimStart(s: string): (r: string)
    ensures |r| <= |s| && (r == "" || !IsSpace(r[0]))
    ensures Blank(s) <==> r == ""
  {
    if s != "" && IsSpace(s[0]) then TrimStart(s[1..]) else s
  }

  function TrimEnd(s: string): (r: string)
    ensures r <= s && (r == "" || !IsSpace(r[|r| - 1]))
    ensures Blank(s) <==> r == ""
  {
    if s != "" && IsSpace(s[|s| - 1]) then TrimEnd(s[..|s| - 1]) else s
  }

  function Trim(s: string): (r: string)
    ensures |r| <= |s| && (r == "" || (!IsSpace(r[0]) && !IsSpace(r[|r| - 1])))
    ensures Blank(s) <==> r == ""
  {
    TrimEnd(TrimStart(s))
  }

  /** `parts.join(sep)` for a separator of one character. */
  function JoinOn(parts: seq<string>, sep: char): string
  {
    if parts == [] then ""
    else if |parts| == 1 then parts[0]
    else parts[0] + [sep] + JoinOn(parts[1..], sep)
  }

  /** `text.split(sep)`: the pieces between separators, never an empty list. */
  function SplitOn(text: string, sep: char): (parts: seq<string>)
    ensures |parts| >= 1
  {
    if text == [] then [""]
    else
      var rest := SplitOn(text[1..], sep);
      if text[0] == sep then [""] + rest else [[text[0]] + rest[0]] + rest[1..]
  }

  /** A character in front goes to the first piece. */
  lemma {:induction false} JoinFront(c: char, parts: seq<string>, sep: char)
    requires parts != []
    ensures JoinOn([[c] + parts[0]] + parts[1..], sep) == [c] + JoinOn(parts, sep)
    ensures JoinOn([""] + parts, sep) == [sep] + JoinOn(parts, sep)
  {
    var more := [[c] + parts[0]] + parts[1..];
    assert more[1..] == parts[1..];
    if |parts| > 1 { AssocThree([c], parts[0], [sep], JoinOn(parts[1..], sep)); }
    assert ([""] + parts)[1..] == parts;
    assert "" + [sep] == [sep];
  }

  lemma {:induction false} AssocThree(a: string, b: string, c: string, d: string)
    ensures (a + b) + c + d == a + (b + c + d)
  {
  }

  lemma {:induction false} JoinOfSplit(text: string, sep: char)
    ensures JoinOn(SplitOn(text, sep), sep) == text
    ensures forall p :: p in SplitOn(text, sep) ==> sep !in p
  {
    if text != [] {
      JoinOfSplit(text[1..], sep);
      JoinFront(text[0], SplitOn(text[1..], sep), sep);
      assert [text[0]] + text[1..] == text;
    }
  }

  lemma {:induction false} SplitPastPiece(piece: string, text: string, sep: char)
    requires sep !in piece
    ensures SplitOn(piece + [sep] + text, sep) == [piece] + SplitOn(text, sep)
    ensures SplitOn(piece, sep) == [piece]
  {
    var all := piece + [sep] + text;
    assert all[0] == if piece == "" then sep else piece[0];
    if piece == "" {
      assert all[1..] == text;
    } else {
      assert all[1..] == piece[1..] + [sep] + text;
      SplitPastPiece(piece[1..], text, sep);
      assert [piece[0]] + piece[1..] == piece;
      assert ([piece[1..]] + SplitOn(text, sep))[1..] == SplitOn(text, sep);
    }
  }

  lemma {:induction false} SplitOfJoin(parts: seq<string>, sep: char)
    requires parts != []
    requires forall k :: 0 <= k < |parts| ==> sep !in parts[k]
    ensures SplitOn(JoinOn(parts, sep), sep) == parts
  {
    SplitPastPiece(parts[0], JoinOn(parts[1..], sep), sep);
    if |parts| > 1 {
      SplitOfJoin(parts[1..], sep);
      assert parts == [parts[0]] + parts[1..];
    }
  }

  lemma {:induction false} JoinOfSum(a: seq<string>, b: seq<string>, sep: char)
    requires a != [] && b != []
    ensures JoinOn(a + b, sep) == JoinOn(a, sep) + ([sep] + JoinOn(b, sep))
  {
    var rest := [sep] + JoinOn(b, sep);
    if |a| == 1 {
      assert (a + b)[1..] == b;
      Assoc(a[0], [sep], JoinOn(b, sep));
    } else {
      assert (a + b)[1..] == a[1..] + b;
      JoinOfSum(a[1..], b, sep);
      Assoc(a[0] + [sep], JoinOn(a[1..], sep), rest);
    }
  }

  function JoinLines(lines: seq<string>): string { JoinOn(lines, '\n') }

  function SplitLines(text: string): (lines: seq<string>)
    ensures |lines| >= 1
  {
    SplitOn(text, '\n')
  }

  function Digit(d: nat): char
    requires d < 10
  {
    ('0' as int + d) as char
  }

  /** `format!("{}", n)`. */
  function Decimal(n: nat): (s: string)
    ensures s != "" && (n < 10 ==> s == [Digit(n)])
    ensures n >= 1 ==> '1' <= s[0] <= '9'
    ensures n >= 10 ==> |s| >= 2
  {
    if n < 10 then [Digit(n)] else Decimal(n / 10) + [Digit(n % 10)]
  }

  /** Trimming stops inside `t`, or right behind a last character that is not whitespace. */
  lemma {:induction false} TrimEndOfSum(s: string, t: string)
    requires !Blank(t) || (s != "" && !IsSpace(s[|s| - 1]))
    ensures TrimEnd(s + t) == s + TrimEnd(t)
  {
    if t == "" {
      assert s + t == s;
    } else if IsSpace(t[|t| - 1]) {
      var u := t[..|t| - 1];
      assert (s + t)[..|s + t| - 1] == s + u;
      assert Blank(u) ==> Blank(t);
      TrimEndOfSum(s, u);
    }
  }

  lemma {:induction false} TrimEndDropsBlank(s: string, t: string)
    requires Blank(t)
    ensures TrimEnd(s + t) == TrimEnd(s)
  {
    if t == "" {
      assert s + t == s;
    } else {
      assert (s + t)[..|s + t| - 1] == s + t[..|t| - 1];
      TrimEndDropsBlank(s, t[..|t| - 1]);
    }
  }

  /** Trimming takes off just the whitespace around a text. */
  lemma {:induction false} TrimFramed(lead: string, s: string, trail: string)
    requires Blank(lead) && Blank(trail)
    requires s != "" && !IsSpace(s[0]) && !IsSpace(s[|s| - 1])
    ensures Trim(lead + s + trail) == s
  {
    if lead == "" {
      assert lead + s + trail == s + trail;
      TrimEndDropsBlank(s, trail);
    } else {
      assert (lead + s + trail)[1..] == lead[1..] + s + trail;
      TrimFramed(lead[1..], s, trail);
    }
  }

  lemma {:induction false} TrimKeepsChars(s: string)
    ensures forall c :: c in Trim(s) ==> c in s
    ensures Trim(Trim(s)) == Trim(s)
  {
    TrimStartKeepsChars(s);
    var t := Trim(s);
    assert TrimStart(t) == t && TrimEnd(t) == t;
  }

  lemma {:induction false} TrimStartKeepsChars(s: string)
    ensures forall c :: c in TrimStart(s) ==> c in s
  {
    if s != "" && IsSpace(s[0]) { TrimStartKeepsChars(s[1..]); }
  }

  lemma Assoc(a: string, b: string, c: string)
    ensures (a + b) + c == a + (b + c)
  {
  }

  /** The first position at which `pat` occurs. */
  function Find(s: string, pat: string): (r: Option<nat>)
    ensures r.Some? ==> r.value + |pat| <= |s|
  {
    if pat <= s then Some(0)
    else if s == "" then None
    else
      match Find(s[1..], pat)
      case None => None
      case Some(k) => Some(k + 1)
  }

  function Shifted(n: nat, r: Option<nat>): Option<nat> { if r == None then None else Some(n + r.value) }

  ghost predicate OccursAt(s: string, pat: string, i: int)
  {
    0 <= i <= |s| && pat <= s[i..]
  }

  lemma {:induction false} OccursFurther(s: string, pat: string, i: nat)
    requires s != ""
    ensures OccursAt(s[1..], pat, i) <==> OccursAt(s, pat, i + 1)
  {
    if i < |s| { assert s[1..][i..] == s[i + 1..]; }
  }

  /** If no occurrence starts in `s`, the search goes on in `t`. */
  lemma {:induction false} FindPast(s: string, t: string, pat: string)
    requires forall i :: 0 <= i < |s| ==> !OccursAt(s + t, pat, i)
    ensures Find(s + t, pat) == Shifted(|s|, Find(t, pat))
  {
    if s == "" {
      assert s + t == t;
    } else {
      var u := s + t;
      assert u[1..] == s[1..] + t;
      assert !OccursAt(u, pat, 0) && u[0..] == u;
      forall i | 0 <= i < |s| - 1 ensures !OccursAt(u[1..], pat, i) {
        OccursFurther(u, pat, i);
      }
      FindPast(s[1..], t, pat);
    }
  }

  lemma {:induction false} FindNothing(s: string, pat: string)
    ensures Find(s, pat) == None <==> forall i :: !OccursAt(s, pat, i)
  {
    assert OccursAt(s, pat, 0) <==> pat <= s by { assert s[0..] == s; }
    if s != "" {
      FindNothing(s[1..], pat);
      forall i: int ensures i > 0 ==> (OccursAt(s, pat, i) <==> OccursAt(s[1..], pat, i - 1)) {
        if i > 0 { OccursFurther(s, pat, i - 1); }
      }
      if i :| OccursAt(s[1..], pat, i) { assert OccursAt(s, pat, i + 1); }
    }
  }
}
