/** Skill arguments put into a skill's text (crates/takuto-core/src/skill_resolve.rs). */
module SkillArgs {
  import opened Text

  /** `str::replace`: every non-overlapping occurrence from the left; `pat` is never empty here. */
  function Replace(s: string, pat: string, put: string): string
    requires pat != ""
  {
    if |s| < |pat| then s
    else if pat <= s then put + Replace(s[|pat|..], pat, put)
    else [s[0]] + Replace(s[1..], pat, put)
  }

  /** `args.join(" ")`. */
  function Joined(args: seq<string>): string { JoinOn(args, ' ') }

  const ALL: string := "$ARGUMENTS"

  function Positional(k: nat): string { "$" + Decimal(k) }

  /** The first `k` rounds of the loop, after `$ARGUMENTS`. */
  function Rounds(body: string, args: seq<string>, k: nat): string
    requires k <= |args|
  {
    if k == 0 then Replace(body, ALL, Joined(args))
    else Replace(Rounds(body, args, k - 1), Positional(k), args[k - 1])
  }

  /** `substitute_skill_args`. */
  method SubstituteSkillArgs(body: string, args: seq<string>) returns (result: string)
    ensures result == Rounds(body, args, |args|)
    ensures NoDollarIn(args) ==> (result == OnePass(body, args, |args|) <==> !Clashes(body, args, |args|))
  {
    var joined := Joined(args);
    result := Replace(body, ALL, joined);
    for i := 0 to |args|
      invariant result == Rounds(body, args, i)
    {
      result := Replace(result, Positional(i + 1), args[i]);
    }
    if NoDollarIn(args) {
      RoundsAreOnePassIff(body, args, |args|);
    }
  }

  // ---- The simultaneous substitution -----------------------------------------------------

  /** The positional reference a text starts with, among the first `k`. */
  predicate StartsReference(s: string, k: nat)
  {
    |s| >= 2 && s[0] == '$' && '1' <= s[1] <= '9' && s[1] as int - '0' as int <= k
  }

  /** One pass over the text that puts in `$ARGUMENTS` and the single digits up to `k`, and looks at nothing twice. */
  function OnePass(s: string, args: seq<string>, k: nat): string
    requires k <= |args|
  {
    if s == "" then ""
    else if ALL <= s then Joined(args) + OnePass(s[|ALL|..], args, k)
    else if StartsReference(s, k) then args[s[1] as int - '0' as int - 1] + OnePass(s[2..], args, k)
    else [s[0]] + OnePass(s[1..], args, k)
  }

  ghost predicate NoDollarIn(args: seq<string>)
  {
    forall a :: a in args ==> '$' !in a
  }

  ghost predicate HasDoubleDollar(s: string)
  {
    exists k :: 0 <= k < |s| - 1 && s[k] == '$' && s[k + 1] == '$'
  }

  lemma {:induction false} JoinedHasNoDollar(args: seq<string>)
    requires NoDollarIn(args)
    ensures '$' !in Joined(args)
  {
    if |args| > 1 {
      JoinedHasNoDollar(args[1..]);
    }
  }

  /** A pattern that starts with a dollar is not found in text without one. */
  lemma {:induction false} ReplaceSkips(plain: string, rest: string, pat: string, put: string)
    requires pat != "" && pat[0] == '$' && '$' !in plain
    ensures Replace(plain + rest, pat, put) == plain + Replace(rest, pat, put)
  {
    var s := plain + rest;
    if plain == "" {
      assert s == rest;
    } else {
      ReplaceSkips(plain[1..], rest, pat, put);
      assert s[1..] == plain[1..] + rest;
      assert s[0] != '$';
      if |s| < |pat| {
        ReplaceShort(rest, pat, put);
      }
    }
  }

  lemma {:induction false} ReplaceShort(s: string, pat: string, put: string)
    requires pat != "" && |s| < |pat|
    ensures Replace(s, pat, put) == s
  {
  }

  lemma {:induction false} FirstRoundIsOnePass(s: string, args: seq<string>)
    ensures Replace(s, ALL, Joined(args)) == OnePass(s, args, 0)
  {
    if s == "" {
    } else if ALL <= s {
      FirstRoundIsOnePass(s[|ALL|..], args);
    } else {
      FirstRoundIsOnePass(s[1..], args);
      if |s| < |ALL| {
        ReplaceShort(s[1..], ALL, Joined(args));
      }
    }
  }

  // ---- Rounds against the single pass ---------------------------------------------------------

  /**
   * The dollar at `i` starts no reference, but the text that the pass leaves behind it starts with
   * the number of the next round.
   */
  ghost predicate ClashAt(s: string, args: seq<string>, k: nat, i: nat)
    requires k < |args|
  {
    && i < |s| && s[i] == '$' && !(ALL <= s[i..]) && !StartsReference(s[i..], k + 1)
    && Decimal(k + 1) <= OnePass(s[i + 1..], args, k)
  }

  ghost predicate Clash(s: string, args: seq<string>, k: nat)
    requires k < |args|
  {
    exists i: nat :: ClashAt(s, args, k, i)
  }

  /** Some round among the first `n` finds a reference that the text did not have. */
  ghost predicate Clashes(s: string, args: seq<string>, n: nat)
    requires n <= |args|
  {
    exists k: nat :: k < n && Clash(s, args, k)
  }

  lemma {:induction false} ClashFurther(s: string, args: seq<string>, k: nat, n: nat)
    requires k < |args| && n <= |s| && Clash(s[n..], args, k)
    ensures Clash(s, args, k)
  {
    var i: nat :| ClashAt(s[n..], args, k, i);
    assert s[n..][i..] == s[n + i..] && s[n..][i + 1..] == s[n + i + 1..];
    assert ClashAt(s, args, k, n + i);
  }

  /** A clash is at the front or behind the first `n` characters, if those hold no other dollar. */
  lemma {:induction false} ClashBehind(s: string, args: seq<string>, k: nat, n: nat)
    requires k < |args| && 0 < n <= |s| && Clash(s, args, k) && !ClashAt(s, args, k, 0)
    requires forall i :: 0 < i < n ==> s[i] != '$'
    ensures Clash(s[n..], args, k)
  {
    var i: nat :| ClashAt(s, args, k, i);
    assert i >= n;
    assert s[n..][i - n..] == s[i..] && s[n..][i - n + 1..] == s[i + 1..];
    assert ClashAt(s[n..], args, k, i - n);
  }

  lemma {:induction false} ReplaceHere(rest: string, pat: string, put: string)
    requires pat != ""
    ensures Replace(pat + rest, pat, put) == put + Replace(rest, pat, put)
  {
    assert (pat + rest)[|pat|..] == rest;
  }

  lemma {:induction false} ReplaceLater(c: char, rest: string, pat: string, put: string)
    requires pat != "" && !(pat <= [c] + rest)
    ensures Replace([c] + rest, pat, put) == [c] + Replace(rest, pat, put)
  {
    assert ([c] + rest)[1..] == rest;
    if |rest| + 1 < |pat| { ReplaceShort(rest, pat, put); }
  }

  /** Without a clash one more round of the loop is one more digit of the single pass. */
  lemma {:induction false} NextRoundIsOnePass(s: string, args: seq<string>, k: nat)
    requires k < |args| && NoDollarIn(args) && !Clash(s, args, k)
    ensures Replace(OnePass(s, args, k), Positional(k + 1), args[k]) == OnePass(s, args, k + 1)
    decreases s, 1
  {
    var pat, put := Positional(k + 1), args[k];
    if s == "" {
    } else if ALL <= s {
      JoinedHasNoDollar(args);
      NextRoundBehind(s, args, k, |ALL|);
      ReplaceSkips(Joined(args), OnePass(s[|ALL|..], args, k), pat, put);
    } else if StartsReference(s, k) {
      var a := args[s[1] as int - '0' as int - 1];
      NextRoundBehind(s, args, k, 2);
      ReplaceSkips(a, OnePass(s[2..], args, k), pat, put);
    } else if s[0] != '$' {
      NextRoundBehind(s, args, k, 1);
      ReplaceSkips([s[0]], OnePass(s[1..], args, k), pat, put);
    } else if StartsReference(s, k + 1) {
      NextRoundBehind(s, args, k, 2);
      DigitFollows(s, args, k);
      DollarTurns(s, args, k, OnePass(s[2..], args, k));
    } else {
      NextRoundBehind(s, args, k, 1);
      assert s[0..] == s && !ClashAt(s, args, k, 0);
      DollarStays(OnePass(s[1..], args, k), k);
      ReplaceLater('$', OnePass(s[1..], args, k), pat, put);
    }
  }

  lemma {:induction false} NextRoundBehind(s: string, args: seq<string>, k: nat, n: nat)
    requires k < |args| && NoDollarIn(args) && 0 < n <= |s| && !Clash(s, args, k)
    ensures Replace(OnePass(s[n..], args, k), Positional(k + 1), args[k]) == OnePass(s[n..], args, k + 1)
    decreases s, 0
  {
    if Clash(s[n..], args, k) { ClashFurther(s, args, k, n); }
    NextRoundIsOnePass(s[n..], args, k);
  }

  /** A digit stays a digit in the pass. */
  lemma {:induction false} DigitFollows(s: string, args: seq<string>, k: nat)
    requires k <= |args| && |s| > 1 && s[1] != '$'
    ensures OnePass(s[1..], args, k) == [s[1]] + OnePass(s[2..], args, k)
  {
    var t := s[1..];
    assert t[1..] == s[2..] && t[0] == s[1];
    assert t[0] != ALL[0];
  }

  lemma {:induction false} DollarTurns(s: string, args: seq<string>, k: nat, later: string)
    requires k < |args| && StartsReference(s, k + 1) && !StartsReference(s, k) && !(ALL <= s)
    requires OnePass(s[1..], args, k) == [s[1]] + later
    requires Replace(later, Positional(k + 1), args[k]) == OnePass(s[2..], args, k + 1)
    ensures Replace(OnePass(s, args, k), Positional(k + 1), args[k]) == OnePass(s, args, k + 1)
  {
    var pat := Positional(k + 1);
    assert pat == ['$', s[1]];
    assert OnePass(s, args, k) == ['$'] + ([s[1]] + later) == pat + later;
    ReplaceHere(later, pat, args[k]);
  }

  lemma {:induction false} DollarStays(out: string, k: nat)
    ensures Positional(k + 1) <= ['$'] + out <==> Decimal(k + 1) <= out
  {
    var pat, all := Positional(k + 1), ['$'] + out;
    if pat <= all {
      assert pat == all[..|pat|];
      assert Decimal(k + 1) == pat[1..] == all[1..|pat|] == out[..|pat| - 1];
    }
  }

  /** Without any clash the rounds come to the single pass. */
  lemma {:induction false} RoundsWithoutClash(body: string, args: seq<string>, n: nat)
    requires n <= |args| && NoDollarIn(args) && !Clashes(body, args, n)
    ensures Rounds(body, args, n) == OnePass(body, args, n)
  {
    if n == 0 {
      FirstRoundIsOnePass(body, args);
    } else {
      assert !Clash(body, args, n - 1);
      assert !Clashes(body, args, n - 1);
      RoundsWithoutClash(body, args, n - 1);
      NextRoundIsOnePass(body, args, n - 1);
    }
  }

  // ---- A clash shows: counting dollars --------------------------------------------------------

  function Dollars(s: string): nat
  {
    if s == "" then 0 else (if s[0] == '$' then 1 else 0) + Dollars(s[1..])
  }

  /** How many times `Replace` replaces. */
  function Count(s: string, pat: string): nat
    requires pat != ""
  {
    if |s| < |pat| then 0
    else if pat <= s then 1 + Count(s[|pat|..], pat)
    else Count(s[1..], pat)
  }

  /** A pattern whose one dollar comes first. */
  ghost predicate Reference(pat: string) { pat != "" && pat[0] == '$' && '$' !in pat[1..] }

  lemma {:induction false} DollarsSum(a: string, b: string)
    ensures Dollars(a + b) == Dollars(a) + Dollars(b)
    ensures '$' !in a ==> Dollars(a) == 0
  {
    if a == "" {
      assert a + b == b;
    } else {
      assert (a + b)[1..] == a[1..] + b;
      DollarsSum(a[1..], b);
    }
  }

  lemma {:induction false} DollarsReplaced(s: string, pat: string, put: string)
    requires Reference(pat) && '$' !in put
    ensures Dollars(Replace(s, pat, put)) + Count(s, pat) == Dollars(s)
  {
    if |s| < |pat| {
    } else if pat <= s {
      var rest := s[|pat|..];
      DollarsReplaced(rest, pat, put);
      DollarsSum(put, Replace(rest, pat, put));
      assert s == pat + rest;
      DollarsSum(pat, rest);
      DollarsSum(pat[1..], "");
    } else {
      DollarsReplaced(s[1..], pat, put);
      DollarsSum([s[0]], Replace(s[1..], pat, put));
      assert [s[0]][1..] == "";
    }
  }

  lemma {:induction false} CountSkips(plain: string, rest: string, pat: string)
    requires Reference(pat) && '$' !in plain
    ensures Count(plain + rest, pat) == Count(rest, pat)
  {
    if plain == "" {
      assert plain + rest == rest;
    } else {
      assert (plain + rest)[1..] == plain[1..] + rest;
      assert (plain + rest)[0] != '$';
      CountSkips(plain[1..], rest, pat);
    }
  }

  lemma {:induction false} CountHere(rest: string, pat: string)
    requires Reference(pat)
    ensures Count(pat + rest, pat) == 1 + Count(rest, pat)
  {
    assert (pat + rest)[|pat|..] == rest;
  }

  /** One more character in front takes away no occurrence, and adds one where it completes the pattern. */
  lemma {:induction false} CountFront(c: char, rest: string, pat: string)
    requires Reference(pat)
    ensures Count([c] + rest, pat) == Count(rest, pat) + if pat <= [c] + rest then 1 else 0
  {
    var all := [c] + rest;
    assert all[1..] == rest;
    if pat <= all {
      var behind := all[|pat|..];
      assert rest == pat[1..] + behind;
      CountSkips(pat[1..], behind, pat);
    }
  }

  /** The dollar in front of a pattern that is not there. */
  lemma {:induction false} CountOther(s: string, n: nat, pat: string)
    requires Reference(pat) && 0 < n <= |s| && !(pat <= s) && '$' !in s[1..n]
    ensures Count(s, pat) == Count(s[n..], pat)
  {
    assert [s[0]] + s[1..] == s;
    CountFront(s[0], s[1..], pat);
    assert s[1..] == s[1..n] + s[n..];
    CountSkips(s[1..n], s[n..], pat);
  }

  /** Replacing one reference leaves the others where they are. */
  lemma {:induction false} CountKept(s: string, p: string, put: string, q: string)
    requires Reference(p) && Reference(q) && !(p <= q) && !(q <= p) && '$' !in put
    ensures Count(Replace(s, p, put), q) >= Count(s, q)
    decreases |s|
  {
    if |s| < |p| {
    } else if p <= s {
      var rest := s[|p|..];
      assert s[1..|p|] == p[1..];
      if q <= s { PrefixesCompare(p, q, s); }
      CountOther(s, |p|, q);
      CountKept(rest, p, put, q);
      CountSkips(put, Replace(rest, p, put), q);
    } else if q <= s {
      CountKept(s[|q|..], p, put, q);
      KeptHere(s, p, put, q);
    } else {
      CountKept(s[1..], p, put, q);
      CountFront(s[0], Replace(s[1..], p, put), q);
    }
  }

  lemma {:induction false} KeptHere(s: string, p: string, put: string, q: string)
    requires Reference(p) && Reference(q) && q <= s && !(p <= s) && |p| <= |s|
    ensures Count(Replace(s, p, put), q) == 1 + Count(Replace(s[|q|..], p, put), q)
  {
    var rest := s[|q|..];
    assert s[1..] == q[1..] + rest;
    ReplaceSkips(q[1..], rest, p, put);
    HeadAndTail(q, Replace(rest, p, put));
    CountHere(Replace(rest, p, put), q);
  }

  lemma {:induction false} HeadAndTail(q: string, rest: string)
    requires q != ""
    ensures [q[0]] + (q[1..] + rest) == q + rest
  {
  }

  lemma {:induction false} PrefixesCompare(p: string, q: string, s: string)
    requires p <= s && q <= s
    ensures p <= q || q <= p
  {
    if |p| <= |q| {
      assert p == s[..|p|] == q[..|p|];
    } else {
      assert q == s[..|q|] == p[..|q|];
    }
  }

  /** What the text holds of the reference `$m`, as the single pass reads it. */
  function References(s: string, m: nat): nat { if 1 <= m <= 9 then Count(s, Positional(m)) else 0 }

  lemma {:induction false} PositionalIsReference(m: nat)
    ensures Reference(Positional(m))
    ensures m <= 9 ==> Positional(m) == ['$', Digit(m)]
    ensures Positional(m)[1] == Decimal(m)[0] && '0' <= Positional(m)[1] <= '9'
  {
    DecimalHasNoDollar(m);
    assert Positional(m)[1..] == Decimal(m);
  }

  /** A text that starts with `$` and a digit is no `$ARGUMENTS`, and the digit is a reference. */
  lemma {:induction false} PositionalStarts(s: string, m: nat)
    requires 1 <= m && Positional(m) <= s
    ensures !(ALL <= s) && (m <= 9 ==> StartsReference(s, m) && !StartsReference(s, m - 1))
  {
    PositionalIsReference(m);
    assert s[1] == Positional(m)[1] && ALL[1] == 'A';
  }

  lemma {:induction false} DecimalHasNoDollar(m: nat)
    ensures forall c :: c in Decimal(m) ==> '0' <= c <= '9'
  {
    if m >= 10 { DecimalHasNoDollar(m / 10); }
  }

  lemma {:induction false} NoReferenceHere(s: string, n: nat, k: nat)
    requires 0 < n <= |s| && '$' !in s[1..n] && (k + 1 <= 9 ==> !(Positional(k + 1) <= s))
    ensures References(s, k + 1) == References(s[n..], k + 1)
  {
    PositionalIsReference(k + 1);
    if k + 1 <= 9 { CountOther(s, n, Positional(k + 1)); }
  }

  /** One digit more in the pass takes away exactly its references. */
  lemma {:induction false} DollarsOfPass(s: string, args: seq<string>, k: nat)
    requires k < |args| && NoDollarIn(args)
    ensures Dollars(OnePass(s, args, k + 1)) + References(s, k + 1) == Dollars(OnePass(s, args, k))
    decreases |s|
  {
    var pat := Positional(k + 1);
    PositionalIsReference(k + 1);
    if pat <= s { PositionalStarts(s, k + 1); }
    if s == "" {
    } else if ALL <= s {
      JoinedHasNoDollar(args);
      DollarsBehind(s, args, k, |ALL|, Joined(args));
    } else if StartsReference(s, k) {
      var a := args[s[1] as int - '0' as int - 1];
      DollarsBehind(s, args, k, 2, a);
    } else if StartsReference(s, k + 1) {
      DollarsOfPass(s[2..], args, k);
      DollarsOfReference(s, args, k);
    } else {
      DollarsBehind(s, args, k, 1, [s[0]]);
    }
  }

  lemma {:induction false} DollarsOfReference(s: string, args: seq<string>, k: nat)
    requires k < |args| && NoDollarIn(args)
    requires StartsReference(s, k + 1) && !StartsReference(s, k) && !(ALL <= s)
    requires Dollars(OnePass(s[2..], args, k + 1)) + References(s[2..], k + 1) == Dollars(OnePass(s[2..], args, k))
    ensures Dollars(OnePass(s, args, k + 1)) + References(s, k + 1) == Dollars(OnePass(s, args, k))
  {
    var pat, rest := Positional(k + 1), OnePass(s[2..], args, k);
    PositionalIsReference(k + 1);
    DigitFollows(s, args, k);
    ReferenceSplits(s, pat, rest);
    assert OnePass(s, args, k) == pat + rest;
    CountHere(s[2..], pat);
    DollarsSum(args[k], OnePass(s[2..], args, k + 1));
    DollarsSum(pat, rest);
    OneDollar(pat);
  }

  lemma {:induction false} ReferenceSplits(s: string, pat: string, rest: string)
    requires |s| >= 2 && pat == [s[0], s[1]]
    ensures s == pat + s[2..] && [s[0]] + ([s[1]] + rest) == pat + rest
  {
  }

  lemma {:induction false} OneDollar(pat: string)
    requires Reference(pat)
    ensures Dollars(pat) == 1
  {
    DollarsSum(pat[1..], "");
  }

  lemma {:induction false} DollarsBehind(s: string, args: seq<string>, k: nat, n: nat, put: string)
    requires k < |args| && NoDollarIn(args) && 0 < n <= |s| && '$' !in s[1..n]
    requires k + 1 <= 9 ==> !(Positional(k + 1) <= s)
    requires OnePass(s, args, k) == put + OnePass(s[n..], args, k)
    requires OnePass(s, args, k + 1) == put + OnePass(s[n..], args, k + 1)
    ensures Dollars(OnePass(s, args, k + 1)) + References(s, k + 1) == Dollars(OnePass(s, args, k))
    decreases |s|, 0
  {
    DollarsOfPass(s[n..], args, k);
    NoReferenceHere(s, n, k);
    DollarsSum(put, OnePass(s[n..], args, k));
    DollarsSum(put, OnePass(s[n..], args, k + 1));
  }

  /** The text before round `k + 1` holds the references of the body, and one more for a clash. */
  lemma {:induction false} PassHolds(s: string, args: seq<string>, k: nat)
    requires k < |args| && NoDollarIn(args)
    ensures Count(OnePass(s, args, k), Positional(k + 1)) >= References(s, k + 1) + if Clash(s, args, k) then 1 else 0
    decreases |s|
  {
    var pat := Positional(k + 1);
    PositionalIsReference(k + 1);
    if pat <= s { PositionalStarts(s, k + 1); }
    assert s != "" ==> s[0..] == s;
    if s == "" {
    } else if ALL <= s {
      JoinedHasNoDollar(args);
      HoldsBehind(s, args, k, |ALL|);
      CountSkips(Joined(args), OnePass(s[|ALL|..], args, k), pat);
    } else if StartsReference(s, k) {
      HoldsBehind(s, args, k, 2);
      CountSkips(args[s[1] as int - '0' as int - 1], OnePass(s[2..], args, k), pat);
    } else if StartsReference(s, k + 1) {
      HoldsReference(s, args, k);
    } else {
      HoldsCharacter(s, args, k);
    }
  }

  lemma {:induction false} HoldsReference(s: string, args: seq<string>, k: nat)
    requires k < |args| && NoDollarIn(args)
    requires StartsReference(s, k + 1) && !StartsReference(s, k) && !(ALL <= s)
    ensures Count(OnePass(s, args, k), Positional(k + 1)) >= References(s, k + 1) + if Clash(s, args, k) then 1 else 0
    decreases |s|, 0
  {
    var pat, rest := Positional(k + 1), OnePass(s[2..], args, k);
    PositionalIsReference(k + 1);
    DigitFollows(s, args, k);
    assert OnePass(s, args, k) == pat + rest && s == pat + s[2..];
    CountHere(rest, pat);
    CountHere(s[2..], pat);
    PassHolds(s[2..], args, k);
    assert s[0..] == s;
    if Clash(s, args, k) { ClashBehind(s, args, k, 2); }
  }

  lemma {:induction false} HoldsCharacter(s: string, args: seq<string>, k: nat)
    requires k < |args| && NoDollarIn(args) && s != ""
    requires !StartsReference(s, k + 1) && !StartsReference(s, k) && !(ALL <= s)
    ensures Count(OnePass(s, args, k), Positional(k + 1)) >= References(s, k + 1) + if Clash(s, args, k) then 1 else 0
    decreases |s|, 0
  {
    var rest := OnePass(s[1..], args, k);
    PositionalIsReference(k + 1);
    if Positional(k + 1) <= s { PositionalStarts(s, k + 1); }
    CountFront(s[0], rest, Positional(k + 1));
    NoReferenceHere(s, 1, k);
    PassHolds(s[1..], args, k);
    DollarStays(rest, k);
    assert s[0..] == s;
    if Clash(s, args, k) && !ClashAt(s, args, k, 0) { ClashBehind(s, args, k, 1); }
  }

  lemma {:induction false} HoldsBehind(s: string, args: seq<string>, k: nat, n: nat)
    requires k < |args| && NoDollarIn(args) && 0 < n <= |s| && '$' !in s[1..n]
    requires (k + 1 <= 9 ==> !(Positional(k + 1) <= s)) && !ClashAt(s, args, k, 0)
    ensures Count(OnePass(s[n..], args, k), Positional(k + 1)) >= References(s, k + 1) + if Clash(s, args, k) then 1 else 0
    decreases |s|, 0
  {
    PassHolds(s[n..], args, k);
    NoReferenceHere(s, n, k);
    if Clash(s, args, k) {
      assert forall i :: 0 < i < n ==> s[i] == s[1..n][i - 1];
      ClashBehind(s, args, k, n);
    }
  }

  /** No round takes away the references of the later ones. */
  lemma {:induction false} RoundsKeepReferences(body: string, args: seq<string>, j: nat, m: nat)
    requires j <= |args| && j < m <= 9 && NoDollarIn(args)
    ensures Count(Rounds(body, args, j), Positional(m)) >= Count(body, Positional(m))
  {
    PositionalIsReference(m);
    if j == 0 {
      JoinedHasNoDollar(args);
      assert Reference(ALL);
      CountKept(body, ALL, Joined(args), Positional(m));
    } else {
      PositionalIsReference(j);
      RoundsKeepReferences(body, args, j - 1, m);
      CountKept(Rounds(body, args, j - 1), Positional(j), args[j - 1], Positional(m));
    }
  }

  /** A dollar lost to a clash is never made up for. */
  lemma {:induction false} LossStays(body: string, args: seq<string>, k: nat, n: nat)
    requires k <= n <= |args| && NoDollarIn(args)
    requires Dollars(Rounds(body, args, k)) < Dollars(OnePass(body, args, k))
    ensures Dollars(Rounds(body, args, n)) < Dollars(OnePass(body, args, n))
  {
    if k < n {
      LossStays(body, args, k, n - 1);
      PositionalIsReference(n);
      DollarsReplaced(Rounds(body, args, n - 1), Positional(n), args[n - 1]);
      DollarsOfPass(body, args, n - 1);
      if n <= 9 { RoundsKeepReferences(body, args, n - 1, n); }
    }
  }

  /** The first clash loses a dollar. */
  lemma {:induction false} ClashLoses(body: string, args: seq<string>, k: nat)
    requires k < |args| && NoDollarIn(args) && !Clashes(body, args, k) && Clash(body, args, k)
    ensures Dollars(Rounds(body, args, k + 1)) < Dollars(OnePass(body, args, k + 1))
  {
    RoundsWithoutClash(body, args, k);
    PositionalIsReference(k + 1);
    DollarsReplaced(OnePass(body, args, k), Positional(k + 1), args[k]);
    PassHolds(body, args, k);
    DollarsOfPass(body, args, k);
  }

  lemma {:induction false} ClashesPart(body: string, args: seq<string>, n: nat)
    requires n <= |args| && NoDollarIn(args) && Clashes(body, args, n)
    ensures Dollars(Rounds(body, args, n)) < Dollars(OnePass(body, args, n))
  {
    if Clashes(body, args, n - 1) {
      ClashesPart(body, args, n - 1);
      LossStays(body, args, n - 1, n);
    } else {
      assert Clash(body, args, n - 1);
      ClashLoses(body, args, n - 1);
    }
  }

  /**
   * For arguments without a dollar, the rounds of replacement, each over the text the last one left,
   * come to a single simultaneous substitution exactly when no dollar that stays in the text comes to
   * stand before the number of a later argument.
   */
  lemma {:induction false} RoundsAreOnePassIff(body: string, args: seq<string>, n: nat)
    requires n <= |args| && NoDollarIn(args)
    ensures Rounds(body, args, n) == OnePass(body, args, n) <==> !Clashes(body, args, n)
  {
    if Clashes(body, args, n) {
      ClashesPart(body, args, n);
    } else {
      RoundsWithoutClash(body, args, n);
    }
  }

  /** A dollar right before a reference clashes with the argument whose number that reference brings in. */
  lemma {:induction false} DollarBeforeReference(args: seq<string>, j: nat, k: nat)
    requires 1 <= j <= 9 && j <= k < |args| && Decimal(k + 1) <= args[j - 1]
    ensures Clashes("$" + Positional(j), args, |args|)
  {
    var s, t := "$" + Positional(j), Positional(j);
    PositionalIsReference(j);
    assert s[1..] == t && s[0..] == s && s[1] == '$' && ALL[1] == 'A';
    assert t[2..] == "" && t[1] == Digit(j);
    assert !(ALL <= t) && args[j - 1] + "" == args[j - 1];
    assert OnePass(t, args, k) == args[j - 1];
    assert ClashAt(s, args, k, 0);
    assert Clash(s, args, k);
  }

  /** Behind a dollar that stays there is no digit the next round could take for its number. */
  lemma {:induction false} NoNumberBehind(body: string, args: seq<string>, k: nat, i: nat)
    requires k < |args| && !HasDoubleDollar(body) && i < |body| && body[i] == '$'
    requires !StartsReference(body[i..], k + 1)
    ensures !(Decimal(k + 1) <= OnePass(body[i + 1..], args, k))
  {
    var t, d := body[i..], Lead(k + 1);
    assert t[1..] == body[i + 1..];
    if i + 1 < |body| {
      assert t[1] == body[i + 1];
      DigitFollows(t, args, k);
      assert t[1] != Digit(d);
      assert OnePass(t[1..], args, k)[0] == t[1];
    }
  }

  /** A text without two dollars in a row has no clash, whatever the arguments. */
  lemma {:induction false} SingleDollarsNeverClash(body: string, args: seq<string>, n: nat)
    requires n <= |args| && !HasDoubleDollar(body)
    ensures !Clashes(body, args, n)
  {
    forall k: nat, i: nat | k < n ensures !ClashAt(body, args, k, i) {
      if i < |body| && body[i] == '$' && !StartsReference(body[i..], k + 1) {
        NoNumberBehind(body, args, k, i);
      }
    }
  }

  /** The first digit of a number, as an argument's position. */
  function Lead(k: nat): (d: nat)
    requires k >= 1
    ensures 1 <= d <= 9 && d <= k && Decimal(k)[0] == Digit(d) && (k <= 9 ==> d == k)
  {
    if k < 10 then k else Lead(k / 10)
  }

  /** The sequential and the simultaneous substitution agree on the texts people write. */
  lemma {:induction false} RoundsAreOnePass(body: string, args: seq<string>, n: nat)
    requires n <= |args| && NoDollarIn(args) && !HasDoubleDollar(body)
    ensures Rounds(body, args, n) == OnePass(body, args, n)
  {
    SingleDollarsNeverClash(body, args, n);
    RoundsAreOnePassIff(body, args, n);
  }

  // ---- A text as its author reads it -----------------------------------------------------------

  /** Text without a dollar, the reference to all arguments, or one to the argument at a position. */
  datatype Part = Plain(text: string) | AllArgs | Position(digit: nat)

  predicate PartFits(p: Part)
  {
    match p
    case Plain(text) => '$' !in text
    case AllArgs => true
    case Position(digit) => 1 <= digit <= 9
  }

  ghost predicate PartsFit(parts: seq<Part>) { forall k :: 0 <= k < |parts| ==> PartFits(parts[k]) }

  function ShowPart(p: Part): string
    requires PartFits(p)
  {
    match p
    case Plain(text) => text
    case AllArgs => "$ARGUMENTS"
    case Position(digit) => ['$', "0123456789"[digit]]
  }

  function ShowParts(parts: seq<Part>): string
    requires PartsFit(parts)
  {
    if parts == [] then "" else ShowPart(parts[0]) + ShowParts(parts[1..])
  }

  function FillPart(p: Part, args: seq<string>): string
    requires PartFits(p)
  {
    match p
    case Plain(text) => text
    case AllArgs => Joined(args)
    case Position(digit) => if digit <= |args| then args[digit - 1] else ShowPart(p)
  }

  function FillParts(parts: seq<Part>, args: seq<string>): string
    requires PartsFit(parts)
  {
    if parts == [] then "" else FillPart(parts[0], args) + FillParts(parts[1..], args)
  }

  /** All the arguments stand next to each other with a blank between them. */
  lemma {:induction false} JoinedWithBlanks(a: seq<string>, b: seq<string>)
    requires a != [] && b != []
    ensures Joined([]) == "" && (|a| == 1 ==> Joined(a) == a[0])
    ensures Joined(a + b) == Joined(a) + (" " + Joined(b))
  {
    JoinOfSum(a, b, ' ');
  }

  lemma {:induction false} PassOverOne(s: string, args: seq<string>, k: nat)
    requires k <= |args| && s != "" && s[0] != '$'
    ensures OnePass(s, args, k) == [s[0]] + OnePass(s[1..], args, k)
  {
    assert ALL[0] == '$';
  }

  lemma {:induction false} PassOverPlain(text: string, rest: string, args: seq<string>, k: nat)
    requires k <= |args| && '$' !in text
    ensures OnePass(text + rest, args, k) == text + OnePass(rest, args, k)
  {
    if text == "" {
      assert text + rest == rest;
    } else {
      assert (text + rest)[1..] == text[1..] + rest && (text + rest)[0] == text[0];
      PassOverOne(text + rest, args, k);
      PassOverPlain(text[1..], rest, args, k);
      Assoc([text[0]], text[1..], OnePass(rest, args, k));
      assert [text[0]] + text[1..] == text;
    }
  }

  lemma {:induction false} DigitChar(d: nat)
    requires d <= 9
    ensures "0123456789"[d] as int == '0' as int + d
  {
  }

  lemma {:induction false} PassOverPart(p: Part, rest: string, args: seq<string>)
    requires PartFits(p)
    ensures OnePass(ShowPart(p) + rest, args, |args|) == FillPart(p, args) + OnePass(rest, args, |args|)
  {
    var all := ShowPart(p) + rest;
    match p {
      case Plain(text) => PassOverPlain(text, rest, args, |args|);
      case AllArgs => assert ALL <= all && all[|ALL|..] == rest;
      case Position(digit) =>
        DigitChar(digit);
        assert all[2..] == rest && all[1] == "0123456789"[digit] && !(ALL <= all);
        if digit > |args| {
          assert all[1..] == [all[1]] + rest && '$' !in [all[1]];
          PassOverPlain([all[1]], rest, args, |args|);
        }
    }
  }

  lemma {:induction false} PassOverParts(parts: seq<Part>, args: seq<string>)
    requires PartsFit(parts)
    ensures OnePass(ShowParts(parts), args, |args|) == FillParts(parts, args)
    decreases |parts|
  {
    if parts != [] {
      PassOverPart(parts[0], ShowParts(parts[1..]), args);
      PassOverParts(parts[1..], args);
    }
  }

  lemma {:induction false} PartDollars(p: Part)
    requires PartFits(p)
    ensures !HasDoubleDollar(ShowPart(p)) && (ShowPart(p) != "" ==> ShowPart(p)[|ShowPart(p)| - 1] != '$')
  {
    if p.Position? { DigitChar(p.digit); }
  }

  lemma {:induction false} PartsDollars(parts: seq<Part>)
    requires PartsFit(parts)
    ensures !HasDoubleDollar(ShowParts(parts))
    decreases |parts|
  {
    if parts != [] {
      var first, rest := ShowPart(parts[0]), ShowParts(parts[1..]);
      var all := first + rest;
      PartDollars(parts[0]);
      PartsDollars(parts[1..]);
      forall k | 0 <= k < |all| - 1 && all[k] == '$' ensures all[k + 1] != '$' {
        if k >= |first| {
          assert rest[k - |first|] == '$' && rest[k - |first| + 1] == all[k + 1];
        }
      }
    }
  }

  /** A text of dollar-free pieces and references comes out with each reference filled in and nothing else changed. */
  lemma {:induction false} TextIsFilled(parts: seq<Part>, args: seq<string>)
    requires PartsFit(parts) && NoDollarIn(args)
    ensures Rounds(ShowParts(parts), args, |args|) == FillParts(parts, args)
  {
    PartsDollars(parts);
    RoundsAreOnePass(ShowParts(parts), args, |args|);
    PassOverParts(parts, args);
  }

  // ---- What a reference past `$9` gives -----------------------------------------------------------

  lemma {:induction false} PassIsPlain(s: string, args: seq<string>, k: nat)
    requires k <= |args| && '$' !in s
    ensures OnePass(s, args, k) == s
  {
    if s != "" {
      assert s[0] in s;
      PassIsPlain(s[1..], args, k);
    }
  }

  /** `$k` gives the argument of its first digit, followed by its other digits. */
  lemma {:induction false} PositionGives(args: seq<string>, k: nat)
    requires 1 <= k <= |args| && NoDollarIn(args)
    ensures Rounds(Positional(k), args, |args|) == args[Lead(k) - 1] + Decimal(k)[1..]
  {
    var s := Positional(k);
    PositionalIsReference(k);
    DecimalHasNoDollar(k);
    assert s[1..] == Decimal(k);
    RoundsAreOnePass(s, args, |args|);
    PassOfReference(s, args, Lead(k));
    assert s[2..] == Decimal(k)[1..];
    PassIsPlain(s[2..], args, |args|);
  }

  lemma {:induction false} PassOfReference(s: string, args: seq<string>, d: nat)
    requires |s| >= 2 && s[0] == '$' && 1 <= d <= 9 && s[1] == Digit(d) && d <= |args|
    ensures OnePass(s, args, |args|) == args[d - 1] + OnePass(s[2..], args, |args|)
  {
    assert ALL[1] == 'A';
  }

  /** So `$k` gives the argument it names exactly when `k` is a single digit, or by coincidence. */
  lemma {:induction false} PositionReachedIff(args: seq<string>, k: nat)
    requires 1 <= k <= |args| && NoDollarIn(args)
    ensures Rounds(Positional(k), args, |args|) == args[k - 1] <==>
      k <= 9 || args[k - 1] == args[Lead(k) - 1] + Decimal(k)[1..]
  {
    PositionGives(args, k);
    if k <= 9 { assert Decimal(k)[1..] == "" && args[k - 1] + "" == args[k - 1]; }
  }

  lemma {:induction false} NineInPass(s: string, args: seq<string>)
    requires |args| >= 9
    ensures OnePass(s, args, |args|) == OnePass(s, args, 9)
  {
    if s == "" {
    } else if ALL <= s {
      NineInPass(s[|ALL|..], args);
    } else if StartsReference(s, 9) {
      NineInPass(s[2..], args);
    } else {
      NineInPass(s[1..], args);
    }
  }

  /** Where nothing clashes, the rounds past the ninth change nothing. */
  lemma {:induction false} OnlyNineCount(body: string, args: seq<string>)
    requires |args| >= 9 && NoDollarIn(args) && !Clashes(body, args, |args|)
    ensures Rounds(body, args, |args|) == Rounds(body, args, 9)
  {
    RoundsWithoutClash(body, args, |args|);
    assert !Clashes(body, args, 9);
    RoundsWithoutClash(body, args, 9);
    NineInPass(body, args);
  }

  // ---- Arguments with a dollar ------------------------------------------------------------------

  lemma {:induction false} ReplaceWhole(pat: string, put: string)
    requires pat != ""
    ensures Replace(pat, pat, put) == put
  {
    assert pat + "" == pat && put + "" == put;
    ReplaceHere("", pat, put);
  }

  lemma {:induction false} ReplaceMisses(q: string, pat: string, put: string)
    requires Reference(pat) && Reference(q) && !(pat <= q)
    ensures Replace(q, pat, put) == q
  {
    assert q == [q[0]] + q[1..] && q[1..] + "" == q[1..];
    ReplaceSkips(q[1..], "", pat, put);
    if |q| < |pat| { ReplaceShort(q, pat, put); }
  }

  /**
   * The condition on the arguments is needed: one that is itself a reference to a later argument is
   * replaced again, and can reach even arguments past the ninth.
   */
  lemma {:induction false} ReferenceInArgument(args: seq<string>, j: nat, k: nat)
    requires 1 <= j <= 9 && j < k <= |args| && args[j - 1] == Positional(k) && '$' !in args[k - 1]
    requires forall i :: j < i < k ==> !(Positional(i) <= Positional(k))
    ensures Rounds(Positional(j), args, |args|) == args[k - 1]
    ensures OnePass(Positional(j), args, |args|) == Positional(k)
  {
    UpToRound(args, j, k, k);
    AfterRound(args, j, k, |args|);
    PositionalIsReference(j);
    assert Positional(j)[2..] == "" && Positional(k) + "" == Positional(k);
  }

  lemma {:induction false} UpToRound(args: seq<string>, j: nat, k: nat, n: nat)
    requires 1 <= j <= 9 && j < k <= |args| && args[j - 1] == Positional(k) && n <= k
    requires '$' !in args[k - 1] && forall i :: j < i < k ==> !(Positional(i) <= Positional(k))
    ensures Rounds(Positional(j), args, n) == if n < j then Positional(j) else if n < k then Positional(k) else args[k - 1]
  {
    PositionalIsReference(j);
    PositionalIsReference(k);
    if n == 0 {
      assert Reference(ALL);
      ReplaceMisses(Positional(j), ALL, Joined(args));
    } else {
      UpToRound(args, j, k, n - 1);
      PositionalIsReference(n);
      if n == j {
        ReplaceWhole(Positional(j), args[j - 1]);
      } else if n == k {
        ReplaceWhole(Positional(k), args[k - 1]);
      } else {
        ReplaceMisses(if n < j then Positional(j) else Positional(k), Positional(n), args[n - 1]);
      }
    }
  }

  lemma {:induction false} AfterRound(args: seq<string>, j: nat, k: nat, n: nat)
    requires 1 <= j < k <= n <= |args| && '$' !in args[k - 1]
    requires Rounds(Positional(j), args, k) == args[k - 1]
    ensures Rounds(Positional(j), args, n) == args[k - 1]
  {
    if k < n {
      AfterRound(args, j, k, n - 1);
      PositionalIsReference(n);
      ReplaceSkips(args[k - 1], "", Positional(n), args[n - 1]);
      assert args[k - 1] + "" == args[k - 1];
    }
  }
}
