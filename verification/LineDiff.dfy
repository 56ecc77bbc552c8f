/** The line diff behind the before/after panes (ui/src/components/DiffView.tsx). */
module LineDiff {
  import opened Text

  type Line = string

  datatype Op = Equal(text: Line) | Delete(text: Line) | Insert(text: Line)

  // ---- Longest common subsequences --------------------------------------------

  function Max(x: nat, y: nat): nat { if x > y then x else y }

  function Init<T>(s: seq<T>): seq<T>
    requires s != []
  {
    s[..|s| - 1]
  }

  function Last<T>(s: seq<T>): T
    requires s != []
  {
    s[|s| - 1]
  }

  /** The recurrence of the table, for the first `i` lines of `a` and the first `j` of `b`. */
  function Lcs(a: seq<Line>, b: seq<Line>, i: nat, j: nat): nat
    requires i <= |a| && j <= |b|
  {
    if i == 0 || j == 0 then 0
    else if a[i - 1] == b[j - 1] then Lcs(a, b, i - 1, j - 1) + 1
    else Max(Lcs(a, b, i - 1, j), Lcs(a, b, i, j - 1))
  }

  /** `at` lists increasing positions below `n` at which the elements of `c` stand in `s`. */
  ghost predicate Embeds(c: seq<Line>, s: seq<Line>, n: nat, at: seq<nat>)
  {
    && |at| == |c|
    && (forall k :: 0 <= k < |at| ==> at[k] < n <= |s| && s[at[k]] == c[k])
    && (forall k, l :: 0 <= k < l < |at| ==> at[k] < at[l])
  }

  ghost predicate Subsequence(c: seq<Line>, s: seq<Line>)
  {
    exists at :: Embeds(c, s, |s|, at)
  }

  lemma {:induction false} LcsMonotone(a: seq<Line>, b: seq<Line>, i: nat, j: nat)
    requires i <= |a| && j <= |b|
    ensures i > 0 ==> Lcs(a, b, i - 1, j) <= Lcs(a, b, i, j) <= Lcs(a, b, i - 1, j) + 1
    ensures j > 0 ==> Lcs(a, b, i, j - 1) <= Lcs(a, b, i, j) <= Lcs(a, b, i, j - 1) + 1
  {
    if i > 0 && j > 0 {
      LcsMonotone(a, b, i - 1, j - 1);
      LcsMonotone(a, b, i - 1, j);
      LcsMonotone(a, b, i, j - 1);
    }
  }

  /** No common subsequence is longer than `Lcs`. */
  lemma {:induction false} LcsBounds(c: seq<Line>, a: seq<Line>, b: seq<Line>, i: nat, j: nat,
                                     inA: seq<nat>, inB: seq<nat>)
    requires i <= |a| && j <= |b|
    requires Embeds(c, a, i, inA) && Embeds(c, b, j, inB)
    ensures |c| <= Lcs(a, b, i, j)
    decreases i + j
  {
    if c != [] {
      LcsMonotone(a, b, i, j);
      if Last(inA) < i - 1 {
        LcsBounds(c, a, b, i - 1, j, inA, inB);
      } else if Last(inB) < j - 1 {
        LcsBounds(c, a, b, i, j - 1, inA, inB);
      } else {
        LcsBounds(Init(c), a, b, i - 1, j - 1, Init(inA), Init(inB));
      }
    }
  }

  // ---- Edit scripts --------------------------------------------------------------

  function Before(ops: seq<Op>): seq<Line>
  {
    if ops == [] then []
    else Before(Init(ops)) + if Last(ops).Insert? then [] else [Last(ops).text]
  }

  function After(ops: seq<Op>): seq<Line>
  {
    if ops == [] then []
    else After(Init(ops)) + if Last(ops).Delete? then [] else [Last(ops).text]
  }

  /** The lines a script keeps. */
  function Kept(ops: seq<Op>): seq<Line>
  {
    if ops == [] then []
    else Kept(Init(ops)) + if Last(ops).Equal? then [Last(ops).text] else []
  }

  /** The number of deleted plus inserted lines. */
  function Cost(ops: seq<Op>): nat
  {
    if ops == [] then 0 else Cost(Init(ops)) + if Last(ops).Equal? then 0 else 1
  }

  ghost predicate Transforms(ops: seq<Op>, a: seq<Line>, b: seq<Line>)
  {
    Before(ops) == a && After(ops) == b
  }

  lemma {:induction false} Extend(ops: seq<Op>, op: Op)
    ensures Before(ops + [op]) == Before(ops) + if op.Insert? then [] else [op.text]
    ensures After(ops + [op]) == After(ops) + if op.Delete? then [] else [op.text]
    ensures Kept(ops + [op]) == Kept(ops) + if op.Equal? then [op.text] else []
  {
    assert Init(ops + [op]) == ops;
  }

  /** Every line is either kept on both sides or paid for once. */
  lemma {:induction false} CostCountsLines(ops: seq<Op>)
    ensures Cost(ops) + 2 * |Kept(ops)| == |Before(ops)| + |After(ops)|
  {
    if ops != [] { CostCountsLines(Init(ops)); }
  }

  lemma {:induction false} KeptIsCommon(ops: seq<Op>) returns (inA: seq<nat>, inB: seq<nat>)
    ensures Embeds(Kept(ops), Before(ops), |Before(ops)|, inA)
    ensures Embeds(Kept(ops), After(ops), |After(ops)|, inB)
  {
    inA, inB := [], [];
    if ops != [] {
      var pre := Init(ops);
      inA, inB := KeptIsCommon(pre);
      Extend(pre, Last(ops));
      assert ops == pre + [Last(ops)];
      if Last(ops).Equal? {
        inA, inB := inA + [|Before(pre)|], inB + [|After(pre)|];
      }
    }
  }

  // ---- The script the walk back from the corner produces ---------------------------

  /** The operation the walk emits when it stands at row `i` and column `j`. */
  function NextOp(a: seq<Line>, b: seq<Line>, i: nat, j: nat): Op
    requires i <= |a| && j <= |b| && i + j > 0
  {
    if i > 0 && j > 0 && a[i - 1] == b[j - 1] then Equal(a[i - 1])
    else if j > 0 && (i == 0 || Lcs(a, b, i, j - 1) >= Lcs(a, b, i - 1, j)) then Insert(b[j - 1])
    else Delete(a[i - 1])
  }

  function Script(a: seq<Line>, b: seq<Line>, i: nat, j: nat): (ops: seq<Op>)
    requires i <= |a| && j <= |b|
    decreases i + j
  {
    if i + j == 0 then []
    else
      var op := NextOp(a, b, i, j);
      Script(a, b, if op.Insert? then i else i - 1, if op.Delete? then j else j - 1) + [op]
  }

  function Diff(a: seq<Line>, b: seq<Line>): seq<Op> { Script(a, b, |a|, |b|) }

  /** One step of the walk: the last operation, and the corner the rest starts from. */
  lemma {:induction false} WalkStep(a: seq<Line>, b: seq<Line>, i: nat, j: nat)
    returns (op: Op, i': nat, j': nat)
    requires i <= |a| && j <= |b| && i + j > 0
    ensures op == NextOp(a, b, i, j)
    ensures i' == (if op.Insert? then i else i - 1) && j' == (if op.Delete? then j else j - 1)
    ensures Script(a, b, i, j) == Script(a, b, i', j') + [op]
    ensures op.Insert? || a[..i] == a[..i'] + [op.text]
    ensures op.Delete? || b[..j] == b[..j'] + [op.text]
    ensures Lcs(a, b, i, j) == Lcs(a, b, i', j') + if op.Equal? then 1 else 0
  {
    op := NextOp(a, b, i, j);
    i', j' := if op.Insert? then i else i - 1, if op.Delete? then j else j - 1;
  }

  lemma {:induction false} ScriptTransforms(a: seq<Line>, b: seq<Line>, i: nat, j: nat)
    requires i <= |a| && j <= |b|
    ensures Transforms(Script(a, b, i, j), a[..i], b[..j])
    ensures |Kept(Script(a, b, i, j))| == Lcs(a, b, i, j)
    decreases i + j
  {
    if i + j > 0 {
      var op, i', j' := WalkStep(a, b, i, j);
      ScriptTransforms(a, b, i', j');
      Extend(Script(a, b, i', j'), op);
    }
  }

  /** `Lcs` is the length of a longest common subsequence: one is that long, none is longer. */
  lemma {:induction false} LcsIsLongest(a: seq<Line>, b: seq<Line>)
    ensures Subsequence(Kept(Diff(a, b)), a) && Subsequence(Kept(Diff(a, b)), b)
    ensures |Kept(Diff(a, b))| == Lcs(a, b, |a|, |b|)
    ensures forall c :: Subsequence(c, a) && Subsequence(c, b) ==> |c| <= Lcs(a, b, |a|, |b|)
  {
    DiffTransforms(a, b);
    var inA, inB := KeptIsCommon(Diff(a, b));
    forall c | Subsequence(c, a) && Subsequence(c, b)
      ensures |c| <= Lcs(a, b, |a|, |b|)
    {
      var atA :| Embeds(c, a, |a|, atA);
      var atB :| Embeds(c, b, |b|, atB);
      LcsBounds(c, a, b, |a|, |b|, atA, atB);
    }
  }

  lemma {:induction false} DiffTransforms(a: seq<Line>, b: seq<Line>)
    ensures Transforms(Diff(a, b), a, b)
    ensures |Kept(Diff(a, b))| == Lcs(a, b, |a|, |b|)
  {
    ScriptTransforms(a, b, |a|, |b|);
    assert a[..|a|] == a && b[..|b|] == b;
  }

  /** The diff is minimal: no script between the two texts inserts and deletes fewer lines. */
  lemma {:induction false} DiffIsMinimal(a: seq<Line>, b: seq<Line>, other: seq<Op>)
    requires Transforms(other, a, b)
    ensures Cost(Diff(a, b)) <= Cost(other)
    ensures Cost(Diff(a, b)) == |a| + |b| - 2 * Lcs(a, b, |a|, |b|)
  {
    DiffTransforms(a, b);
    CostCountsLines(Diff(a, b));
    CostCountsLines(other);
    var inA, inB := KeptIsCommon(other);
    LcsBounds(Kept(other), a, b, |a|, |b|, inA, inB);
  }

  /** In every block of changes the deleted lines come before the inserted ones. */
  ghost predicate DeletionsFirst(ops: seq<Op>)
  {
    forall k :: 0 <= k < |ops| - 1 ==> !(ops[k].Insert? && ops[k + 1].Delete?)
  }

  /** The `>=` of the walk settles the order inside a block of changes. */
  lemma {:induction false} ScriptDeletesFirst(a: seq<Line>, b: seq<Line>, i: nat, j: nat)
    requires i <= |a| && j <= |b|
    ensures DeletionsFirst(Script(a, b, i, j))
    decreases i + j
  {
    if i + j > 0 {
      var op, i', j' := WalkStep(a, b, i, j);
      ScriptDeletesFirst(a, b, i', j');
      if op.Delete? {
        NoInsertBeforeDelete(a, b, i, j);
      }
    }
  }

  /** Deleting is chosen only when inserting would lose a match, so inserting cannot come next. */
  lemma {:induction false} NoInsertBeforeDelete(a: seq<Line>, b: seq<Line>, i: nat, j: nat)
    requires 0 < i <= |a| && j <= |b|
    requires Last(Script(a, b, i, j)).Delete?
    ensures i - 1 + j > 0 ==> !Last(Script(a, b, i - 1, j)).Insert?
  {
    if j > 0 {
      LcsMonotone(a, b, i, j - 1);
    }
  }

  // ---- Which of the minimal scripts it is ----------------------------------------------

  /** A kept line before an inserted one before a deleted one. */
  function Rank(op: Op): nat { if op.Equal? then 2 else if op.Insert? then 1 else 0 }

  /** Read from the end the scripts agree on `k` operations, and then `ops` has the higher rank. */
  ghost predicate Ahead(ops: seq<Op>, other: seq<Op>, k: nat)
  {
    && k < |ops| && k < |other|
    && ops[|ops| - k..] == other[|other| - k..]
    && Rank(ops[|ops| - 1 - k]) > Rank(other[|other| - 1 - k])
  }

  lemma {:induction false} KeptIsBounded(other: seq<Op>, a: seq<Line>, b: seq<Line>, i: nat, j: nat)
    requires i <= |a| && j <= |b| && Transforms(other, a[..i], b[..j])
    ensures |Kept(other)| <= Lcs(a, b, i, j)
  {
    var inA, inB := KeptIsCommon(other);
    LcsBounds(Kept(other), a, b, i, j, inA, inB);
  }

  lemma {:induction false} SomethingTransformed(ops: seq<Op>)
    ensures ops != [] <==> |Before(ops)| + |After(ops)| > 0
  {
  }

  /** What the rest of a script does once its last operation is taken off. */
  lemma {:induction false} DropLast(other: seq<Op>, a: seq<Line>, b: seq<Line>, i: nat, j: nat)
    requires i <= |a| && j <= |b| && other != [] && Transforms(other, a[..i], b[..j])
    ensures var op := Last(other);
      && (op.Insert? || (i > 0 && op.text == a[i - 1])) && (op.Delete? || (j > 0 && op.text == b[j - 1]))
      && Transforms(Init(other), a[..if op.Insert? then i else i - 1], b[..if op.Delete? then j else j - 1])
      && |Kept(other)| == |Kept(Init(other))| + if op.Equal? then 1 else 0
  {
    var op, pre := Last(other), Init(other);
    if !op.Insert? {
      assert (Before(pre) + [op.text])[|Before(pre)|] == a[..i][i - 1];
      assert Before(pre) == a[..i][..i - 1];
    }
    if !op.Delete? {
      assert (After(pre) + [op.text])[|After(pre)|] == b[..j][j - 1];
      assert After(pre) == b[..j][..j - 1];
    }
  }

  /** The walk never takes a lower rank than a minimal script could end with. */
  lemma {:induction false} LastIsHighest(other: seq<Op>, a: seq<Line>, b: seq<Line>, i: nat, j: nat)
    requires i <= |a| && j <= |b| && i + j > 0 && other != []
    requires Transforms(other, a[..i], b[..j]) && |Kept(other)| == Lcs(a, b, i, j)
    ensures Last(other) == NextOp(a, b, i, j) || Rank(NextOp(a, b, i, j)) > Rank(Last(other))
  {
    DropLast(other, a, b, i, j);
    if Last(other).Insert? { KeptIsBounded(Init(other), a, b, i, j - 1); }
  }

  /** A script for the first `i` and `j` lines that keeps as many as any. */
  ghost predicate Minimal(ops: seq<Op>, a: seq<Line>, b: seq<Line>, i: nat, j: nat)
  {
    i <= |a| && j <= |b| && Transforms(ops, a[..i], b[..j]) && |Kept(ops)| == Lcs(a, b, i, j)
  }

  /** At its last operation the script falls behind the walk, or the two agree and go on from the same corner. */
  lemma {:induction false} CompareLast(other: seq<Op>, a: seq<Line>, b: seq<Line>, i: nat, j: nat)
    returns (same: bool, i': nat, j': nat)
    requires Minimal(other, a, b, i, j) && i + j > 0 && other != []
    ensures i' + j' < i + j && i' <= |a| && j' <= |b|
    ensures same ==> Minimal(Init(other), a, b, i', j') && Script(a, b, i, j) == Script(a, b, i', j') + [Last(other)]
    ensures !same ==> Ahead(Script(a, b, i, j), other, 0)
  {
    var op;
    op, i', j' := WalkStep(a, b, i, j);
    DropLast(other, a, b, i, j);
    LastIsHighest(other, a, b, i, j);
    same := Last(other) == op;
    if !same { OtherLast(Script(a, b, i', j'), op, other); }
  }

  /** Every other minimal script falls behind at the first operation, from the end, that differs. */
  lemma {:induction false} WalkIsAhead(other: seq<Op>, a: seq<Line>, b: seq<Line>, i: nat, j: nat) returns (k: nat)
    requires Minimal(other, a, b, i, j)
    ensures other == Script(a, b, i, j) || Ahead(Script(a, b, i, j), other, k)
    decreases i + j
  {
    k := 0;
    SomethingTransformed(other);
    if i + j > 0 {
      var same, i', j' := CompareLast(other, a, b, i, j);
      if same {
        k := WalkIsAhead(Init(other), a, b, i', j');
        k := BehindLast(Script(a, b, i', j'), other, k);
      }
    }
  }

  lemma {:induction false} BehindLast(front: seq<Op>, other: seq<Op>, k: nat) returns (next: nat)
    requires other != [] && (Init(other) == front || Ahead(front, Init(other), k))
    ensures other == front + [Last(other)] || Ahead(front + [Last(other)], other, next)
  {
    next := SameLast(front, Init(other), k, Last(other));
    assert other == Init(other) + [Last(other)];
  }

  lemma {:induction false} OtherLast(front: seq<Op>, op: Op, other: seq<Op>)
    requires other != [] && Rank(op) > Rank(Last(other))
    ensures Ahead(front + [op], other, 0)
  {
    var ops := front + [op];
    assert ops[|ops| - 0..] == other[|other| - 0..];
  }

  lemma {:induction false} SameLast(ops: seq<Op>, other: seq<Op>, k: nat, op: Op) returns (next: nat)
    requires other == ops || Ahead(ops, other, k)
    ensures other + [op] == ops + [op] || Ahead(ops + [op], other + [op], next)
  {
    next := k + 1;
    if other != ops { AheadBehind(ops, other, k, op); }
  }

  lemma {:induction false} AheadBehind(ops: seq<Op>, other: seq<Op>, k: nat, op: Op)
    requires Ahead(ops, other, k)
    ensures Ahead(ops + [op], other + [op], k + 1)
  {
    var o, p := ops + [op], other + [op];
    assert o[|o| - (k + 1)..] == ops[|ops| - k..] + [op];
    assert p[|p| - (k + 1)..] == other[|other| - k..] + [op];
  }

  /**
   * Of all minimal scripts it is the one that, from the end, keeps a line where any of them does,
   * and otherwise inserts where any of them does.
   */
  lemma {:induction false} DiffIsAhead(a: seq<Line>, b: seq<Line>, other: seq<Op>) returns (k: nat)
    requires Transforms(other, a, b) && Cost(other) <= Cost(Diff(a, b))
    ensures other == Diff(a, b) || Ahead(Diff(a, b), other, k)
  {
    DiffIsMinimal(a, b, other);
    DiffTransforms(a, b);
    CostCountsLines(other);
    assert a[..|a|] == a && b[..|b|] == b;
    k := WalkIsAhead(other, a, b, |a|, |b|);
  }

  /** One step of the walk moves the last operation of the script to the front of the answer. */
  lemma {:induction false} TakeLast(a: seq<Line>, b: seq<Line>, i: nat, j: nat, ops: seq<Op>)
    returns (op: Op, i': nat, j': nat)
    requires i <= |a| && j <= |b| && i + j > 0
    ensures op == NextOp(a, b, i, j)
    ensures i' == (if op.Insert? then i else i - 1) && j' == (if op.Delete? then j else j - 1)
    ensures Script(a, b, i, j) + ops == Script(a, b, i', j') + ([op] + ops)
  {
    op, i', j' := WalkStep(a, b, i, j);
    var front := Script(a, b, i', j');
    assert (front + [op]) + ops == front + ([op] + ops);
  }

  /** The inner loop of the table: row `i` from the row above it. */
  method FillRow(a: seq<Line>, b: seq<Line>, dp: array2<nat>, i: nat)
    requires dp.Length0 == |a| + 1 && dp.Length1 == |b| + 1
    requires 1 <= i <= |a| && dp[i, 0] == 0
    requires forall x, y :: x == i - 1 && 0 <= y <= |b| ==> dp[x, y] == Lcs(a, b, x, y)
    modifies dp
    ensures forall y :: 0 <= y <= |b| ==> dp[i, y] == Lcs(a, b, i, y)
    ensures forall x, y :: 0 <= x <= |a| && 0 <= y <= |b| && x != i ==> dp[x, y] == old(dp[x, y])
  {
    for j := 1 to |b| + 1
      invariant forall y :: 0 <= y < j ==> dp[i, y] == Lcs(a, b, i, y)
      invariant forall x, y :: 0 <= x <= |a| && 0 <= y <= |b| && x != i ==> dp[x, y] == old(dp[x, y])
    {
      dp[i, j] := if a[i - 1] == b[j - 1] then dp[i - 1, j - 1] + 1 else Max(dp[i - 1, j], dp[i, j - 1]);
    }
  }

  /** The first half of `diffLines`: the table, row by row. */
  method FillTable(a: seq<Line>, b: seq<Line>) returns (dp: array2<nat>)
    ensures dp.Length0 == |a| + 1 && dp.Length1 == |b| + 1
    ensures forall i, j :: 0 <= i <= |a| && 0 <= j <= |b| ==> dp[i, j] == Lcs(a, b, i, j)
  {
    dp := new nat[|a| + 1, |b| + 1]((_, _) => 0);
    for i := 1 to |a| + 1
      invariant forall x, y :: 0 <= x < i && 0 <= y <= |b| ==> dp[x, y] == Lcs(a, b, x, y)
      invariant forall x, y :: i <= x <= |a| && 0 <= y <= |b| ==> dp[x, y] == 0
    {
      FillRow(a, b, dp, i);
    }
  }

  /** `diffLines`: fill the table, then walk back from its corner. */
  method DiffLines(oldText: string, newText: string) returns (ops: seq<Op>)
    ensures ops == Diff(SplitLines(oldText), SplitLines(newText))
  {
    var a, b := SplitLines(oldText), SplitLines(newText);
    var dp := FillTable(a, b);
    ops := [];
    var i, j := |a|, |b|;
    while i > 0 || j > 0
      invariant 0 <= i <= |a| && 0 <= j <= |b|
      invariant Diff(a, b) == Script(a, b, i, j) + ops
      modifies {}
      decreases i + j
    {
      ghost var op, i', j' := TakeLast(a, b, i, j, ops);
      if i > 0 && j > 0 && a[i - 1] == b[j - 1] {
        ops := [Equal(a[i - 1])] + ops;
        i, j := i - 1, j - 1;
      } else if j > 0 && (i == 0 || dp[i, j - 1] >= dp[i - 1, j]) {
        ops := [Insert(b[j - 1])] + ops;
        j := j - 1;
      } else {
        ops := [Delete(a[i - 1])] + ops;
        i := i - 1;
      }
    }
  }

  // ---- The two panes ------------------------------------------------------------------------

  datatype PaneLine = PaneLine(text: Line, highlighted: bool)

  function Texts(pane: seq<PaneLine>): seq<Line>
  {
    seq(|pane|, k requires 0 <= k < |pane| => pane[k].text)
  }

  function Plain(pane: seq<PaneLine>): seq<Line>
  {
    if pane == [] then []
    else Plain(Init(pane)) + if Last(pane).highlighted then [] else [Last(pane).text]
  }

  lemma {:induction false} Push(pane: seq<PaneLine>, line: PaneLine)
    ensures Texts(pane + [line]) == Texts(pane) + [line.text]
    ensures Plain(pane + [line]) == Plain(pane) + if line.highlighted then [] else [line.text]
  {
    assert Init(pane + [line]) == pane;
  }

  /**
   * What the viewer shows: the left pane reads as the old text and the right pane as the
   * new one, the lines left unhighlighted are the same on both sides, and they are as many
   * as any common subsequence allows.
   */
  method BuildPanes(oldText: string, newText: string) returns (left: seq<PaneLine>, right: seq<PaneLine>)
    ensures JoinLines(Texts(left)) == oldText
    ensures JoinLines(Texts(right)) == newText
    ensures Plain(left) == Plain(right)
    ensures forall c :: Subsequence(c, SplitLines(oldText)) && Subsequence(c, SplitLines(newText)) ==>
      |c| <= |Plain(left)|
  {
    var ops := DiffLines(oldText, newText);
    left, right := [], [];
    for k := 0 to |ops|
      invariant Texts(left) == Before(ops[..k]) && Texts(right) == After(ops[..k])
      invariant Plain(left) == Plain(right) == Kept(ops[..k])
    {
      var op := ops[k];
      Extend(ops[..k], op);
      assert ops[..k + 1] == ops[..k] + [op];
      if op.Equal? {
        Push(left, PaneLine(op.text, false));
        Push(right, PaneLine(op.text, false));
        left, right := left + [PaneLine(op.text, false)], right + [PaneLine(op.text, false)];
      } else if op.Delete? {
        Push(left, PaneLine(op.text, true));
        left := left + [PaneLine(op.text, true)];
      } else {
        Push(right, PaneLine(op.text, true));
        right := right + [PaneLine(op.text, true)];
      }
    }
    assert ops[..|ops|] == ops;
    DiffTransforms(SplitLines(oldText), SplitLines(newText));
    LcsIsLongest(SplitLines(oldText), SplitLines(newText));
    JoinOfSplit(oldText, '\n');
    JoinOfSplit(newText, '\n');
  }
}
