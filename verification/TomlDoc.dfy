/** Whole TOML documents, printed line by line, and the reader executes them (e2e/src/api/toml.ts). */
module TomlDoc {
  import opened Prelude
  import opened Text
  import opened Toml
  import opened TomlPrint

  // ---- The lines a value is printed on ----------------------------------------------------

  const TAB := "    "

  function Prefix(lead: string, lines: seq<string>): (r: seq<string>)
    requires lines != []
    ensures r != []
  {
    [lead + lines[0]] + lines[1..]
  }

  /** The lines of a value and of `end` behind it; the first line carries no indentation. */
  function Lines(v: Node, indent: string, end: string): (lines: seq<string>)
    requires Printable(v)
    ensures lines != []
    decreases v, 0
  {
    if Tall(v) then
      var notes := v.layout.notes;
      ["[" + notes[0]] + notes[1..] + ItemLines(v.items, indent + TAB, notes) + [indent + "]" + end]
    else [Show(v) + end]
  }

  function ItemLines(items: seq<Node>, indent: string, notes: seq<string>): seq<string>
    requires notes != [] && forall k :: 0 <= k < |items| ==> Printable(items[k])
    decreases items
  {
    if items == [] then []
    else OneItem(items[0], indent, notes) + ItemLines(items[1..], indent, notes)
  }

  /** An item with its comma, what stands behind it on its line, and the lines up to the next item. */
  function OneItem(v: Node, indent: string, notes: seq<string>): seq<string>
    requires notes != [] && Printable(v)
    decreases v, 1
  {
    Prefix(indent, Lines(v, indent, "," + notes[0])) + notes[1..]
  }

  // ---- Cleaning a printed line ------------------------------------------------------------

  /** Of a remark nothing is left but whitespace. */
  lemma {:induction false} RemarkGoes(note: string)
    requires Remark(note)
    ensures Blank(Uncomment(note, Out))
  {
    if note != "" && note[0] != '#' {
      assert IsSpace(note[0]);
      RemarkGoes(note[1..]);
    }
  }

  lemma {:induction false} CleanText(text: string, note: string, st: Scan)
    requires Tight(text) && Remark(note)
    requires st.quote == Out && Solid(st, text) && After(st, text).quote == Out
    ensures Clean(text + note) == text
  {
    UncommentPastSolid(text, note, st);
    RemarkGoes(note);
    TrimBehind(text, Uncomment(note, Out));
  }

  lemma {:induction false} CleanLine(lead: string, text: string, note: string, st: Scan)
    requires Blank(lead) && Tight(text) && Remark(note)
    requires st.quote == Out && Solid(st, text) && After(st, text).quote == Out
    ensures Clean(lead + (text + note)) == text
  {
    var rest := Uncomment(note, Out);
    BlankIsLevel(lead, 0);
    UncommentPastSolid(lead, text + note, START);
    UncommentPastSolid(text, note, st);
    RemarkGoes(note);
    TrimFramed(lead, text, rest);
    Assoc(lead, text, rest);
  }

  lemma {:induction false} CleanNote(note: string)
    requires Remark(note)
    ensures Clean(note) == ""
  {
    RemarkGoes(note);
  }

  // ---- Gathering a tall array -------------------------------------------------------------

  /** The text gathered so far is inside `d` brackets. */
  predicate InBrackets(d: nat, acc: string) { d > 0 && After(START, acc) == Scan(Out, d) }

  lemma {:induction false} TakeLine(acc: string, line: string, tail: seq<string>, d: nat)
    requires InBrackets(d, acc)
    ensures Gather(acc, [line] + tail) == Gather(acc + "\n" + Clean(line), tail)
  {
    assert ([line] + tail)[1..] == tail;
  }

  /** A level text on a line of its own leaves the depth as it is. */
  lemma {:induction false} StillInside(d: nat, acc: string, text: string)
    requires InBrackets(d, acc) && Level(d, text)
    ensures InBrackets(d, acc + "\n" + text)
  {
    PlainIsLevel(d, "\n");
    ScanSum(START, acc, "\n");
    ScanSum(START, acc + "\n", text);
  }

  ghost predicate Notes(notes: seq<string>) { forall k :: 0 <= k < |notes| ==> Remark(notes[k]) }

  lemma {:induction false} TakeNote(acc: string, note: string, tail: seq<string>, d: nat)
    requires InBrackets(d, acc) && Remark(note)
    ensures Gather(acc, [note] + tail) == Gather(acc + "\n", tail)
    ensures InBrackets(d, acc + "\n")
  {
    CleanNote(note);
    TakeLine(acc, note, tail, d);
    BlankIsLevel("", d);
    StillInside(d, acc, "");
    assert acc + "\n" + "" == acc + "\n";
  }

  /** Lines with nothing but comments add line breaks. */
  lemma {:induction false} TakeNotes(acc: string, notes: seq<string>, tail: seq<string>, d: nat)
    requires InBrackets(d, acc) && Notes(notes)
    ensures Gather(acc, notes + tail) == Gather(acc + Newlines(|notes|), tail)
    ensures InBrackets(d, acc + Newlines(|notes|))
    decreases |notes|
  {
    if notes == [] {
      assert notes + tail == tail && acc + "" == acc;
    } else {
      var n := |notes| - 1;
      TakeNotes(acc, notes[..n], [notes[n]] + tail, d);
      LastNote(notes, tail);
      TakeNote(acc + Newlines(n), notes[n], tail, d);
      Assoc(acc, Newlines(n), "\n");
    }
  }

  lemma {:induction false} LastNote(notes: seq<string>, tail: seq<string>)
    requires notes != []
    ensures notes + tail == notes[..|notes| - 1] + ([notes[|notes| - 1]] + tail)
  {
  }

  lemma {:induction false} ShortItem(acc: string, v: Node, indent: string, note: string, tail: seq<string>, d: nat)
    requires Printable(v) && !Tall(v) && Blank(indent) && Remark(note) && InBrackets(d, acc)
    ensures Gather(acc, Prefix(indent, Lines(v, indent, "," + note)) + tail) == Gather(acc + "\n" + (Show(v) + ","), tail)
  {
    var text := Show(v) + ",";
    ShowIsTight(v);
    ShowIsLevel(v, d);
    PlainIsLevel(d, ",");
    LevelSum(d, Show(v), ",");
    CleanLine(indent, text, note, Scan(Out, d));
    Assoc(Show(v), ",", note);
    assert Prefix(indent, [text + note]) == [indent + (text + note)];
    TakeLine(acc, indent + (text + note), tail, d);
  }

  lemma {:induction false} OpenBracket(d: nat, acc: string)
    requires InBrackets(d, acc)
    ensures InBrackets(d + 1, acc + "\n" + "[")
  {
    PlainIsLevel(d, "\n");
    ScanSum(START, acc, "\n");
    ScanSum(START, acc + "\n", "[");
    OneCharacter(Scan(Out, d), '[');
  }

  lemma {:induction false} ClosingLine(indent: string, note: string)
    requires Blank(indent) && Remark(note)
    ensures Clean(indent + "]" + ("," + note)) == "],"
  {
    var st := Scan(Out, 2);
    OneCharacter(st, ']');
    OneCharacter(Next(st, ']'), ',');
    ScanSum(st, "]", ",");
    assert "]" + "," == "],";
    CleanLine(indent, "],", note, st);
    assert indent + "]" + ("," + note) == indent + ("]," + note);
  }

  lemma {:induction false} OpeningLine(indent: string, note: string)
    requires Blank(indent) && Remark(note)
    ensures Clean(indent + ("[" + note)) == "["
  {
    OneCharacter(Scan(Out, 1), '[');
    CleanLine(indent, "[", note, Scan(Out, 1));
  }

  /** The lines of a tall array behind its opening bracket, as the array's text. */
  lemma {:induction false} ListText(acc: string, v: Node)
    requires Printable(v) && Tall(v)
    ensures var gap := Newlines(|v.layout.notes| - 1);
      acc + "[" + gap + "\n" + Body(v.items, v.layout) + gap + "\n" + "]" == acc + Show(v)
  {
    var gap, body := Newlines(|v.layout.notes| - 1), Body(v.items, v.layout);
    var all := gap + "\n";
    assert acc + "[" + gap + "\n" + body + gap + "\n" + "]" == acc + "[" + all + body + all + "]";
    assert acc + "[" + all + body + all + "]" == acc + ("[" + (all + body + all) + "]");
  }

  /** What follows an opening bracket that is already taken in, up to and with the closing one. */
  lemma {:induction false} GatherList(acc: string, v: Node, indent: string, close: string, tail: seq<string>, d: nat)
    requires Printable(v) && Tall(v) && Blank(indent) && InBrackets(d, acc + "[")
    ensures var notes := v.layout.notes;
      Gather(acc + "[", notes[1..] + ItemLines(v.items, indent, notes) + ([close] + tail)) ==
      Gather(acc + "[" + Newlines(|notes| - 1) + "\n" + Body(v.items, v.layout) + Newlines(|notes| - 1) + "\n" + Clean(close), tail)
    decreases v, 0
  {
    var notes, items := v.layout.notes, v.items;
    var gap, lines := Newlines(|notes| - 1), ItemLines(items, indent, notes);
    assert notes[1..] + lines + ([close] + tail) == notes[1..] + (lines + ([close] + tail));
    TakeNotes(acc + "[", notes[1..], lines + ([close] + tail), d);
    GatherItems(acc + "[" + gap, items, v.layout, indent, [close] + tail, d);
    TakeLine(acc + "[" + gap + "\n" + Body(items, v.layout) + gap, close, tail, d);
  }

  /** The opening line of a tall item, its items, and its closing line. */
  lemma {:induction false} TallItem(acc: string, v: Node, indent: string, note: string, tail: seq<string>, d: nat)
    requires Printable(v) && Tall(v) && Blank(indent) && Remark(note) && InBrackets(d, acc)
    ensures Gather(acc, Prefix(indent, Lines(v, indent, "," + note)) + tail) == Gather(acc + "\n" + (Show(v) + ","), tail)
    decreases v, 1
  {
    var notes := v.layout.notes;
    var items, close := ItemLines(v.items, indent + TAB, notes), indent + "]" + ("," + note);
    var gap, body := Newlines(|notes| - 1), Body(v.items, v.layout);
    TallItemLines(v, indent, "," + note, tail);
    OpeningLine(indent, notes[0]);
    TakeLine(acc, indent + ("[" + notes[0]), notes[1..] + items + ([close] + tail), d);
    OpenBracket(d, acc);
    GatherList(acc + "\n", v, indent + TAB, close, tail, d + 1);
    ClosingLine(indent, note);
    ListText(acc + "\n", v);
    CloseItem(acc + "\n" + "[" + gap + "\n" + body + gap + "\n", acc + "\n", Show(v));
  }

  lemma {:induction false} CloseItem(open: string, acc: string, text: string)
    requires open + "]" == acc + text
    ensures open + "]," == acc + (text + ",")
  {
    assert open + "]," == open + "]" + ",";
  }

  lemma {:induction false} TallItemLines(v: Node, indent: string, end: string, tail: seq<string>)
    requires Printable(v) && Tall(v)
    ensures var notes := v.layout.notes;
      Prefix(indent, Lines(v, indent, end)) + tail ==
      [indent + ("[" + notes[0])] + (notes[1..] + ItemLines(v.items, indent + TAB, notes) + ([indent + "]" + end] + tail))
  {
    var notes := v.layout.notes;
    var rest := notes[1..] + ItemLines(v.items, indent + TAB, notes);
    var lines := Lines(v, indent, end);
    assert lines == ["[" + notes[0]] + (rest + [indent + "]" + end]);
    assert lines[1..] == rest + [indent + "]" + end];
    assert rest + [indent + "]" + end] + tail == rest + ([indent + "]" + end] + tail);
  }

  lemma {:induction false} GatherItem(acc: string, v: Node, indent: string, notes: seq<string>, tail: seq<string>, d: nat)
    requires Printable(v) && Blank(indent) && notes != [] && Notes(notes) && InBrackets(d, acc)
    ensures Gather(acc, OneItem(v, indent, notes) + tail) ==
            Gather(acc + "\n" + (Show(v) + ",") + Newlines(|notes| - 1), tail)
    ensures InBrackets(d, acc + "\n" + (Show(v) + ",") + Newlines(|notes| - 1))
    decreases v, 2
  {
    var lines := Prefix(indent, Lines(v, indent, "," + notes[0]));
    assert lines + notes[1..] + tail == lines + (notes[1..] + tail);
    if Tall(v) {
      TallItem(acc, v, indent, notes[0], notes[1..] + tail, d);
    } else {
      ShortItem(acc, v, indent, notes[0], notes[1..] + tail, d);
    }
    ShowIsLevel(v, d);
    PlainIsLevel(d, ",");
    LevelSum(d, Show(v), ",");
    StillInside(d, acc, Show(v) + ",");
    TakeNotes(acc + "\n" + (Show(v) + ","), notes[1..], tail, d);
  }

  /** Gathering takes in the lines of all items. */
  lemma {:induction false} GatherItems(acc: string, items: seq<Node>, l: Layout, indent: string, tail: seq<string>, d: nat)
    requires items != [] && Blank(indent) && InBrackets(d, acc) && l.Spread? && LayoutFits(l)
    requires forall k :: 0 <= k < |items| ==> Printable(items[k])
    ensures Gather(acc, ItemLines(items, indent, l.notes) + tail) ==
            Gather(acc + "\n" + Body(items, l) + Newlines(|l.notes| - 1), tail)
    ensures InBrackets(d, acc + "\n" + Body(items, l) + Newlines(|l.notes| - 1))
    decreases items
  {
    var v, others, gap := items[0], ItemLines(items[1..], indent, l.notes) + tail, Newlines(|l.notes| - 1);
    ItemLinesStep(items, indent, l.notes, tail);
    GatherItem(acc, v, indent, l.notes, others, d);
    if |items| > 1 {
      GatherItems(acc + "\n" + (Show(v) + ",") + gap, items[1..], l, indent, tail, d);
      MoreItems(acc, items, l);
    } else {
      assert [] + tail == tail;
    }
  }

  lemma {:induction false} ItemLinesStep(items: seq<Node>, indent: string, notes: seq<string>, tail: seq<string>)
    requires items != [] && notes != [] && forall k :: 0 <= k < |items| ==> Printable(items[k])
    ensures ItemLines(items, indent, notes) + tail ==
            OneItem(items[0], indent, notes) + (ItemLines(items[1..], indent, notes) + tail)
  {
  }

  lemma {:induction false} MoreItems(acc: string, items: seq<Node>, l: Layout)
    requires |items| > 1 && l.Spread? && l.notes != []
    ensures acc + "\n" + (Show(items[0]) + ",") + Newlines(|l.notes| - 1) + "\n" + Body(items[1..], l) ==
            acc + "\n" + Body(items, l)
  {
    BodyShape(items, l);
    NextLine(acc, Show(items[0]), Newlines(|l.notes| - 1), Body(items[1..], l));
  }

  lemma {:induction false} NextLine(acc: string, item: string, gap: string, rest: string)
    ensures acc + "\n" + (item + ",") + gap + "\n" + rest == acc + "\n" + (item + ("," + ((gap + "\n") + rest)))
  {
    assert (item + ",") + gap + "\n" + rest == item + ("," + ((gap + "\n") + rest));
    assert acc + "\n" + ((item + ",") + gap + "\n" + rest) == acc + "\n" + (item + ",") + gap + "\n" + rest;
  }

  // ---- Keys -------------------------------------------------------------------------------

  datatype Key = BareKey(name: string) | MarkedKey(name: string, mark: char)

  predicate BareChar(c: char)
  {
    'a' <= c <= 'z' || 'A' <= c <= 'Z' || '0' <= c <= '9' || c == '_' || c == '-'
  }

  /** The keys the reader understands: quoted ones must not hold a dot (see `QuotedKeySurvivesIff`). */
  predicate KeyFits(k: Key)
  {
    match k
    case BareKey(name) => name != "" && forall i :: 0 <= i < |name| ==> BareChar(name[i])
    case MarkedKey(name, mark) => (mark == '"' || mark == '\'') && mark !in name && '.' !in name && '\n' !in name
  }

  predicate PathFits(path: seq<Key>) { path != [] && forall k :: 0 <= k < |path| ==> KeyFits(path[k]) }

  function ShowKey(k: Key): string
  {
    match k
    case BareKey(name) => name
    case MarkedKey(name, mark) => [mark] + name + [mark]
  }

  /** `dots` stands on either side of each dot. */
  function ShowPath(path: seq<Key>, dots: string): string
    requires path != []
  {
    if |path| == 1 then ShowKey(path[0]) else ShowKey(path[0]) + dots + "." + (dots + ShowPath(path[1..], dots))
  }

  function Names(path: seq<Key>): seq<string>
  {
    seq(|path|, k requires 0 <= k < |path| => path[k].name)
  }

  lemma {:induction false} BareKeyShape(name: string, d: nat)
    requires KeyFits(BareKey(name))
    ensures Tight(name) && name[0] != '[' && '.' !in name && '\n' !in name && Unquote(name) == name && Level(d, name)
  {
    forall i | 0 <= i < |name| ensures !IsSpace(name[i]) && !IsQuote(name[i]) && name[i] !in "[]#,.\n" {
      assert BareChar(name[i]);
    }
    PlainIsLevel(d, name);
  }

  lemma {:induction false} MarkedKeyShape(name: string, mark: char, d: nat)
    requires KeyFits(MarkedKey(name, mark))
    ensures var text := [mark] + name + [mark];
      Tight(text) && text[0] != '[' && '.' !in text && '\n' !in text && Unquote(text) == name && Level(d, text)
  {
    StringIsLevel(d, mark, name);
    InsideFrame(mark, name, mark);
  }

  lemma {:induction false} KeyShape(k: Key, d: nat)
    requires KeyFits(k)
    ensures Tight(ShowKey(k)) && ShowKey(k)[0] != '[' && '.' !in ShowKey(k) && '\n' !in ShowKey(k)
    ensures Unquote(Trim(ShowKey(k))) == k.name
    ensures Level(d, ShowKey(k))
  {
    match k {
      case BareKey(name) => BareKeyShape(name, d);
      case MarkedKey(name, mark) => MarkedKeyShape(name, mark, d);
    }
    TrimTight(ShowKey(k));
  }

  lemma {:induction false} BlankHolds(text: string)
    requires Blank(text)
    ensures '.' !in text && '=' !in text && '[' !in text
  {
    forall k | 0 <= k < |text| ensures text[k] !in ".=[" { assert IsSpace(text[k]); }
  }

  lemma {:induction false} PathShape(path: seq<Key>, dots: string, d: nat)
    requires PathFits(path) && Gap(dots)
    ensures var text := ShowPath(path, dots); Tight(text) && text[0] != '[' && '\n' !in text
    ensures Level(d, ShowPath(path, dots))
    decreases |path|
  {
    var key := ShowKey(path[0]);
    KeyShape(path[0], d);
    if |path| > 1 {
      var rest := ShowPath(path[1..], dots);
      PathShape(path[1..], dots, d);
      BlankIsLevel(dots, d);
      PlainIsLevel(d, ".");
      LevelSum(d, key, dots);
      LevelSum(d, key + dots, ".");
      LevelSum(d, dots, rest);
      LevelSum(d, key + dots + ".", dots + rest);
    }
  }

  lemma {:induction false} SegmentsStep(piece: string, pieces: seq<string>)
    ensures Segments([piece] + pieces) == [Unquote(Trim(piece))] + Segments(pieces)
  {
  }

  lemma {:induction false} SplitPathStep(piece: string, rest: string)
    requires '.' !in piece
    ensures SplitPath(piece + "." + rest) == [Unquote(Trim(piece))] + SplitPath(rest)
    ensures SplitPath(piece) == [Unquote(Trim(piece))]
  {
    SplitPastPiece(piece, rest, '.');
    SegmentsStep(piece, SplitOn(rest, '.'));
  }

  lemma {:induction false} PadKey(lead: string, k: Key, end: string)
    requires KeyFits(k) && Blank(lead) && Blank(end)
    ensures '.' !in lead + ShowKey(k) + end
    ensures Unquote(Trim(lead + ShowKey(k) + end)) == k.name
  {
    KeyShape(k, 0);
    TrimTight(ShowKey(k));
    BlankHolds(lead);
    BlankHolds(end);
    TrimFramed(lead, ShowKey(k), end);
  }

  lemma {:induction false} NamesStep(path: seq<Key>)
    requires path != []
    ensures Names(path) == [path[0].name] + Names(path[1..])
  {
  }

  lemma {:induction false} SplitFirst(lead: string, k: Key, dots: string, rest: string)
    requires KeyFits(k) && Blank(lead) && Blank(dots)
    ensures SplitPath(lead + (ShowKey(k) + dots + "." + rest)) == [k.name] + SplitPath(rest)
  {
    PadKey(lead, k, dots);
    SplitPathStep(lead + ShowKey(k) + dots, rest);
    LedPath(lead, ShowKey(k), dots, rest);
  }

  lemma {:induction false} SplitLast(lead: string, k: Key)
    requires KeyFits(k) && Blank(lead)
    ensures SplitPath(lead + ShowKey(k)) == [k.name]
  {
    PadKey(lead, k, "");
    assert lead + ShowKey(k) + "" == lead + ShowKey(k);
    SplitPathStep(lead + ShowKey(k), "");
  }

  lemma {:induction false} SplitShown(lead: string, path: seq<Key>, dots: string)
    requires PathFits(path) && Blank(lead) && Blank(dots)
    ensures SplitPath(lead + ShowPath(path, dots)) == Names(path)
    decreases |path|
  {
    NamesStep(path);
    if |path| == 1 {
      SplitLast(lead, path[0]);
    } else {
      SplitFirst(lead, path[0], dots, dots + ShowPath(path[1..], dots));
      SplitShown(dots, path[1..], dots);
    }
  }

  lemma {:induction false} LedPath(lead: string, key: string, dots: string, rest: string)
    ensures lead + (key + dots + "." + rest) == lead + key + dots + "." + rest
  {
  }

  predicate NoEquals(path: seq<Key>) { forall k :: 0 <= k < |path| ==> '=' !in path[k].name }

  lemma {:induction false} NoEqualsShown(path: seq<Key>, dots: string)
    requires PathFits(path) && NoEquals(path) && Gap(dots)
    ensures '=' !in ShowPath(path, dots)
    decreases |path|
  {
    assert '=' !in path[0].name && KeyFits(path[0]);
    assert '=' !in ShowKey(path[0]);
    BlankHolds(dots);
    if |path| > 1 { NoEqualsShown(path[1..], dots); }
  }

  // ---- Statements -------------------------------------------------------------------------

  /** A line the reader passes over: blank, a comment, or neither a header nor an assignment. */
  predicate Skipped(line: string)
  {
    '\n' !in line && (Clean(line) == "" || ('=' !in Clean(line) && !(Framed(Clean(line), '[', ']') && Depth(Clean(line)) == 0)))
  }

  /** The space before a line and inside its brackets, around its dots, and around its equals sign. */
  datatype Space = Space(indent: string, dots: string, equals: string)

  const TIDY := Space("", "", " ")

  predicate SpaceFits(s: Space) { Gap(s.indent) && Gap(s.dots) && Gap(s.equals) }

  /** What a printed line or array says; `note` is the whole line, or what stands behind the rest. */
  datatype Stmt = Note(note: string) | Header(path: seq<Key>, space: Space, note: string)
    | Let(path: seq<Key>, value: Node, space: Space, note: string)

  /** Keys that are assigned to must not hold `=` (see `QuotedKeySurvivesIff`). */
  predicate StmtFits(s: Stmt)
  {
    if s.Note? then Skipped(s.note)
    else Remark(s.note) && SpaceFits(s.space) && PathFits(s.path) && (s.Let? ==> Printable(s.value) && NoEquals(s.path))
  }

  function PrintStmt(s: Stmt): seq<string>
    requires StmtFits(s)
  {
    match s
    case Note(note) => [note]
    case Header(path, sp, note) => [sp.indent + ("[" + (sp.indent + ShowPath(path, sp.dots) + sp.indent) + "]" + note)]
    case Let(path, value, sp, note) => Prefix(sp.indent + Left(path, sp), Lines(value, "", note))
  }

  /** The left side of an assignment, up to the value. */
  function Left(path: seq<Key>, sp: Space): string
    requires path != []
  {
    ShowPath(path, sp.dots) + sp.equals + "=" + sp.equals
  }

  function Print(stmts: seq<Stmt>): seq<string>
    requires forall k :: 0 <= k < |stmts| ==> StmtFits(stmts[k])
  {
    if stmts == [] then [] else PrintStmt(stmts[0]) + Print(stmts[1..])
  }

  function Run(s: Stmt, doc: Doc): Doc
    requires StmtFits(s)
  {
    match s
    case Note(_) => doc
    case Header(path, _, _) => Open(doc, Names(path))
    case Let(path, value, _, _) => Assign(doc, Names(path), ToValue(value))
  }

  function RunAll(stmts: seq<Stmt>, doc: Doc): Doc
    requires forall k :: 0 <= k < |stmts| ==> StmtFits(stmts[k])
    decreases |stmts|
  {
    if stmts == [] then doc else RunAll(stmts[1..], Run(stmts[0], doc))
  }

  lemma {:induction false} ReadFirst(line: string, tail: seq<string>, doc: Doc, doc': Doc, rest: seq<string>)
    requires ReadLine(Clean(line), tail, doc) == (doc', rest)
    ensures ReadLines([line] + tail, doc) == ReadLines(rest, doc')
  {
    assert ([line] + tail)[1..] == tail;
  }

  lemma {:induction false} NoEqualsFound(line: string)
    requires '=' !in line
    ensures Find(line, "=") == None
  {
    if line != "" {
      assert line[0] != '=';
      NoEqualsFound(line[1..]);
    }
  }

  lemma {:induction false} ReadNote(note: string, tail: seq<string>, doc: Doc)
    requires Skipped(note)
    ensures ReadLines([note] + tail, doc) == ReadLines(tail, doc)
  {
    if Clean(note) != "" { NoEqualsFound(Clean(note)); }
    ReadFirst(note, tail, doc, doc, tail);
  }

  lemma {:induction false} ReadHeader(path: seq<Key>, sp: Space, note: string, tail: seq<string>, doc: Doc)
    requires PathFits(path) && SpaceFits(sp) && Remark(note)
    ensures ReadLines([sp.indent + ("[" + (sp.indent + ShowPath(path, sp.dots) + sp.indent) + "]" + note)] + tail, doc) ==
            ReadLines(tail, Open(doc, Names(path)))
  {
    var shown := ShowPath(path, sp.dots);
    var inner := sp.indent + shown + sp.indent;
    var line := "[" + inner + "]";
    PathShape(path, sp.dots, 1);
    PathShape(path, sp.dots, 2);
    HeaderScans(sp.indent, shown);
    CleanLine(sp.indent, line, note, Scan(Out, 1));
    InsideFrame('[', inner, ']');
    TrimFramed(sp.indent, shown, sp.indent);
    SplitShown("", path, sp.dots);
    assert "" + shown == shown;
    ReadFirst(sp.indent + (line + note), tail, doc, Open(doc, Names(path)), tail);
  }

  lemma {:induction false} HeaderScans(indent: string, shown: string)
    requires Gap(indent) && Level(1, shown) && Level(2, shown)
    ensures Level(0, "[" + (indent + shown + indent) + "]") && Level(1, "[" + (indent + shown + indent) + "]")
  {
    forall d: nat | d == 1 || d == 2 ensures Level(d, indent + shown + indent) {
      BlankIsLevel(indent, d);
      LevelSum(d, indent, shown);
      LevelSum(d, indent + shown, indent);
    }
    LevelFrame(0, indent + shown + indent);
    LevelFrame(1, indent + shown + indent);
  }

  lemma {:induction false} EqualsFound(left: string, right: string)
    requires '=' !in left
    ensures Find(left + "=" + right, "=") == Some(|left|)
  {
    var line := left + "=" + right;
    if left == "" {
      assert line[0] == '=';
    } else {
      assert line[1..] == left[1..] + "=" + right;
      assert line[0] != '=';
      EqualsFound(left[1..], right);
    }
  }

  /** The two sides of the first `=`. */
  lemma {:induction false} Sides(key: string, value: string, pad: string)
    requires Tight(key) && Tight(value) && Blank(pad)
    ensures var line := key + pad + "=" + pad + value;
      line == (key + pad) + "=" + (pad + value) &&
      Trim(line[..|key + pad|]) == key && Trim(line[|key + pad| + 1..]) == value
  {
    var line := key + pad + "=" + pad + value;
    assert line == (key + pad) + "=" + (pad + value);
    assert line[..|key + pad|] == "" + key + pad;
    assert line[|key + pad| + 1..] == pad + value + "";
    TrimFramed("", key, pad);
    TrimFramed(pad, value, "");
  }

  lemma {:induction false} LetScans(key: string, pad: string, first: string)
    requires Blank(pad) && Level(1, key) && Solid(Scan(Out, 1), first) && After(Scan(Out, 1), first).quote == Out
    ensures Solid(Scan(Out, 1), key + pad + "=" + pad + first)
    ensures After(Scan(Out, 1), key + pad + "=" + pad + first).quote == Out
  {
    BlankIsLevel(pad, 1);
    PlainIsLevel(1, "=");
    LevelSum(1, key, pad);
    LevelSum(1, key + pad, "=");
    LevelSum(1, key + pad + "=", pad);
    ScanSum(Scan(Out, 1), key + pad + "=" + pad, first);
  }

  lemma {:induction false} CleanLet(path: seq<Key>, sp: Space, first: string, note: string)
    requires PathFits(path) && SpaceFits(sp) && Remark(note) && Tight(first)
    requires Solid(Scan(Out, 1), first) && After(Scan(Out, 1), first).quote == Out
    ensures Clean(sp.indent + Left(path, sp) + (first + note)) == Left(path, sp) + first
  {
    var key, left := ShowPath(path, sp.dots), Left(path, sp);
    PathShape(path, sp.dots, 1);
    LetScans(key, sp.equals, first);
    CleanLine(sp.indent, left + first, note, Scan(Out, 1));
    Assoc(sp.indent, left, first + note);
    Assoc(left, first, note);
  }

  /** An assignment line whose value starts with `first`. */
  lemma {:induction false} ReadLet(path: seq<Key>, sp: Space, first: string, tail: seq<string>, doc: Doc,
                                   text: string, rest: seq<string>)
    requires PathFits(path) && NoEquals(path) && SpaceFits(sp) && Tight(first)
    requires Gather(first, tail) == (text, rest)
    ensures ReadLine(Left(path, sp) + first, tail, doc) == (Assign(doc, Names(path), ParseValue(text)), rest)
  {
    var key := ShowPath(path, sp.dots);
    PathShape(path, sp.dots, 1);
    NoEqualsShown(path, sp.dots);
    BlankHolds(sp.equals);
    Sides(key, first, sp.equals);
    EqualsFound(key + sp.equals, sp.equals + first);
    SplitShown("", path, sp.dots);
    assert "" + key == key;
    ReadSides(Left(path, sp) + first, |key + sp.equals|, key, first, tail, doc);
  }

  lemma {:induction false} ReadSides(line: string, eq: nat, key: string, first: string, tail: seq<string>, doc: Doc)
    requires line != "" && line[0] != '[' && Find(line, "=") == Some(eq) && eq < |line|
    requires Trim(line[..eq]) == key && Trim(line[eq + 1..]) == first
    ensures ReadLine(line, tail, doc) ==
      (Assign(doc, SplitPath(key), ParseValue(Gather(first, tail).0)), Gather(first, tail).1)
  {
  }

  /** The first line of an assignment, once the rest of its value has been gathered. */
  lemma {:induction false} ReadAssignment(path: seq<Key>, sp: Space, v: Node, first: string, note: string,
                                          tail: seq<string>, rest: seq<string>, doc: Doc)
    requires PathFits(path) && NoEquals(path) && SpaceFits(sp) && Remark(note) && Printable(v) && Tight(first)
    requires Solid(Scan(Out, 1), first) && After(Scan(Out, 1), first).quote == Out
    requires Gather(first, tail) == (Show(v), rest)
    ensures ReadLines([sp.indent + Left(path, sp) + (first + note)] + tail, doc) ==
            ReadLines(rest, Assign(doc, Names(path), ToValue(v)))
  {
    ParseShow(v);
    CleanLet(path, sp, first, note);
    ReadLet(path, sp, first, tail, doc, Show(v), rest);
    ReadFirst(sp.indent + Left(path, sp) + (first + note), tail, doc, Assign(doc, Names(path), ToValue(v)), rest);
  }

  lemma {:induction false} ShortShape(key: string, text: string)
    ensures Prefix(key, [text]) == [key + text]
  {
  }

  lemma {:induction false} ReadShort(path: seq<Key>, v: Node, sp: Space, note: string, tail: seq<string>, doc: Doc)
    requires StmtFits(Let(path, v, sp, note)) && !Tall(v)
    ensures ReadLines(PrintStmt(Let(path, v, sp, note)) + tail, doc) ==
            ReadLines(tail, Assign(doc, Names(path), ToValue(v)))
  {
    ShowIsTight(v);
    ShowIsLevel(v, 1);
    GatherDone(v, tail);
    ReadAssignment(path, sp, v, Show(v), note, tail, tail, doc);
    ShortShape(sp.indent + Left(path, sp), Show(v) + note);
  }

  lemma {:induction false} TopBrackets()
    ensures InBrackets(1, "[") && Level(0, "") && Solid(Scan(Out, 1), "[") && Solid(Scan(Out, 1), "]")
    ensures After(Scan(Out, 1), "[").quote == After(Scan(Out, 1), "]").quote == Out
  {
    OneCharacter(START, '[');
    OneCharacter(Scan(Out, 1), '[');
    OneCharacter(Scan(Out, 1), ']');
  }

  lemma {:induction false} GatherDone(v: Node, tail: seq<string>)
    requires Printable(v)
    ensures Gather(Show(v), tail) == (Show(v), tail)
  {
    ShowIsLevel(v, 0);
  }

  /** The lines of a tall array behind its opening bracket. */
  lemma {:induction false} GatherTall(v: Node, note: string, tail: seq<string>)
    requires Printable(v) && Tall(v) && Remark(note)
    ensures var notes := v.layout.notes;
      Gather("[", notes[1..] + ItemLines(v.items, TAB, notes) + (["]" + note] + tail)) == (Show(v), tail)
  {
    TopBrackets();
    assert "" + "[" == "[";
    GatherList("", v, TAB, "]" + note, tail, 1);
    CleanText("]", note, Scan(Out, 1));
    ListText("", v);
    assert "" + Show(v) == Show(v);
    GatherDone(v, tail);
  }

  lemma {:induction false} TallShape(key: string, first: string, items: seq<string>, close: string, tail: seq<string>)
    ensures Prefix(key, [first] + items + [close]) + tail == [key + first] + (items + ([close] + tail))
  {
    assert ([first] + items + [close])[1..] == items + [close];
  }

  lemma {:induction false} ReadTall(path: seq<Key>, v: Node, sp: Space, note: string, tail: seq<string>, doc: Doc)
    requires StmtFits(Let(path, v, sp, note)) && Tall(v)
    ensures ReadLines(PrintStmt(Let(path, v, sp, note)) + tail, doc) ==
            ReadLines(tail, Assign(doc, Names(path), ToValue(v)))
  {
    var notes, close := v.layout.notes, "]" + note;
    var items := notes[1..] + ItemLines(v.items, TAB, notes);
    GatherTall(v, note, tail);
    TopBrackets();
    ReadAssignment(path, sp, v, "[", notes[0], items + ([close] + tail), tail, doc);
    TallLines(v, note);
    TallShape(sp.indent + Left(path, sp), "[" + notes[0], items, close, tail);
  }

  lemma {:induction false} TallLines(v: Node, note: string)
    requires Printable(v) && Tall(v)
    ensures var notes := v.layout.notes;
      Lines(v, "", note) == ["[" + notes[0]] + (notes[1..] + ItemLines(v.items, TAB, notes)) + ["]" + note]
  {
    assert "" + TAB == TAB && "" + "]" + note == "]" + note;
  }

  lemma {:induction false} ReadPrinted(stmts: seq<Stmt>, doc: Doc)
    requires forall k :: 0 <= k < |stmts| ==> StmtFits(stmts[k])
    ensures ReadLines(Print(stmts), doc) == RunAll(stmts, doc)
    decreases |stmts|
  {
    if stmts != [] {
      var s, tail := stmts[0], Print(stmts[1..]);
      match s {
        case Note(note) => ReadNote(note, tail, doc);
        case Header(path, sp, note) => ReadHeader(path, sp, note, tail, doc);
        case Let(path, v, sp, note) =>
          if Tall(v) { ReadTall(path, v, sp, note, tail, doc); } else { ReadShort(path, v, sp, note, tail, doc); }
      }
      ReadPrinted(stmts[1..], Run(s, doc));
    }
  }

  // ---- From lines to text -----------------------------------------------------------------

  predicate OneLine(lines: seq<string>) { forall k :: 0 <= k < |lines| ==> '\n' !in lines[k] }

  lemma {:induction false} ShownOnOneLine(v: Node)
    requires Printable(v) && !Tall(v)
    ensures '\n' !in Show(v)
    decreases v
  {
    match v
    case IntNode(n) => DecimalDigits(if n < 0 then -n else n);
    case ListNode(items, l) => if items != [] { BodyOnOneLine(items, l); }
    case _ =>
  }

  lemma {:induction false} BodyOnOneLine(items: seq<Node>, l: Layout)
    requires items != [] && l.Inline? && LayoutFits(l)
    requires forall k :: 0 <= k < |items| ==> Printable(items[k]) && !Tall(items[k])
    ensures '\n' !in Body(items, l)
    decreases items
  {
    ShownOnOneLine(items[0]);
    if |items| > 1 { BodyOnOneLine(items[1..], l); }
  }

  lemma {:induction false} LinesAreLines(v: Node, indent: string, end: string)
    requires Printable(v) && '\n' !in indent && '\n' !in end
    ensures OneLine(Lines(v, indent, end))
    decreases v, 0
  {
    if Tall(v) {
      ItemLinesAreLines(v.items, indent + TAB, v.layout.notes);
    } else {
      ShownOnOneLine(v);
    }
  }

  lemma {:induction false} ItemLinesAreLines(items: seq<Node>, indent: string, notes: seq<string>)
    requires '\n' !in indent && notes != [] && Notes(notes) && forall k :: 0 <= k < |items| ==> Printable(items[k])
    ensures OneLine(ItemLines(items, indent, notes))
    decreases items
  {
    if items != [] {
      OneItemIsLines(items[0], indent, notes);
      ItemLinesAreLines(items[1..], indent, notes);
    }
  }

  lemma {:induction false} OneItemIsLines(v: Node, indent: string, notes: seq<string>)
    requires '\n' !in indent && notes != [] && Notes(notes) && Printable(v)
    ensures OneLine(OneItem(v, indent, notes))
    decreases v, 1
  {
    assert Remark(notes[0]);
    LinesAreLines(v, indent, "," + notes[0]);
  }

  lemma {:induction false} PrefixIsLines(lead: string, lines: seq<string>)
    requires '\n' !in lead && lines != [] && OneLine(lines)
    ensures OneLine(Prefix(lead, lines))
  {
    forall k | 0 <= k < |lines| ensures '\n' !in Prefix(lead, lines)[k] {
      assert '\n' !in lines[k];
    }
  }

  lemma {:induction false} HeaderIsOneLine(indent: string, shown: string, note: string)
    requires '\n' !in indent && '\n' !in shown && '\n' !in note
    ensures '\n' !in indent + ("[" + (indent + shown + indent) + "]" + note)
  {
  }

  lemma {:induction false} StmtPrintsLines(s: Stmt)
    requires StmtFits(s)
    ensures OneLine(PrintStmt(s)) && PrintStmt(s) != []
  {
    if !s.Note? { PathShape(s.path, s.space.dots, 0); }
    if s.Header? { HeaderIsOneLine(s.space.indent, ShowPath(s.path, s.space.dots), s.note); }
    if s.Let? {
      LinesAreLines(s.value, "", s.note);
      PrefixIsLines(s.space.indent + Left(s.path, s.space), Lines(s.value, "", s.note));
    }
  }

  lemma {:induction false} PrintsLines(stmts: seq<Stmt>)
    requires forall k :: 0 <= k < |stmts| ==> StmtFits(stmts[k])
    ensures OneLine(Print(stmts)) && (stmts != [] ==> Print(stmts) != [])
  {
    if stmts != [] {
      StmtPrintsLines(stmts[0]);
      PrintsLines(stmts[1..]);
    }
  }

  /** Reading a printed document executes its statements, whatever its strings hold. */
  lemma {:induction false} ParsePrinted(stmts: seq<Stmt>)
    requires forall k :: 0 <= k < |stmts| ==> StmtFits(stmts[k])
    ensures Parse(JoinLines(Print(stmts))) == RunAll(stmts, EMPTY).root
  {
    PrintsLines(stmts);
    if stmts == [] {
      ReadNote("", [], EMPTY);
      assert [""] + [] == [""];
    } else {
      SplitOfJoin(Print(stmts), '\n');
      ReadPrinted(stmts, EMPTY);
    }
  }
}
