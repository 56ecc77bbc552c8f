/**
 * Printed TOML values, and the reader brings them back (e2e/src/api/toml.ts). An array is printed on
 * one line, or tall: one item per line with a trailing comma, and comments or blank lines behind each.
 */
module TomlPrint {
  import opened Prelude
  import opened Text
  import opened Toml

  /** The space inside a one-line array, or what stands behind each line of a tall one: the rest of the line, and further lines. */
  datatype Layout = Inline(gap: string) | Spread(notes: seq<string>)

  datatype Node = StrNode(text: string, mark: char) | IntNode(n: int) | BoolNode(b: bool) | WordNode(text: string)
    | ListNode(items: seq<Node>, layout: Layout)

  predicate Tall(v: Node) { v.ListNode? && v.layout.Spread? && v.items != [] }

  predicate Gap(text: string) { Blank(text) && '\n' !in text }

  /** Whitespace and an optional comment, on one line. */
  predicate Remark(note: string) { '\n' !in note && (Blank(note) || TrimStart(note)[0] == '#') }

  predicate LayoutFits(l: Layout)
  {
    match l
    case Inline(gap) => Gap(gap)
    case Spread(notes) => notes != [] && forall k :: 0 <= k < |notes| ==> Remark(notes[k])
  }

  /** A bare word: no quote, bracket, comma or comment in it, and neither a truth value nor an integer. */
  predicate Bare(text: string)
  {
    && Tight(text) && (forall k :: 0 <= k < |text| ==> text[k] !in "\"'[]#,\n")
    && text != "true" && text != "false" && !Digits(text) && !(text[0] == '-' && Digits(text[1..]))
  }

  /** Strings need no escape between their quotes, integers are exact, and a one-line array holds no tall one. */
  predicate Printable(v: Node)
  {
    match v
    case StrNode(s, mark) => (mark == '"' || mark == '\'') && mark !in s && '\n' !in s
    case IntNode(n) => -MAX_EXACT <= n <= MAX_EXACT
    case BoolNode(_) => true
    case WordNode(text) => Bare(text)
    case ListNode(items, layout) =>
      LayoutFits(layout) && forall k :: 0 <= k < |items| ==> Printable(items[k]) && (layout.Spread? || !Tall(items[k]))
  }

  function ToValue(v: Node): Value
  {
    match v
    case StrNode(s, _) => Str(s)
    case IntNode(n) => Num(n)
    case BoolNode(b) => Bool(b)
    case WordNode(text) => Word(text)
    case ListNode(items, _) => Arr(seq(|items|, k requires 0 <= k < |items| => ToValue(items[k])))
  }

  function ShowInt(n: int): string { if n < 0 then "-" + Decimal(-n) else Decimal(n) }

  function Newlines(n: nat): string { if n == 0 then "" else Newlines(n - 1) + "\n" }

  /** What stands between the items once the comments are gone. */
  function Between(l: Layout): string { if l.Inline? then l.gap else Newlines(|l.notes|) }

  function Show(v: Node): string
    decreases v
  {
    match v
    case StrNode(s, mark) => [mark] + s + [mark]
    case IntNode(n) => ShowInt(n)
    case BoolNode(b) => if b then "true" else "false"
    case WordNode(text) => text
    case ListNode(items, layout) =>
      if items == [] then "[" + (if layout.Inline? then layout.gap else "") + "]"
      else "[" + (Between(layout) + Body(items, layout) + Between(layout)) + "]"
  }

  function Body(items: seq<Node>, layout: Layout): string
    requires items != []
    decreases items
  {
    Show(items[0]) +
    (if |items| > 1 then ("," + Between(layout)) + Body(items[1..], layout)
     else if layout.Spread? then "," else "")
  }

  // ---- Text a scanner passes over ---------------------------------------------------------

  /** Scanning `text` from `st` meets no comment and no comma between top-level items. */
  predicate Solid(st: Scan, text: string)
    decreases |text|
  {
    text == "" ||
    (!(st.quote == Out && text[0] == '#') && !(st == START && text[0] == ',') &&
     Solid(Next(st, text[0]), text[1..]))
  }

  /** `text` is solid at bracket depth `d` and leaves the scanner where it found it. */
  predicate Level(d: nat, text: string)
  {
    Solid(Scan(Out, d), text) && After(Scan(Out, d), text) == Scan(Out, d)
  }

  lemma {:induction false} ScanSum(st: Scan, a: string, b: string)
    ensures After(st, a + b) == After(After(st, a), b)
    ensures Solid(st, a + b) <==> Solid(st, a) && Solid(After(st, a), b)
    decreases |a|
  {
    if a == "" {
      assert a + b == b;
    } else {
      assert (a + b)[1..] == a[1..] + b;
      ScanSum(Next(st, a[0]), a[1..], b);
    }
  }

  lemma {:induction false} LevelSum(d: nat, a: string, b: string)
    requires Level(d, a) && Level(d, b)
    ensures Level(d, a + b)
  {
    ScanSum(Scan(Out, d), a, b);
  }

  lemma {:induction false} OneCharacter(st: Scan, c: char)
    ensures After(st, [c]) == Next(st, c)
    ensures Solid(st, [c]) <==> !(st.quote == Out && c == '#') && !(st == START && c == ',')
  {
    assert [c][1..] == "";
  }

  lemma {:induction false} LevelFrame(d: nat, text: string)
    requires Level(d + 1, text)
    ensures Level(d, "[" + text + "]")
  {
    OneCharacter(Scan(Out, d), '[');
    ScanSum(Scan(Out, d), "[", text);
    ScanSum(Scan(Out, d), "[" + text, "]");
    OneCharacter(Scan(Out, d + 1), ']');
  }

  /** Characters that mean nothing to the scanners; a comma is one of them inside brackets. */
  predicate Plain(d: nat, text: string)
  {
    forall k :: 0 <= k < |text| ==>
      !IsQuote(text[k]) && text[k] !in "[]#" && (text[k] == ',' ==> d > 0)
  }

  lemma {:induction false} PlainIsLevel(d: nat, text: string)
    requires Plain(d, text)
    ensures Level(d, text)
  {
    if text != "" {
      assert text[0] !in "[]#";
      PlainIsLevel(d, text[1..]);
    }
  }

  lemma {:induction false} InsideString(d: nat, mark: char, s: string)
    requires mark !in s
    ensures Solid(Scan(In(mark), d), s) && After(Scan(In(mark), d), s) == Scan(In(mark), d)
  {
    if s != "" { InsideString(d, mark, s[1..]); }
  }

  /** Whatever a string holds, brackets, commas, `#` or `=`, its quotes keep it from the scanners. */
  lemma {:induction false} StringIsLevel(d: nat, mark: char, s: string)
    requires IsQuote(mark) && mark !in s
    ensures Level(d, [mark] + s + [mark])
  {
    var st := Scan(Out, d);
    OneCharacter(st, mark);
    OneCharacter(Scan(In(mark), d), mark);
    InsideString(d, mark, s);
    ScanSum(st, [mark], s);
    ScanSum(st, [mark] + s, [mark]);
  }

  lemma {:induction false} BlankIsPlain(text: string)
    requires Blank(text)
    ensures Plain(0, text) && Plain(1, text)
  {
    forall k | 0 <= k < |text| ensures !IsQuote(text[k]) && text[k] !in "[]#" && text[k] != ',' {
      assert IsSpace(text[k]);
    }
  }

  lemma {:induction false} BlankIsLevel(text: string, d: nat)
    requires Blank(text)
    ensures Level(d, text)
  {
    BlankIsPlain(text);
    PlainIsLevel(d, text);
  }

  lemma {:induction false} NewlinesAreBlank(n: nat)
    ensures Blank(Newlines(n))
  {
    if n > 0 { NewlinesAreBlank(n - 1); }
  }

  lemma {:induction false} BetweenIsBlank(l: Layout)
    requires LayoutFits(l)
    ensures Blank(Between(l))
  {
    if l.Spread? { NewlinesAreBlank(|l.notes|); }
  }

  lemma {:induction false} WordIsPlain(text: string, d: nat)
    requires Bare(text)
    ensures Plain(d, text)
  {
    forall k | 0 <= k < |text| ensures !IsQuote(text[k]) && text[k] !in "[]#" && text[k] != ',' {
      assert text[k] !in "\"'[]#,\n";
    }
  }

  lemma {:induction false} DecimalDigits(n: nat)
    ensures Digits(Decimal(n)) && ValueOf(Decimal(n)) == n
  {
    var s, last := Decimal(n), Digit(n % 10);
    if n >= 10 {
      DecimalDigits(n / 10);
      assert s[..|s| - 1] == Decimal(n / 10);
    } else {
      assert s[..|s| - 1] == "";
    }
    assert s[|s| - 1] == last;
  }

  lemma {:induction false} ShowIsLevel(v: Node, d: nat)
    requires Printable(v)
    ensures Level(d, Show(v))
    decreases v
  {
    match v
    case StrNode(s, mark) => StringIsLevel(d, mark, s);
    case IntNode(n) => IntIsLevel(n, d);
    case BoolNode(_) => PlainIsLevel(d, Show(v));
    case WordNode(text) =>
      WordIsPlain(text, d);
      PlainIsLevel(d, text);
    case ListNode(items, l) =>
      if items == [] {
        BlankIsLevel(if l.Inline? then l.gap else "", d + 1);
        LevelFrame(d, if l.Inline? then l.gap else "");
      } else {
        BetweenIsBlank(l);
        BodyIsLevel(items, l, d + 1);
        FramedIsLevel(Between(l), Body(items, l), d);
      }
  }

  lemma {:induction false} IntIsLevel(n: int, d: nat)
    ensures Level(d, ShowInt(n))
  {
    DecimalDigits(if n < 0 then -n else n);
    PlainIsLevel(d, ShowInt(n));
  }

  lemma {:induction false} FramedIsLevel(gap: string, body: string, d: nat)
    requires Blank(gap) && Level(d + 1, body)
    ensures Level(d, "[" + (gap + body + gap) + "]")
  {
    BlankIsLevel(gap, d + 1);
    LevelSum(d + 1, gap, body);
    LevelSum(d + 1, gap + body, gap);
    LevelFrame(d, gap + body + gap);
  }

  lemma {:induction false} BodyIsLevel(items: seq<Node>, l: Layout, d: nat)
    requires items != [] && d > 0 && LayoutFits(l) && forall k :: 0 <= k < |items| ==> Printable(items[k])
    ensures Level(d, Body(items, l))
    decreases items
  {
    ShowIsLevel(items[0], d);
    PlainIsLevel(d, ",");
    LevelSum(d, Show(items[0]), ",");
    if |items| > 1 {
      BetweenIsBlank(l);
      BlankIsLevel(Between(l), d);
      BodyIsLevel(items[1..], l, d);
      LevelSum(d, ",", Between(l));
      LevelSum(d, "," + Between(l), Body(items[1..], l));
      LevelSum(d, Show(items[0]), ("," + Between(l)) + Body(items[1..], l));
    } else {
      assert Show(items[0]) + "" == Show(items[0]);
    }
  }

  // ---- The three scanners on solid text ---------------------------------------------------

  lemma {:induction false} ItemsPastSolid(text: string, rest: string, st: Scan, part: string)
    requires Solid(st, text)
    ensures Items(text + rest, st, part) == Items(rest, After(st, text), part + text)
    decreases |text|
  {
    if text == "" {
      assert text + rest == rest && part + text == part;
    } else {
      assert (text + rest)[1..] == text[1..] + rest;
      assert part + text == part + [text[0]] + text[1..];
      ItemsPastSolid(text[1..], rest, Next(st, text[0]), part + [text[0]]);
    }
  }

  lemma {:induction false} UncommentPastSolid(text: string, rest: string, st: Scan)
    requires Solid(st, text)
    ensures Uncomment(text + rest, st.quote) == text + Uncomment(rest, After(st, text).quote)
    decreases |text|
  {
    if text == "" {
      assert text + rest == rest;
    } else {
      assert (text + rest)[1..] == text[1..] + rest;
      UncommentPastSolid(text[1..], rest, Next(st, text[0]));
    }
  }

  // ---- Reading a value back ---------------------------------------------------------------

  predicate Tight(s: string) { s != "" && !IsSpace(s[0]) && !IsSpace(s[|s| - 1]) }

  lemma {:induction false} ShowIsTight(v: Node)
    requires Printable(v)
    ensures Tight(Show(v))
  {
    if v.IntNode? { DecimalDigits(if v.n < 0 then -v.n else v.n); }
  }

  lemma {:induction false} BodyIsTight(items: seq<Node>, l: Layout)
    requires items != [] && forall k :: 0 <= k < |items| ==> Printable(items[k])
    ensures Tight(Body(items, l))
  {
    ShowIsTight(items[0]);
    if |items| > 1 { BodyIsTight(items[1..], l); }
  }

  function Shows(items: seq<Node>): seq<string>
  {
    seq(|items|, k requires 0 <= k < |items| => Show(items[k]))
  }

  /** A solid item and the comma behind it are split off. */
  lemma {:induction false} SplitOff(item: string, gap: string, rest: string, lead: string)
    requires Level(0, item) && Tight(item) && Blank(lead) && Plain(0, gap)
    ensures Items(item + ("," + (gap + rest)), START, lead) == [item] + Items(rest, START, gap)
  {
    TrimFramed(lead, item, "");
    assert lead + item + "" == lead + item;
    var tail := "," + (gap + rest);
    ItemsPastSolid(item, tail, START, lead);
    assert tail[1..] == gap + rest;
    PlainIsLevel(0, gap);
    ItemsPastSolid(gap, rest, START, "");
    assert "" + gap == gap;
  }

  lemma {:induction false} EndOfItems(end: string, part: string)
    requires (end == "" || end == ",") && Trim(part) != ""
    ensures Items(end, START, part) == [Trim(part)]
  {
    assert end == "," ==> end[1..] == "";
    assert Items("", START, "") == [];
  }

  lemma {:induction false} LastItem(item: string, end: string, lead: string)
    requires Level(0, item) && Tight(item) && Blank(lead) && (end == "" || end == ",")
    ensures Items(item + end, START, lead) == [item]
  {
    TrimFramed(lead, item, "");
    assert lead + item + "" == lead + item;
    ItemsPastSolid(item, end, START, lead);
    EndOfItems(end, lead + item);
  }

  lemma {:induction false} BodyShape(items: seq<Node>, l: Layout)
    requires |items| > 1
    ensures Body(items, l) == Show(items[0]) + ("," + (Between(l) + Body(items[1..], l)))
    ensures Shows(items) == [Show(items[0])] + Shows(items[1..])
  {
    Assoc(",", Between(l), Body(items[1..], l));
  }

  lemma {:induction false} ItemsOfBody(items: seq<Node>, l: Layout, lead: string)
    requires items != [] && Blank(lead) && LayoutFits(l) && forall k :: 0 <= k < |items| ==> Printable(items[k])
    ensures Items(Body(items, l), START, lead) == Shows(items)
    decreases |items|
  {
    var first := Show(items[0]);
    ShowIsLevel(items[0], 0);
    ShowIsTight(items[0]);
    if |items| > 1 {
      BodyShape(items, l);
      BetweenIsBlank(l);
      BlankIsPlain(Between(l));
      SplitOff(first, Between(l), Body(items[1..], l), lead);
      ItemsOfBody(items[1..], l, Between(l));
    } else {
      LastItem(first, if l.Spread? then "," else "", lead);
      assert Shows(items) == [first];
    }
  }

  lemma {:induction false} InsideFrame(open: char, mid: string, close: char)
    ensures Inside([open] + mid + [close]) == mid && Framed([open] + mid + [close], open, close)
  {
  }

  lemma {:induction false} ListShape(items: seq<Node>, l: Layout)
    requires items != [] && LayoutFits(l) && forall k :: 0 <= k < |items| ==> Printable(items[k])
    ensures Framed(Show(ListNode(items, l)), '[', ']')
    ensures Trim(Inside(Show(ListNode(items, l)))) == Body(items, l) != ""
  {
    var body, gap := Body(items, l), Between(l);
    BodyIsTight(items, l);
    BetweenIsBlank(l);
    TrimFramed(gap, body, gap);
    InsideFrame('[', gap + body + gap, ']');
  }

  lemma {:induction false} TrimBehind(text: string, rest: string)
    requires Tight(text) && Blank(rest)
    ensures Trim(text + rest) == text
  {
    TrimFramed("", text, rest);
    assert "" + text + rest == text + rest;
  }

  lemma {:induction false} TrimTight(text: string)
    requires Tight(text)
    ensures Trim(text) == text
  {
    TrimBehind(text, "");
    assert text + "" == text;
  }

  lemma {:induction false} ParseLeaf(v: Node)
    requires Printable(v) && (v.ListNode? ==> v.items == [])
    ensures ParseValue(Show(v)) == ToValue(v)
  {
    ShowIsTight(v);
    TrimTight(Show(v));
    match v
    case StrNode(s, mark) => assert Inside(Show(v)) == s;
    case IntNode(n) =>
      DecimalDigits(if n < 0 then -n else n);
      ParseInt(n);
    case BoolNode(_) =>
    case WordNode(text) => ParseWord(text);
    case ListNode(_, l) =>
      var gap := if l.Inline? then l.gap else "";
      InsideFrame('[', gap, ']');
  }

  lemma {:induction false} ParseWord(text: string)
    requires Bare(text)
    ensures ParseScalar(text) == Word(text) && !Framed(text, '[', ']')
  {
    assert text[0] !in "\"'[]#,\n";
  }

  lemma {:induction false} ParseList(text: string, inner: string, parts: seq<string>)
    requires Trim(text) == text && Framed(text, '[', ']') && Trim(Inside(text)) == inner != ""
    requires Items(inner, START, "") == parts
    ensures ParseValue(text) == Arr(seq(|parts|, k requires 0 <= k < |parts| => ParseValue(parts[k])))
  {
  }

  lemma {:induction false} ListParses(items: seq<Node>, l: Layout)
    requires items != [] && Printable(ListNode(items, l))
    requires forall k :: 0 <= k < |items| ==> ParseValue(Shows(items)[k]) == ToValue(items[k])
    ensures ParseValue(Show(ListNode(items, l))) == ToValue(ListNode(items, l))
  {
    var text, values := Show(ListNode(items, l)), ToValue(ListNode(items, l)).items;
    ShowIsTight(ListNode(items, l));
    TrimTight(text);
    ListShape(items, l);
    ItemsOfBody(items, l, "");
    ParseList(text, Body(items, l), Shows(items));
    assert ParseValue(text).items == values;
  }

  /** The text of a value, on one line or tall, reads back as that value. */
  lemma {:induction false} ParseShow(v: Node)
    requires Printable(v)
    ensures ParseValue(Show(v)) == ToValue(v)
    decreases v
  {
    if v.ListNode? && v.items != [] {
      ParseShows(v.items);
      ListParses(v.items, v.layout);
    } else {
      ParseLeaf(v);
    }
  }

  lemma {:induction false} ParseShows(items: seq<Node>)
    requires forall k :: 0 <= k < |items| ==> Printable(items[k])
    ensures forall k :: 0 <= k < |items| ==> ParseValue(Shows(items)[k]) == ToValue(items[k])
    decreases items
  {
    forall k | 0 <= k < |items| ensures ParseValue(Shows(items)[k]) == ToValue(items[k]) {
      ParseShow(items[k]);
    }
  }

  lemma {:induction false} ParseInt(n: int)
    requires -MAX_EXACT <= n <= MAX_EXACT
    ensures ParseScalar(ShowInt(n)) == Num(n)
  {
    var text := ShowInt(n);
    DecimalDigits(if n < 0 then -n else n);
    if n < 0 {
      assert text[1..] == Decimal(-n);
      assert !IsDigit(text[0]);
    } else {
      assert IsDigit(text[0]);
    }
  }
}
