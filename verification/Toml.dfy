/** The small TOML reader (e2e/src/api/toml.ts). */
module Toml {
  import opened Prelude
  import opened Text

  /** `Word` is a bare word: whatever number JavaScript reads it as, or else the word itself. */
  datatype Value = Str(text: string) | Num(n: int) | Bool(b: bool) | Arr(items: seq<Value>)
    | Nested(entries: Table) | Word(text: string)

  type Table = map<string, Value>

  // ---- Scanning outside strings -----------------------------------------------------------

  datatype Quote = Out | In(mark: char)

  datatype Scan = Scan(quote: Quote, depth: int)

  const START := Scan(Out, 0)

  predicate IsQuote(c: char) { c == '"' || c == '\'' }

  function NextQuote(q: Quote, c: char): Quote
  {
    if q.In? then if c == q.mark then Out else q
    else if IsQuote(c) then In(c) else Out
  }

  function Next(st: Scan, c: char): Scan
  {
    Scan(NextQuote(st.quote, c),
         if st.quote.In? then st.depth
         else if c == '[' then st.depth + 1
         else if c == ']' then st.depth - 1
         else st.depth)
  }

  function After(st: Scan, text: string): Scan
    decreases |text|
  {
    if text == "" then st else After(Next(st, text[0]), text[1..])
  }

  function Depth(text: string): int { After(START, text).depth }

  /** The part of a line before the first `#` that is not inside a string. */
  function Uncomment(line: string, q: Quote): (r: string)
    ensures r <= line
  {
    if line == "" || (q == Out && line[0] == '#') then ""
    else [line[0]] + Uncomment(line[1..], NextQuote(q, line[0]))
  }

  /** The items of an array body; `part` is what has been read of the current one. */
  function Items(body: string, st: Scan, part: string): (items: seq<string>)
    ensures forall k :: 0 <= k < |items| ==> |items[k]| <= |part| + |body|
  {
    if body == "" then if Trim(part) == "" then [] else [Trim(part)]
    else if st == START && body[0] == ',' then [Trim(part)] + Items(body[1..], START, "")
    else Items(body[1..], Next(st, body[0]), part + [body[0]])
  }

  /** One more character of a line, read or cut off. */
  lemma {:induction false} UncommentNext(line: string, i: nat, q: Quote)
    requires i < |line|
    ensures line[..i] + Uncomment(line[i..], q) ==
      if q == Out && line[i] == '#' then line[..i]
      else line[..i + 1] + Uncomment(line[i + 1..], NextQuote(q, line[i]))
  {
    var head, t := line[..i], line[i..];
    assert t[1..] == line[i + 1..];
    if q == Out && line[i] == '#' {
      assert head + "" == head;
    } else {
      assert line[..i + 1] == head + [line[i]];
      Assoc(head, [line[i]], Uncomment(t[1..], NextQuote(q, line[i])));
    }
  }

  method StripComment(line: string) returns (r: string)
    ensures r == Uncomment(line, Out)
  {
    var quote := Out;
    for i := 0 to |line|
      invariant Uncomment(line, Out) == line[..i] + Uncomment(line[i..], quote)
    {
      UncommentNext(line, i, quote);
      var ch := line[i];
      if quote.In? {
        if ch == quote.mark { quote := Out; }
      } else if ch == '"' || ch == '\'' {
        quote := In(ch);
      } else if ch == '#' {
        return line[..i];
      }
    }
    assert line[..|line|] == line;
    return line;
  }

  method BracketDepth(text: string) returns (depth: int)
    ensures depth == Depth(text)
  {
    depth := 0;
    var quote := Out;
    for i := 0 to |text|
      invariant Depth(text) == After(Scan(quote, depth), text[i..]).depth
    {
      var ch := text[i];
      if quote.In? {
        if ch == quote.mark { quote := Out; }
      } else if ch == '"' || ch == '\'' {
        quote := In(ch);
      } else if ch == '[' {
        depth := depth + 1;
      } else if ch == ']' {
        depth := depth - 1;
      }
    }
  }

  method SplitTopLevel(body: string) returns (parts: seq<string>)
    ensures parts == Items(body, START, "")
  {
    parts := [];
    var depth, quote, current := 0, Out, "";
    for i := 0 to |body|
      invariant Items(body, START, "") == parts + Items(body[i..], Scan(quote, depth), current)
    {
      var ch := body[i];
      if quote.In? {
        if ch == quote.mark { quote := Out; }
        current := current + [ch];
      } else if ch == '"' || ch == '\'' {
        quote := In(ch);
        current := current + [ch];
      } else if ch == '[' {
        depth := depth + 1;
        current := current + [ch];
      } else if ch == ']' {
        depth := depth - 1;
        current := current + [ch];
      } else if ch == ',' && depth == 0 {
        parts := parts + [Trim(current)];
        current := "";
      } else {
        current := current + [ch];
      }
    }
    if Trim(current) != "" {
      parts := parts + [Trim(current)];
    }
  }

  // ---- Values -----------------------------------------------------------------------------

  /** The largest integer up to which a JavaScript number is exact, 2^53. */
  const MAX_EXACT: int := 9007199254740992

  predicate IsDigit(c: char) { '0' <= c <= '9' }

  predicate Digits(s: string) { s != "" && forall k :: 0 <= k < |s| ==> IsDigit(s[k]) }

  function ValueOf(digits: string): nat
    requires forall k :: 0 <= k < |digits| ==> IsDigit(digits[k])
  {
    if digits == "" then 0
    else
      var last := digits[|digits| - 1];
      assert IsDigit(last);
      10 * ValueOf(digits[..|digits| - 1]) + (last as int - '0' as int)
  }

  /** `Number(text)` where `text` is a plain integer that JavaScript represents exactly. */
  function PlainNumber(text: string): Option<int>
  {
    if Digits(text) && ValueOf(text) <= MAX_EXACT then Some(ValueOf(text))
    else if text != "" && text[0] == '-' && Digits(text[1..]) && ValueOf(text[1..]) <= MAX_EXACT then
      Some(0 - ValueOf(text[1..]))
    else None
  }

  /** `text.startsWith(open) && text.endsWith(close)`. */
  predicate Framed(text: string, open: char, close: char)
  {
    text != "" && text[0] == open && text[|text| - 1] == close
  }

  predicate Quoted(text: string) { Framed(text, '"', '"') || Framed(text, '\'', '\'') }

  /** `text.slice(1, -1)`. */
  function Inside(text: string): string
  {
    if |text| < 2 then "" else text[1..|text| - 1]
  }

  function ParseScalar(text: string): Value
  {
    if Quoted(text) then Str(Inside(text))
    else if text == "true" then Bool(true)
    else if text == "false" then Bool(false)
    else if PlainNumber(text).Some? then Num(PlainNumber(text).value)
    else Word(text)
  }

  function ParseValue(raw: string): Value
    decreases |raw|
  {
    var text := Trim(raw);
    if Framed(text, '[', ']') then
      var inner := Trim(Inside(text));
      if inner == "" then Arr([])
      else
        var items := Items(inner, START, "");
        Arr(seq(|items|, k requires 0 <= k < |items| => ParseValue(items[k])))
    else ParseScalar(text)
  }

  // ---- Tables -----------------------------------------------------------------------------

  function Unquote(segment: string): string
  {
    if Quoted(segment) then Inside(segment) else segment
  }

  /** `splitPath`. */
  function SplitPath(header: string): (path: seq<string>)
    ensures path != []
  {
    Segments(SplitOn(header, '.'))
  }

  function Segments(pieces: seq<string>): (segments: seq<string>)
    ensures |segments| == |pieces|
  {
    seq(|pieces|, k requires 0 <= k < |pieces| => Unquote(Trim(pieces[k])))
  }

  /** The sub-table called `key`; a missing one, or a value of another kind, reads as empty. */
  function Child(t: Table, key: string): Table
  {
    if key in t && t[key].Nested? then t[key].entries else map[]
  }

  /** The table at the end of a path, created empty where it is missing. */
  function TableAt(t: Table, path: seq<string>): Table
    decreases |path|
  {
    if path == [] then t else TableAt(Child(t, path[0]), path[1..])
  }

  /** `t` with `sub` as the table at the end of a path. */
  function Graft(t: Table, path: seq<string>, sub: Table): Table
    decreases |path|
  {
    if path == [] then sub
    else t[path[0] := Nested(Graft(Child(t, path[0]), path[1..], sub))]
  }

  /** The document so far, and the path of the table that assignments go to. */
  datatype Doc = Doc(root: Table, current: seq<string>)

  const EMPTY := Doc(map[], [])

  /** A header line: the table at `path` exists and becomes the current one. */
  function Open(doc: Doc, path: seq<string>): Doc
  {
    Doc(Graft(doc.root, path, TableAt(doc.root, path)), path)
  }

  /** An assignment line: the last segment of `path` is the key, the others lead to its table. */
  function Assign(doc: Doc, path: seq<string>, value: Value): Doc
    requires path != []
  {
    var target, leaf := doc.current + path[..|path| - 1], path[|path| - 1];
    doc.(root := Graft(doc.root, target, TableAt(doc.root, target)[leaf := value]))
  }

  // ---- Lines ------------------------------------------------------------------------------

  function Clean(line: string): string { Trim(Uncomment(line, Out)) }

  /** A value with open brackets takes in lines until they balance. */
  function Gather(text: string, lines: seq<string>): (r: (string, seq<string>))
    ensures |r.1| <= |lines|
    decreases |lines|
  {
    if Depth(text) > 0 && lines != [] then Gather(text + "\n" + Clean(lines[0]), lines[1..])
    else (text, lines)
  }

  predicate IsHeader(line: string) { Framed(line, '[', ']') && Depth(line) == 0 }

  function ReadLine(line: string, rest: seq<string>, doc: Doc): (r: (Doc, seq<string>))
    ensures |r.1| <= |rest|
  {
    if line == "" then (doc, rest)
    else if IsHeader(line) then (Open(doc, SplitPath(Trim(Inside(line)))), rest)
    else
      match Find(line, "=")
      case None => (doc, rest)
      case Some(eq) =>
        var (text, rest') := Gather(Trim(line[eq + 1..]), rest);
        (Assign(doc, SplitPath(Trim(line[..eq])), ParseValue(text)), rest')
  }

  function ReadLines(lines: seq<string>, doc: Doc): Doc
    decreases |lines|
  {
    if lines == [] then doc
    else
      var (doc', rest) := ReadLine(Clean(lines[0]), lines[1..], doc);
      ReadLines(rest, doc')
  }

  function Parse(input: string): Table { ReadLines(SplitLines(input), EMPTY).root }

  /** The lines a multi-line array takes in, from line `start` on. */
  method GatherArray(lines: seq<string>, start: nat, first: string) returns (valueText: string, i: nat)
    requires start <= |lines|
    ensures start <= i <= |lines| && (valueText, lines[i..]) == Gather(first, lines[start..])
  {
    valueText, i := first, start;
    var depth := BracketDepth(valueText);
    while depth > 0 && i < |lines|
      invariant start <= i <= |lines| && depth == Depth(valueText)
      invariant Gather(valueText, lines[i..]) == Gather(first, lines[start..])
      decreases |lines| - i
    {
      assert lines[i..][1..] == lines[i + 1..];
      var more := StripComment(lines[i]);
      i := i + 1;
      valueText := valueText + "\n" + Trim(more);
      depth := BracketDepth(valueText);
    }
  }

  /** One pass through the loop over the lines, for a line that is not empty. */
  method ApplyLine(line: string, lines: seq<string>, start: nat, doc: Doc) returns (doc': Doc, i: nat)
    requires line != "" && start <= |lines|
    ensures start <= i <= |lines| && (doc', lines[i..]) == ReadLine(line, lines[start..], doc)
  {
    doc', i := doc, start;
    var depth := BracketDepth(line);
    if Framed(line, '[', ']') && depth == 0 {
      doc' := Open(doc, SplitPath(Trim(Inside(line))));
      return;
    }
    var eq := Find(line, "=");
    if eq == None {
      return;
    }
    var valueText;
    valueText, i := GatherArray(lines, start, Trim(line[eq.value + 1..]));
    doc' := Assign(doc, SplitPath(Trim(line[..eq.value])), ParseValue(valueText));
  }

  method ParseToml(input: string) returns (root: Table)
    ensures root == Parse(input)
  {
    var doc := EMPTY;
    var lines := SplitLines(input);
    var i := 0;
    while i < |lines|
      invariant 0 <= i <= |lines|
      invariant ReadLines(lines, EMPTY) == ReadLines(lines[i..], doc)
    {
      assert lines[i..][1..] == lines[i + 1..];
      var line := StripComment(lines[i]);
      line := Trim(line);
      i := i + 1;
      if line != "" {
        doc, i := ApplyLine(line, lines, i, doc);
      }
    }
    root := doc.root;
  }
}
