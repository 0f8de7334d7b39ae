/** The configuration parser's YAML subset: lines, and what each parse call makes
    of them. Every call returns the cursor it leaves behind; the remaining lines
    are the measure of the recursion. */
module Yaml {
  import opened Text

  /** A line without its indentation; blank lines and comments are empty. */
  datatype Line = Line(content: string, indent: nat, isEmpty: bool)

  datatype Node =
    | Scalar(value: string)
    | Mapping(keys: seq<string>, entries: map<string, Node>)
    | Sequence(children: seq<Node>)

  datatype ParseError = InvalidFlowSequence | InvalidFlowMapping | InvalidFlowEntry

  /** What a call yields: a value and the cursor behind it. */
  datatype Parsed<+T> = Parsed(value: T, pos: nat) | Failed(error: ParseError)

  // ----- nodes -----

  const EMPTY_MAPPING := Mapping([], map[])

  function SetKey(node: Node, key: string, value: Node): (r: Node)
    requires node.Mapping?
    ensures r.Mapping?
  {
    Mapping(if key in node.entries then node.keys else node.keys + [key], node.entries[key := value])
  }

  /** The key list has no duplicates and is the domain of the map. */
  ghost predicate KeysMatch(keys: seq<string>, entries: map<string, Node>) {
    (forall i, j :: 0 <= i < j < |keys| ==> keys[i] != keys[j]) && (forall k :: k in keys <==> k in entries)
  }

  /** At every depth. */
  ghost predicate WellKeyed(node: Node) {
    match node
    case Scalar(_) => true
    case Mapping(keys, entries) => KeysMatch(keys, entries) && forall k :: k in entries ==> WellKeyed(entries[k])
    case Sequence(children) => forall i :: 0 <= i < |children| ==> WellKeyed(children[i])
  }

  lemma {:induction false} SetKeyKeeps(node: Node, key: string, value: Node)
    requires node.Mapping? && WellKeyed(node) && WellKeyed(value)
    ensures WellKeyed(SetKey(node, key, value))
  {
    var r := SetKey(node, key, value);
    assert forall k :: k in node.keys <==> k in node.entries;
    forall k | k in r.entries ensures WellKeyed(r.entries[k]) {
      if k != key {
        assert k in node.entries;
      }
    }
  }

  // ----- lines -----

  predicate IsBlank(c: char) {
    c == ' ' || c == '\t' || c == '\r'
  }

  function TrimBlanks(s: string): string {
    if s != "" && IsBlank(s[|s| - 1]) then TrimBlanks(s[..|s| - 1]) else s
  }

  function Indent(s: string): (n: nat)
    ensures n <= |s|
  {
    if s != "" && s[0] == ' ' then 1 + Indent(s[1..]) else 0
  }

  function ToLine(raw: string): Line {
    var trimmed := TrimBlanks(raw);
    var indent := Indent(trimmed);
    var content := trimmed[indent..];
    Line(content, indent, content == "" || content[0] == '#')
  }

  function ToLines(raw: seq<string>): (r: seq<Line>)
    ensures |r| == |raw|
  {
    if raw == [] then [] else [ToLine(raw[0])] + ToLines(raw[1..])
  }

  function SplitLines(input: string): seq<Line> {
    ToLines(Lines(input))
  }

  /** The first line from pos on that is not empty. */
  function SkipEmpty(lines: seq<Line>, pos: nat): (p: nat)
    requires pos <= |lines|
    ensures pos <= p <= |lines| && (p < |lines| ==> !lines[p].isEmpty)
    decreases |lines| - pos
  {
    if pos < |lines| && lines[pos].isEmpty then SkipEmpty(lines, pos + 1) else pos
  }

  // ----- scalars -----

  /** The colon behind a mapping key: outside quotes, at the end or before a blank;
      quote is the quote character that is open, or zero. */
  function FindColon(s: string, quote: char): (r: int)
    ensures -1 <= r < |s|
  {
    if s == "" then -1
    else if quote != '\0' then Later(1, FindColon(s[1..], if s[0] == quote then '\0' else quote))
    else if s[0] == '"' || s[0] == '\'' then Later(1, FindColon(s[1..], s[0]))
    else if s[0] == ':' && (|s| == 1 || s[1] == ' ' || s[1] == '\t') then 0
    else Later(1, FindColon(s[1..], '\0'))
  }

  function MappingColon(s: string): (r: int)
    ensures -1 <= r < |s|
  {
    FindColon(s, '\0')
  }

  function Unquote(s: string): string {
    if |s| >= 2 && s[0] == s[|s| - 1] && (s[0] == '"' || s[0] == '\'') then s[1..|s| - 1] else s
  }

  // ----- flow collections -----

  /** The pieces of s[start..] between commas outside quotes and brackets; the
      scan has come to i. */
  function FlowItems(s: string, i: nat, start: nat, depth: int, quote: char): seq<string>
    requires start <= i <= |s|
    decreases |s| - i
  {
    if i == |s| then [s[start..]]
    else if quote != '\0' then FlowItems(s, i + 1, start, depth, if s[i] == quote then '\0' else quote)
    else if s[i] == '"' || s[i] == '\'' then FlowItems(s, i + 1, start, depth, s[i])
    else if s[i] == '[' || s[i] == '{' then FlowItems(s, i + 1, start, depth + 1, quote)
    else if s[i] == ']' || s[i] == '}' then FlowItems(s, i + 1, start, depth - 1, quote)
    else if s[i] == ',' && depth == 0 then [s[start..i]] + FlowItems(s, i + 1, i + 1, depth, quote)
    else FlowItems(s, i + 1, start, depth, quote)
  }

  function FlowScalars(parts: seq<string>): (r: seq<Node>)
    ensures forall i :: 0 <= i < |r| ==> r[i].Scalar?
  {
    if parts == [] then [] else [Scalar(Unquote(TrimSpace(parts[0])))] + FlowScalars(parts[1..])
  }

  function FlowSequence(s: string): (r: Parsed<Node>)
    ensures r.Parsed? ==> WellKeyed(r.value) && r.pos == 0
  {
    var t := TrimSpace(s);
    if |t| < 2 || t[0] != '[' || t[|t| - 1] != ']' then Failed(InvalidFlowSequence)
    else
      var inner := t[1..|t| - 1];
      if TrimSpace(inner) == "" then Parsed(Sequence([]), 0)
      else Parsed(Sequence(FlowScalars(FlowItems(inner, 0, 0, 0, '\0'))), 0)
  }

  function FlowEntries(node: Node, parts: seq<string>): (r: Parsed<Node>)
    requires node.Mapping? && WellKeyed(node)
    ensures r.Parsed? ==> WellKeyed(r.value) && r.pos == 0
    decreases parts
  {
    if parts == [] then Parsed(node, 0)
    else
      var part := TrimSpace(parts[0]);
      var colon := IndexOf(part, ':');
      if colon < 0 then Failed(InvalidFlowEntry)
      else
        var key, value := TrimSpace(part[..colon]), Scalar(Unquote(TrimSpace(part[colon + 1..])));
        SetKeyKeeps(node, key, value);
        FlowEntries(SetKey(node, key, value), parts[1..])
  }

  function FlowMapping(s: string): (r: Parsed<Node>)
    ensures r.Parsed? ==> WellKeyed(r.value) && r.pos == 0
  {
    var t := TrimSpace(s);
    if |t| < 2 || t[0] != '{' || t[|t| - 1] != '}' then Failed(InvalidFlowMapping)
    else
      var inner := t[1..|t| - 1];
      if TrimSpace(inner) == "" then Parsed(EMPTY_MAPPING, 0)
      else FlowEntries(EMPTY_MAPPING, FlowItems(inner, 0, 0, 0, '\0'))
  }

  /** A flow collection stands on one line. */
  function Moved(r: Parsed<Node>, pos: nat): Parsed<Node> {
    if r.Parsed? then Parsed(r.value, pos) else r
  }

  // ----- block scalars -----

  /** The lines of a block and the cursor behind it; an empty line counts as `blank`. */
  function BlockLines(lines: seq<Line>, pos: nat, indent: nat, blank: string): (r: (seq<string>, nat))
    requires pos <= |lines|
    ensures pos <= r.1 <= |lines|
    ensures pos < |lines| && lines[pos].indent >= indent ==> r.1 > pos
    decreases |lines| - pos
  {
    if pos == |lines| || (!lines[pos].isEmpty && lines[pos].indent < indent) then ([], pos)
    else
      var rest := BlockLines(lines, pos + 1, indent, blank);
      ([if lines[pos].isEmpty then blank else lines[pos].content] + rest.0, rest.1)
  }

  function DropTrailing(parts: seq<string>, blank: string): seq<string> {
    if parts != [] && (parts[|parts| - 1] == "" || parts[|parts| - 1] == blank)
        then DropTrailing(parts[..|parts| - 1], blank)
    else parts
  }

  /** A literal block joins its lines with line feeds, a folded one with spaces;
      its empty lines count as "" and "\n". */
  function BlockScalar(lines: seq<Line>, pos: nat, parentIndent: nat, blank: string, sep: char): (r: Parsed<Node>)
    requires pos <= |lines|
    ensures r.Parsed? && r.value.Scalar? && SkipEmpty(lines, pos) <= r.pos <= |lines|
  {
    var p := SkipEmpty(lines, pos);
    if p >= |lines| || lines[p].indent <= parentIndent then Parsed(Scalar(""), p)
    else
      var block := BlockLines(lines, p, lines[p].indent, blank);
      Parsed(Scalar(Join(DropTrailing(block.0, blank), sep)), block.1)
  }

  // ----- blocks -----

  predicate IsEntry(content: string) {
    "- " <= content || content == "-"
  }

  /** Parses a node at the first line that is not empty, and moves past that line. */
  function ParseNode(lines: seq<Line>, pos: nat): (r: Parsed<Node>)
    requires pos <= |lines|
    ensures r.Parsed? ==> WellKeyed(r.value) && SkipEmpty(lines, pos) <= r.pos <= |lines|
    ensures r.Parsed? && SkipEmpty(lines, pos) < |lines| ==> r.pos > SkipEmpty(lines, pos)
    decreases |lines| - pos, 3
  {
    var p := SkipEmpty(lines, pos);
    if p >= |lines| then Parsed(Scalar(""), p)
    else
      var line := lines[p];
      if IsEntry(line.content) then ParseSequence(lines, p, line.indent, [])
      else if "[" <= line.content then Moved(FlowSequence(line.content), p + 1)
      else if "{" <= line.content then Moved(FlowMapping(line.content), p + 1)
      else if MappingColon(line.content) > 0 then ParseMapping(lines, p, line.indent, EMPTY_MAPPING)
      else Parsed(Scalar(Unquote(line.content)), p + 1)
  }

  /** Goes on with a mapping that has the entries of node. */
  function ParseMapping(lines: seq<Line>, pos: nat, base: nat, node: Node): (r: Parsed<Node>)
    requires pos <= |lines| && node.Mapping? && WellKeyed(node)
    ensures r.Parsed? ==> WellKeyed(r.value) && SkipEmpty(lines, pos) <= r.pos <= |lines|
    ensures var p := SkipEmpty(lines, pos);
            r.Parsed? && p < |lines| && lines[p].indent == base && MappingColon(lines[p].content) > 0 ==> r.pos > p
    decreases |lines| - pos, 2
  {
    var p := SkipEmpty(lines, pos);
    if p >= |lines| || lines[p].indent != base || MappingColon(lines[p].content) <= 0 then Parsed(node, p)
    else
      match MappingValue(lines, p, base)
      case Failed(e) => Failed(e)
      case Parsed(value, q) =>
        var key := TrimSpace(lines[p].content[..MappingColon(lines[p].content)]);
        SetKeyKeeps(node, key, value);
        ParseMapping(lines, q, base, SetKey(node, key, value))
  }

  /** The value of the entry on line p: what follows the colon, or the lines below. */
  function MappingValue(lines: seq<Line>, p: nat, base: nat): (r: Parsed<Node>)
    requires p < |lines| && MappingColon(lines[p].content) > 0
    ensures r.Parsed? ==> WellKeyed(r.value) && p < r.pos <= |lines|
    decreases |lines| - p, 1
  {
    var text := TrimSpace(lines[p].content[MappingColon(lines[p].content) + 1..]);
    if text == "|" then BlockScalar(lines, p + 1, base, "", '\n')
    else if text == ">" then BlockScalar(lines, p + 1, base, "\n", ' ')
    else if text == "" then
      var q := SkipEmpty(lines, p + 1);
      if q >= |lines| || lines[q].indent <= base then Parsed(Scalar(""), q) else ParseNode(lines, q)
    else if "[" <= text then Moved(FlowSequence(text), p + 1)
    else if "{" <= text then Moved(FlowMapping(text), p + 1)
    else Parsed(Scalar(Unquote(text)), p + 1)
  }

  function ParseSequence(lines: seq<Line>, pos: nat, base: nat, children: seq<Node>): (r: Parsed<Node>)
    requires pos <= |lines| && forall i :: 0 <= i < |children| ==> WellKeyed(children[i])
    ensures r.Parsed? ==> WellKeyed(r.value) && SkipEmpty(lines, pos) <= r.pos <= |lines|
    ensures var p := SkipEmpty(lines, pos);
            r.Parsed? && p < |lines| && lines[p].indent == base && IsEntry(lines[p].content) ==> r.pos > p
    decreases |lines| - pos, 2
  {
    var p := SkipEmpty(lines, pos);
    if p >= |lines| || lines[p].indent != base || !IsEntry(lines[p].content) then Parsed(Sequence(children), p)
    else
      match SequenceItem(lines, p, base)
      case Failed(e) => Failed(e)
      case Parsed(child, q) => ParseSequence(lines, q, base, children + [child])
  }

  function EntryText(content: string): string
    requires IsEntry(content)
  {
    if content == "-" then "" else TrimSpace(content[2..])
  }

  /** The item on line p: the lines below, a mapping that begins on the line, or a scalar. */
  function SequenceItem(lines: seq<Line>, p: nat, base: nat): (r: Parsed<Node>)
    requires p < |lines| && IsEntry(lines[p].content)
    ensures r.Parsed? ==> WellKeyed(r.value) && p < r.pos <= |lines|
    decreases |lines| - p, 1
  {
    var text := EntryText(lines[p].content);
    if text == "" then
      var q := SkipEmpty(lines, p + 1);
      if q < |lines| && lines[q].indent > base then ParseNode(lines, q) else Parsed(Scalar(""), q)
    else if MappingColon(text) > 0 then
      SetKeyKeeps(EMPTY_MAPPING, ScalarKey(text), ScalarValue(text));
      InlineMapping(lines, p + 1, base, SetKey(EMPTY_MAPPING, ScalarKey(text), ScalarValue(text)))
    else Parsed(Scalar(Unquote(text)), p + 1)
  }

  function ScalarKey(text: string): string
    requires MappingColon(text) > 0
  {
    TrimSpace(text[..MappingColon(text)])
  }

  function ScalarValue(text: string): (r: Node)
    requires MappingColon(text) > 0
    ensures r.Scalar?
  {
    Scalar(Unquote(TrimSpace(text[MappingColon(text) + 1..])))
  }

  /** The further keys of a mapping that began on the line of its item: every
      deeper line with a key, whatever its indentation, with a scalar value. */
  function InlineMapping(lines: seq<Line>, pos: nat, base: nat, node: Node): (r: Parsed<Node>)
    requires pos <= |lines| && node.Mapping? && WellKeyed(node)
    ensures r.Parsed? && WellKeyed(r.value) && SkipEmpty(lines, pos) <= r.pos <= |lines|
    decreases |lines| - pos
  {
    var p := SkipEmpty(lines, pos);
    if p >= |lines| || lines[p].indent <= base || MappingColon(lines[p].content) <= 0 then Parsed(node, p)
    else
      var text := lines[p].content;
      SetKeyKeeps(node, ScalarKey(text), ScalarValue(text));
      InlineMapping(lines, p + 1, base, SetKey(node, ScalarKey(text), ScalarValue(text)))
  }

  /** Lines behind the first node are not looked at. */
  function ParseDocument(lines: seq<Line>): (r: Parsed<Node>)
    ensures r.Parsed? ==> WellKeyed(r.value)
  {
    var p := SkipEmpty(lines, 0);
    var start := if p < |lines| && lines[p].content == "---" then SkipEmpty(lines, p + 1) else p;
    if start >= |lines| then Parsed(EMPTY_MAPPING, start) else ParseNode(lines, start)
  }

  function Parse(input: string): (r: Parsed<Node>)
    ensures r.Parsed? ==> WellKeyed(r.value)
  {
    ParseDocument(SplitLines(input))
  }
}
