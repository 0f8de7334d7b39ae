/** The parser object: a cursor over lines that each method moves, and the loops
    that build nodes. */
module YamlParser {
  import opened Bytes
  import opened Results
  import opened Text
  import opened Yaml

  /** A mapping under construction. */
  class MappingBuilder {
    var keys: seq<string>
    var entries: map<string, Node>

    function Value(): Node
      reads this
    {
      Mapping(keys, entries)
    }

    constructor ()
      ensures Value() == EMPTY_MAPPING
    {
      keys := [];
      entries := map[];
    }

    method SetKey(key: string, value: Node)
      modifies this
      ensures Value() == Yaml.SetKey(old(Value()), key, value)
      ensures old(WellKeyed(Value())) && WellKeyed(value) ==> WellKeyed(Value())
    {
      ghost var before := Value();
      if key !in entries {
        keys := keys + [key];
      }
      entries := entries[key := value];
      if WellKeyed(before) && WellKeyed(value) {
        SetKeyKeeps(before, key, value);
      }
    }
  }

  // ----- the scanners -----

  method FindMappingColon(s: string) returns (r: int)
    ensures r == MappingColon(s)
  {
    var inQuote := '\0';
    var i := 0;
    assert s[0..] == s;
    while i < |s|
      invariant 0 <= i <= |s|
      invariant Later(i, FindColon(s[i..], inQuote)) == MappingColon(s)
    {
      var c := s[i];
      ColonStep(s, i, inQuote);
      if inQuote != '\0' {
        if c == inQuote {
          inQuote := '\0';
        }
        i := i + 1;
        continue;
      }
      if c == '"' || c == '\'' {
        inQuote := c;
        i := i + 1;
        continue;
      }
      if c == ':' && (i + 1 >= |s| || s[i + 1] == ' ' || s[i + 1] == '\t') {
        return i;
      }
      i := i + 1;
    }
    return -1;
  }

  lemma {:induction false} ColonStep(s: string, i: nat, quote: char)
    requires i < |s|
    ensures Later(i, FindColon(s[i..], quote)) ==
            if quote != '\0' then Later(i + 1, FindColon(s[i + 1..], if s[i] == quote then '\0' else quote))
            else if s[i] == '"' || s[i] == '\'' then Later(i + 1, FindColon(s[i + 1..], s[i]))
            else if s[i] == ':' && (i + 1 == |s| || s[i + 1] == ' ' || s[i + 1] == '\t') then i
            else Later(i + 1, FindColon(s[i + 1..], '\0'))
  {
    assert s[i..][1..] == s[i + 1..];
  }

  method SplitFlowItems(s: string) returns (items: seq<string>)
    ensures items == FlowItems(s, 0, 0, 0, '\0')
  {
    items := [];
    var depth := 0;
    var start := 0;
    var inQuote := '\0';
    var i := 0;
    assert [] + FlowItems(s, 0, 0, 0, '\0') == FlowItems(s, 0, 0, 0, '\0');
    while i < |s|
      invariant 0 <= start <= i <= |s|
      invariant items + FlowItems(s, i, start, depth, inQuote) == FlowItems(s, 0, 0, 0, '\0')
    {
      var c := s[i];
      if inQuote != '\0' {
        if c == inQuote {
          inQuote := '\0';
        }
        i := i + 1;
        continue;
      }
      if c == '"' || c == '\'' {
        inQuote := c;
        i := i + 1;
        continue;
      }
      if c == '[' || c == '{' {
        depth := depth + 1;
      }
      if c == ']' || c == '}' {
        depth := depth - 1;
      }
      if c == ',' && depth == 0 {
        Assoc(items, [s[start..i]], FlowItems(s, i + 1, i + 1, depth, inQuote));
        items := items + [s[start..i]];
        start := i + 1;
      }
      i := i + 1;
    }
    items := items + [s[start..]];
  }

  method ParseFlowSequenceStr(s: string) returns (r: Result<Node, ParseError>)
    ensures r == ResultOf(FlowSequence(s))
  {
    var t := TrimSpace(s);
    if |t| < 2 || t[0] != '[' || t[|t| - 1] != ']' {
      return Err(InvalidFlowSequence);
    }
    var inner := t[1..|t| - 1];
    if TrimSpace(inner) == "" {
      return Ok(Sequence([]));
    }
    var parts := SplitFlowItems(inner);
    var children := [];
    var i := 0;
    assert parts[0..] == parts;
    while i < |parts|
      invariant 0 <= i <= |parts|
      invariant children + FlowScalars(parts[i..]) == FlowScalars(parts)
    {
      assert parts[i..][1..] == parts[i + 1..];
      var child := Scalar(Unquote(TrimSpace(parts[i])));
      Assoc(children, [child], FlowScalars(parts[i + 1..]));
      children := children + [child];
      i := i + 1;
    }
    assert children + [] == children;
    return Ok(Sequence(children));
  }

  method ParseFlowMappingStr(s: string) returns (r: Result<Node, ParseError>)
    ensures r == ResultOf(FlowMapping(s))
  {
    hide WellKeyed, TrimSpace, FlowItems, IndexOf, FlowEntries, Unquote, Yaml.SetKey;
    EmptyKeyed();
    var t := TrimSpace(s);
    if |t| < 2 || t[0] != '{' || t[|t| - 1] != '}' {
      return Err(InvalidFlowMapping);
    }
    var inner := t[1..|t| - 1];
    var node := new MappingBuilder();
    if TrimSpace(inner) == "" {
      return Ok(node.Value());
    }
    var parts := SplitFlowItems(inner);
    var i := 0;
    assert parts[0..] == parts;
    while i < |parts|
      invariant 0 <= i <= |parts| && WellKeyed(node.Value())
      invariant FlowEntries(node.Value(), parts[i..]) == FlowEntries(EMPTY_MAPPING, parts)
    {
      FlowEntriesStep(node.Value(), parts, i);
      var part := TrimSpace(parts[i]);
      var colon := IndexOf(part, ':');
      if colon < 0 {
        return Err(InvalidFlowEntry);
      }
      var value := Scalar(Unquote(TrimSpace(part[colon + 1..])));
      ScalarKeyed(value);
      node.SetKey(TrimSpace(part[..colon]), value);
      i := i + 1;
    }
    NoFlowEntries(node.Value(), parts);
    return Ok(node.Value());
  }

  lemma {:induction false} FlowEntriesStep(node: Node, parts: seq<string>, i: nat)
    requires node.Mapping? && WellKeyed(node) && i < |parts|
    ensures var part := TrimSpace(parts[i]);
            var colon := IndexOf(part, ':');
            FlowEntries(node, parts[i..]) ==
            if colon < 0 then Failed(InvalidFlowEntry)
            else (
              var key, value := TrimSpace(part[..colon]), Scalar(Unquote(TrimSpace(part[colon + 1..])));
              SetKeyKeeps(node, key, value);
              FlowEntries(SetKey(node, key, value), parts[i + 1..]))
  {
    hide WellKeyed, TrimSpace, IndexOf, Unquote, SetKey;
    assert parts[i..][1..] == parts[i + 1..];
  }

  lemma {:induction false} NoFlowEntries(node: Node, parts: seq<string>)
    requires node.Mapping? && WellKeyed(node)
    ensures FlowEntries(node, parts[|parts|..]) == Parsed(node, 0)
  {
    hide WellKeyed;
  }

  function ResultOf<T>(spec: Parsed<T>): Result<T, ParseError> {
    match spec
    case Parsed(value, _) => Ok(value)
    case Failed(e) => Err(e)
  }

  // ----- the parser -----

  /** A call returns the value of its specification and leaves the cursor where
      that does; after an error the cursor does not matter. */
  ghost predicate Runs<T>(spec: Parsed<T>, r: Result<T, ParseError>, pos: nat) {
    r == ResultOf(spec) && (spec.Parsed? ==> pos == spec.pos)
  }

  class Parser {
    const lines: seq<Line>
    var pos: nat

    ghost predicate Valid()
      reads this
    {
      pos <= |lines|
    }

    constructor (input: string)
      ensures Valid() && lines == Yaml.SplitLines(input) && pos == 0
    {
      lines := Yaml.SplitLines(input);
      pos := 0;
    }

    method SkipEmpty()
      requires Valid()
      modifies this
      ensures Valid() && pos == Yaml.SkipEmpty(lines, old(pos))
    {
      while pos < |lines| && lines[pos].isEmpty
        invariant Valid() && Yaml.SkipEmpty(lines, pos) == Yaml.SkipEmpty(lines, old(pos))
        decreases |lines| - pos
      {
        pos := pos + 1;
      }
    }

    method ParseDocument() returns (r: Result<Node, ParseError>)
      requires pos == 0
      modifies this
      ensures r == ResultOf(Yaml.ParseDocument(lines))
      ensures r.Ok? ==> WellKeyed(r.value)
    {
      SkipEmpty();
      if pos < |lines| && lines[pos].content == "---" {
        pos := pos + 1;
        SkipEmpty();
      }
      if pos >= |lines| {
        return Ok(EMPTY_MAPPING);
      }
      r := ParseNode();
    }

    method ParseNode() returns (r: Result<Node, ParseError>)
      requires Valid()
      modifies this
      ensures Valid() && Runs(Yaml.ParseNode(lines, old(pos)), r, pos)
      decreases |lines| - pos, 3
    {
      hide Yaml.ParseMapping, Yaml.ParseSequence, FlowSequence, FlowMapping, MappingColon, WellKeyed;
      SkipEmpty();
      if pos >= |lines| {
        return Ok(Scalar(""));
      }
      var line := lines[pos];
      if IsEntry(line.content) {
        r := ParseSequence(line.indent);
        return;
      }
      if "[" <= line.content {
        pos := pos + 1;
        r := ParseFlowSequenceStr(line.content);
        return;
      }
      if "{" <= line.content {
        pos := pos + 1;
        r := ParseFlowMappingStr(line.content);
        return;
      }
      var idx := FindMappingColon(line.content);
      if idx > 0 {
        r := ParseMapping(line.indent);
        return;
      }
      pos := pos + 1;
      return Ok(Scalar(Unquote(line.content)));
    }

    method ParseMapping(baseIndent: nat) returns (r: Result<Node, ParseError>)
      requires Valid()
      modifies this
      ensures Valid() && Runs(Yaml.ParseMapping(lines, old(pos), baseIndent, EMPTY_MAPPING), r, pos)
      decreases |lines| - pos, 2
    {
      hide Yaml.MappingValue, MappingColon, WellKeyed;
      ghost var start := pos;
      var node := new MappingBuilder();
      EmptyKeyed();
      while pos < |lines|
        invariant Valid() && start <= pos && fresh(node) && WellKeyed(node.Value())
        invariant Yaml.ParseMapping(lines, pos, baseIndent, node.Value()) == Yaml.ParseMapping(lines, start,
            baseIndent, EMPTY_MAPPING)
        decreases |lines| - pos
      {
        MappingStep(lines, pos, baseIndent, node.Value());
        SkipEmpty();
        if pos >= |lines| {
          break;
        }
        var line := lines[pos];
        if line.indent < baseIndent {
          break;
        }
        if line.indent > baseIndent && |node.keys| > 0 {
          break;
        }
        if line.indent != baseIndent {
          break;
        }
        var idx := FindMappingColon(line.content);
        if idx <= 0 {
          break;
        }
        var key := TrimSpace(line.content[..idx]);
        var value :- ParseMappingValue(baseIndent, idx);
        node.SetKey(key, value);
      }
      MappingStep(lines, pos, baseIndent, node.Value());
      return Ok(node.Value());
    }

    /** The value behind the colon of the current line, or on the lines below. */
    method ParseMappingValue(baseIndent: nat, idx: int) returns (r: Result<Node, ParseError>)
      requires Valid() && pos < |lines| && idx == MappingColon(lines[pos].content) > 0
      modifies this
      ensures Valid() && Runs(MappingValue(lines, old(pos), baseIndent), r, pos)
      decreases |lines| - pos, 1
    {
      hide Yaml.ParseNode, FlowSequence, FlowMapping, MappingColon, WellKeyed, BlockScalar;
      var line := lines[pos];
      var valueStr := TrimSpace(line.content[idx + 1..]);
      pos := pos + 1;
      if valueStr == "" || valueStr == "|" || valueStr == ">" {
        if valueStr == "|" {
          var val := ParseBlock(baseIndent, "", '\n');
          return Ok(Scalar(val));
        }
        if valueStr == ">" {
          var val := ParseBlock(baseIndent, "\n", ' ');
          return Ok(Scalar(val));
        }
        SkipEmpty();
        if pos >= |lines| {
          return Ok(Scalar(""));
        }
        var childLine := lines[pos];
        if childLine.indent <= baseIndent {
          return Ok(Scalar(""));
        }
        r := ParseNode();
      } else if "[" <= valueStr {
        r := ParseFlowSequenceStr(valueStr);
      } else if "{" <= valueStr {
        r := ParseFlowMappingStr(valueStr);
      } else {
        return Ok(Scalar(Unquote(valueStr)));
      }
    }

    method ParseSequence(baseIndent: nat) returns (r: Result<Node, ParseError>)
      requires Valid()
      modifies this
      ensures Valid() && Runs(Yaml.ParseSequence(lines, old(pos), baseIndent, []), r, pos)
      decreases |lines| - pos, 2
    {
      hide Yaml.SequenceItem, IsEntry, WellKeyed;
      ghost var start := pos;
      var children: seq<Node> := [];
      while pos < |lines|
        invariant Valid() && start <= pos && forall i :: 0 <= i < |children| ==> WellKeyed(children[i])
        invariant Yaml.ParseSequence(lines, pos, baseIndent, children) == Yaml.ParseSequence(lines, start, baseIndent, [])
        decreases |lines| - pos
      {
        SequenceStep(lines, pos, baseIndent, children);
        SkipEmpty();
        if pos >= |lines| {
          break;
        }
        var line := lines[pos];
        if line.indent != baseIndent {
          break;
        }
        if !IsEntry(line.content) {
          break;
        }
        var child :- ParseSequenceItem(baseIndent);
        children := children + [child];
      }
      SequenceStep(lines, pos, baseIndent, children);
      return Ok(Sequence(children));
    }

    /** The item on the current line. */
    method ParseSequenceItem(baseIndent: nat) returns (r: Result<Node, ParseError>)
      requires Valid() && pos < |lines| && IsEntry(lines[pos].content)
      modifies this
      ensures Valid() && Runs(SequenceItem(lines, old(pos), baseIndent), r, pos)
      decreases |lines| - pos, 1
    {
      hide Yaml.ParseNode, MappingColon, IsEntry, WellKeyed;
      var line := lines[pos];
      var valueStr := EntryText(line.content);
      var idx := FindMappingColon(valueStr);
      pos := pos + 1;
      if valueStr == "" {
        SkipEmpty();
        if pos < |lines| && lines[pos].indent > baseIndent {
          r := ParseNode();
        } else {
          return Ok(Scalar(""));
        }
      } else if idx > 0 {
        var child := ParseInlineMapping(baseIndent, valueStr);
        return Ok(child);
      } else {
        return Ok(Scalar(Unquote(valueStr)));
      }
    }

    /** The mapping that begins with the given text on the line before the cursor. */
    method ParseInlineMapping(baseIndent: nat, text: string) returns (child: Node)
      requires Valid() && MappingColon(text) > 0
      modifies this
      ensures Valid()
      ensures var first := SetKey(EMPTY_MAPPING, ScalarKey(text), ScalarValue(text));
              WellKeyed(first) && Parsed(child, pos) == InlineMapping(lines, old(pos), baseIndent, first)
    {
      hide MappingColon, WellKeyed, Yaml.SetKey, ScalarKey, ScalarValue;
      ghost var start := pos;
      var node := new MappingBuilder();
      EmptyKeyed();
      ScalarKeyed(ScalarValue(text));
      node.SetKey(ScalarKey(text), ScalarValue(text));
      ghost var first := node.Value();
      while pos < |lines|
        invariant Valid() && fresh(node) && WellKeyed(node.Value()) && WellKeyed(first)
        invariant InlineMapping(lines, pos, baseIndent, node.Value()) == InlineMapping(lines, start, baseIndent, first)
        decreases |lines| - pos
      {
        InlineStep(lines, pos, baseIndent, node.Value());
        SkipEmpty();
        if pos >= |lines| {
          break;
        }
        var next := lines[pos];
        if next.indent <= baseIndent {
          break;
        }
        var cidx := FindMappingColon(next.content);
        if cidx <= 0 {
          break;
        }
        ScalarKeyed(ScalarValue(next.content));
        node.SetKey(ScalarKey(next.content), ScalarValue(next.content));
        pos := pos + 1;
      }
      InlineStep(lines, pos, baseIndent, node.Value());
      child := node.Value();
    }

    /** parseLiteralBlock and parseFoldedBlock differ in what an empty line counts
        as, and in what joins the lines. */
    method ParseBlock(parentIndent: nat, blank: string, sep: char) returns (s: string)
      requires Valid()
      modifies this
      ensures Valid() && Parsed(Scalar(s), pos) == BlockScalar(lines, old(pos), parentIndent, blank, sep)
    {
      SkipEmpty();
      if pos >= |lines| {
        return "";
      }
      var blockIndent := lines[pos].indent;
      if blockIndent <= parentIndent {
        return "";
      }
      ghost var start := pos;
      ghost var block := BlockLines(lines, start, blockIndent, blank);
      var parts := [];
      assert [] + block.0 == block.0;
      while pos < |lines|
        invariant Valid()
        invariant var rest := BlockLines(lines, pos, blockIndent, blank); block == (parts + rest.0, rest.1)
        decreases |lines| - pos
      {
        var line := lines[pos];
        if !line.isEmpty && line.indent < blockIndent {
          break;
        }
        ghost var rest := BlockLines(lines, pos + 1, blockIndent, blank);
        Assoc(parts, [if line.isEmpty then blank else line.content], rest.0);
        if line.isEmpty {
          parts := parts + [blank];
        } else {
          parts := parts + [line.content];
        }
        pos := pos + 1;
      }
      assert parts + [] == parts;
      while |parts| > 0 && (parts[|parts| - 1] == "" || parts[|parts| - 1] == blank)
        invariant DropTrailing(parts, blank) == DropTrailing(block.0, blank)
      {
        parts := parts[..|parts| - 1];
      }
      return Join(parts, sep);
    }
  }

  lemma {:induction false} EmptyKeyed()
    ensures WellKeyed(EMPTY_MAPPING)
  {
  }

  lemma {:induction false} ScalarKeyed(node: Node)
    requires node.Scalar?
    ensures WellKeyed(node)
  {
  }

  lemma {:induction false} MappingStep(lines: seq<Line>, pos: nat, base: nat, node: Node)
    requires pos <= |lines| && node.Mapping? && WellKeyed(node)
    ensures var p := SkipEmpty(lines, pos);
            ParseMapping(lines, pos, base, node) ==
            if p >= |lines| || lines[p].indent != base || MappingColon(lines[p].content) <= 0 then Parsed(node, p)
            else
              var value := MappingValue(lines, p, base);
              var key := TrimSpace(lines[p].content[..MappingColon(lines[p].content)]);
              if value.Failed? then Failed(value.error)
              else (
                SetKeyKeeps(node, key, value.value);
                ParseMapping(lines, value.pos, base, SetKey(node, key, value.value)))
  {
    hide MappingColon, MappingValue, SkipEmpty, WellKeyed, TrimSpace, SetKey;
  }

  lemma {:induction false} SequenceStep(lines: seq<Line>, pos: nat, base: nat, children: seq<Node>)
    requires pos <= |lines| && forall i :: 0 <= i < |children| ==> WellKeyed(children[i])
    ensures var p := SkipEmpty(lines, pos);
            ParseSequence(lines, pos, base, children) ==
            if p >= |lines| || lines[p].indent != base || !IsEntry(lines[p].content) then Parsed(Sequence(children), p)
            else
              var item := SequenceItem(lines, p, base);
              if item.Failed? then Failed(item.error) else ParseSequence(lines, item.pos, base, children + [item.value])
  {
    hide IsEntry, SequenceItem, SkipEmpty, WellKeyed;
  }

  lemma {:induction false} InlineStep(lines: seq<Line>, pos: nat, base: nat, node: Node)
    requires pos <= |lines| && node.Mapping? && WellKeyed(node)
    ensures var p := SkipEmpty(lines, pos);
            InlineMapping(lines, pos, base, node) ==
            if p >= |lines| || lines[p].indent <= base || MappingColon(lines[p].content) <= 0 then Parsed(node, p)
            else (
              var text := lines[p].content;
              SetKeyKeeps(node, ScalarKey(text), ScalarValue(text));
              InlineMapping(lines, p + 1, base, SetKey(node, ScalarKey(text), ScalarValue(text))))
  {
    hide MappingColon, SkipEmpty, WellKeyed, ScalarKey, ScalarValue, SetKey;
  }

  method ParseInput(input: string) returns (r: Result<Node, ParseError>)
    ensures r == ResultOf(Parse(input))
    ensures r.Ok? ==> WellKeyed(r.value)
  {
    var p := new Parser(input);
    r := p.ParseDocument();
  }
}
