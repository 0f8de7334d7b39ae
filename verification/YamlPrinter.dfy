/** A block printer for configuration trees, which the parser undoes: any depth,
    any deeper indentation at each level, blank lines and comments anywhere. */
module YamlPrinter {
  import opened Bytes
  import opened Text
  import opened Yaml
  import opened YamlFlow

  /** A tree as it is laid out: before each entry there may be a gap of empty
      lines, and a nested block is indented by `deeper` more than its parent. */
  datatype Doc = Flat(text: OneLine) | Map(entries: seq<Entry>) | Seq(items: seq<Item>)

  datatype Entry = Entry(gap: seq<Line>, key: string, deeper: nat, doc: Doc)

  datatype Item = Item(gap: seq<Line>, deeper: nat, doc: Doc)

  // ----- printing -----

  function EntryLine(e: Entry, n: nat): Line {
    Line(e.key + ":" + (if e.doc.Flat? then " " + Written(e.doc.text) else ""), n, false)
  }

  function ItemLine(item: Item, n: nat): Line {
    Line(if item.doc.Flat? then "- " + Written(item.doc.text) else "-", n, false)
  }

  function Print(doc: Doc, n: nat): seq<Line>
    decreases doc, 0
  {
    match doc
    case Flat(text) => [Line(Written(text), n, false)]
    case Map(entries) => PrintEntries(entries, n)
    case Seq(items) => PrintItems(items, n)
  }

  function PrintEntry(e: Entry, n: nat): seq<Line>
    decreases e, 1
  {
    e.gap + ([EntryLine(e, n)] + if e.doc.Flat? then [] else Print(e.doc, n + e.deeper))
  }

  function PrintEntries(entries: seq<Entry>, n: nat): seq<Line>
    decreases entries, 2
  {
    if entries == [] then [] else PrintEntry(entries[0], n) + PrintEntries(entries[1..], n)
  }

  function PrintItem(item: Item, n: nat): seq<Line>
    decreases item, 1
  {
    item.gap + ([ItemLine(item, n)] + if item.doc.Flat? then [] else Print(item.doc, n + item.deeper))
  }

  function PrintItems(items: seq<Item>, n: nat): seq<Line>
    decreases items, 2
  {
    if items == [] then [] else PrintItem(items[0], n) + PrintItems(items[1..], n)
  }

  // ----- what the tree means -----

  function NodeOf(doc: Doc): Node
    decreases doc, 0
  {
    match doc
    case Flat(text) => Value(text)
    case Map(entries) => WithEntries(EMPTY_MAPPING, entries)
    case Seq(items) => Sequence(ItemNodes(items))
  }

  function EntryNode(e: Entry): Node
    decreases e, 1
  {
    NodeOf(e.doc)
  }

  function WithEntries(node: Node, entries: seq<Entry>): (r: Node)
    requires node.Mapping?
    ensures r.Mapping?
    decreases entries, 2
  {
    if entries == [] then node else WithEntries(SetKey(node, entries[0].key, EntryNode(entries[0])), entries[1..])
  }

  function ItemNode(item: Item): Node
    decreases item, 1
  {
    NodeOf(item.doc)
  }

  function ItemNodes(items: seq<Item>): seq<Node>
    decreases items, 2
  {
    if items == [] then [] else [ItemNode(items[0])] + ItemNodes(items[1..])
  }

  function KeysOf(entries: seq<Entry>): (r: seq<string>)
    ensures |r| == |entries| && forall i :: 0 <= i < |r| ==> r[i] == entries[i].key
  {
    if entries == [] then [] else [entries[0].key] + KeysOf(entries[1..])
  }

  predicate Distinct(entries: seq<Entry>) {
    forall i, j :: 0 <= i < j < |entries| ==> entries[i].key != entries[j].key
  }

  /** With distinct keys, the node lists them in the order of the entries and maps
      each to the node of its entry. */
  lemma {:induction false} NodeOfMap(entries: seq<Entry>)
    requires Distinct(entries)
    ensures var node := NodeOf(Map(entries));
            node.Mapping? && node.keys == KeysOf(entries) &&
            forall e :: e in entries ==> e.key in node.entries && node.entries[e.key] == EntryNode(e)
  {
    hide EntryNode;
    KeysAdded(EMPTY_MAPPING, entries);
    assert [] + KeysOf(entries) == KeysOf(entries);
    ValuesAdded(EMPTY_MAPPING, entries);
  }

  lemma {:induction false} KeysAdded(node: Node, entries: seq<Entry>)
    requires node.Mapping? && Distinct(entries) && forall e :: e in entries ==> e.key !in node.entries
    ensures WithEntries(node, entries).keys == node.keys + KeysOf(entries)
    decreases entries
  {
    hide EntryNode;
    if entries == [] {
      assert node.keys + [] == node.keys;
    } else {
      KeysAdded(SetKey(node, entries[0].key, EntryNode(entries[0])), entries[1..]);
      Assoc(node.keys, [entries[0].key], KeysOf(entries[1..]));
    }
  }

  lemma {:induction false} ValuesAdded(node: Node, entries: seq<Entry>)
    requires node.Mapping? && Distinct(entries)
    ensures var r := WithEntries(node, entries);
            (forall k :: k in node.entries && k !in KeysOf(entries) ==>
               k in r.entries && r.entries[k] == node.entries[k]) &&
            forall e :: e in entries ==> e.key in r.entries && r.entries[e.key] == EntryNode(e)
    decreases entries
  {
    hide EntryNode;
    if entries != [] {
      ValuesAdded(SetKey(node, entries[0].key, EntryNode(entries[0])), entries[1..]);
    }
  }

  // ----- which trees can be printed -----

  predicate Trimmed(s: string) {
    s != "" && !IsSpace(s[0]) && !IsSpace(s[|s| - 1]) && '\n' !in s
  }

  /** A key that is found up to its colon, and whose line begins nothing else. */
  predicate KeyOk(key: string) {
    Trimmed(key) && MappingColon(key + ":") == |key| && key[0] != '#' && key[0] != '[' && key[0] != '{' && !("- " <= key)
  }

  /** Behind a key. */
  predicate EntryTextOk(o: OneLine) {
    OneLineOk(o) && Trimmed(Written(o)) &&
    (IsScalar(o) ==> Written(o) != "|" && Written(o) != ">" && Written(o)[0] != '[' && Written(o)[0] != '{')
  }

  /** Behind a dash a flow collection reads as plain text. */
  predicate ItemTextOk(o: OneLine) {
    IsScalar(o) && OneLineOk(o) && Trimmed(Written(o)) && MappingColon(Written(o)) <= 0
  }

  /** On a line of its own. */
  predicate TextOk(o: OneLine) {
    OneLineOk(o) && Trimmed(Written(o)) &&
    (IsScalar(o) ==>
       MappingColon(Written(o)) <= 0 && !IsEntry(Written(o)) &&
       Written(o)[0] != '#' && Written(o)[0] != '[' && Written(o)[0] != '{')
  }

  /** A line that reads back from its text. */
  predicate Readable(line: Line) {
    '\n' !in line.content && line.isEmpty == (line.content == "" || line.content[0] == '#') &&
    if line.content == "" then line.indent == 0
    else line.content[0] != ' ' && !IsBlank(line.content[|line.content| - 1])
  }

  predicate AllReadable(lines: seq<Line>) {
    forall i :: 0 <= i < |lines| ==> Readable(lines[i])
  }

  /** Blank lines and comments. */
  predicate AllEmpty(lines: seq<Line>) {
    AllReadable(lines) && forall i :: 0 <= i < |lines| ==> lines[i].isEmpty
  }

  predicate DocOk(doc: Doc)
    decreases doc, 0
  {
    match doc
    case Flat(text) => TextOk(text)
    case Map(entries) => entries != [] && EntriesOk(entries)
    case Seq(items) => items != [] && ItemsOk(items)
  }

  predicate EntryOk(e: Entry)
    decreases e, 1
  {
    AllEmpty(e.gap) && KeyOk(e.key) && if e.doc.Flat? then EntryTextOk(e.doc.text) else e.deeper > 0 && DocOk(e.doc)
  }

  predicate EntriesOk(entries: seq<Entry>)
    decreases entries, 2
  {
    entries == [] || (EntryOk(entries[0]) && EntriesOk(entries[1..]))
  }

  predicate ItemOk(item: Item)
    decreases item, 1
  {
    AllEmpty(item.gap) && if item.doc.Flat? then ItemTextOk(item.doc.text) else item.deeper > 0 && DocOk(item.doc)
  }

  predicate ItemsOk(items: seq<Item>)
    decreases items, 2
  {
    items == [] || (ItemOk(items[0]) && ItemsOk(items[1..]))
  }

  // ----- positions -----

  predicate Stands(lines: seq<Line>, pos: nat, block: seq<Line>) {
    pos + |block| <= |lines| && lines[pos..pos + |block|] == block
  }

  lemma {:induction false} StandsSplit(lines: seq<Line>, pos: nat, a: seq<Line>, b: seq<Line>)
    requires Stands(lines, pos, a + b)
    ensures Stands(lines, pos, a) && Stands(lines, pos + |a|, b)
  {
    assert lines[pos..pos + |a + b|][..|a|] == a;
    assert lines[pos..pos + |a + b|][|a|..] == b;
  }

  lemma {:induction false} StandsFits(lines: seq<Line>, pos: nat, block: seq<Line>)
    requires Stands(lines, pos, block)
    ensures pos + |block| <= |lines|
  {
  }

  lemma {:induction false} SkipGap(lines: seq<Line>, pos: nat, gap: seq<Line>)
    requires Stands(lines, pos, gap) && AllEmpty(gap)
    ensures SkipEmpty(lines, pos) == SkipEmpty(lines, pos + |gap|)
    decreases |gap|
  {
    if gap != [] {
      assert gap == [gap[0]] + gap[1..];
      StandsSplit(lines, pos, [gap[0]], gap[1..]);
      assert lines[pos] == lines[pos..pos + 1][0];
      SkipGap(lines, pos + 1, gap[1..]);
    }
  }

  lemma {:induction false} SkipTwice(lines: seq<Line>, pos: nat)
    requires pos <= |lines|
    ensures SkipEmpty(lines, SkipEmpty(lines, pos)) == SkipEmpty(lines, pos)
  {
  }

  /** What follows a block at indentation n is less indented, or nothing. */
  predicate Below(lines: seq<Line>, pos: nat, n: nat)
    requires pos <= |lines|
  {
    var p := SkipEmpty(lines, pos);
    p == |lines| || lines[p].indent < n
  }

  /** The first line of a gap and a line is found. */
  lemma {:induction false} FindsLine(lines: seq<Line>, pos: nat, gap: seq<Line>, line: Line, rest: seq<Line>)
    requires Stands(lines, pos, gap + ([line] + rest)) && AllEmpty(gap) && !line.isEmpty
    ensures var p := pos + |gap|; SkipEmpty(lines, pos) == p < |lines| && lines[p] == line && Stands(lines, p + 1, rest)
  {
    StandsSplit(lines, pos, gap, [line] + rest);
    StandsSplit(lines, pos + |gap|, [line], rest);
    assert lines[pos + |gap|] == lines[pos + |gap|..pos + |gap| + 1][0];
    SkipGap(lines, pos, gap);
  }

  // ----- the text of a line -----

  /** Whether the colon of a key is found does not depend on what follows it. */
  lemma {:induction false} KeyColon(key: string, tail: string, quote: char)
    requires FindColon(key + ":", quote) == |key| && (tail == "" || tail[0] == ' ')
    ensures FindColon(key + ":" + tail, quote) == |key|
    decreases |key|
  {
    var a, b := key + ":", key + ":" + tail;
    if key == "" {
      assert b == ":" + tail;
    } else {
      assert a[0] == b[0] && a[1..] == key[1..] + ":" && b[1..] == key[1..] + ":" + tail;
      assert a[1] == b[1];
      var next := if quote != '\0' then (if a[0] == quote then '\0' else quote)
                  else if a[0] == '"' || a[0] == '\'' then a[0] else '\0';
      assert FindColon(a, quote) == Later(1, FindColon(a[1..], next));
      KeyColon(key[1..], tail, next);
    }
  }

  lemma {:induction false} TrimmedStays(s: string)
    requires Trimmed(s)
    ensures TrimSpace(s) == s && TrimSpace(" " + s) == s
  {
    assert (" " + s)[1..] == s;
    assert TrimLeft(" " + s) == TrimLeft(s);
  }

  lemma {:induction false} EntryLineReads(e: Entry, n: nat)
    requires EntryOk(e)
    ensures var content, colon := EntryLine(e, n).content, |e.key|;
            MappingColon(content) == colon > 0 && TrimSpace(content[..colon]) == e.key &&
            TrimSpace(content[colon + 1..]) == (if e.doc.Flat? then Written(e.doc.text) else "") &&
            !IsEntry(content) && !("[" <= content) && !("{" <= content)
  {
    hide TrimLeft, TrimRight, TrimSpace, FindColon;
    var tail := if e.doc.Flat? then " " + Written(e.doc.text) else "";
    var content := e.key + ":" + tail;
    KeyColon(e.key, tail, '\0');
    assert content[..|e.key|] == e.key && content[|e.key| + 1..] == tail;
    TrimmedStays(e.key);
    if e.doc.Flat? {
      TrimmedStays(Written(e.doc.text));
    } else {
      NothingTrimmed();
    }
    assert content[0] == e.key[0];
    assert |e.key| == 1 ==> content[1] == ':';
    assert |e.key| > 1 ==> content[1] == e.key[1];
  }

  lemma {:induction false} NothingTrimmed()
    ensures TrimSpace("") == ""
  {
  }

  lemma {:induction false} ItemLineReads(item: Item, n: nat)
    requires ItemOk(item)
    ensures var content := ItemLine(item, n).content;
            IsEntry(content) && EntryText(content) == if item.doc.Flat? then Written(item.doc.text) else ""
  {
    hide TrimLeft, TrimRight, TrimSpace, FindColon;
    if item.doc.Flat? {
      var text := Written(item.doc.text);
      assert ("- " + text)[2..] == text;
      TrimmedStays(text);
    }
  }

  // ----- the parser undoes the printer -----

  /** Parse calls begin by skipping, so they may begin before the gap. */
  lemma {:induction false} MappingFromGap(lines: seq<Line>, pos: nat, base: nat, node: Node)
    requires pos <= |lines| && node.Mapping? && WellKeyed(node)
    ensures ParseMapping(lines, pos, base, node) == ParseMapping(lines, SkipEmpty(lines, pos), base, node)
  {
    hide SkipEmpty, MappingValue, MappingColon, WellKeyed, SetKey;
    SkipTwice(lines, pos);
  }

  lemma {:induction false} SequenceFromGap(lines: seq<Line>, pos: nat, base: nat, children: seq<Node>)
    requires pos <= |lines| && forall i :: 0 <= i < |children| ==> WellKeyed(children[i])
    ensures ParseSequence(lines, pos, base, children) == ParseSequence(lines, SkipEmpty(lines, pos), base, children)
  {
    hide SkipEmpty, SequenceItem, IsEntry, WellKeyed;
    SkipTwice(lines, pos);
  }

  lemma {:induction false} NodeFromGap(lines: seq<Line>, pos: nat)
    requires pos <= |lines|
    ensures ParseNode(lines, pos) == ParseNode(lines, SkipEmpty(lines, pos))
  {
    hide SkipEmpty, ParseMapping, ParseSequence, FlowMapping, FlowSequence, MappingColon, IsEntry;
    SkipTwice(lines, pos);
  }

  lemma {:induction false} NodeIsMapping(lines: seq<Line>, pos: nat)
    requires pos <= |lines|
    requires var p := SkipEmpty(lines, pos);
             p < |lines| && var c := lines[p].content; MappingColon(c) > 0 && !IsEntry(c) && !("[" <= c) && !("{" <= c)
    ensures ParseNode(lines, pos) == ParseMapping(lines, pos, lines[SkipEmpty(lines, pos)].indent, EMPTY_MAPPING)
  {
    hide ParseMapping, MappingColon, IsEntry, SkipEmpty;
    NothingPrinted(0);
    MappingFromGap(lines, pos, lines[SkipEmpty(lines, pos)].indent, EMPTY_MAPPING);
  }

  lemma {:induction false} NodeIsSequence(lines: seq<Line>, pos: nat)
    requires pos <= |lines|
    requires var p := SkipEmpty(lines, pos); p < |lines| && IsEntry(lines[p].content)
    ensures ParseNode(lines, pos) == ParseSequence(lines, pos, lines[SkipEmpty(lines, pos)].indent, [])
  {
    hide ParseSequence, MappingColon, IsEntry, SkipEmpty;
    SequenceFromGap(lines, pos, lines[SkipEmpty(lines, pos)].indent, []);
  }

  lemma {:induction false} MappingGoesOn(lines: seq<Line>, pos: nat, base: nat, node: Node)
    requires pos <= |lines| && node.Mapping? && WellKeyed(node)
    requires var p := SkipEmpty(lines, pos);
             p < |lines| && lines[p].indent == base && MappingColon(lines[p].content) > 0 && MappingValue(lines, p,
                 base).Parsed?
    ensures var p := SkipEmpty(lines, pos);
            var value := MappingValue(lines, p, base);
            var next := SetKey(node, TrimSpace(lines[p].content[..MappingColon(lines[p].content)]), value.value);
            WellKeyed(next) && ParseMapping(lines, pos, base, node) == ParseMapping(lines, value.pos, base, next)
  {
    hide MappingValue, MappingColon, SkipEmpty, TrimSpace, WellKeyed;
    var p := SkipEmpty(lines, pos);
    SetKeyKeeps(node, TrimSpace(lines[p].content[..MappingColon(lines[p].content)]), MappingValue(lines, p, base).value);
  }

  lemma {:induction false} MappingEnds(lines: seq<Line>, pos: nat, base: nat, node: Node)
    requires pos <= |lines| && node.Mapping? && WellKeyed(node) && Below(lines, pos, base)
    ensures ParseMapping(lines, pos, base, node) == Parsed(node, SkipEmpty(lines, pos))
  {
    hide MappingValue, MappingColon, SkipEmpty, WellKeyed;
  }

  lemma {:induction false} SequenceGoesOn(lines: seq<Line>, pos: nat, base: nat, children: seq<Node>)
    requires pos <= |lines| && forall i :: 0 <= i < |children| ==> WellKeyed(children[i])
    requires var p := SkipEmpty(lines, pos);
             p < |lines| && lines[p].indent == base && IsEntry(lines[p].content) && SequenceItem(lines, p, base).Parsed?
    ensures var item := SequenceItem(lines, SkipEmpty(lines, pos), base);
            WellKeyed(item.value) &&
            ParseSequence(lines, pos, base, children) == ParseSequence(lines, item.pos, base, children + [item.value])
  {
    hide SequenceItem, IsEntry, SkipEmpty, WellKeyed;
  }

  lemma {:induction false} SequenceEnds(lines: seq<Line>, pos: nat, base: nat, children: seq<Node>)
    requires pos <= |lines| && (forall i :: 0 <= i < |children| ==> WellKeyed(children[i])) && Below(lines, pos, base)
    ensures ParseSequence(lines, pos, base, children) == Parsed(Sequence(children), SkipEmpty(lines, pos))
  {
    hide SequenceItem, IsEntry, SkipEmpty, WellKeyed;
  }

  lemma {:induction false} NothingPrinted(n: nat)
    ensures PrintEntries([], n) == [] && PrintItems([], n) == [] && WellKeyed(EMPTY_MAPPING)
  {
  }

  /** A nested block is found behind the line of its parent. */
  lemma {:induction false} BlockParses(doc: Doc, n: nat, lines: seq<Line>, pos: nat)
    requires !doc.Flat? && DocOk(doc)
    requires Stands(lines, pos, Print(doc, n)) && Below(lines, pos + |Print(doc, n)|, n)
    ensures ParseNode(lines, pos) == Parsed(NodeOf(doc), SkipEmpty(lines, pos + |Print(doc, n)|))
    ensures SkipEmpty(lines, pos) < |lines| && lines[SkipEmpty(lines, pos)].indent == n
    decreases doc, 0
  {
    hide ParseNode, ParseMapping, ParseSequence, WithEntries, ItemNodes, EntryLine, ItemLine, MappingColon,
        IsEntry, WellKeyed,
      Below, Stands, PrintEntries, PrintItems, EntriesOk, ItemsOk, SkipEmpty, EntryText, TrimSpace, EntryOk, ItemOk;
    match doc
    case Map(entries) =>
      NothingPrinted(n);
      FirstEntryFound(entries, n, lines, pos);
      EntryLineFull(entries[0], n);
      EntryLineReads(entries[0], n);
      NodeIsMapping(lines, pos);
      EntriesParse(entries, n, EMPTY_MAPPING, lines, pos);
    case Seq(items) =>
      FirstItemFound(items, n, lines, pos);
      ItemLineFull(items[0], n);
      ItemLineReads(items[0], n);
      NodeIsSequence(lines, pos);
      ItemsParse(items, n, [], lines, pos);
      assert [] + ItemNodes(items) == ItemNodes(items);
  }

  lemma {:induction false} FirstEntryFound(entries: seq<Entry>, n: nat, lines: seq<Line>, pos: nat)
    requires entries != [] && EntriesOk(entries) && Stands(lines, pos, PrintEntries(entries, n))
    ensures EntryOk(entries[0]) && EntriesOk(entries[1..])
    ensures var p := pos + |entries[0].gap|;
            SkipEmpty(lines, pos) == p < |lines| && lines[p] == EntryLine(entries[0], n) &&
            Stands(lines, p + 1, if entries[0].doc.Flat? then [] else Print(entries[0].doc, n + entries[0].deeper)) &&
            Stands(lines, pos + |PrintEntry(entries[0], n)|, PrintEntries(entries[1..], n)) &&
            |PrintEntries(entries, n)| == |PrintEntry(entries[0], n)| + |PrintEntries(entries[1..], n)| &&
            pos + |PrintEntries(entries, n)| <= |lines| &&
            |PrintEntry(entries[0], n)| == |entries[0].gap| + 1 +
              (if entries[0].doc.Flat? then 0 else |Print(entries[0].doc, n + entries[0].deeper)|)
  {
    hide EntryLine, Print, KeyOk, EntryTextOk, DocOk, SkipEmpty, EntryOk;
    EntryGap(entries[0]);
    var e := entries[0];
    StandsSplit(lines, pos, PrintEntry(e, n), PrintEntries(entries[1..], n));
    FindsLine(lines, pos, e.gap, EntryLine(e, n), if e.doc.Flat? then [] else Print(e.doc, n + e.deeper)) by {
      EntryLineFull(e, n);
    }
  }

  lemma {:induction false} EntryGap(e: Entry)
    requires EntryOk(e)
    ensures AllEmpty(e.gap)
  {
  }

  lemma {:induction false} ItemGap(item: Item)
    requires ItemOk(item)
    ensures AllEmpty(item.gap)
  {
  }

  lemma {:induction false} EntryLineFull(e: Entry, n: nat)
    ensures !EntryLine(e, n).isEmpty && EntryLine(e, n).indent == n
  {
  }

  lemma {:induction false} FirstItemFound(items: seq<Item>, n: nat, lines: seq<Line>, pos: nat)
    requires items != [] && ItemsOk(items) && Stands(lines, pos, PrintItems(items, n))
    ensures ItemOk(items[0]) && ItemsOk(items[1..])
    ensures var p := pos + |items[0].gap|;
            SkipEmpty(lines, pos) == p < |lines| && lines[p] == ItemLine(items[0], n) &&
            Stands(lines, p + 1, if items[0].doc.Flat? then [] else Print(items[0].doc, n + items[0].deeper)) &&
            Stands(lines, pos + |PrintItem(items[0], n)|, PrintItems(items[1..], n)) &&
            |PrintItems(items, n)| == |PrintItem(items[0], n)| + |PrintItems(items[1..], n)| &&
            pos + |PrintItems(items, n)| <= |lines| &&
            |PrintItem(items[0], n)| == |items[0].gap| + 1 +
              (if items[0].doc.Flat? then 0 else |Print(items[0].doc, n + items[0].deeper)|)
  {
    hide ItemLine, Print, ItemTextOk, DocOk, SkipEmpty, ItemOk;
    ItemGap(items[0]);
    var item := items[0];
    StandsSplit(lines, pos, PrintItem(item, n), PrintItems(items[1..], n));
    FindsLine(lines, pos, item.gap, ItemLine(item, n), if item.doc.Flat? then [] else Print(item.doc,
        n + item.deeper)) by {
      ItemLineFull(item, n);
    }
  }

  lemma {:induction false} ItemLineFull(item: Item, n: nat)
    ensures !ItemLine(item, n).isEmpty && ItemLine(item, n).indent == n
  {
  }

  /** Behind an entry comes the next one at the same indentation, or less. */
  lemma {:induction false} NextEntryBelow(entries: seq<Entry>, n: nat, deeper: nat, lines: seq<Line>, pos: nat)
    requires deeper > 0 && EntriesOk(entries) && Stands(lines, pos, PrintEntries(entries, n))
    requires entries == [] ==> Below(lines, pos, n)
    ensures Below(lines, pos, n + deeper)
  {
    hide Print, KeyOk, EntryTextOk, DocOk;
    if entries != [] {
      FirstEntryFound(entries, n, lines, pos);
      EntryLineFull(entries[0], n);
    }
  }

  lemma {:induction false} NextItemBelow(items: seq<Item>, n: nat, deeper: nat, lines: seq<Line>, pos: nat)
    requires deeper > 0 && ItemsOk(items) && Stands(lines, pos, PrintItems(items, n))
    requires items == [] ==> Below(lines, pos, n)
    ensures Below(lines, pos, n + deeper)
  {
    hide Print, ItemTextOk, DocOk;
    if items != [] {
      FirstItemFound(items, n, lines, pos);
      ItemLineFull(items[0], n);
    }
  }

  lemma {:induction false} EntryParses(e: Entry, n: nat, lines: seq<Line>, p: nat)
    requires EntryOk(e) && p < |lines| && lines[p] == EntryLine(e, n)
    requires !e.doc.Flat? ==> Stands(lines, p + 1, Print(e.doc, n + e.deeper)) && Below(lines,
        p + 1 + |Print(e.doc, n + e.deeper)|, n + e.deeper)
    ensures MappingColon(lines[p].content) > 0
    ensures MappingValue(lines, p, n) ==
            Parsed(EntryNode(e), if e.doc.Flat? then p + 1 else SkipEmpty(lines, p + 1 + |Print(e.doc, n + e.deeper)|))
    decreases e, 1
  {
    hide ParseNode, Print, NodeOf, Below, EntryLine, MappingColon, TrimSpace, FlowMapping, FlowSequence,
        BlockScalar, DocOk, KeyOk;
    EntryLineReads(e, n);
    if e.doc.Flat? {
      if IsScalar(e.doc.text) {
        FlatNode(e.doc.text);
      } else {
        FlowNode(e.doc.text, p + 1);
      }
    } else {
      BlockParses(e.doc, n + e.deeper, lines, p + 1);
      NodeFromGap(lines, p + 1);
    }
  }

  lemma {:induction false} FlatNode(o: OneLine)
    requires IsScalar(o) && OneLineOk(o)
    ensures NodeOf(Flat(o)) == Scalar(Unquote(Written(o)))
  {
    hide Unquote, Written;
    ScalarReads(o);
  }

  lemma {:induction false} FlowNode(o: OneLine, pos: nat)
    requires !IsScalar(o) && OneLineOk(o)
    ensures "[" <= Written(o) ==> Moved(FlowSequence(Written(o)), pos) == Parsed(NodeOf(Flat(o)), pos)
    ensures "{" <= Written(o) ==> Moved(FlowMapping(Written(o)), pos) == Parsed(NodeOf(Flat(o)), pos)
    ensures "[" <= Written(o) || "{" <= Written(o)
    ensures Written(o) != "" && Written(o) != "|" && Written(o) != ">"
  {
    hide FlowSequence, FlowMapping, Commas, PiecesOk, PairsOk;
    FlowReads(o);
  }

  lemma {:induction false} EntryStep(entries: seq<Entry>, n: nat, node: Node, lines: seq<Line>, pos: nat)
    requires node.Mapping? && WellKeyed(node) && entries != [] && EntriesOk(entries)
    requires Stands(lines, pos, PrintEntries(entries, n))
    requires |entries| == 1 ==> Below(lines, pos + |PrintEntries(entries, n)|, n)
    ensures var e, next := entries[0], pos + |PrintEntry(entries[0], n)|;
            next <= |lines| && WellKeyed(SetKey(node, e.key, EntryNode(e))) &&
            ParseMapping(lines, pos, n, node) == ParseMapping(lines, next, n, SetKey(node, e.key, EntryNode(e)))
    decreases entries, 1
  {
    hide Print, PrintEntry, PrintEntries, MappingValue, EntryNode, MappingColon, EntryLine, TrimSpace, WellKeyed, EntryOk,
      EntriesOk, ParseMapping, SetKey, Below, SkipEmpty, Stands, IsEntry;
    var e, next := entries[0], pos + |PrintEntry(entries[0], n)|;
    FirstEntryFound(entries, n, lines, pos);
    if !e.doc.Flat? {
      DeeperEntry(e);
      NothingPrinted(n);
      NextEntryBelow(entries[1..], n, e.deeper, lines, next);
    }
    EntryLineFull(e, n);
    EntryLineReads(e, n);
    EntryParses(e, n, lines, pos + |e.gap|);
    MappingGoesOn(lines, pos, n, node);
    MappingFromGap(lines, next, n, SetKey(node, e.key, EntryNode(e)));
  }

  lemma {:induction false} NextEntries(entries: seq<Entry>, n: nat, node: Node, lines: seq<Line>, pos: nat)
    requires node.Mapping? && entries != [] && EntriesOk(entries) && Stands(lines, pos, PrintEntries(entries, n))
    ensures EntriesOk(entries[1..])
    ensures var next := pos + |PrintEntry(entries[0], n)|;
            Stands(lines, next, PrintEntries(entries[1..], n)) &&
            next + |PrintEntries(entries[1..], n)| == pos + |PrintEntries(entries, n)| <= |lines|
    ensures WithEntries(node, entries) == WithEntries(SetKey(node, entries[0].key, EntryNode(entries[0])), entries[1..])
  {
    hide EntryLine, Print, PrintEntry, PrintEntries, EntryNode, SkipEmpty, EntryOk, EntriesOk, Stands, SetKey;
    FirstEntryFound(entries, n, lines, pos);
  }

  lemma {:induction false} EntriesParse(entries: seq<Entry>, n: nat, node: Node, lines: seq<Line>, pos: nat)
    requires node.Mapping? && WellKeyed(node) && EntriesOk(entries)
    requires Stands(lines, pos, PrintEntries(entries, n)) && Below(lines, pos + |PrintEntries(entries, n)|, n)
    ensures ParseMapping(lines, pos, n, node) ==
            Parsed(WithEntries(node, entries), SkipEmpty(lines, pos + |PrintEntries(entries, n)|))
    decreases entries, 2
  {
    hide PrintEntry, PrintEntries, EntryNode, WellKeyed, EntriesOk, ParseMapping, SetKey, Below, SkipEmpty, Stands,
      Print, WithEntries;
    if entries == [] {
      NothingPrinted(n);
      NothingMeant(node);
      StandsFits(lines, pos, []);
      MappingEnds(lines, pos, n, node);
    } else {
      var e, next := entries[0], pos + |PrintEntry(entries[0], n)|;
      NextEntries(entries, n, node, lines, pos);
      EntryStep(entries, n, node, lines, pos);
      EntriesParse(entries[1..], n, SetKey(node, e.key, EntryNode(e)), lines, next);
    }
  }

  lemma {:induction false} NothingMeant(node: Node)
    requires node.Mapping?
    ensures WithEntries(node, []) == node && ItemNodes([]) == []
  {
  }

  lemma {:induction false} DeeperEntry(e: Entry)
    requires EntryOk(e) && !e.doc.Flat?
    ensures e.deeper > 0 && DocOk(e.doc)
  {
  }

  lemma {:induction false} ItemParses(item: Item, n: nat, lines: seq<Line>, p: nat)
    requires ItemOk(item) && p < |lines| && lines[p] == ItemLine(item, n)
    requires !item.doc.Flat? ==>
               Stands(lines, p + 1, Print(item.doc, n + item.deeper)) && Below(lines, p + 1 + |Print(item.doc,
                   n + item.deeper)|, n + item.deeper)
    ensures IsEntry(lines[p].content)
    ensures SequenceItem(lines, p, n) ==
            Parsed(ItemNode(item), if item.doc.Flat? then p + 1 else SkipEmpty(lines, p + 1 + |Print(item.doc,
                n + item.deeper)|))
    decreases item, 1
  {
    hide ParseNode, Print, NodeOf, Below, ItemLine, MappingColon, EntryText, InlineMapping, DocOk, IsEntry;
    ItemLineReads(item, n);
    if item.doc.Flat? {
      FlatNode(item.doc.text);
    } else {
      BlockParses(item.doc, n + item.deeper, lines, p + 1);
      NodeFromGap(lines, p + 1);
    }
  }

  lemma {:induction false} DeeperItem(item: Item)
    requires ItemOk(item) && !item.doc.Flat?
    ensures item.deeper > 0 && DocOk(item.doc)
  {
  }

  lemma {:induction false} ItemStep(items: seq<Item>, n: nat, children: seq<Node>, lines: seq<Line>, pos: nat)
    requires (forall i :: 0 <= i < |children| ==> WellKeyed(children[i])) && items != [] && ItemsOk(items)
    requires Stands(lines, pos, PrintItems(items, n))
    requires |items| == 1 ==> Below(lines, pos + |PrintItems(items, n)|, n)
    ensures var next := pos + |PrintItem(items[0], n)|;
            next <= |lines| && WellKeyed(ItemNode(items[0])) &&
            ParseSequence(lines, pos, n, children) == ParseSequence(lines, next, n, children + [ItemNode(items[0])])
    decreases items, 1
  {
    hide Print, PrintItem, PrintItems, SequenceItem, ItemNode, IsEntry, ItemLine, WellKeyed, ItemOk, ItemsOk,
        ParseSequence,
      Below, SkipEmpty, Stands, EntryText;
    var item, next := items[0], pos + |PrintItem(items[0], n)|;
    FirstItemFound(items, n, lines, pos);
    if !item.doc.Flat? {
      DeeperItem(item);
      NothingPrinted(n);
      NextItemBelow(items[1..], n, item.deeper, lines, next);
    }
    ItemLineFull(item, n);
    ItemParses(item, n, lines, pos + |item.gap|);
    SequenceGoesOn(lines, pos, n, children);
    SequenceFromGap(lines, next, n, children + [ItemNode(item)]);
  }

  lemma {:induction false} NextItems(items: seq<Item>, n: nat, lines: seq<Line>, pos: nat)
    requires items != [] && ItemsOk(items) && Stands(lines, pos, PrintItems(items, n))
    ensures ItemsOk(items[1..])
    ensures var next := pos + |PrintItem(items[0], n)|;
            Stands(lines, next, PrintItems(items[1..], n)) &&
            next + |PrintItems(items[1..], n)| == pos + |PrintItems(items, n)| <= |lines|
    ensures ItemNodes(items) == [ItemNode(items[0])] + ItemNodes(items[1..])
  {
    hide ItemLine, Print, PrintItem, PrintItems, ItemNode, SkipEmpty, ItemOk, ItemsOk, Stands;
    FirstItemFound(items, n, lines, pos);
  }

  lemma {:induction false} ItemsParse(items: seq<Item>, n: nat, children: seq<Node>, lines: seq<Line>, pos: nat)
    requires (forall i :: 0 <= i < |children| ==> WellKeyed(children[i])) && ItemsOk(items)
    requires Stands(lines, pos, PrintItems(items, n)) && Below(lines, pos + |PrintItems(items, n)|, n)
    ensures ParseSequence(lines, pos, n, children) ==
            Parsed(Sequence(children + ItemNodes(items)), SkipEmpty(lines, pos + |PrintItems(items, n)|))
    decreases items, 2
  {
    hide PrintItem, PrintItems, ItemNode, ItemNodes, WellKeyed, ItemsOk, ParseSequence, Below, SkipEmpty, Stands, Print;
    if items == [] {
      NothingPrinted(n);
      NothingMeant(EMPTY_MAPPING);
      StandsFits(lines, pos, []);
      SequenceEnds(lines, pos, n, children);
      assert children + [] == children;
    } else {
      var child := ItemNode(items[0]);
      NextItems(items, n, lines, pos);
      ItemStep(items, n, children, lines, pos);
      ItemsParse(items[1..], n, children + [child], lines, pos + |PrintItem(items[0], n)|);
      Assoc(children, [child], ItemNodes(items[1..]));
    }
  }

  // ----- whole documents, as text -----

  function Spaces(n: nat): string {
    if n == 0 then "" else " " + Spaces(n - 1)
  }

  function Render(lines: seq<Line>): string {
    if lines == [] then "" else Spaces(lines[0].indent) + lines[0].content + ['\n'] + Render(lines[1..])
  }

  lemma {:induction false} LineReadsBack(line: Line)
    requires Readable(line)
    ensures ToLine(Spaces(line.indent) + line.content) == line && '\n' !in Spaces(line.indent) + line.content
  {
    IndentOf(line.indent, line.content);
    var raw := Spaces(line.indent) + line.content;
    if line.content != "" {
      assert raw[|raw| - 1] == line.content[|line.content| - 1];
    } else {
      assert raw == "";
    }
  }

  lemma {:induction false} IndentOf(n: nat, content: string)
    requires content == "" || content[0] != ' '
    ensures Indent(Spaces(n) + content) == n && (Spaces(n) + content)[n..] == content && '\n' !in Spaces(n)
  {
    if n == 0 {
      assert Spaces(n) + content == content;
    } else {
      IndentOf(n - 1, content);
      assert Spaces(n) + content == " " + (Spaces(n - 1) + content);
      assert (Spaces(n) + content)[1..] == Spaces(n - 1) + content;
    }
  }

  lemma {:induction false} RenderReadsBack(lines: seq<Line>)
    requires AllReadable(lines)
    ensures SplitLines(Render(lines)) == lines + [Line("", 0, true)]
  {
    hide ToLine, ToLines, Readable, Lines, Spaces;
    if lines == [] {
      NoLines();
    } else {
      var raw := Spaces(lines[0].indent) + lines[0].content;
      assert Readable(lines[0]);
      LineReadsBack(lines[0]);
      FirstLine(raw, Render(lines[1..]));
      RenderReadsBack(lines[1..]);
      ToLinesStep(raw, Lines(Render(lines[1..])));
      assert [lines[0]] + (lines[1..] + [Line("", 0, true)]) == lines + [Line("", 0, true)];
    }
  }

  lemma {:induction false} ToLinesStep(raw: string, rest: seq<string>)
    ensures ToLines([raw] + rest) == [ToLine(raw)] + ToLines(rest)
  {
    assert ([raw] + rest)[1..] == rest;
  }

  lemma {:induction false} NoLines()
    ensures ToLines(Lines("")) == [Line("", 0, true)]
  {
    assert [""][1..] == [];
    assert Lines("") == [""];
    assert ToLines([]) == [];
  }

  const MARKER := Line("---", 0, false)

  /** For every printable tree, laid out in any of these ways, with or without a
      document marker, with empty lines before and behind: the parser gives
      back the tree. */
  lemma {:induction false} ParseUndoesPrint(doc: Doc, n: nat, head: seq<Line>, marker: bool, tail: seq<Line>)
    requires DocOk(doc) && AllEmpty(head) && AllEmpty(tail)
    requires doc.Flat? ==> Written(doc.text) != "---"
    ensures var lines := head + ((if marker then [MARKER] else []) + (Print(doc, n) + tail));
            Parse(Render(lines)).Parsed? && Parse(Render(lines)).value == NodeOf(doc)
  {
    hide Print, DocOk, NodeOf, ParseNode, Readable, AllReadable, Render, SplitLines, Stands, Below, AllEmpty, SkipEmpty;
    var mark := if marker then [MARKER] else [];
    var lines := head + (mark + (Print(doc, n) + tail));
    var all := lines + [Line("", 0, true)];
    var start := |head| + |mark|;
    PrintReadable(doc, n);
    ReadableParts(head, mark, Print(doc, n), tail);
    RenderReadsBack(lines);
    DocumentStands(doc, n, head, mark, tail);
    FirstNotMarker(doc, n, all, start);
    DocParses(doc, n, all, start);
    SkipTwice(all, start);
    NodeFromGap(all, start);
    if marker {
      MarkerSkipped(all, |head|);
    }
  }

  lemma {:induction false} ReadableParts(a: seq<Line>, b: seq<Line>, c: seq<Line>, d: seq<Line>)
    requires AllEmpty(a) && (b == [] || b == [MARKER]) && AllReadable(c) && AllEmpty(d)
    ensures AllReadable(a + (b + (c + d)))
  {
    hide Readable;
    assert Readable(MARKER) by { MarkerReadable(); }
    ReadableConcat(c, d);
    ReadableConcat(b, c + d);
    ReadableConcat(a, b + (c + d));
  }

  lemma {:induction false} MarkerReadable()
    ensures Readable(MARKER)
  {
  }

  lemma {:induction false} ReadableConcat(a: seq<Line>, b: seq<Line>)
    requires AllReadable(a) && AllReadable(b)
    ensures AllReadable(a + b)
  {
    hide Readable;
  }

  lemma {:induction false} EntryLineReadable(e: Entry, n: nat)
    requires EntryOk(e)
    ensures AllReadable([EntryLine(e, n)])
  {
    hide FindColon, DocOk;
    var line := EntryLine(e, n);
    assert line.content[0] == e.key[0];
    if e.doc.Flat? {
      assert line.content[|line.content| - 1] == Written(e.doc.text)[|Written(e.doc.text)| - 1];
    }
  }

  lemma {:induction false} ItemLineReadable(item: Item, n: nat)
    requires ItemOk(item)
    ensures AllReadable([ItemLine(item, n)])
  {
    hide FindColon, DocOk;
    if item.doc.Flat? {
      var line := ItemLine(item, n);
      assert line.content[|line.content| - 1] == Written(item.doc.text)[|Written(item.doc.text)| - 1];
    }
  }

  lemma {:induction false} PrintReadable(doc: Doc, n: nat)
    requires DocOk(doc)
    ensures AllReadable(Print(doc, n))
    decreases doc, 0
  {
    match doc
    case Flat(text) =>
    case Map(entries) => EntriesReadable(entries, n);
    case Seq(items) => ItemsReadable(items, n);
  }

  lemma {:induction false} EntryReadable(e: Entry, n: nat)
    requires EntryOk(e)
    ensures AllReadable(PrintEntry(e, n))
    decreases e, 1
  {
    hide Readable, Print, EntryLine, AllReadable, EntryTextOk, KeyOk;
    EntryGap(e);
    EntryLineReadable(e, n);
    if !e.doc.Flat? {
      PrintReadable(e.doc, n + e.deeper);
      ReadableConcat([EntryLine(e, n)], Print(e.doc, n + e.deeper));
      ReadableConcat(e.gap, [EntryLine(e, n)] + Print(e.doc, n + e.deeper));
    } else {
      assert [EntryLine(e, n)] + [] == [EntryLine(e, n)];
      ReadableConcat(e.gap, [EntryLine(e, n)]);
    }
  }

  lemma {:induction false} EntriesReadable(entries: seq<Entry>, n: nat)
    requires EntriesOk(entries)
    ensures AllReadable(PrintEntries(entries, n))
    decreases entries, 2
  {
    hide Readable, PrintEntry, EntryOk;
    if entries != [] {
      EntryReadable(entries[0], n);
      EntriesReadable(entries[1..], n);
      ReadableConcat(PrintEntry(entries[0], n), PrintEntries(entries[1..], n));
    }
  }

  lemma {:induction false} ItemReadable(item: Item, n: nat)
    requires ItemOk(item)
    ensures AllReadable(PrintItem(item, n))
    decreases item, 1
  {
    hide Readable, Print, ItemLine, AllReadable, ItemTextOk;
    ItemGap(item);
    ItemLineReadable(item, n);
    if !item.doc.Flat? {
      PrintReadable(item.doc, n + item.deeper);
      ReadableConcat([ItemLine(item, n)], Print(item.doc, n + item.deeper));
      ReadableConcat(item.gap, [ItemLine(item, n)] + Print(item.doc, n + item.deeper));
    } else {
      assert [ItemLine(item, n)] + [] == [ItemLine(item, n)];
      ReadableConcat(item.gap, [ItemLine(item, n)]);
    }
  }

  lemma {:induction false} ItemsReadable(items: seq<Item>, n: nat)
    requires ItemsOk(items)
    ensures AllReadable(PrintItems(items, n))
    decreases items, 2
  {
    hide Readable, PrintItem, ItemOk;
    if items != [] {
      ItemReadable(items[0], n);
      ItemsReadable(items[1..], n);
      ReadableConcat(PrintItem(items[0], n), PrintItems(items[1..], n));
    }
  }

  lemma {:induction false} MarkerSkipped(lines: seq<Line>, pos: nat)
    requires pos < |lines| && lines[pos] == MARKER && SkipEmpty(lines, 0) == SkipEmpty(lines, pos)
    ensures SkipEmpty(lines, 0) == pos && lines[pos].content == "---"
  {
  }

  /** Where the parts of a document are. */
  lemma {:induction false} DocumentStands(doc: Doc, n: nat, head: seq<Line>, mark: seq<Line>, tail: seq<Line>)
    requires AllEmpty(head) && AllEmpty(tail)
    ensures var all := head + (mark + (Print(doc, n) + tail)) + [Line("", 0, true)];
            var start := |head| + |mark|;
            Stands(all, start, Print(doc, n)) && Below(all, start + |Print(doc, n)|, n) &&
            SkipEmpty(all, 0) == SkipEmpty(all, |head|) && (mark != [] ==> all[|head|] == mark[0])
  {
    hide Print, SkipEmpty, AllEmpty, Stands;
    var last := [Line("", 0, true)];
    var block, rest := Print(doc, n), tail + last;
    var all := head + (mark + (block + tail)) + last;
    Assoc(block, tail, last);
    Assoc(mark, block + tail, last);
    Assoc(head, mark + (block + tail), last);
    PartsStand(head, mark, block, rest);
    EmptyEnd(tail);
    SkipGap(all, 0, head);
    SkipGap(all, |head| + |mark| + |block|, rest);
    AtTheEnd(all);
  }

  lemma {:induction false} PartsStand(a: seq<Line>, b: seq<Line>, c: seq<Line>, d: seq<Line>)
    ensures var all := a + (b + (c + d));
            Stands(all, 0, a) && Stands(all, |a| + |b|, c) && Stands(all, |a| + |b| + |c|, d) &&
            (b != [] ==> all[|a|] == b[0])
  {
    var all := a + (b + (c + d));
    assert Stands(all, 0, all);
    StandsSplit(all, 0, a, b + (c + d));
    StandsSplit(all, |a|, b, c + d);
    StandsSplit(all, |a| + |b|, c, d);
  }

  lemma {:induction false} EmptyEnd(tail: seq<Line>)
    requires AllEmpty(tail)
    ensures AllEmpty(tail + [Line("", 0, true)])
  {
  }

  lemma {:induction false} AtTheEnd(lines: seq<Line>)
    ensures SkipEmpty(lines, |lines|) == |lines|
  {
  }

  /** A document begins with a line that is not empty and not the marker. */
  lemma {:induction false} FirstNotMarker(doc: Doc, n: nat, lines: seq<Line>, pos: nat)
    requires DocOk(doc) && (doc.Flat? ==> Written(doc.text) != "---") && Stands(lines, pos, Print(doc, n))
    ensures var p := SkipEmpty(lines, pos); p < |lines| && lines[p].content != "---"
  {
    hide EntryLine, ItemLine, PrintEntries, PrintItems, EntriesOk, ItemsOk, SkipEmpty, MappingColon, IsEntry,
        Stands, Trimmed,
      EntryOk, ItemOk, EntryText, TrimSpace;
    match doc
    case Flat(text) =>
      PlainStands(Written(text), n, lines, pos);
    case Map(entries) =>
      FirstEntryFound(entries, n, lines, pos);
      EntryLineReads(entries[0], n);
      NotMarker(EntryLine(entries[0], n).content);
    case Seq(items) =>
      FirstItemFound(items, n, lines, pos);
      ItemLineReads(items[0], n);
      NotMarker(ItemLine(items[0], n).content);
  }

  lemma {:induction false} PlainStands(text: string, n: nat, lines: seq<Line>, pos: nat)
    requires Stands(lines, pos, [Line(text, n, false)])
    ensures SkipEmpty(lines, pos) == pos < |lines| && lines[pos] == Line(text, n, false)
  {
    assert lines[pos] == lines[pos..pos + 1][0];
  }

  lemma {:induction false} NotMarker(content: string)
    requires IsEntry(content) || MappingColon(content) > 0
    ensures content != "---"
  {
    assert "---"[1..] == "--" && "--"[1..] == "-" && "-"[1..] == "";
    assert FindColon("", '\0') == -1 && FindColon("-", '\0') == -1 && FindColon("--", '\0') == -1;
  }

  lemma {:induction false} FlatParses(o: OneLine, n: nat, lines: seq<Line>, pos: nat)
    requires TextOk(o) && Stands(lines, pos, [Line(Written(o), n, false)])
    ensures ParseNode(lines, pos) == Parsed(NodeOf(Flat(o)), pos + 1)
  {
    hide Written, FlowSequence, FlowMapping, MappingColon, NodeOf, OneLineOk, Unquote, SkipEmpty, Stands;
    PlainStands(Written(o), n, lines, pos);
    if IsScalar(o) {
      FlatNode(o);
    } else {
      FlowNode(o, pos + 1);
      assert !IsEntry(Written(o));
    }
  }

  lemma {:induction false} DocParses(doc: Doc, n: nat, lines: seq<Line>, pos: nat)
    requires DocOk(doc) && Stands(lines, pos, Print(doc, n)) && Below(lines, pos + |Print(doc, n)|, n)
    ensures ParseNode(lines, pos).Parsed? && ParseNode(lines, pos).value == NodeOf(doc)
  {
    hide ParseNode, NodeOf, TextOk;
    if doc.Flat? {
      FlatParses(doc.text, n, lines, pos);
    } else {
      BlockParses(doc, n, lines, pos);
    }
  }
}
