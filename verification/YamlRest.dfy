/** What becomes of the lines behind a printed tree, and of the text of a block
    scalar. */
module YamlRest {
  import opened Bytes
  import opened Text
  import opened Yaml
  import opened YamlFlow
  import opened YamlPrinter

  function Last<T>(s: seq<T>): T
    requires s != []
  {
    s[|s| - 1]
  }

  function Front<T>(s: seq<T>): seq<T>
    requires s != []
  {
    s[..|s| - 1]
  }

  // ----- the blocks that are open at the end of a tree -----

  predicate MappingTakes(n: nat, line: Line) {
    line.indent == n && MappingColon(line.content) > 0
  }

  predicate SequenceTakes(n: nat, line: Line) {
    line.indent == n && IsEntry(line.content)
  }

  /** A block that is open at the end of the tree goes on with the line: one of
      its own indentation, with a key in a mapping and a dash in a sequence. */
  predicate Takes(doc: Doc, n: nat, line: Line)
    decreases doc, 1
  {
    match doc
    case Flat(_) => false
    case Map(entries) =>
      entries != [] && (MappingTakes(n, line) || Takes(Last(entries).doc, n + Last(entries).deeper, line))
    case Seq(items) =>
      items != [] && (SequenceTakes(n, line) || Takes(Last(items).doc, n + Last(items).deeper, line))
  }

  /** The value that the open block reads from the line, and below it. */
  function TakenValue(doc: Doc, n: nat, lines: seq<Line>, q: nat): (r: Parsed<Node>)
    requires q < |lines| && Takes(doc, n, lines[q])
    ensures r.Parsed? ==> WellKeyed(r.value) && q < r.pos <= |lines|
    decreases doc, 1
  {
    match doc
    case Map(entries) =>
      if MappingTakes(n, lines[q]) then MappingValue(lines, q, n)
      else TakenValue(Last(entries).doc, n + Last(entries).deeper, lines, q)
    case Seq(items) =>
      if SequenceTakes(n, lines[q]) then SequenceItem(lines, q, n)
      else TakenValue(Last(items).doc, n + Last(items).deeper, lines, q)
  }

  /** The tree with one more value in the open block that takes the line. */
  function Extended(doc: Doc, n: nat, line: Line, value: Node): Node
    requires Takes(doc, n, line)
    decreases doc, 1
  {
    match doc
    case Map(entries) =>
      if MappingTakes(n, line) then SetKey(NodeOf(doc), ScalarKey(line.content), value)
      else
        var e := Last(entries);
        SetKey(WithEntries(EMPTY_MAPPING, Front(entries)), e.key, Extended(e.doc, n + e.deeper, line, value))
    case Seq(items) =>
      if SequenceTakes(n, line) then Sequence(ItemNodes(items) + [value])
      else
        var item := Last(items);
        Sequence(ItemNodes(Front(items)) + [Extended(item.doc, n + item.deeper, line, value)])
  }

  // ----- trees are well-keyed -----

  lemma {:induction false} TreeKeyed(doc: Doc)
    ensures WellKeyed(NodeOf(doc))
    decreases doc, 0
  {
    hide WellKeyed;
    match doc
    case Flat(text) => ValueKeyed(text);
    case Map(entries) =>
      NothingPrinted(0);
      EntriesKeyed(EMPTY_MAPPING, entries);
    case Seq(items) =>
      ItemsKeyed(items);
      SequenceKeyed(ItemNodes(items));
  }

  lemma {:induction false} ScalarKeyed(text: string)
    ensures WellKeyed(Scalar(text))
  {
  }

  lemma {:induction false} SequenceKeyed(children: seq<Node>)
    ensures WellKeyed(Sequence(children)) <==> forall i :: 0 <= i < |children| ==> WellKeyed(children[i])
  {
  }

  lemma {:induction false} EntriesKeyed(node: Node, entries: seq<Entry>)
    requires node.Mapping? && WellKeyed(node)
    ensures WellKeyed(WithEntries(node, entries))
    decreases entries, 1
  {
    hide WellKeyed, SetKey, NodeOf;
    if entries != [] {
      TreeKeyed(entries[0].doc);
      SetKeyKeeps(node, entries[0].key, EntryNode(entries[0]));
      EntriesKeyed(SetKey(node, entries[0].key, EntryNode(entries[0])), entries[1..]);
    }
  }

  lemma {:induction false} ItemsKeyed(items: seq<Item>)
    ensures forall i :: 0 <= i < |ItemNodes(items)| ==> WellKeyed(ItemNodes(items)[i])
    decreases items, 1
  {
    hide WellKeyed, NodeOf;
    if items != [] {
      TreeKeyed(items[0].doc);
      ItemsKeyed(items[1..]);
    }
  }

  lemma {:induction false} EntriesSnoc(node: Node, entries: seq<Entry>)
    requires node.Mapping? && entries != []
    ensures WithEntries(node, entries) ==
            SetKey(WithEntries(node, Front(entries)), Last(entries).key, EntryNode(Last(entries)))
    decreases entries
  {
    hide EntryNode, SetKey;
    if |entries| > 1 {
      EntriesSnoc(SetKey(node, entries[0].key, EntryNode(entries[0])), entries[1..]);
      assert Front(entries)[1..] == Front(entries[1..]);
    }
  }

  lemma {:induction false} ItemsSnoc(items: seq<Item>)
    requires items != []
    ensures ItemNodes(items) == ItemNodes(Front(items)) + [ItemNode(Last(items))]
    decreases items
  {
    hide ItemNode;
    if |items| > 1 {
      ItemsSnoc(items[1..]);
      assert Front(items)[1..] == Front(items[1..]);
    }
  }

  lemma {:induction false} LastOk(doc: Doc)
    requires DocOk(doc)
    ensures doc.Map? ==> doc.entries != [] && EntryOk(Last(doc.entries)) && EntriesOk(doc.entries)
    ensures doc.Seq? ==> doc.items != [] && ItemOk(Last(doc.items)) && ItemsOk(doc.items)
    ensures doc.Map? && !Last(doc.entries).doc.Flat? ==>
              Last(doc.entries).deeper > 0 && DocOk(Last(doc.entries).doc)
    ensures doc.Seq? && !Last(doc.items).doc.Flat? ==> Last(doc.items).deeper > 0 && DocOk(Last(doc.items).doc)
  {
    hide EntryOk, ItemOk;
    if doc.Map? {
      LastEntryOk(doc.entries);
      if !Last(doc.entries).doc.Flat? {
        DeeperEntry(Last(doc.entries));
      }
    } else if doc.Seq? {
      LastItemOk(doc.items);
      if !Last(doc.items).doc.Flat? {
        DeeperItem(Last(doc.items));
      }
    }
  }

  lemma {:induction false} LastEntryOk(entries: seq<Entry>)
    requires entries != [] && EntriesOk(entries)
    ensures EntryOk(Last(entries))
    decreases entries
  {
    hide EntryOk;
    if |entries| > 1 {
      LastEntryOk(entries[1..]);
    }
  }

  lemma {:induction false} LastItemOk(items: seq<Item>)
    requires items != [] && ItemsOk(items)
    ensures ItemOk(Last(items))
    decreases items
  {
    hide ItemOk;
    if |items| > 1 {
      LastItemOk(items[1..]);
    }
  }

  // ----- the parse goes on behind the last line of a tree -----

  /** What the parse of a tree yields, whatever lines stand behind it from p on:
      each open block, the innermost first, goes on where the one inside it
      stopped. */
  function Then(doc: Doc, n: nat, lines: seq<Line>, p: nat): (r: Parsed<Node>)
    requires p <= |lines| && DocOk(doc)
    ensures r.Parsed? ==> WellKeyed(r.value) && p <= r.pos <= |lines|
    decreases doc, 1
  {
    TreeKeyed(doc);
    LastOk(doc);
    match doc
    case Flat(_) => Parsed(NodeOf(doc), p)
    case Map(entries) => (
      var e := Last(entries);
      match LastValue(e.doc, n + e.deeper, lines, p)
      case Failed(error) => Failed(error)
      case Parsed(value, q) =>
        NothingPrinted(0);
        EntriesKeyed(EMPTY_MAPPING, Front(entries));
        SetKeyKeeps(WithEntries(EMPTY_MAPPING, Front(entries)), e.key, value);
        ParseMapping(lines, q, n, SetKey(WithEntries(EMPTY_MAPPING, Front(entries)), e.key, value)))
    case Seq(items) =>
      var item := Last(items);
      match LastValue(item.doc, n + item.deeper, lines, p)
      case Failed(error) => Failed(error)
      case Parsed(value, q) =>
        ItemsKeyed(Front(items));
        ParseSequence(lines, q, n, ItemNodes(Front(items)) + [value])
  }

  function LastValue(doc: Doc, n: nat, lines: seq<Line>, p: nat): (r: Parsed<Node>)
    requires p <= |lines| && (!doc.Flat? ==> DocOk(doc))
    ensures r.Parsed? ==> WellKeyed(r.value) && p <= r.pos <= |lines|
    decreases doc, 2
  {
    TreeKeyed(doc);
    if doc.Flat? then Parsed(NodeOf(doc), p) else Then(doc, n, lines, p)
  }

  // ----- the parse of a tree is that, whatever stands behind it -----

  lemma {:induction false} FrontEntries(entries: seq<Entry>, n: nat, node: Node, lines: seq<Line>, pos: nat)
    requires node.Mapping? && WellKeyed(node) && entries != [] && EntriesOk(entries)
    requires Stands(lines, pos, PrintEntries(entries, n))
    ensures var next := pos + |PrintEntries(Front(entries), n)|;
            next <= |lines| && WellKeyed(WithEntries(node, Front(entries))) &&
            Stands(lines, next, PrintEntries([Last(entries)], n)) &&
            next + |PrintEntries([Last(entries)], n)| == pos + |PrintEntries(entries, n)| &&
            ParseMapping(lines, pos, n, node) == ParseMapping(lines, next, n, WithEntries(node, Front(entries)))
    decreases entries
  {
    hide PrintEntry, PrintEntries, EntryNode, WellKeyed, EntriesOk, ParseMapping, SetKey, Below, SkipEmpty, Stands,
      Print, WithEntries;
    StandsFits(lines, pos, PrintEntries(entries, n));
    if |entries| == 1 {
      assert entries == [Last(entries)] && Front(entries) == [];
      NothingPrinted(n);
      NothingMeant(node);
    } else {
      var e, next := entries[0], pos + |PrintEntry(entries[0], n)|;
      NextEntries(entries, n, node, lines, pos);
      EntryStep(entries, n, node, lines, pos);
      FrontEntries(entries[1..], n, SetKey(node, e.key, EntryNode(e)), lines, next);
      assert Front(entries)[1..] == Front(entries[1..]) && Front(entries)[0] == e;
      FirstLength(Front(entries), n);
      WithFirst(node, Front(entries));
    }
  }

  lemma {:induction false} WithFirst(node: Node, entries: seq<Entry>)
    requires node.Mapping? && entries != []
    ensures WithEntries(node, entries) == WithEntries(SetKey(node, entries[0].key, EntryNode(entries[0])), entries[1..])
  {
    hide SetKey, EntryNode;
  }

  lemma {:induction false} FirstLength(entries: seq<Entry>, n: nat)
    requires entries != []
    ensures |PrintEntries(entries, n)| == |PrintEntry(entries[0], n)| + |PrintEntries(entries[1..], n)|
  {
  }

  lemma {:induction false} FrontItems(items: seq<Item>, n: nat, children: seq<Node>, lines: seq<Line>, pos: nat)
    requires (forall i :: 0 <= i < |children| ==> WellKeyed(children[i])) && items != [] && ItemsOk(items)
    requires Stands(lines, pos, PrintItems(items, n))
    ensures var (next, all) := (pos + |PrintItems(Front(items), n)|, children + ItemNodes(Front(items)));
            next <= |lines| && (forall i :: 0 <= i < |all| ==> WellKeyed(all[i])) &&
            Stands(lines, next, PrintItems([Last(items)], n)) &&
            next + |PrintItems([Last(items)], n)| == pos + |PrintItems(items, n)| &&
            ParseSequence(lines, pos, n, children) == ParseSequence(lines, next, n, all)
    decreases items
  {
    hide PrintItem, PrintItems, ItemNode, ItemNodes, WellKeyed, ItemsOk, ParseSequence, Below, SkipEmpty, Stands, Print;
    StandsFits(lines, pos, PrintItems(items, n));
    if |items| == 1 {
      assert items == [Last(items)] && Front(items) == [];
      assert children + [] == children;
      NothingPrinted(n);
      NothingMeant(EMPTY_MAPPING);
    } else {
      var item, next := items[0], pos + |PrintItem(items[0], n)|;
      NextItems(items, n, lines, pos);
      ItemStep(items, n, children, lines, pos);
      FrontItems(items[1..], n, children + [ItemNode(item)], lines, next);
      assert Front(items)[1..] == Front(items[1..]) && Front(items)[0] == item;
      FirstItemLength(Front(items), n);
      ItemsFirst(Front(items));
      Assoc(children, [ItemNode(item)], ItemNodes(Front(items[1..])));
    }
  }

  lemma {:induction false} ItemsFirst(items: seq<Item>)
    requires items != []
    ensures ItemNodes(items) == [ItemNode(items[0])] + ItemNodes(items[1..])
  {
  }

  lemma {:induction false} FirstItemLength(items: seq<Item>, n: nat)
    requires items != []
    ensures |PrintItems(items, n)| == |PrintItem(items[0], n)| + |PrintItems(items[1..], n)|
  {
  }

  lemma {:induction false} MappingFails(lines: seq<Line>, pos: nat, base: nat, node: Node)
    requires pos <= |lines| && node.Mapping? && WellKeyed(node)
    requires var p := SkipEmpty(lines, pos);
             p < |lines| && MappingTakes(base, lines[p]) && MappingValue(lines, p, base).Failed?
    ensures ParseMapping(lines, pos, base, node) == Failed(MappingValue(lines, SkipEmpty(lines, pos), base).error)
  {
    hide MappingValue, MappingColon, SkipEmpty, TrimSpace, WellKeyed;
  }

  lemma {:induction false} SequenceFails(lines: seq<Line>, pos: nat, base: nat, children: seq<Node>)
    requires pos <= |lines| && forall i :: 0 <= i < |children| ==> WellKeyed(children[i])
    requires var p := SkipEmpty(lines, pos);
             p < |lines| && SequenceTakes(base, lines[p]) && SequenceItem(lines, p, base).Failed?
    ensures ParseSequence(lines, pos, base, children) == Failed(SequenceItem(lines, SkipEmpty(lines, pos), base).error)
  {
    hide SequenceItem, IsEntry, SkipEmpty, WellKeyed;
  }

  /** The value of the last entry. */
  lemma {:induction false} LastEntryValue(e: Entry, n: nat, lines: seq<Line>, pos: nat)
    requires EntryOk(e) && EntriesOk([e]) && Stands(lines, pos, PrintEntries([e], n))
    requires !e.doc.Flat? ==> DocOk(e.doc)
    ensures var (p, end) := (SkipEmpty(lines, pos), pos + |PrintEntries([e], n)|);
            end <= |lines| && p < |lines| && lines[p] == EntryLine(e, n) && MappingTakes(n, lines[p]) &&
            TrimSpace(lines[p].content[..MappingColon(lines[p].content)]) == e.key &&
            MappingValue(lines, p, n) == LastValue(e.doc, n + e.deeper, lines, end)
    decreases e, 1
  {
    hide ParseNode, Print, NodeOf, EntryLine, MappingColon, TrimSpace, FlowMapping, FlowSequence, BlockScalar, DocOk,
      KeyOk, SkipEmpty, PrintEntry, PrintEntries, Stands, Then, EntryOk, EntriesOk;
    FirstEntryFound([e], n, lines, pos);
    assert [e][1..] == [];
    NothingPrinted(n);
    EntryLineFull(e, n);
    EntryLineReads(e, n);
    var p := pos + |e.gap|;
    if e.doc.Flat? {
      EntryParses(e, n, lines, p);
    } else {
      DeeperEntry(e);
      BlockThen(e.doc, n + e.deeper, lines, p + 1);
      NestedEntry(e, n, lines, p);
    }
  }

  /** Below a line without a value the nested block is parsed as a node. */
  lemma {:induction false} NestedEntry(e: Entry, n: nat, lines: seq<Line>, p: nat)
    requires EntryOk(e) && !e.doc.Flat? && p < |lines| && lines[p] == EntryLine(e, n)
    requires var q := SkipEmpty(lines, p + 1); q < |lines| && lines[q].indent > n
    ensures MappingColon(lines[p].content) > 0 && MappingValue(lines, p, n) == ParseNode(lines, p + 1)
  {
    hide ParseNode, EntryLine, MappingColon, TrimSpace, FlowMapping, FlowSequence, BlockScalar, DocOk, KeyOk, SkipEmpty,
      EntryOk;
    EntryLineReads(e, n);
    NodeFromGap(lines, p + 1);
  }

  lemma {:induction false} LastItemValue(item: Item, n: nat, lines: seq<Line>, pos: nat)
    requires ItemOk(item) && ItemsOk([item]) && Stands(lines, pos, PrintItems([item], n))
    requires !item.doc.Flat? ==> DocOk(item.doc)
    ensures var (p, end) := (SkipEmpty(lines, pos), pos + |PrintItems([item], n)|);
            end <= |lines| && p < |lines| && lines[p] == ItemLine(item, n) && SequenceTakes(n, lines[p]) &&
            SequenceItem(lines, p, n) == LastValue(item.doc, n + item.deeper, lines, end)
    decreases item, 1
  {
    hide ParseNode, Print, NodeOf, ItemLine, MappingColon, EntryText, InlineMapping, DocOk, IsEntry, SkipEmpty,
      PrintItem, PrintItems, Stands, Then, ItemOk, ItemsOk;
    FirstItemFound([item], n, lines, pos);
    assert [item][1..] == [];
    NothingPrinted(n);
    ItemLineFull(item, n);
    ItemLineReads(item, n);
    var p := pos + |item.gap|;
    if item.doc.Flat? {
      ItemParses(item, n, lines, p);
    } else {
      DeeperItem(item);
      BlockThen(item.doc, n + item.deeper, lines, p + 1);
      NestedItem(item, n, lines, p);
    }
  }

  lemma {:induction false} NestedItem(item: Item, n: nat, lines: seq<Line>, p: nat)
    requires ItemOk(item) && !item.doc.Flat? && p < |lines| && lines[p] == ItemLine(item, n)
    requires var q := SkipEmpty(lines, p + 1); q < |lines| && lines[q].indent > n
    ensures IsEntry(lines[p].content) && SequenceItem(lines, p, n) == ParseNode(lines, p + 1)
  {
    hide ParseNode, ItemLine, MappingColon, EntryText, InlineMapping, DocOk, IsEntry, SkipEmpty, ItemOk;
    ItemLineReads(item, n);
    NodeFromGap(lines, p + 1);
  }

  lemma {:induction false} MapThen(entries: seq<Entry>, n: nat, lines: seq<Line>, pos: nat)
    requires DocOk(Map(entries)) && WellKeyed(EMPTY_MAPPING) && Stands(lines, pos, PrintEntries(entries, n))
    ensures var end := pos + |PrintEntries(entries, n)|;
            end <= |lines| && ParseMapping(lines, pos, n, EMPTY_MAPPING) == Then(Map(entries), n, lines, end)
    decreases entries, 3
  {
    hide DocOk, EntryOk, EntriesOk, ParseMapping, WithEntries, EntryLine, MappingColon, WellKeyed, Stands, PrintEntries,
      SkipEmpty, TrimSpace, LastValue, MappingValue, SetKey;
    LastOk(Map(entries));
    var e := Last(entries);
    FrontEntries(entries, n, EMPTY_MAPPING, lines, pos);
    OneOk(e);
    var next := pos + |PrintEntries(Front(entries), n)|;
    LastEntryValue(e, n, lines, next);
    MappingLast(WithEntries(EMPTY_MAPPING, Front(entries)), n, lines, next);
  }

  lemma {:induction false} SeqThen(items: seq<Item>, n: nat, lines: seq<Line>, pos: nat)
    requires DocOk(Seq(items)) && Stands(lines, pos, PrintItems(items, n))
    ensures var end := pos + |PrintItems(items, n)|;
            end <= |lines| && ParseSequence(lines, pos, n, []) == Then(Seq(items), n, lines, end)
    decreases items, 3
  {
    hide DocOk, ItemOk, ItemsOk, ParseSequence, ItemNodes, ItemLine, IsEntry, WellKeyed, Stands, PrintItems, SkipEmpty,
      LastValue, SequenceItem;
    LastOk(Seq(items));
    var item := Last(items);
    FrontItems(items, n, [], lines, pos);
    assert [] + ItemNodes(Front(items)) == ItemNodes(Front(items));
    OneItemOk(item);
    var next := pos + |PrintItems(Front(items), n)|;
    LastItemValue(item, n, lines, next);
    SequenceLast(ItemNodes(Front(items)), n, lines, next);
  }

  /** For every printable block and all lines behind it. */
  lemma {:induction false} BlockThen(doc: Doc, n: nat, lines: seq<Line>, pos: nat)
    requires !doc.Flat? && DocOk(doc) && Stands(lines, pos, Print(doc, n))
    ensures pos + |Print(doc, n)| <= |lines| && ParseNode(lines, pos) == Then(doc, n, lines, pos + |Print(doc, n)|)
    ensures SkipEmpty(lines, pos) < |lines| && lines[SkipEmpty(lines, pos)].indent == n
    decreases doc, 0
  {
    hide DocOk, EntryOk, ItemOk, EntriesOk, ItemsOk, ParseNode, ParseMapping, ParseSequence, EntryLine, ItemLine,
      MappingColon, IsEntry, WellKeyed, Stands, PrintEntries, PrintItems, SkipEmpty, EntryText, TrimSpace, Then;
    LastOk(doc);
    match doc
    case Map(entries) =>
      NothingPrinted(n);
      FirstEntryFound(entries, n, lines, pos);
      EntryLineFull(entries[0], n);
      EntryLineReads(entries[0], n);
      NodeIsMapping(lines, pos);
      MapThen(entries, n, lines, pos);
    case Seq(items) =>
      FirstItemFound(items, n, lines, pos);
      ItemLineFull(items[0], n);
      ItemLineReads(items[0], n);
      NodeIsSequence(lines, pos);
      SeqThen(items, n, lines, pos);
  }

  lemma {:induction false} OneOk(e: Entry)
    requires EntryOk(e)
    ensures EntriesOk([e])
  {
  }

  lemma {:induction false} OneItemOk(item: Item)
    requires ItemOk(item)
    ensures ItemsOk([item])
  {
  }

  lemma {:induction false} MappingLast(node: Node, n: nat, lines: seq<Line>, pos: nat)
    requires pos <= |lines| && node.Mapping? && WellKeyed(node)
    requires var p := SkipEmpty(lines, pos); p < |lines| && MappingTakes(n, lines[p])
    ensures var p := SkipEmpty(lines, pos);
            var key := TrimSpace(lines[p].content[..MappingColon(lines[p].content)]);
            match MappingValue(lines, p, n)
            case Failed(error) => ParseMapping(lines, pos, n, node) == Failed(error)
            case Parsed(value, q) =>
              WellKeyed(SetKey(node, key, value)) &&
              ParseMapping(lines, pos, n, node) == ParseMapping(lines, q, n, SetKey(node, key, value))
  {
    hide MappingValue, MappingColon, SkipEmpty, TrimSpace, WellKeyed, ParseMapping, SetKey;
    if MappingValue(lines, SkipEmpty(lines, pos), n).Failed? {
      MappingFails(lines, pos, n, node);
    } else {
      MappingGoesOn(lines, pos, n, node);
    }
  }

  lemma {:induction false} SequenceLast(children: seq<Node>, n: nat, lines: seq<Line>, pos: nat)
    requires pos <= |lines| && forall i :: 0 <= i < |children| ==> WellKeyed(children[i])
    requires var p := SkipEmpty(lines, pos); p < |lines| && SequenceTakes(n, lines[p])
    ensures match SequenceItem(lines, SkipEmpty(lines, pos), n)
            case Failed(error) => ParseSequence(lines, pos, n, children) == Failed(error)
            case Parsed(value, q) =>
              WellKeyed(value) &&
              ParseSequence(lines, pos, n, children) == ParseSequence(lines, q, n, children + [value])
  {
    hide SequenceItem, IsEntry, SkipEmpty, WellKeyed, ParseSequence;
    if SequenceItem(lines, SkipEmpty(lines, pos), n).Failed? {
      SequenceFails(lines, pos, n, children);
    } else {
      SequenceGoesOn(lines, pos, n, children);
    }
  }

  // ----- the first line behind a tree -----

  /** No open block takes a line that is less indented than the tree. */
  lemma {:induction false} TakesDeeper(doc: Doc, n: nat, line: Line)
    requires Takes(doc, n, line)
    ensures line.indent >= n
    decreases doc
  {
    hide MappingColon, IsEntry;
    match doc
    case Map(entries) =>
      if !MappingTakes(n, line) {
        TakesDeeper(Last(entries).doc, n + Last(entries).deeper, line);
      }
    case Seq(items) =>
      if !SequenceTakes(n, line) {
        TakesDeeper(Last(items).doc, n + Last(items).deeper, line);
      }
  }

  lemma {:induction false} MappingStops(lines: seq<Line>, p: nat, n: nat, node: Node)
    requires p <= |lines| && node.Mapping? && WellKeyed(node)
    requires var q := SkipEmpty(lines, p); q < |lines| ==> !MappingTakes(n, lines[q])
    ensures ParseMapping(lines, p, n, node) == Parsed(node, SkipEmpty(lines, p))
  {
    hide MappingValue, MappingColon, SkipEmpty, WellKeyed;
  }

  lemma {:induction false} SequenceStops(lines: seq<Line>, p: nat, n: nat, children: seq<Node>)
    requires p <= |lines| && forall i :: 0 <= i < |children| ==> WellKeyed(children[i])
    requires var q := SkipEmpty(lines, p); q < |lines| ==> !SequenceTakes(n, lines[q])
    ensures ParseSequence(lines, p, n, children) == Parsed(Sequence(children), SkipEmpty(lines, p))
  {
    hide SequenceItem, IsEntry, SkipEmpty, WellKeyed;
  }

  /** A line that no open block takes ends all of them. */
  lemma {:induction false} ThenStops(doc: Doc, n: nat, lines: seq<Line>, p: nat)
    requires p <= |lines| && DocOk(doc) && !doc.Flat?
    requires var q := SkipEmpty(lines, p); q < |lines| ==> !Takes(doc, n, lines[q])
    ensures Then(doc, n, lines, p) == Parsed(NodeOf(doc), SkipEmpty(lines, p))
    decreases doc, 0
  {
    hide DocOk, Then, SkipEmpty, NodeOf;
    match doc
    case Map(entries) => MapStops(entries, n, lines, p);
    case Seq(items) => SeqStops(items, n, lines, p);
  }

  lemma {:induction false} MapStops(entries: seq<Entry>, n: nat, lines: seq<Line>, p: nat)
    requires p <= |lines| && DocOk(Map(entries))
    requires var q := SkipEmpty(lines, p); q < |lines| ==> !Takes(Map(entries), n, lines[q])
    ensures Then(Map(entries), n, lines, p) == Parsed(NodeOf(Map(entries)), SkipEmpty(lines, p))
    decreases entries, 1
  {
    hide DocOk, EntryOk, EntriesOk, ParseMapping, WithEntries, MappingTakes, WellKeyed, SkipEmpty, SetKey, NodeOf,
      LastValue;
    var doc := Map(entries);
    LastOk(doc);
    TreeKeyed(doc);
    SkipTwice(lines, p);
    NodeIs(doc);
    var e := Last(entries);
    if e.doc.Flat? {
      PlainStops(e.doc, n + e.deeper, lines, p);
      MappingStops(lines, p, n, NodeOf(doc));
    } else {
      ThenStops(e.doc, n + e.deeper, lines, p);
      InnerTakes(e.doc, n + e.deeper, lines, p);
      MappingStops(lines, SkipEmpty(lines, p), n, NodeOf(doc));
    }
  }

  lemma {:induction false} SeqStops(items: seq<Item>, n: nat, lines: seq<Line>, p: nat)
    requires p <= |lines| && DocOk(Seq(items))
    requires var q := SkipEmpty(lines, p); q < |lines| ==> !Takes(Seq(items), n, lines[q])
    ensures Then(Seq(items), n, lines, p) == Parsed(NodeOf(Seq(items)), SkipEmpty(lines, p))
    decreases items, 1
  {
    hide DocOk, ItemOk, ItemsOk, ParseSequence, ItemNodes, SequenceTakes, WellKeyed, SkipEmpty, NodeOf, LastValue;
    LastOk(Seq(items));
    ItemsKeyed(Front(items));
    NodeIs(Seq(items));
    SkipTwice(lines, p);
    var item := Last(items);
    TreeKeyed(item.doc);
    var children := ItemNodes(Front(items)) + [NodeOf(item.doc)];
    if item.doc.Flat? {
      PlainStops(item.doc, n + item.deeper, lines, p);
      SequenceStops(lines, p, n, children);
    } else {
      ThenStops(item.doc, n + item.deeper, lines, p);
      InnerTakes(item.doc, n + item.deeper, lines, p);
      SequenceStops(lines, SkipEmpty(lines, p), n, children);
    }
  }

  /** A tree in terms of its last part. */
  lemma {:induction false} NodeIs(doc: Doc)
    ensures doc.Map? && doc.entries != [] ==>
              NodeOf(doc).Mapping? && NodeOf(doc) ==
              SetKey(WithEntries(EMPTY_MAPPING, Front(doc.entries)), Last(doc.entries).key,
                  NodeOf(Last(doc.entries).doc))
    ensures doc.Seq? && doc.items != [] ==>
              NodeOf(doc) == Sequence(ItemNodes(Front(doc.items)) + [NodeOf(Last(doc.items).doc)])
  {
    hide WithEntries, SetKey, ItemNodes;
    if doc.Map? && doc.entries != [] {
      EntriesSnoc(EMPTY_MAPPING, doc.entries);
    } else if doc.Seq? && doc.items != [] {
      ItemsSnoc(doc.items);
    }
  }

  lemma {:induction false} MappingTakesHere(lines: seq<Line>, p: nat, n: nat, node: Node)
    requires p <= |lines| && node.Mapping? && WellKeyed(node)
    requires var q := SkipEmpty(lines, p); q < |lines| && MappingTakes(n, lines[q])
    ensures var (q, r) := (SkipEmpty(lines, p), ParseMapping(lines, p, n, node));
            var v := MappingValue(lines, q, n);
            (r.Parsed? ==> r.pos > q) && (v.Failed? ==> r == Failed(v.error)) &&
            (v.Parsed? && SkipEmpty(lines, v.pos) == |lines| ==>
               r == Parsed(SetKey(node, ScalarKey(lines[q].content), v.value), |lines|))
  {
    hide MappingValue, MappingColon, SkipEmpty, TrimSpace, WellKeyed, ParseMapping, SetKey;
    var q := SkipEmpty(lines, p);
    var v := MappingValue(lines, q, n);
    MappingLast(node, n, lines, p);
    if v.Parsed? && SkipEmpty(lines, v.pos) == |lines| {
      MappingStops(lines, v.pos, n, SetKey(node, ScalarKey(lines[q].content), v.value));
    }
  }

  lemma {:induction false} SequenceTakesHere(lines: seq<Line>, p: nat, n: nat, children: seq<Node>)
    requires p <= |lines| && forall i :: 0 <= i < |children| ==> WellKeyed(children[i])
    requires var q := SkipEmpty(lines, p); q < |lines| && SequenceTakes(n, lines[q])
    ensures var (q, r) := (SkipEmpty(lines, p), ParseSequence(lines, p, n, children));
            var v := SequenceItem(lines, q, n);
            (r.Parsed? ==> r.pos > q) && (v.Failed? ==> r == Failed(v.error)) &&
            (v.Parsed? && SkipEmpty(lines, v.pos) == |lines| ==>
               r == Parsed(Sequence(children + [v.value]), |lines|))
  {
    hide SequenceItem, IsEntry, SkipEmpty, WellKeyed, ParseSequence;
    var q := SkipEmpty(lines, p);
    var v := SequenceItem(lines, q, n);
    SequenceLast(children, n, lines, p);
    if v.Parsed? && SkipEmpty(lines, v.pos) == |lines| {
      SequenceStops(lines, v.pos, n, children + [v.value]);
    }
  }

  /** The block inside has stopped: the outer one is where it was, or at the line. */
  lemma {:induction false} InnerStops(doc: Doc, n: nat, lines: seq<Line>, p: nat)
    requires p <= |lines| && (!doc.Flat? ==> DocOk(doc))
    requires var q := SkipEmpty(lines, p); q < |lines| && lines[q].indent < n
    ensures var r := LastValue(doc, n, lines, p);
            r.Parsed? && r.value == NodeOf(doc) && SkipEmpty(lines, r.pos) == SkipEmpty(lines, p)
  {
    hide NodeOf, DocOk, Takes, SkipEmpty, Then;
    SkipTwice(lines, p);
    if !doc.Flat? {
      if Takes(doc, n, lines[SkipEmpty(lines, p)]) {
        TakesDeeper(doc, n, lines[SkipEmpty(lines, p)]);
      }
      ThenStops(doc, n, lines, p);
    }
  }

  lemma {:induction false} MapTakes(entries: seq<Entry>, n: nat, lines: seq<Line>, p: nat)
    requires p <= |lines| && DocOk(Map(entries))
    requires var q := SkipEmpty(lines, p); q < |lines| && Takes(Map(entries), n, lines[q])
    ensures Taken(Map(entries), n, lines, p)
    decreases entries, 1
  {
    hide DocOk, EntryOk, EntriesOk, ParseMapping, WithEntries, MappingTakes, WellKeyed, SkipEmpty, SetKey, NodeOf,
      MappingValue, LastValue;
    var doc, q := Map(entries), SkipEmpty(lines, p);
    LastOk(doc);
    TreeKeyed(doc);
    var e := Last(entries);
    if MappingTakes(n, lines[q]) {
      NodeIs(doc);
      OnLevel(n, lines[q]);
      if e.doc.Flat? {
        PlainStops(e.doc, n + e.deeper, lines, p);
      } else {
        InnerStops(e.doc, n + e.deeper, lines, p);
      }
      MappingTakesHere(lines, LastValue(e.doc, n + e.deeper, lines, p).pos, n, NodeOf(doc));
    } else {
      ThenTakes(e.doc, n + e.deeper, lines, p);
      InnerTakes(e.doc, n + e.deeper, lines, p);
      var r := LastValue(e.doc, n + e.deeper, lines, p);
      if r.Parsed? && r.pos == |lines| {
        NothingPrinted(0);
        EntriesKeyed(EMPTY_MAPPING, Front(entries));
        SetKeyKeeps(WithEntries(EMPTY_MAPPING, Front(entries)), e.key, r.value);
        AtTheEnd(lines);
        MappingStops(lines, |lines|, n, SetKey(WithEntries(EMPTY_MAPPING, Front(entries)), e.key, r.value));
      }
    }
  }

  lemma {:induction false} OnLevel(n: nat, line: Line)
    ensures MappingTakes(n, line) || SequenceTakes(n, line) ==> line.indent == n
  {
  }

  lemma {:induction false} PlainStops(doc: Doc, n: nat, lines: seq<Line>, p: nat)
    requires p <= |lines| && doc.Flat?
    ensures LastValue(doc, n, lines, p) == Parsed(NodeOf(doc), p)
  {
  }

  lemma {:induction false} InnerTakes(doc: Doc, n: nat, lines: seq<Line>, p: nat)
    requires p <= |lines| && !doc.Flat? && DocOk(doc)
    ensures LastValue(doc, n, lines, p) == Then(doc, n, lines, p)
  {
    hide Then;
  }

  lemma {:induction false} SeqTakes(items: seq<Item>, n: nat, lines: seq<Line>, p: nat)
    requires p <= |lines| && DocOk(Seq(items))
    requires var q := SkipEmpty(lines, p); q < |lines| && Takes(Seq(items), n, lines[q])
    ensures Taken(Seq(items), n, lines, p)
    decreases items, 1
  {
    hide DocOk, ItemOk, ItemsOk, ParseSequence, ItemNodes, SequenceTakes, WellKeyed, SkipEmpty, NodeOf, SequenceItem,
      LastValue;
    var doc, q := Seq(items), SkipEmpty(lines, p);
    LastOk(doc);
    ItemsKeyed(items);
    ItemsKeyed(Front(items));
    var item := Last(items);
    if SequenceTakes(n, lines[q]) {
      ItemsSnoc(items);
      OnLevel(n, lines[q]);
      if item.doc.Flat? {
        PlainStops(item.doc, n + item.deeper, lines, p);
      } else {
        InnerStops(item.doc, n + item.deeper, lines, p);
      }
      SequenceTakesHere(lines, LastValue(item.doc, n + item.deeper, lines, p).pos, n, ItemNodes(items));
    } else {
      ThenTakes(item.doc, n + item.deeper, lines, p);
      InnerTakes(item.doc, n + item.deeper, lines, p);
      var r := LastValue(item.doc, n + item.deeper, lines, p);
      if r.Parsed? && r.pos == |lines| {
        AtTheEnd(lines);
        SequenceStops(lines, |lines|, n, ItemNodes(Front(items)) + [r.value]);
      }
    }
  }

  /** A line that an open block takes is read: the cursor is behind it. If its
      value is an error, so is the document. If nothing but empty lines is behind
      the value, the result is the tree with the value in that block. */
  ghost predicate Taken(doc: Doc, n: nat, lines: seq<Line>, p: nat)
    requires p <= |lines| && DocOk(doc)
    requires var q := SkipEmpty(lines, p); q < |lines| && Takes(doc, n, lines[q])
  {
    var (q, r) := (SkipEmpty(lines, p), Then(doc, n, lines, p));
    var v := TakenValue(doc, n, lines, q);
    (r.Parsed? ==> r.pos > q) && (v.Failed? ==> r == Failed(v.error)) &&
    (v.Parsed? && SkipEmpty(lines, v.pos) == |lines| ==>
       r == Parsed(Extended(doc, n, lines[q], v.value), |lines|))
  }

  lemma {:induction false} ThenTakes(doc: Doc, n: nat, lines: seq<Line>, p: nat)
    requires p <= |lines| && DocOk(doc)
    requires var q := SkipEmpty(lines, p); q < |lines| && Takes(doc, n, lines[q])
    ensures Taken(doc, n, lines, p)
    decreases doc, 0
  {
    hide DocOk, Then, Extended, TakenValue, SkipEmpty, Taken;
    match doc
    case Map(entries) => MapTakes(entries, n, lines, p);
    case Seq(items) => SeqTakes(items, n, lines, p);
  }

  /** The first line behind a printed block that is not empty, if there is one, is
      dropped without an error, the result being the tree, exactly if no open
      block takes it; then nothing behind it is looked at either. */
  lemma {:induction false} LineDroppedExactly(doc: Doc, n: nat, lines: seq<Line>, pos: nat)
    requires !doc.Flat? && DocOk(doc) && Stands(lines, pos, Print(doc, n))
    ensures pos + |Print(doc, n)| <= |lines|
    ensures var q := SkipEmpty(lines, pos + |Print(doc, n)|);
            ParseNode(lines, pos) == Parsed(NodeOf(doc), q) <==> q == |lines| || !Takes(doc, n, lines[q])
  {
    hide DocOk, Then, SkipEmpty, NodeOf, Print, ParseNode, Takes, TakenValue, Extended;
    BlockThen(doc, n, lines, pos);
    var p := pos + |Print(doc, n)|;
    var q := SkipEmpty(lines, p);
    if q < |lines| && Takes(doc, n, lines[q]) {
      ThenTakes(doc, n, lines, p);
    } else {
      ThenStops(doc, n, lines, p);
    }
  }

  /** One that is taken is rejected if its value is an error, with that error; else
      it is kept, in the block that takes it, if nothing else is behind it. */
  lemma {:induction false} LineTaken(doc: Doc, n: nat, lines: seq<Line>, pos: nat)
    requires !doc.Flat? && DocOk(doc) && Stands(lines, pos, Print(doc, n)) && pos + |Print(doc, n)| <= |lines|
    requires var q := SkipEmpty(lines, pos + |Print(doc, n)|); q < |lines| && Takes(doc, n, lines[q])
    ensures var q := SkipEmpty(lines, pos + |Print(doc, n)|);
            match TakenValue(doc, n, lines, q)
            case Failed(e) => ParseNode(lines, pos) == Failed(e)
            case Parsed(value, end) =>
              (ParseNode(lines, pos).Parsed? ==> ParseNode(lines, pos).pos > q) &&
              (SkipEmpty(lines, end) == |lines| ==>
                 ParseNode(lines, pos) == Parsed(Extended(doc, n, lines[q], value), |lines|))
  {
    hide DocOk, Then, SkipEmpty, NodeOf, Print, ParseNode, Takes, TakenValue, Extended;
    BlockThen(doc, n, lines, pos);
    ThenTakes(doc, n, lines, pos + |Print(doc, n)|);
  }

  /** So a document ends at the first line behind a tree, and what follows is
      dropped without an error, exactly if no open block takes that line; behind
      a document that is a scalar none does. */
  lemma {:induction false} RestDropped(doc: Doc, n: nat, rest: seq<Line>)
    requires DocOk(doc) && (doc.Flat? ==> Written(doc.text) != "---") && rest != [] && !rest[0].isEmpty
    ensures ParseDocument(Print(doc, n) + rest) == Parsed(NodeOf(doc), |Print(doc, n)|) <==> !Takes(doc, n, rest[0])
  {
    hide Print, DocOk, NodeOf, ParseNode, Takes;
    var block := Print(doc, n);
    var lines := block + rest;
    assert Stands(lines, 0, block) && lines[|block|] == rest[0];
    FirstNotMarker(doc, n, lines, 0);
    if doc.Flat? {
      DocumentIsScalar(doc, n, lines);
    } else {
      LineDroppedExactly(doc, n, lines, 0);
    }
    SkipTwice(lines, 0);
    NodeFromGap(lines, 0);
  }

  lemma {:induction false} DocumentIsScalar(doc: Doc, n: nat, lines: seq<Line>)
    requires doc.Flat? && DocOk(doc) && Stands(lines, 0, Print(doc, n))
    ensures ParseNode(lines, 0) == Parsed(NodeOf(doc), |Print(doc, n)|)
    ensures forall line :: !Takes(doc, n, line)
  {
    hide ParseNode, NodeOf, TextOk;
    FlatParses(doc.text, n, lines, 0);
  }

  // ----- the text of a block scalar -----

  /** Lines that differ only in how deep they are. */
  predicate SameButIndent(a: seq<Line>, b: seq<Line>) {
    |a| == |b| && forall i :: 0 <= i < |a| ==> a[i].content == b[i].content && a[i].isEmpty == b[i].isEmpty
  }

  /** Where a block scalar ends: at a line that is not empty and less indented. */
  function BlockEnd(lines: seq<Line>, pos: nat, indent: nat): (end: nat)
    requires pos <= |lines|
    ensures pos <= end <= |lines|
    ensures forall i :: pos <= i < end ==> lines[i].isEmpty || lines[i].indent >= indent
    ensures end < |lines| ==> !lines[end].isEmpty && lines[end].indent < indent
    decreases |lines| - pos
  {
    if pos == |lines| || (!lines[pos].isEmpty && lines[pos].indent < indent) then pos
    else BlockEnd(lines, pos + 1, indent)
  }

  lemma {:induction false} BlockLinesAre(lines: seq<Line>, pos: nat, indent: nat, blank: string)
    requires pos <= |lines|
    ensures var (r, end) := (BlockLines(lines, pos, indent, blank), BlockEnd(lines, pos, indent));
            r.1 == end && |r.0| == end - pos &&
            forall i :: pos <= i < end ==> r.0[i - pos] == if lines[i].isEmpty then blank else lines[i].content
    decreases |lines| - pos
  {
    if !(pos == |lines| || (!lines[pos].isEmpty && lines[pos].indent < indent)) {
      BlockLinesAre(lines, pos + 1, indent, blank);
      var (r, rest) := (BlockLines(lines, pos, indent, blank), BlockLines(lines, pos + 1, indent, blank));
      assert r.0[1..] == rest.0;
      forall i | pos < i < r.1 ensures r.0[i - pos] == if lines[i].isEmpty then blank else lines[i].content {
        assert r.0[i - pos] == rest.0[i - (pos + 1)];
      }
    }
  }

  /** A block scalar keeps no indentation: anywhere in a document, with blank lines
      in it or not, its lines are the same however deep each of them is, exactly
      if it ends at the same line. */
  lemma {:induction false} IndentationDropped(a: seq<Line>, b: seq<Line>, pos: nat, m: nat, n: nat, blank: string)
    requires SameButIndent(a, b) && pos <= |a|
    ensures BlockLines(a, pos, m, blank) == BlockLines(b, pos, n, blank) <==> BlockEnd(a, pos, m) == BlockEnd(b, pos, n)
  {
    hide BlockLines, BlockEnd;
    BlockLinesAre(a, pos, m, blank);
    BlockLinesAre(b, pos, n, blank);
    if BlockEnd(a, pos, m) == BlockEnd(b, pos, n) {
      var (r, t) := (BlockLines(a, pos, m, blank), BlockLines(b, pos, n, blank));
      forall k | 0 <= k < |r.0| ensures r.0[k] == t.0[k] {
        assert r.0[k] == (if a[pos + k].isEmpty then blank else a[pos + k].content);
        assert t.0[k] == (if b[pos + k].isEmpty then blank else b[pos + k].content);
      }
      assert r.0 == t.0;
    }
  }

  // ----- when the text of a literal block is kept -----

  /** The lines of a text, indented by m. */
  function TextLines(ts: seq<string>, m: nat): (r: seq<Line>)
    ensures |r| == |ts| && forall i :: 0 <= i < |ts| ==> r[i] == ToLine(Spaces(m) + ts[i])
  {
    if ts == [] then [] else [ToLine(Spaces(m) + ts[0])] + TextLines(ts[1..], m)
  }

  /** A line of text that does not begin with a space or like a comment, and does
      not end in a blank. */
  predicate Fine(t: string) {
    t != "" && t[0] != ' ' && t[0] != '#' && !IsBlank(t[|t| - 1])
  }

  predicate TextKept(ts: seq<string>) {
    ts != [] && ts[0] != "" && Last(ts) != "" && forall i :: 0 <= i < |ts| ==> ts[i] == "" || Fine(ts[i])
  }

  predicate OneLineEach(ts: seq<string>) {
    forall i :: 0 <= i < |ts| ==> '\n' !in ts[i]
  }

  /** What a line counts as in a literal block. */
  function Part(line: Line): string {
    if line.isEmpty then "" else line.content
  }

  lemma {:induction false} TrimBlanksIs(s: string)
    ensures var r := TrimBlanks(s);
            r <= s && (r != "" ==> !IsBlank(r[|r| - 1])) && (s != "" && !IsBlank(s[|s| - 1]) ==> r == s)
  {
    if s != "" && IsBlank(s[|s| - 1]) {
      TrimBlanksIs(s[..|s| - 1]);
    }
  }

  lemma {:induction false} IndentIs(s: string)
    ensures var n := Indent(s); n < |s| ==> s[n] != ' '
  {
    if s != "" && s[0] == ' ' {
      IndentIs(s[1..]);
    }
  }

  /** A line that is not empty is fine, without its indentation. */
  lemma {:induction false} ContentFine(raw: string)
    ensures var line := ToLine(raw);
            (!line.isEmpty ==> Fine(line.content)) && ('\n' !in raw ==> '\n' !in line.content)
  {
    hide TrimBlanks, Indent;
    TrimBlanksIs(raw);
    IndentIs(TrimBlanks(raw));
  }

  /** A line of text comes back exactly if it is blank or fine; then it is
      indented by m. */
  lemma {:induction false} PartExactly(t: string, m: nat)
    requires '\n' !in t
    ensures var line := ToLine(Spaces(m) + t);
            (Part(line) == t <==> t == "" || Fine(t)) && (t == "" ==> line.isEmpty) &&
            (Fine(t) ==> line == Line(t, m, false))
  {
    hide ToLine, Spaces;
    ContentFine(Spaces(m) + t);
    if Fine(t) {
      LineReadsBack(Line(t, m, false));
    } else if t == "" {
      BlankLine(m);
    }
  }

  lemma {:induction false} BlankLine(m: nat)
    ensures ToLine(Spaces(m) + "").isEmpty
  {
    SpacesTrimmed(m);
    assert Spaces(m) + "" == Spaces(m);
  }

  lemma {:induction false} SpacesTrimmed(m: nat)
    ensures TrimBlanks(Spaces(m)) == "" && |Spaces(m)| == m && forall i :: 0 <= i < m ==> Spaces(m)[i] == ' '
  {
    if m > 0 {
      SpacesTrimmed(m - 1);
      var s := Spaces(m);
      assert s[..m - 1] == Spaces(m - 1);
    }
  }

  lemma {:induction false} DropTrailingIs(parts: seq<string>)
    ensures var r := DropTrailing(parts, "");
            r <= parts && (r != [] ==> Last(r) != "") && forall i :: |r| <= i < |parts| ==> parts[i] == ""
  {
    if parts != [] && parts[|parts| - 1] == "" {
      DropTrailingIs(parts[..|parts| - 1]);
    }
  }

  /** Texts of lines are told apart by their lines. */
  lemma {:induction false} JoinInjective(a: seq<string>, b: seq<string>)
    requires a != [] && b != [] && OneLineEach(a) && OneLineEach(b) && Join(a, '\n') == Join(b, '\n')
    ensures a == b
  {
    SplitOnJoin(a, '\n');
    SplitOnJoin(b, '\n');
  }

  lemma {:induction false} EmptyText(ts: seq<string>)
    requires ts != [] && Join(ts, '\n') == ""
    ensures ts == [""]
  {
  }

  /** The lines of a block scalar between two indentations, whose first line that
      is not empty is p, and behind which only empty lines come up to q. */
  lemma {:induction false} BlockParts(lines: seq<Line>, p: nat, q: nat) returns (parts: seq<string>)
    requires p < q <= |lines| && !lines[p].isEmpty
    requires q < |lines| ==> !lines[q].isEmpty && lines[q].indent < lines[p].indent
    ensures |parts| <= q - p && parts == BlockLines(lines, p, lines[p].indent, "").0
    ensures forall k :: 0 <= k < |parts| ==> parts[k] == Part(lines[p + k])
    ensures (forall i :: p <= i < q ==> lines[i].isEmpty || lines[i].indent >= lines[p].indent) ==> |parts| == q - p
  {
    hide BlockLines, BlockEnd;
    BlockLinesAre(lines, p, lines[p].indent, "");
    parts := BlockLines(lines, p, lines[p].indent, "").0;
    var end := BlockEnd(lines, p, lines[p].indent);
    forall k | 0 <= k < |parts| ensures parts[k] == Part(lines[p + k]) {
      assert parts[p + k - p] == (if lines[p + k].isEmpty then "" else lines[p + k].content);
    }
  }

  /** The texts stand in the lines from pos on, indented by m; what follows
      belongs to the parent or is nothing. */
  ghost predicate TextStands(ts: seq<string>, m: nat, parent: nat, lines: seq<Line>, pos: nat) {
    ts != [] && OneLineEach(ts) && m > parent && Stands(lines, pos, TextLines(ts, m)) &&
    var q := SkipEmpty(lines, pos + |ts|);
    q < |lines| ==> lines[q].indent <= parent
  }

  lemma {:induction false} TextLineAt(ts: seq<string>, m: nat, lines: seq<Line>, pos: nat, k: nat)
    requires Stands(lines, pos, TextLines(ts, m)) && k < |ts|
    ensures pos + k < |lines| && lines[pos + k] == ToLine(Spaces(m) + ts[k])
  {
    hide ToLine, Spaces;
    assert lines[pos..pos + |ts|][k] == TextLines(ts, m)[k];
  }

  lemma {:induction false} EmptyUpTo(lines: seq<Line>, pos: nat)
    requires pos <= |lines|
    ensures forall i :: pos <= i < SkipEmpty(lines, pos) ==> lines[i].isEmpty
    decreases |lines| - pos
  {
    if pos < |lines| && lines[pos].isEmpty {
      EmptyUpTo(lines, pos + 1);
    }
  }

  lemma {:induction false} LiteralIs(lines: seq<Line>, pos: nat, parent: nat)
    requires pos <= |lines|
    ensures var p := SkipEmpty(lines, pos);
            BlockScalar(lines, pos, parent, "", '\n').value ==
            if p == |lines| || lines[p].indent <= parent then Scalar("")
            else Scalar(Join(DropTrailing(BlockLines(lines, p, lines[p].indent, "").0, ""), '\n'))
  {
    hide BlockLines, DropTrailing, SkipEmpty;
  }

  lemma {:induction false} SkipWithin(lines: seq<Line>, pos: nat, n: nat)
    requires pos + n <= |lines|
    ensures SkipEmpty(lines, pos) < pos + n || SkipEmpty(lines, pos) == SkipEmpty(lines, pos + n)
    decreases n
  {
    if n > 0 && lines[pos].isEmpty {
      SkipWithin(lines, pos + 1, n - 1);
    }
  }

  /** Text that is fine line by line, and begins and ends with one that is not
      blank. */
  lemma {:induction false} LiteralKept(ts: seq<string>, m: nat, parent: nat, lines: seq<Line>, pos: nat)
    requires TextStands(ts, m, parent, lines, pos) && TextKept(ts)
    ensures BlockScalar(lines, pos, parent, "", '\n').value == Scalar(Join(ts, '\n'))
  {
    hide Fine, ToLine, Spaces, BlockScalar, BlockLines, DropTrailing, SkipEmpty, TextLines, Stands;
    StandsFits(lines, pos, TextLines(ts, m));
    var q := SkipEmpty(lines, pos + |ts|);
    EmptyUpTo(lines, pos + |ts|);
    forall k | 0 <= k < |ts|
      ensures Part(lines[pos + k]) == ts[k]
    {
      TextLineAt(ts, m, lines, pos, k);
      PartExactly(ts[k], m);
    }
    forall i | pos <= i < q ensures lines[i].isEmpty || lines[i].indent == m {
      if i < pos + |ts| {
        TextLineAt(ts, m, lines, pos, i - pos);
        PartExactly(ts[i - pos], m);
      }
    }
    assert Part(lines[pos + 0]) == ts[0];
    NotEmptyHere(lines, pos);
    LiteralIs(lines, pos, parent);
    var parts := BlockParts(lines, pos, q);
    DropTrailingIs(parts);
    var kept := DropTrailing(parts, "");
    assert parts[|ts| - 1] == Last(ts);
    assert kept == ts;
  }

  lemma {:induction false} NotEmptyHere(lines: seq<Line>, pos: nat)
    requires pos < |lines| && !lines[pos].isEmpty
    ensures SkipEmpty(lines, pos) == pos
  {
  }

  /** And no other text, but for a single blank line. */
  lemma {:induction false} LiteralLost(ts: seq<string>, m: nat, parent: nat, lines: seq<Line>, pos: nat)
    requires TextStands(ts, m, parent, lines, pos)
    requires BlockScalar(lines, pos, parent, "", '\n').value == Scalar(Join(ts, '\n'))
    ensures ts == [""] || TextKept(ts)
  {
    hide Fine, ToLine, Spaces, BlockScalar, BlockLines, DropTrailing, SkipEmpty, TextLines, Stands, Join;
    StandsFits(lines, pos, TextLines(ts, m));
    var n := |ts|;
    var p, q := SkipEmpty(lines, pos), SkipEmpty(lines, pos + n);
    EmptyUpTo(lines, pos + n);
    SkipWithin(lines, pos, n);
    LiteralIs(lines, pos, parent);
    if p == |lines| || lines[p].indent <= parent {
      EmptyText(ts);
    } else {
      var parts := BlockParts(lines, p, q);
      DropTrailingIs(parts);
      var kept := DropTrailing(parts, "");
      forall k | 0 <= k < |kept| ensures '\n' !in kept[k] && kept[k] == Part(lines[p + k]) {
        if p + k < pos + n {
          TextLineAt(ts, m, lines, pos, p + k - pos);
          SpacesNoBreak(m);
          ContentFine(Spaces(m) + ts[p + k - pos]);
        }
      }
      if kept == [] {
        NothingJoined();
        EmptyText(ts);
      } else {
        JoinInjective(kept, ts);
        assert kept[n - 1] == Part(lines[p + n - 1]);
        forall k | 0 <= k < n ensures ts[k] == "" || Fine(ts[k]) {
          TextLineAt(ts, m, lines, pos, k);
          PartExactly(ts[k], m);
        }
        TextLineAt(ts, m, lines, pos, 0);
        ContentFine(Spaces(m) + ts[0]);
        FineNotEmpty(ts[0]);
      }
    }
  }

  lemma {:induction false} FineNotEmpty(t: string)
    ensures Fine(t) ==> t != ""
  {
  }

  lemma {:induction false} NothingJoined()
    ensures Join([], '\n') == ""
  {
  }

  lemma {:induction false} SpacesNoBreak(m: nat)
    ensures '\n' !in Spaces(m)
  {
    SpacesTrimmed(m);
  }

  /** The text of a literal block, anywhere in a document, is kept exactly if no
      line of it begins with a space or like a comment or ends in a blank, and
      its first and last lines are not blank. */
  lemma {:induction false} LiteralKeptExactly(ts: seq<string>, m: nat, parent: nat, lines: seq<Line>, pos: nat)
    requires TextStands(ts, m, parent, lines, pos)
    ensures BlockScalar(lines, pos, parent, "", '\n').value == Scalar(Join(ts, '\n')) <==> ts == [""] || TextKept(ts)
  {
    hide TextStands, TextKept, BlockScalar;
    TextFits(ts, m, parent, lines, pos);
    if BlockScalar(lines, pos, parent, "", '\n').value == Scalar(Join(ts, '\n')) {
      LiteralLost(ts, m, parent, lines, pos);
    } else if ts == [""] {
      OneBlank(m, parent, lines, pos);
    } else if TextKept(ts) {
      LiteralKept(ts, m, parent, lines, pos);
    }
  }

  lemma {:induction false} TextFits(ts: seq<string>, m: nat, parent: nat, lines: seq<Line>, pos: nat)
    requires TextStands(ts, m, parent, lines, pos)
    ensures pos + |ts| <= |lines|
  {
  }

  lemma {:induction false} OneBlank(m: nat, parent: nat, lines: seq<Line>, pos: nat)
    requires TextStands([""], m, parent, lines, pos)
    ensures BlockScalar(lines, pos, parent, "", '\n').value == Scalar(Join([""], '\n'))
  {
    hide ToLine, Spaces, BlockLines, DropTrailing, SkipEmpty, TextLines, Stands, BlockScalar;
    StandsFits(lines, pos, TextLines([""], m));
    TextLineAt([""], m, lines, pos, 0);
    BlankLine(m);
    SkipOne(lines, pos);
    LiteralIs(lines, pos, parent);
  }

  lemma {:induction false} SkipOne(lines: seq<Line>, pos: nat)
    requires pos < |lines| && lines[pos].isEmpty
    ensures SkipEmpty(lines, pos) == SkipEmpty(lines, pos + 1)
  {
  }

  /** The same for the entry of a mapping. */
  lemma {:induction false} LiteralEntryExactly(key: string, ts: seq<string>, m: nat, n: nat, lines: seq<Line>, p: nat)
    requires KeyOk(key) && p < |lines| && lines[p] == Line(key + ":" + " |", n, false)
    requires TextStands(ts, m, n, lines, p + 1)
    ensures MappingTakes(n, lines[p]) && ScalarKey(lines[p].content) == key && MappingValue(lines, p, n).Parsed?
    ensures MappingValue(lines, p, n).value == Scalar(Join(ts, '\n')) <==> ts == [""] || TextKept(ts)
  {
    hide TextStands, TextKept, BlockScalar, TrimSpace, FindColon, ParseNode, Join;
    var content := lines[p].content;
    KeyColon(key, " |", '\0');
    assert content[..|key|] == key && content[|key| + 1..] == " |";
    TrimmedStays(key);
    TrimmedStays("|");
    assert " " + "|" == " |";
    LiteralKeptExactly(ts, m, n, lines, p + 1);
  }
}
