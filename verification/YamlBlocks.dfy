/** Values over several lines that are not trees: block scalars, literal and
    folded, and mappings that begin behind a dash. */
module YamlBlocks {
  import opened Text
  import opened Yaml
  import opened YamlFlow
  import opened YamlPrinter
  import opened YamlRest

  // ----- block scalars -----

  function Marked(ts: seq<string>, blank: string): (r: seq<string>)
    ensures |r| == |ts| && forall i :: 0 <= i < |r| ==> r[i] == if ts[i] == "" then blank else ts[i]
  {
    if ts == [] then [] else [if ts[0] == "" then blank else ts[0]] + Marked(ts[1..], blank)
  }

  /** One space between neighbours; an empty line counts as a line feed. */
  function Folded(ts: seq<string>): string
    requires ts != []
    decreases ts
  {
    var first := if ts[0] == "" then "\n" else ts[0];
    if |ts| == 1 then first else first + " " + Folded(ts[1..])
  }

  lemma {:induction false} DropTrailingIs(parts: seq<string>, blank: string)
    ensures var r := DropTrailing(parts, blank);
            r <= parts && (r != [] ==> Last(r) != "" && Last(r) != blank) &&
            forall i :: |r| <= i < |parts| ==> parts[i] == "" || parts[i] == blank
  {
    if parts != [] && (parts[|parts| - 1] == "" || parts[|parts| - 1] == blank) {
      DropTrailingIs(parts[..|parts| - 1], blank);
    }
  }

  lemma {:induction false} BlockIs(lines: seq<Line>, pos: nat, parent: nat, blank: string, sep: char)
    requires pos < |lines| && !lines[pos].isEmpty && lines[pos].indent > parent
    ensures var block := BlockLines(lines, pos, lines[pos].indent, blank);
            BlockScalar(lines, pos, parent, blank, sep) ==
            Parsed(Scalar(Join(DropTrailing(block.0, blank), sep)), block.1)
  {
    hide BlockLines, DropTrailing, SkipEmpty;
    NotEmptyHere(lines, pos);
  }

  /** The lines of the text, and the empty ones behind it, make up the block. */
  lemma {:induction false} TextLinesAre(ts: seq<string>, m: nat, parent: nat, lines: seq<Line>, pos: nat)
    requires TextStands(ts, m, parent, lines, pos) && TextKept(ts)
    ensures pos + |ts| <= |lines|
    ensures forall k :: 0 <= k < |ts| ==>
              lines[pos + k].isEmpty == (ts[k] == "") && (ts[k] != "" ==> lines[pos + k] == Line(ts[k], m, false))
    ensures forall i :: pos + |ts| <= i < SkipEmpty(lines, pos + |ts|) ==> lines[i].isEmpty
  {
    hide Fine, ToLine, Spaces, SkipEmpty, TextLines, Stands;
    StandsFits(lines, pos, TextLines(ts, m));
    EmptyUpTo(lines, pos + |ts|);
    forall k | 0 <= k < |ts|
      ensures lines[pos + k].isEmpty == (ts[k] == "") && (ts[k] != "" ==> lines[pos + k] == Line(ts[k], m, false))
    {
      TextLineAt(ts, m, lines, pos, k);
      PartExactly(ts[k], m);
    }
  }

  lemma {:induction false} BlockEnds(lines: seq<Line>, pos: nat, m: nat, q: nat)
    requires pos <= q <= |lines| && forall i :: pos <= i < q ==> lines[i].isEmpty || lines[i].indent >= m
    requires q < |lines| ==> !lines[q].isEmpty && lines[q].indent < m
    ensures BlockEnd(lines, pos, m) == q
  {
    hide BlockEnd;
    var end := BlockEnd(lines, pos, m);
  }

  lemma {:induction false} TextParts(
    ts: seq<string>, m: nat, parent: nat, lines: seq<Line>, pos: nat, blank: string) returns (parts: seq<string>)
    requires TextStands(ts, m, parent, lines, pos) && TextKept(ts)
    ensures pos + |ts| <= |lines| && lines[pos] == Line(ts[0], m, false)
    ensures BlockLines(lines, pos, m, blank) == (parts, SkipEmpty(lines, pos + |ts|))
    ensures |parts| >= |ts|
    ensures forall k :: 0 <= k < |parts| ==> parts[k] == if k < |ts| then Marked(ts, blank)[k] else blank
  {
    hide Fine, ToLine, Spaces, BlockLines, BlockEnd, SkipEmpty, TextLines, Stands;
    var n, q := |ts|, SkipEmpty(lines, pos + |ts|);
    TextLinesAre(ts, m, parent, lines, pos);
    assert lines[pos + 0] == Line(ts[0], m, false);
    forall i | pos <= i < q ensures lines[i].isEmpty || lines[i].indent == m {
      if i < pos + n {
        assert lines[pos + (i - pos)].isEmpty == (ts[i - pos] == "");
      }
    }
    BlockEnds(lines, pos, m, q);
    BlockLinesAre(lines, pos, m, blank);
    parts := BlockLines(lines, pos, m, blank).0;
    forall k | 0 <= k < |parts| ensures parts[k] == if k < n then Marked(ts, blank)[k] else blank {
      assert parts[pos + k - pos] == if lines[pos + k].isEmpty then blank else lines[pos + k].content;
    }
  }

  lemma {:induction false} TextKeptOnly(ts: seq<string>, parts: seq<string>, blank: string)
    requires TextKept(ts) && OneLineEach(ts) && (blank == "" || blank == "\n") && |parts| >= |ts|
    requires forall k :: 0 <= k < |parts| ==> parts[k] == if k < |ts| then Marked(ts, blank)[k] else blank
    ensures DropTrailing(parts, blank) == Marked(ts, blank)
  {
    hide Fine, DropTrailing;
    DropTrailingIs(parts, blank);
    var n := |ts|;
    assert ts[n - 1] != "" && '\n' !in ts[n - 1];
    assert parts[n - 1] == ts[n - 1] != "\n" by {
      assert "\n"[0] == '\n';
    }
  }

  /** The text of a block, whose lines are fine and whose first and last ones are
      not blank, is kept but for its indentation. */
  lemma {:induction false} BlockReads(
    ts: seq<string>, m: nat, parent: nat, lines: seq<Line>, pos: nat, blank: string, sep: char)
    requires TextStands(ts, m, parent, lines, pos) && TextKept(ts) && (blank == "" || blank == "\n")
    ensures BlockScalar(lines, pos, parent, blank, sep) ==
            Parsed(Scalar(Join(Marked(ts, blank), sep)), SkipEmpty(lines, pos + |ts|))
  {
    hide BlockScalar, BlockLines, DropTrailing, SkipEmpty, TextLines, Stands, Join, TextKept, Marked;
    var parts := TextParts(ts, m, parent, lines, pos, blank);
    BlockIs(lines, pos, parent, blank, sep);
    TextKeptOnly(ts, parts, blank);
  }

  lemma {:induction false} JoinIsFolded(ts: seq<string>)
    requires ts != []
    ensures Join(Marked(ts, "\n"), ' ') == Folded(ts)
    decreases ts
  {
    if |ts| > 1 {
      JoinIsFolded(ts[1..]);
      assert Marked(ts, "\n")[1..] == Marked(ts[1..], "\n");
    }
  }

  lemma {:induction false} BlockEntry(key: string, sign: char, n: nat, lines: seq<Line>, p: nat)
    requires KeyOk(key) && p < |lines| && lines[p] == Line(key + ":" + " " + [sign], n, false)
    ensures sign == '|' ==> MappingTakes(n, lines[p]) && ScalarKey(lines[p].content) == key &&
                            MappingValue(lines, p, n) == BlockScalar(lines, p + 1, n, "", '\n')
    ensures sign == '>' ==> MappingTakes(n, lines[p]) && ScalarKey(lines[p].content) == key &&
                            MappingValue(lines, p, n) == BlockScalar(lines, p + 1, n, "\n", ' ')
  {
    hide BlockScalar, TrimSpace, FindColon, ParseNode;
    if sign == '|' || sign == '>' {
      var content := lines[p].content;
      assert content == key + ":" + (" " + [sign]);
      KeyColon(key, " " + [sign], '\0');
      assert content[..|key|] == key && content[|key| + 1..] == " " + [sign];
      TrimmedStays(key);
      TrimmedStays([sign]);
    }
  }

  /** The entry `key: >` and its text, a line each. */
  lemma {:induction false} FoldedEntry(key: string, ts: seq<string>, m: nat, n: nat, lines: seq<Line>, p: nat)
    requires KeyOk(key) && p < |lines| && lines[p] == Line(key + ":" + " >", n, false)
    requires TextStands(ts, m, n, lines, p + 1) && TextKept(ts)
    ensures MappingTakes(n, lines[p]) && ScalarKey(lines[p].content) == key
    ensures MappingValue(lines, p, n) == Parsed(Scalar(Folded(ts)), SkipEmpty(lines, p + 1 + |ts|))
  {
    hide TextStands, TextKept, BlockScalar, MappingValue, SkipEmpty, ScalarKey, Join, Folded;
    assert key + ":" + " >" == key + ":" + " " + ['>'];
    BlockEntry(key, '>', n, lines, p);
    BlockReads(ts, m, n, lines, p + 1, "\n", ' ');
    TextThere(ts, m, n, lines, p + 1);
    JoinIsFolded(ts);
  }

  lemma {:induction false} TextThere(ts: seq<string>, m: nat, parent: nat, lines: seq<Line>, pos: nat)
    requires TextStands(ts, m, parent, lines, pos)
    ensures ts != []
  {
  }

  /** The entry `key: |` and its text. */
  lemma {:induction false} LiteralEntry(key: string, ts: seq<string>, m: nat, n: nat, lines: seq<Line>, p: nat)
    requires KeyOk(key) && p < |lines| && lines[p] == Line(key + ":" + " |", n, false)
    requires TextStands(ts, m, n, lines, p + 1) && TextKept(ts)
    ensures MappingTakes(n, lines[p]) && ScalarKey(lines[p].content) == key
    ensures MappingValue(lines, p, n) == Parsed(Scalar(Join(ts, '\n')), SkipEmpty(lines, p + 1 + |ts|))
  {
    hide TextStands, TextKept, BlockScalar, MappingValue, SkipEmpty, ScalarKey, Join;
    assert key + ":" + " |" == key + ":" + " " + ['|'];
    BlockEntry(key, '|', n, lines, p);
    BlockReads(ts, m, n, lines, p + 1, "", '\n');
    assert Marked(ts, "") == ts;
  }

  /** A block sign, or nothing, behind a key with no deeper line below: an empty
      scalar, and the cursor at the next line that is not empty. */
  lemma {:induction false} NothingBelow(key: string, sign: string, n: nat, lines: seq<Line>, p: nat)
    requires KeyOk(key) && sign in ["", " |", " >"] && p < |lines| && lines[p] == Line(key + ":" + sign, n, false)
    requires var q := SkipEmpty(lines, p + 1); q == |lines| || lines[q].indent <= n
    ensures MappingTakes(n, lines[p]) && ScalarKey(lines[p].content) == key
    ensures MappingValue(lines, p, n) == Parsed(Scalar(""), SkipEmpty(lines, p + 1))
  {
    hide TrimSpace, FindColon, ParseNode, BlockLines, DropTrailing, SkipEmpty;
    if sign == "" {
      KeyColon(key, "", '\0');
      assert key + ":" + "" == key + ":";
      assert lines[p].content[..|key|] == key && lines[p].content[|key| + 1..] == "";
      TrimmedStays(key);
      NothingTrimmed();
    } else {
      var c := sign[1];
      assert sign == " " + [c];
      BlockEntry(key, c, n, lines, p);
    }
  }

  // ----- a mapping behind a dash -----

  /** A further key of such a mapping, on a line of its own, however deep. */
  datatype Further = Further(gap: seq<Line>, indent: nat, key: string, value: OneLine)

  predicate ScalarOk(o: OneLine) {
    IsScalar(o) && OneLineOk(o) && Trimmed(Written(o))
  }

  function KeyText(key: string, value: OneLine): string {
    key + ":" + (" " + Written(value))
  }

  predicate FurtherOk(f: Further, n: nat) {
    AllEmpty(f.gap) && f.indent > n && KeyOk(f.key) && ScalarOk(f.value)
  }

  predicate AllFurtherOk(fs: seq<Further>, n: nat) {
    forall i :: 0 <= i < |fs| ==> FurtherOk(fs[i], n)
  }

  function FurtherLines(fs: seq<Further>): seq<Line> {
    if fs == [] then []
    else fs[0].gap + ([Line(KeyText(fs[0].key, fs[0].value), fs[0].indent, false)] + FurtherLines(fs[1..]))
  }

  function WithFurther(node: Node, fs: seq<Further>): (r: Node)
    requires node.Mapping?
    ensures r.Mapping?
    decreases fs
  {
    if fs == [] then node else WithFurther(SetKey(node, fs[0].key, Value(fs[0].value)), fs[1..])
  }

  lemma {:induction false} KeyTextReads(key: string, value: OneLine)
    requires KeyOk(key) && ScalarOk(value)
    ensures var text := KeyText(key, value);
            MappingColon(text) > 0 && ScalarKey(text) == key && ScalarValue(text) == Value(value) &&
            TrimSpace(text) == text && text != ""
  {
    hide TrimLeft, TrimRight, TrimSpace, FindColon, Unquote, Written;
    var w := Written(value);
    var text := key + ":" + (" " + w);
    KeyColon(key, " " + w, '\0');
    assert text[..|key|] == key && text[|key| + 1..] == " " + w;
    TrimmedStays(key);
    TrimmedStays(w);
    ScalarReads(value);
    assert Value(value) == Scalar(value.value);
    assert text[0] == key[0] && text[|text| - 1] == w[|w| - 1];
  }

  lemma {:induction false} InlineGoesOn(lines: seq<Line>, pos: nat, n: nat, node: Node)
    requires pos <= |lines| && node.Mapping? && WellKeyed(node)
    requires var p := SkipEmpty(lines, pos);
             p < |lines| && lines[p].indent > n && MappingColon(lines[p].content) > 0
    ensures var p := SkipEmpty(lines, pos);
            var next := SetKey(node, ScalarKey(lines[p].content), ScalarValue(lines[p].content));
            WellKeyed(next) && InlineMapping(lines, pos, n, node) == InlineMapping(lines, p + 1, n, next)
  {
    hide MappingColon, SkipEmpty, ScalarKey, ScalarValue, WellKeyed;
    var text := lines[SkipEmpty(lines, pos)].content;
    WordKeyed(ScalarValue(text).value);
    SetKeyKeeps(node, ScalarKey(text), ScalarValue(text));
  }

  lemma {:induction false} InlineReads(fs: seq<Further>, n: nat, node: Node, lines: seq<Line>, pos: nat)
    requires node.Mapping? && WellKeyed(node) && AllFurtherOk(fs, n) && Stands(lines, pos, FurtherLines(fs))
    requires var q := SkipEmpty(lines, pos + |FurtherLines(fs)|);
             q == |lines| || lines[q].indent <= n || MappingColon(lines[q].content) <= 0
    ensures InlineMapping(lines, pos, n, node) ==
            Parsed(WithFurther(node, fs), SkipEmpty(lines, pos + |FurtherLines(fs)|))
    decreases fs
  {
    hide KeyText, KeyOk, ScalarOk, AllEmpty, SkipEmpty, MappingColon, ScalarKey, ScalarValue, WellKeyed, SetKey, Stands,
      InlineMapping;
    if fs == [] {
      StandsFits(lines, pos, []);
      InlineEnds(lines, pos, n, node);
    } else {
      var f := fs[0];
      var line, rest := Line(KeyText(f.key, f.value), f.indent, false), FurtherLines(fs[1..]);
      assert FurtherOk(f, n);
      FindsLine(lines, pos, f.gap, line, rest);
      KeyTextReads(f.key, f.value);
      InlineGoesOn(lines, pos, n, node);
      InlineReads(fs[1..], n, SetKey(node, f.key, Value(f.value)), lines, pos + |f.gap| + 1);
    }
  }

  lemma {:induction false} InlineEnds(lines: seq<Line>, pos: nat, n: nat, node: Node)
    requires pos <= |lines| && node.Mapping? && WellKeyed(node)
    requires var q := SkipEmpty(lines, pos);
             q == |lines| || lines[q].indent <= n || MappingColon(lines[q].content) <= 0
    ensures InlineMapping(lines, pos, n, node) == Parsed(node, SkipEmpty(lines, pos))
  {
    hide MappingColon, SkipEmpty, WellKeyed;
  }

  lemma {:induction false} OneKey(key: string, value: OneLine)
    ensures SetKey(EMPTY_MAPPING, key, Value(value)) == Mapping([key], map[key := Value(value)])
    ensures WellKeyed(Mapping([key], map[key := Value(value)]))
  {
    hide Value, WellKeyed;
    ValueKeyed(value);
    KeyedNothing();
    SetKeyKeeps(EMPTY_MAPPING, key, Value(value));
    var node := SetKey(EMPTY_MAPPING, key, Value(value));
    assert node.keys == [key] && node.entries == map[key := Value(value)];
  }

  lemma {:induction false} KeyedNothing()
    ensures WellKeyed(EMPTY_MAPPING)
  {
  }

  lemma {:induction false} ItemIsInline(key: string, value: OneLine, n: nat, lines: seq<Line>, p: nat)
    requires KeyOk(key) && ScalarOk(value) && p < |lines| && lines[p] == Line("- " + KeyText(key, value), n, false)
    ensures SequenceTakes(n, lines[p])
    ensures WellKeyed(Mapping([key], map[key := Value(value)]))
    ensures SequenceItem(lines, p, n) == InlineMapping(lines, p + 1, n, Mapping([key], map[key := Value(value)]))
  {
    hide KeyText, KeyOk, ScalarOk, SkipEmpty, MappingColon, ScalarKey, ScalarValue, WellKeyed, InlineMapping, TrimSpace,
      Value, SetKey;
    KeyTextReads(key, value);
    assert ("- " + KeyText(key, value))[2..] == KeyText(key, value);
    OneKey(key, value);
  }

  /** The item `- key: value` with further keys below: one mapping, up to the first
      line that is as little indented as the dash or has no key. */
  lemma {:induction false} InlineItemReads(
    key: string, value: OneLine, fs: seq<Further>, n: nat, lines: seq<Line>, p: nat)
    requires KeyOk(key) && ScalarOk(value) && AllFurtherOk(fs, n)
    requires p < |lines| && lines[p] == Line("- " + KeyText(key, value), n, false)
    requires Stands(lines, p + 1, FurtherLines(fs))
    requires var q := SkipEmpty(lines, p + 1 + |FurtherLines(fs)|);
             q == |lines| || lines[q].indent <= n || MappingColon(lines[q].content) <= 0
    ensures SequenceTakes(n, lines[p]) &&
            SequenceItem(lines, p, n) ==
            Parsed(WithFurther(Mapping([key], map[key := Value(value)]), fs),
                   SkipEmpty(lines, p + 1 + |FurtherLines(fs)|))
  {
    hide KeyText, KeyOk, ScalarOk, SkipEmpty, MappingColon, WellKeyed, Stands, FurtherLines, SequenceItem,
      InlineMapping, WithFurther, Value, AllFurtherOk;
    ItemIsInline(key, value, n, lines, p);
    InlineReads(fs, n, Mapping([key], map[key := Value(value)]), lines, p + 1);
  }
}
