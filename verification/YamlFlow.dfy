/** Values that stand on one line: plain and quoted scalars and flow collections,
    by the characters that they are written with. */
module YamlFlow {
  import opened Bytes
  import opened Text
  import opened Yaml

  // ----- text in which quotes and brackets are closed -----

  datatype Chunk =
    | Chars(text: string)
    | InQuotes(quote: char, text: string)
    | InBrackets(open: char, inner: seq<Chunk>, close: char)

  function ChunkText(c: Chunk): string
    decreases c, 0
  {
    match c
    case Chars(text) => text
    case InQuotes(quote, text) => [quote] + text + [quote]
    case InBrackets(open, inner, close) => [open] + ChunksText(inner) + [close]
  }

  function ChunksText(cs: seq<Chunk>): string
    decreases cs, 1
  {
    if cs == [] then "" else ChunkText(cs[0]) + ChunksText(cs[1..])
  }

  predicate IsQuote(c: char) {
    c == '"' || c == '\''
  }

  /** Commas are free inside quotes and brackets only. */
  predicate ChunkOk(c: Chunk, commas: bool)
    decreases c, 0
  {
    match c
    case Chars(text) => forall ch :: ch in text ==> ch !in "\"'[]{}" && (commas || ch != ',')
    case InQuotes(quote, text) => IsQuote(quote) && quote !in text
    case InBrackets(open, inner, close) => open in "[{" && close in "]}" && ChunksOk(inner, true)
  }

  predicate ChunksOk(cs: seq<Chunk>, commas: bool)
    decreases cs, 1
  {
    cs == [] || (ChunkOk(cs[0], commas) && ChunksOk(cs[1..], commas))
  }

  // ----- scalars, and the members of flow collections -----

  /** Text that reads as itself unless it both begins and ends with one quote. */
  predicate Bare(text: string) {
    !(|text| >= 2 && IsQuote(text[0]) && text[0] == text[|text| - 1])
  }

  datatype Word = Unquoted(chunks: seq<Chunk>) | Quoted(quote: char, value: string)

  function WordText(w: Word): string {
    match w
    case Unquoted(chunks) => ChunksText(chunks)
    case Quoted(quote, value) => [quote] + value + [quote]
  }

  function WordValue(w: Word): string {
    match w
    case Unquoted(chunks) => ChunksText(chunks)
    case Quoted(quote, value) => value
  }

  predicate WordOk(w: Word) {
    match w
    case Unquoted(chunks) => ChunksOk(chunks, false) && Tight(ChunksText(chunks)) && Bare(ChunksText(chunks))
    case Quoted(quote, value) => IsQuote(quote) && quote !in value
  }

  /** A word with blanks around it. */
  datatype Piece = Piece(left: string, word: Word, right: string)

  datatype Pair = Pair(left: string, key: seq<Chunk>, right: string, value: Piece)

  function PieceText(p: Piece): string {
    p.left + WordText(p.word) + p.right
  }

  predicate PieceOk(p: Piece) {
    Blank(p.left) && Blank(p.right) && WordOk(p.word)
  }

  function PairText(p: Pair): string {
    p.left + ChunksText(p.key) + p.right + ":" + PieceText(p.value)
  }

  /** A key reads up to the first colon, quotes and all. */
  predicate PairOk(p: Pair) {
    Blank(p.left) && Blank(p.right) && ChunksOk(p.key, false) && Tight(ChunksText(p.key)) &&
    ':' !in ChunksText(p.key) && PieceOk(p.value)
  }

  function Commas<T>(text: T -> string, ts: seq<T>): string {
    if ts == [] then "" else if |ts| == 1 then text(ts[0]) else text(ts[0]) + "," + Commas(text, ts[1..])
  }

  predicate PiecesOk(ps: seq<Piece>) {
    forall i :: 0 <= i < |ps| ==> PieceOk(ps[i])
  }

  predicate PairsOk(ps: seq<Pair>) {
    forall i :: 0 <= i < |ps| ==> PairOk(ps[i])
  }

  // ----- values on one line -----

  datatype OneLine =
    | Plain(value: string)
    | InQuotation(quote: char, value: string)
    | EmptyList(blank: string)
    | List(pieces: seq<Piece>)
    | EmptyMap(blank: string)
    | Pairs(pairs: seq<Pair>)

  function Written(o: OneLine): string {
    match o
    case Plain(value) => value
    case InQuotation(quote, value) => [quote] + value + [quote]
    case EmptyList(blank) => "[" + blank + "]"
    case List(pieces) => "[" + Commas(PieceText, pieces) + "]"
    case EmptyMap(blank) => "{" + blank + "}"
    case Pairs(pairs) => "{" + Commas(PairText, pairs) + "}"
  }

  predicate IsScalar(o: OneLine) {
    o.Plain? || o.InQuotation?
  }

  /** A list of one empty word would be an empty list. */
  predicate OneLineOk(o: OneLine) {
    '\n' !in Written(o) &&
    match o
    case Plain(value) => Bare(value)
    case InQuotation(quote, value) => IsQuote(quote)
    case EmptyList(blank) => Blank(blank)
    case List(pieces) => pieces != [] && PiecesOk(pieces) && (|pieces| == 1 ==> WordText(pieces[0].word) != "")
    case EmptyMap(blank) => Blank(blank)
    case Pairs(pairs) => pairs != [] && PairsOk(pairs)
  }

  function Words(ps: seq<Piece>): seq<Node> {
    if ps == [] then [] else [Scalar(WordValue(ps[0].word))] + Words(ps[1..])
  }

  function WithPairs(node: Node, ps: seq<Pair>): (r: Node)
    requires node.Mapping?
    ensures r.Mapping?
    decreases ps
  {
    if ps == [] then node
    else WithPairs(SetKey(node, ChunksText(ps[0].key), Scalar(WordValue(ps[0].value.word))), ps[1..])
  }

  function Value(o: OneLine): Node {
    match o
    case Plain(value) => Scalar(value)
    case InQuotation(quote, value) => Scalar(value)
    case EmptyList(_) => Sequence([])
    case List(pieces) => Sequence(Words(pieces))
    case EmptyMap(_) => Mapping([], map[])
    case Pairs(pairs) => WithPairs(Mapping([], map[]), pairs)
  }

  lemma {:induction false} ValueKeyed(o: OneLine)
    ensures WellKeyed(Value(o))
  {
    match o
    case Plain(_) =>
    case InQuotation(_, _) =>
    case EmptyList(_) =>
    case List(pieces) => WordsKeyed(pieces);
    case EmptyMap(_) =>
    case Pairs(pairs) => PairsKeyed(Mapping([], map[]), pairs);
  }

  lemma {:induction false} WordsKeyed(ps: seq<Piece>)
    ensures forall i :: 0 <= i < |Words(ps)| ==> WellKeyed(Words(ps)[i])
  {
    if ps != [] {
      WordsKeyed(ps[1..]);
    }
  }

  lemma {:induction false} PairsKeyed(node: Node, ps: seq<Pair>)
    requires node.Mapping? && WellKeyed(node)
    ensures WellKeyed(WithPairs(node, ps))
    decreases ps
  {
    hide WellKeyed, SetKey;
    if ps != [] {
      var value := Scalar(WordValue(ps[0].value.word));
      WordKeyed(WordValue(ps[0].value.word));
      SetKeyKeeps(node, ChunksText(ps[0].key), value);
      PairsKeyed(SetKey(node, ChunksText(ps[0].key), value), ps[1..]);
    }
  }

  // ----- the colon behind a key -----

  /** The quote that is open behind the first k characters, or zero. */
  function OpenQuote(s: string, k: nat): char
    requires k <= |s|
  {
    if k == 0 then '\0'
    else
      var q, c := OpenQuote(s, k - 1), s[k - 1];
      if q != '\0' then if c == q then '\0' else q else if IsQuote(c) then c else '\0'
  }

  /** A colon outside quotes, at the end or before a blank. */
  predicate EndsKey(s: string, k: nat)
    requires k < |s|
  {
    s[k] == ':' && OpenQuote(s, k) == '\0' && (k + 1 == |s| || s[k + 1] == ' ' || s[k + 1] == '\t')
  }

  lemma {:induction false} ColonStep(s: string, i: nat)
    requires i < |s|
    ensures FindColon(s[i..], OpenQuote(s, i)) ==
            if EndsKey(s, i) then 0 else Later(1, FindColon(s[i + 1..], OpenQuote(s, i + 1)))
  {
    assert s[i..][1..] == s[i + 1..];
    assert s[i..][0] == s[i];
    assert i + 1 < |s| ==> s[i..][1] == s[i + 1];
  }

  lemma {:induction false} ColonFrom(s: string, i: nat)
    requires i <= |s|
    ensures var r := FindColon(s[i..], OpenQuote(s, i));
            (r >= 0 ==> EndsKey(s, i + r)) && forall k :: i <= k < (if r < 0 then |s| else i + r) ==> !EndsKey(s, k)
    decreases |s| - i
  {
    hide FindColon, EndsKey, OpenQuote;
    if i < |s| {
      ColonStep(s, i);
      ColonFrom(s, i + 1);
    }
  }

  /** The colon that is found is the first one that ends a key; none is found if
      there is none. */
  lemma {:induction false} ColonExactly(s: string)
    ensures var r := MappingColon(s);
            (r >= 0 ==> EndsKey(s, r)) && forall k :: 0 <= k < (if r < 0 then |s| else r) ==> !EndsKey(s, k)
  {
    hide FindColon, EndsKey;
    ColonFrom(s, 0);
    assert s[0..] == s;
  }

  lemma {:induction false} InsideQuotes(quote: char, value: string, k: nat)
    requires IsQuote(quote) && quote !in value && k <= |value|
    ensures OpenQuote([quote] + value + [quote], k + 1) == quote
  {
    var s := [quote] + value + [quote];
    if k == 0 {
      assert OpenQuote(s, 0) == '\0' && s[0] == quote;
    } else {
      InsideQuotes(quote, value, k - 1);
      assert s[k] == value[k - 1];
    }
  }

  /** A text in quotes never reads as a key and its value. */
  lemma {:induction false} QuotedHasNoColon(quote: char, value: string)
    requires IsQuote(quote) && quote !in value
    ensures MappingColon([quote] + value + [quote]) == -1
  {
    hide FindColon;
    var s := [quote] + value + [quote];
    ColonExactly(s);
    var r := MappingColon(s);
    if r >= 0 {
      if 0 < r <= |value| + 1 {
        InsideQuotes(quote, value, r - 1);
      }
      assert false;
    }
  }

  // ----- quotes are taken off -----

  lemma {:induction false} ScalarReads(o: OneLine)
    requires IsScalar(o) && OneLineOk(o)
    ensures Unquote(Written(o)) == o.value
  {
    if o.InQuotation? {
      var s := Written(o);
      assert s[0] == o.quote && s[|s| - 1] == o.quote && s[1..|s| - 1] == o.value;
    }
  }

  lemma {:induction false} WordReads(w: Word)
    requires WordOk(w)
    ensures Unquote(WordText(w)) == WordValue(w) && Tight(WordText(w))
  {
    if w.Quoted? {
      var s := WordText(w);
      assert s[0] == w.quote && s[|s| - 1] == w.quote && s[1..|s| - 1] == w.value;
    }
  }

  // ----- commas are found -----

  lemma {:induction false} TextParts(s: string, i: nat, a: string, b: string)
    requires i + |a| + |b| <= |s| && s[i..i + |a| + |b|] == a + b
    ensures s[i..i + |a|] == a && s[i + |a|..i + |a| + |b|] == b
  {
    assert s[i..i + |a|] == s[i..i + |a| + |b|][..|a|];
    assert s[i + |a|..i + |a| + |b|] == s[i..i + |a| + |b|][|a|..];
  }

  /** The scan goes over a closed text and is where it was. */
  lemma {:induction false} ScanCharacters(t: string, s: string, i: nat, start: nat, depth: nat)
    requires start <= i && i + |t| <= |s| && s[i..i + |t|] == t && ChunkOk(Chars(t), depth > 0)
    ensures FlowItems(s, i, start, depth, '\0') == FlowItems(s, i + |t|, start, depth, '\0')
    decreases t
  {
    if t != "" {
      assert s[i] == s[i..i + |t|][0] == t[0] && t[0] in t;
      assert s[i + 1..i + |t|] == t[1..];
      forall ch | ch in t[1..] ensures ch !in "\"'[]{}" && (depth > 0 || ch != ',') {
        assert ch in t;
      }
      ScanCharacters(t[1..], s, i + 1, start, depth);
    }
  }

  lemma {:induction false} ScanQuoted(t: string, s: string, i: nat, start: nat, depth: nat, quote: char)
    requires start <= i && i + |t| < |s| && s[i..i + |t|] == t && s[i + |t|] == quote && quote !in t && IsQuote(quote)
    ensures FlowItems(s, i, start, depth, quote) == FlowItems(s, i + |t| + 1, start, depth, '\0')
    decreases t
  {
    if t != "" {
      assert s[i] == s[i..i + |t|][0] == t[0];
      assert s[i + 1..i + |t|] == t[1..];
      ScanQuoted(t[1..], s, i + 1, start, depth, quote);
    }
  }

  lemma {:induction false} ScanOne(s: string, i: nat, start: nat, depth: int)
    requires start <= i < |s|
    ensures IsQuote(s[i]) ==> FlowItems(s, i, start, depth, '\0') == FlowItems(s, i + 1, start, depth, s[i])
    ensures s[i] in "[{" ==> FlowItems(s, i, start, depth, '\0') == FlowItems(s, i + 1, start, depth + 1, '\0')
    ensures s[i] in "]}" ==> FlowItems(s, i, start, depth, '\0') == FlowItems(s, i + 1, start, depth - 1, '\0')
  {
  }

  lemma {:induction false} Enclosed(s: string, i: nat, a: char, text: string, b: char)
    requires i + |text| + 2 <= |s| && s[i..i + |text| + 2] == [a] + text + [b]
    ensures s[i] == a && s[i + 1..i + 1 + |text|] == text && s[i + 1 + |text|] == b
  {
    var t := s[i..i + |text| + 2];
    assert t[0] == a && t[|text| + 1] == b;
    forall k | 0 <= k < |text| ensures s[i + 1..i + 1 + |text|][k] == text[k] {
      assert s[i + 1 + k] == t[1 + k];
    }
  }

  lemma {:induction false} ScanChunk(c: Chunk, s: string, i: nat, start: nat, depth: nat)
    requires start <= i && i + |ChunkText(c)| <= |s| && s[i..i + |ChunkText(c)|] == ChunkText(c) && ChunkOk(c, depth > 0)
    ensures FlowItems(s, i, start, depth, '\0') == FlowItems(s, i + |ChunkText(c)|, start, depth, '\0')
    decreases c, 0
  {
    hide ChunksText, ChunksOk, FlowItems;
    match c
    case Chars(text) => ScanCharacters(text, s, i, start, depth);
    case InQuotes(quote, text) =>
      Enclosed(s, i, quote, text, quote);
      ScanOne(s, i, start, depth);
      ScanQuoted(text, s, i + 1, start, depth, quote);
    case InBrackets(open, inner, close) =>
      var text := ChunksText(inner);
      Enclosed(s, i, open, text, close);
      ScanOne(s, i, start, depth);
      ScanChunks(inner, s, i + 1, start, depth + 1);
      ScanOne(s, i + 1 + |text|, start, depth + 1);
  }

  lemma {:induction false} ScanChunks(cs: seq<Chunk>, s: string, i: nat, start: nat, depth: nat)
    requires start <= i && i + |ChunksText(cs)| <= |s| && s[i..i + |ChunksText(cs)|] == ChunksText(cs)
    requires ChunksOk(cs, depth > 0)
    ensures FlowItems(s, i, start, depth, '\0') == FlowItems(s, i + |ChunksText(cs)|, start, depth, '\0')
    decreases cs, 1
  {
    hide ChunkText, ChunkOk, FlowItems;
    if cs != [] {
      TextParts(s, i, ChunkText(cs[0]), ChunksText(cs[1..]));
      ScanChunk(cs[0], s, i, start, depth);
      ScanChunks(cs[1..], s, i + |ChunkText(cs[0])|, start, depth);
    }
  }

  /** The texts of one flow collection are found between their commas. */
  ghost predicate Scanned(t: string) {
    forall s: string, i: nat :: i + |t| <= |s| && s[i..i + |t|] == t ==>
      FlowItems(s, i, i, 0, '\0') == FlowItems(s, i + |t|, i, 0, '\0')
  }

  lemma {:induction false} ChunksScanned(cs: seq<Chunk>)
    requires ChunksOk(cs, false)
    ensures Scanned(ChunksText(cs))
  {
    hide ChunksText, ChunksOk, FlowItems;
    forall s: string, i: nat | i + |ChunksText(cs)| <= |s| && s[i..i + |ChunksText(cs)|] == ChunksText(cs)
      ensures FlowItems(s, i, i, 0, '\0') == FlowItems(s, i + |ChunksText(cs)|, i, 0, '\0')
    {
      ScanChunks(cs, s, i, i, 0);
    }
  }

  function TextsOf<T>(text: T -> string, ts: seq<T>): (r: seq<string>)
    ensures |r| == |ts| && forall i :: 0 <= i < |r| ==> r[i] == text(ts[i])
  {
    if ts == [] then [] else [text(ts[0])] + TextsOf(text, ts[1..])
  }

  lemma {:induction false} ItemEnds(t: string, s: string, i: nat)
    requires Scanned(t) && i + |t| <= |s| && s[i..i + |t|] == t
    ensures i + |t| == |s| ==> FlowItems(s, i, i, 0, '\0') == [t]
    ensures i + |t| < |s| && s[i + |t|] == ',' ==>
              FlowItems(s, i, i, 0, '\0') == [t] + FlowItems(s, i + |t| + 1, i + |t| + 1, 0, '\0')
  {
    assert FlowItems(s, i, i, 0, '\0') == FlowItems(s, i + |t|, i, 0, '\0');
    if i + |t| == |s| {
      assert s[i..] == s[i..i + |t|];
    }
  }

  lemma {:induction false} ItemsFound<T>(text: T -> string, ts: seq<T>, s: string, i: nat)
    requires ts != [] && i <= |s| && s[i..] == Commas(text, ts) && forall k :: 0 <= k < |ts| ==> Scanned(text(ts[k]))
    ensures FlowItems(s, i, i, 0, '\0') == TextsOf(text, ts)
    decreases ts
  {
    hide FlowItems, Scanned;
    var t := text(ts[0]);
    if |ts| == 1 {
      assert s[i..i + |t|] == t;
      assert ts[1..] == [];
    } else {
      var rest := Commas(text, ts[1..]);
      assert s[i..] == t + ("," + rest);
      assert s[i..i + |t|] == s[i..][..|t|] == t;
      assert s[i + |t|] == s[i..][|t|] == ',';
      assert s[i + |t| + 1..] == s[i..][|t| + 1..] == rest;
      ItemsFound(text, ts[1..], s, i + |t| + 1);
    }
    ItemEnds(t, s, i);
  }

  // ----- flow sequences -----

  lemma {:induction false} PieceScanned(p: Piece)
    requires PieceOk(p)
    ensures Scanned(PieceText(p))
  {
    hide Scanned;
    var cs := PieceChunks(p);
    PieceChunksOk(p);
    ChunksScanned(cs);
  }

  function WordChunks(w: Word): seq<Chunk> {
    match w
    case Unquoted(chunks) => chunks
    case Quoted(quote, value) => [InQuotes(quote, value)]
  }

  function PieceChunks(p: Piece): seq<Chunk> {
    [Chars(p.left)] + (WordChunks(p.word) + [Chars(p.right)])
  }

  lemma {:induction false} ChunksConcat(a: seq<Chunk>, b: seq<Chunk>)
    ensures ChunksText(a + b) == ChunksText(a) + ChunksText(b)
    ensures ChunksOk(a, false) && ChunksOk(b, false) ==> ChunksOk(a + b, false)
    decreases a
  {
    hide ChunkText, ChunkOk;
    if a == [] {
      assert a + b == b;
    } else {
      assert (a + b)[1..] == a[1..] + b;
      ChunksConcat(a[1..], b);
    }
  }

  lemma {:induction false} OneChunk(c: Chunk)
    ensures ChunksText([c]) == ChunkText(c) && (ChunksOk([c], false) <==> ChunkOk(c, false))
  {
    hide ChunkText, ChunkOk;
    assert [c][1..] == [];
    assert ChunksText([]) == "";
    assert ChunksOk([], false);
  }

  lemma {:induction false} WordChunksOk(w: Word)
    requires WordOk(w)
    ensures ChunksOk(WordChunks(w), false) && ChunksText(WordChunks(w)) == WordText(w)
  {
    hide ChunksOk, ChunksText;
    if w.Quoted? {
      OneChunk(InQuotes(w.quote, w.value));
    }
  }

  lemma {:induction false} BlankChunk(s: string)
    requires Blank(s)
    ensures ChunkOk(Chars(s), false)
  {
  }

  lemma {:induction false} PieceChunksOk(p: Piece)
    requires PieceOk(p)
    ensures ChunksOk(PieceChunks(p), false) && ChunksText(PieceChunks(p)) == PieceText(p)
  {
    hide ChunksOk, ChunksText, ChunkOk, WordOk, WordText, WordChunks;
    WordChunksOk(p.word);
    BlankChunk(p.left);
    BlankChunk(p.right);
    OneChunk(Chars(p.left));
    OneChunk(Chars(p.right));
    ChunksConcat(WordChunks(p.word), [Chars(p.right)]);
    ChunksConcat([Chars(p.left)], WordChunks(p.word) + [Chars(p.right)]);
    assert p.left + (WordText(p.word) + p.right) == PieceText(p);
  }

  lemma {:induction false} PiecesRead(ps: seq<Piece>)
    requires PiecesOk(ps)
    ensures FlowScalars(TextsOf(PieceText, ps)) == Words(ps)
    decreases ps
  {
    hide PieceOk, TrimSpace, Unquote, WordValue, PieceText;
    if ps != [] {
      assert PieceOk(ps[0]);
      PieceTrims(ps[0]);
      WordIsOk(ps[0]);
      WordReads(ps[0].word);
      PiecesRead(ps[1..]);
      assert TextsOf(PieceText, ps)[1..] == TextsOf(PieceText, ps[1..]);
    }
  }

  lemma {:induction false} WordIsOk(p: Piece)
    requires PieceOk(p)
    ensures WordOk(p.word)
  {
  }

  lemma {:induction false} PieceTrims(p: Piece)
    requires PieceOk(p)
    ensures TrimSpace(PieceText(p)) == WordText(p.word)
  {
    WordReads(p.word);
    PaddingTrimmed(p.left, WordText(p.word), p.right);
  }

  lemma {:induction false} BetweenBrackets(open: char, inner: string, close: char)
    requires !IsSpace(open) && !IsSpace(close)
    ensures var t := [open] + inner + [close];
            TrimSpace(t) == t && t[0] == open && t[|t| - 1] == close && t[1..|t| - 1] == inner
  {
    hide TrimSpace;
  }

  /** Text with a character that is not white space does not trim away. */
  lemma {:induction false} NotTrimmedAway(s: string, k: nat)
    requires k < |s| && !IsSpace(s[k])
    ensures TrimSpace(s) != ""
  {
    var j := KeptLeft(s, k);
    KeptRight(TrimLeft(s), j);
  }

  lemma {:induction false} KeptLeft(s: string, k: nat) returns (j: nat)
    requires k < |s| && !IsSpace(s[k])
    ensures j < |TrimLeft(s)| && !IsSpace(TrimLeft(s)[j])
    decreases s
  {
    if IsSpace(s[0]) {
      j := KeptLeft(s[1..], k - 1);
    } else {
      j := k;
    }
  }

  lemma {:induction false} KeptRight(s: string, k: nat)
    requires k < |s| && !IsSpace(s[k])
    ensures TrimRight(s) != ""
    decreases s
  {
    if IsSpace(s[|s| - 1]) {
      KeptRight(s[..|s| - 1], k);
    }
  }

  lemma {:induction false} WordNotBlank(p: Piece)
    requires PieceOk(p) && WordText(p.word) != ""
    ensures !IsSpace(PieceText(p)[|p.left|])
  {
    WordReads(p.word);
    assert PieceText(p)[|p.left|] == WordText(p.word)[0];
  }

  lemma {:induction false} ListNotBlank(ps: seq<Piece>)
    requires ps != [] && PiecesOk(ps) && (|ps| == 1 ==> WordText(ps[0].word) != "")
    ensures TrimSpace(Commas(PieceText, ps)) != ""
  {
    hide TrimSpace, PieceOk, WordText, PieceText;
    var s := Commas(PieceText, ps);
    if |ps| == 1 {
      assert PieceOk(ps[0]);
      WordNotBlank(ps[0]);
      NotTrimmedAway(s, |ps[0].left|) by { PieceLength(ps[0]); }
    } else {
      assert s[|PieceText(ps[0])|] == ',';
      NotTrimmedAway(s, |PieceText(ps[0])|);
    }
  }

  lemma {:induction false} PieceLength(p: Piece)
    requires WordText(p.word) != ""
    ensures |p.left| < |PieceText(p)|
  {
  }

  lemma {:induction false} FlowSequenceIs(inner: string)
    ensures FlowSequence("[" + inner + "]") ==
            Parsed(Sequence(if TrimSpace(inner) == "" then [] else FlowScalars(FlowItems(inner, 0, 0, 0, '\0'))), 0)
  {
    hide TrimSpace, FlowItems, FlowScalars;
    BetweenBrackets('[', inner, ']');
    var t := "[" + inner + "]";
    assert t == ['['] + inner + [']'];
  }

  lemma {:induction false} ListReads(ps: seq<Piece>)
    requires ps != [] && PiecesOk(ps) && (|ps| == 1 ==> WordText(ps[0].word) != "")
    ensures FlowSequence("[" + Commas(PieceText, ps) + "]") == Parsed(Sequence(Words(ps)), 0)
  {
    hide PieceText, Scanned, FlowItems, FlowSequence, FlowScalars, TrimSpace, Words, TextsOf, PieceOk;
    var inner := Commas(PieceText, ps);
    ListNotBlank(ps);
    forall k | 0 <= k < |ps| ensures Scanned(PieceText(ps[k])) {
      PieceScanned(ps[k]);
    }
    assert inner[0..] == inner;
    ItemsFound(PieceText, ps, inner, 0);
    PiecesRead(ps);
    FlowSequenceIs(inner);
  }

  // ----- flow mappings -----

  function PairChunks(p: Pair): seq<Chunk> {
    [Chars(p.left)] + (p.key + ([Chars(p.right + ":")] + PieceChunks(p.value)))
  }

  lemma {:induction false} PairScanned(p: Pair)
    requires PairOk(p)
    ensures Scanned(PairText(p))
  {
    hide ChunksOk, ChunksText, ChunkOk, Scanned, PieceOk, PieceText, PieceChunks, Tight;
    PieceChunksOk(p.value);
    BlankChunk(p.left);
    ColonChunk(p.right);
    OneChunk(Chars(p.left));
    OneChunk(Chars(p.right + ":"));
    ChunksConcat([Chars(p.right + ":")], PieceChunks(p.value));
    ChunksConcat(p.key, [Chars(p.right + ":")] + PieceChunks(p.value));
    ChunksConcat([Chars(p.left)], p.key + ([Chars(p.right + ":")] + PieceChunks(p.value)));
    ChunksScanned(PairChunks(p));
    PairTextIs(p);
  }

  lemma {:induction false} PairTextIs(p: Pair)
    ensures PairText(p) == p.left + (ChunksText(p.key) + ((p.right + ":") + PieceText(p.value)))
    ensures PairText(p) == (p.left + ChunksText(p.key) + p.right) + ":" + PieceText(p.value)
  {
    hide ChunksText, PieceText;
  }

  lemma {:induction false} ColonChunk(s: string)
    requires Blank(s)
    ensures ChunkOk(Chars(s + ":"), false)
  {
    forall c | c in s + ":" ensures c !in "\"'[]{}" && c != ',' {
      assert c in s || c == ':';
    }
  }

  lemma {:induction false} TrimAround(a: string, b: string)
    ensures TrimSpace(a + ":" + b) == TrimLeft(a) + ":" + TrimRight(b)
  {
    TrimLeftBefore(a, ":" + b);
    assert a + ":" + b == a + (":" + b);
    assert TrimLeft(a + ":" + b) == TrimLeft(a) + ":" + b;
    TrimRightBehind(TrimLeft(a) + ":", b);
  }

  lemma {:induction false} TrimLeftBefore(a: string, b: string)
    requires b != "" && !IsSpace(b[0])
    ensures TrimLeft(a + b) == TrimLeft(a) + b
    decreases a
  {
    if a == "" {
      assert a + b == b;
    } else if IsSpace(a[0]) {
      assert (a + b)[1..] == a[1..] + b;
      TrimLeftBefore(a[1..], b);
    }
  }

  lemma {:induction false} TrimRightBehind(a: string, b: string)
    requires a != "" && !IsSpace(a[|a| - 1])
    ensures TrimRight(a + b) == a + TrimRight(b)
    decreases b
  {
    if b == "" {
      assert a + b == a;
    } else if IsSpace(b[|b| - 1]) {
      assert (a + b)[..|a + b| - 1] == a + b[..|b| - 1];
      TrimRightBehind(a, b[..|b| - 1]);
    }
  }

  lemma {:induction false} TrimsAgain(s: string)
    ensures TrimSpace(TrimLeft(s)) == TrimSpace(s) && TrimSpace(TrimRight(s)) == TrimSpace(s)
  {
    LeftAgain(s);
    RightAgain(s);
  }

  lemma {:induction false} LeftAgain(s: string)
    ensures TrimLeft(TrimLeft(s)) == TrimLeft(s)
  {
  }

  lemma {:induction false} RightAgain(s: string)
    ensures TrimRight(TrimLeft(TrimRight(s))) == TrimRight(TrimLeft(s))
    decreases s
  {
    hide TrimLeft;
    if s != "" && IsSpace(s[|s| - 1]) {
      var front := s[..|s| - 1];
      RightAgain(front);
      DropLast(front, s[|s| - 1]);
      assert front + [s[|s| - 1]] == s;
      assert TrimRight(s) == TrimRight(front);
    }
  }

  lemma {:induction false} DropLast(s: string, c: char)
    requires IsSpace(c)
    ensures TrimRight(TrimLeft(s + [c])) == TrimRight(TrimLeft(s))
    decreases s
  {
    if s == "" {
      assert s + [c] == [c];
      assert [c][1..] == "";
    } else if IsSpace(s[0]) {
      assert (s + [c])[1..] == s[1..] + [c];
      DropLast(s[1..], c);
    } else {
      assert TrimLeft(s + [c]) == s + [c];
      assert (s + [c])[..|s|] == s;
    }
  }

  lemma {:induction false} ColonKept(s: string)
    requires ':' !in s
    ensures ':' !in TrimLeft(s)
    decreases s
  {
    if s != "" && IsSpace(s[0]) {
      ColonKept(s[1..]);
    }
  }

  lemma {:induction false} PairReads(p: Pair)
    requires PairOk(p)
    ensures var part := TrimSpace(PairText(p));
            var colon := IndexOf(part, ':');
            colon >= 0 && TrimSpace(part[..colon]) == ChunksText(p.key) &&
            Unquote(TrimSpace(part[colon + 1..])) == WordValue(p.value.word)
  {
    hide TrimSpace, TrimLeft, TrimRight, IndexOf, Unquote, PieceText, ChunksText, ChunksOk, WordOk;
    var a, b := p.left + ChunksText(p.key) + p.right, PieceText(p.value);
    PairTextIs(p);
    TrimAround(a, b);
    NoColon(p);
    ColonKept(a);
    IndexIs(TrimLeft(a), ':', TrimRight(b));
    var part := TrimLeft(a) + [':'] + TrimRight(b);
    assert part == TrimSpace(PairText(p));
    assert part[..|TrimLeft(a)|] == TrimLeft(a) && part[|TrimLeft(a)| + 1..] == TrimRight(b);
    TrimsAgain(a);
    TrimsAgain(b);
    PaddingTrimmed(p.left, ChunksText(p.key), p.right);
    PieceTrims(p.value);
    WordReads(p.value.word);
  }

  lemma {:induction false} NoColon(p: Pair)
    requires PairOk(p)
    ensures ':' !in p.left + ChunksText(p.key) + p.right
  {
    hide ChunksText, ChunksOk;
  }

  lemma {:induction false} PairsRead(node: Node, ps: seq<Pair>)
    requires node.Mapping? && WellKeyed(node) && PairsOk(ps)
    ensures FlowEntries(node, TextsOf(PairText, ps)) == Parsed(WithPairs(node, ps), 0)
    decreases ps
  {
    hide PairOk, TrimSpace, Unquote, WordValue, PairText, WellKeyed, SetKey, IndexOf, ChunksText;
    if ps != [] {
      assert PairOk(ps[0]);
      PairReads(ps[0]);
      var next := SetKey(node, ChunksText(ps[0].key), Scalar(WordValue(ps[0].value.word)));
      WordKeyed(WordValue(ps[0].value.word));
      SetKeyKeeps(node, ChunksText(ps[0].key), Scalar(WordValue(ps[0].value.word)));
      PairsRead(next, ps[1..]);
      assert TextsOf(PairText, ps)[1..] == TextsOf(PairText, ps[1..]);
    }
  }

  lemma {:induction false} WordKeyed(value: string)
    ensures WellKeyed(Scalar(value)) && WellKeyed(Mapping([], map[]))
  {
  }

  lemma {:induction false} MapNotBlank(ps: seq<Pair>)
    requires ps != []
    ensures TrimSpace(Commas(PairText, ps)) != ""
  {
    hide TrimSpace, PairText;
    var s := Commas(PairText, ps);
    var first := PairText(ps[0]);
    PairTextIs(ps[0]);
    var k := |ps[0].left + ChunksText(ps[0].key) + ps[0].right|;
    assert first[k] == ':';
    assert s[..|first|] == first;
    assert s[k] == first[k];
    NotTrimmedAway(s, k);
  }

  lemma {:induction false} FlowMappingIs(inner: string)
    ensures FlowMapping("{" + inner + "}") ==
            if TrimSpace(inner) == "" then Parsed(EMPTY_MAPPING, 0)
            else FlowEntries(EMPTY_MAPPING, FlowItems(inner, 0, 0, 0, '\0'))
  {
    hide TrimSpace, FlowItems, FlowEntries;
    BetweenBrackets('{', inner, '}');
    var t := "{" + inner + "}";
    assert t == ['{'] + inner + ['}'];
  }

  lemma {:induction false} MapReads(ps: seq<Pair>)
    requires ps != [] && PairsOk(ps)
    ensures FlowMapping("{" + Commas(PairText, ps) + "}") == Parsed(WithPairs(Mapping([], map[]), ps), 0)
  {
    hide PairText, Scanned, FlowItems, FlowMapping, FlowEntries, TrimSpace, WithPairs, TextsOf, PairOk;
    var inner := Commas(PairText, ps);
    MapNotBlank(ps);
    forall k | 0 <= k < |ps| ensures Scanned(PairText(ps[k])) {
      PairScanned(ps[k]);
    }
    assert inner[0..] == inner;
    ItemsFound(PairText, ps, inner, 0);
    WordKeyed("");
    PairsRead(Mapping([], map[]), ps);
    FlowMappingIs(inner);
  }

  /** Every flow collection, as it is written, reads as what it means. */
  lemma {:induction false} FlowReads(o: OneLine)
    requires OneLineOk(o) && !IsScalar(o)
    ensures (o.EmptyList? || o.List?) ==> "[" <= Written(o) && FlowSequence(Written(o)) == Parsed(Value(o), 0)
    ensures (o.EmptyMap? || o.Pairs?) ==> "{" <= Written(o) && FlowMapping(Written(o)) == Parsed(Value(o), 0)
    ensures Tight(Written(o)) && Written(o) != ""
  {
    hide FlowSequence, FlowMapping, TrimSpace, Commas, Words, WithPairs, PiecesOk, PairsOk;
    match o
    case EmptyList(blank) => FlowSequenceIs(blank); BlankTrimmed(blank);
    case List(pieces) => ListReads(pieces);
    case EmptyMap(blank) => FlowMappingIs(blank); BlankTrimmed(blank);
    case Pairs(pairs) => MapReads(pairs);
  }
}
