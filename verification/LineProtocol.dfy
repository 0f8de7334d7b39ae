/** The InfluxDB line protocol: how points are written as lines, how lines are
    read as points, and when the second gives back the first. */
module LineProtocol {
  import opened Bytes
  import opened Results
  import opened Text
  import opened KeyOrder

  datatype Precision = Nanosecond | Microsecond | Millisecond | Second

  /** A float is the text that FormatFloat gives for it. */
  datatype FieldValue = Float(text: string) | Int(i: int64) | UInt(u: uint64) | Bool(b: bool) | String(s: string)

  datatype Tag = Tag(key: string, value: string)

  datatype Field = Field(key: string, value: FieldValue)

  /** A time is its distance from 1970 in nanoseconds. */
  datatype Point = Point(measurement: string, tags: seq<Tag>, fields: seq<Field>, timestamp: int)

  /** The zero time.Time, the first instant of the year 1. */
  const ZERO_TIME := -62135596800 * 1_000_000_000

  datatype EncodeError = NoMeasurement | NoFields

  datatype DecodeError =
    | MissingFields | InvalidTag | InvalidField | EmptyValue | UnterminatedString
    | InvalidInteger | InvalidUnsigned | InvalidFloat | InvalidTimestamp

  // ----- escaping, pass by pass -----

  const NAME_CHARS := {',', '=', ' '}
  const MEASUREMENT_CHARS := {',', ' '}

  function EscapeMeasurement(s: string): string {
    ReplaceAll(ReplaceAll(s, ",", "\\,"), " ", "\\ ")
  }

  function UnescapeMeasurement(s: string): string {
    ReplaceAll(ReplaceAll(s, "\\,", ","), "\\ ", " ")
  }

  /** Tag keys, tag values and field keys. */
  function EscapeName(s: string): string {
    ReplaceAll(ReplaceAll(ReplaceAll(s, ",", "\\,"), "=", "\\="), " ", "\\ ")
  }

  function UnescapeName(s: string): string {
    ReplaceAll(ReplaceAll(ReplaceAll(s, "\\,", ","), "\\=", "="), "\\ ", " ")
  }

  function EscapeString(s: string): string {
    ReplaceAll(ReplaceAll(s, "\\", "\\\\"), "\"", "\\\"")
  }

  function UnescapeString(s: string): string {
    ReplaceAll(ReplaceAll(s, "\\\"", "\""), "\\\\", "\\")
  }

  /** The passes of an escape add up to one pass, and the passes of the unescape
      undo them, for every string: no pass takes a backslash of the string
      itself for part of an escape. */
  lemma {:induction false} MeasurementInverse(s: string)
    ensures EscapeMeasurement(s) == Escaped(s, MEASUREMENT_CHARS)
    ensures UnescapeMeasurement(EscapeMeasurement(s)) == s
  {
    hide ReplaceAll, Escaped;
    EscapedNone(s);
    EscapePass(s, {}, ',');
    EscapePass(s, {} + {','}, ' ');
    assert {} + {','} + {' '} == MEASUREMENT_CHARS == {' '} + {','};
    UnescapePass(s, {' '}, ',');
    UnescapePass(s, {}, ' ');
    assert {} + {' '} == {' '};
  }

  lemma {:induction false} NameInverse(s: string)
    ensures EscapeName(s) == Escaped(s, NAME_CHARS)
    ensures UnescapeName(EscapeName(s)) == s
  {
    hide ReplaceAll, Escaped;
    EscapedNone(s);
    EscapePass(s, {}, ',');
    EscapePass(s, {} + {','}, '=');
    EscapePass(s, {} + {','} + {'='}, ' ');
    assert {} + {','} + {'='} + {' '} == NAME_CHARS == {' ', '='} + {','};
    UnescapePass(s, {' ', '='}, ',');
    UnescapePass(s, {' '}, '=');
    assert {' '} + {'='} == {' ', '='};
    UnescapePass(s, {}, ' ');
    assert {} + {' '} == {' '};
  }

  lemma {:induction false} StringInverse(s: string)
    ensures EscapeString(s) == Escaped(s, {'\\', '"'})
    ensures UnescapeString(EscapeString(s)) == s
  {
    hide ReplaceAll, Escaped;
    DoublePass(s);
    EscapePass(s, {'\\'}, '"');
    assert {'\\'} + {'"'} == {'\\', '"'};
    UnescapePass(s, {'\\'}, '"');
    UndoublePass(s);
  }

  // ----- writing -----

  function ValueText(v: FieldValue): string {
    match v
    case Float(text) => text
    case Int(i) => FormatInt(i) + "i"
    case UInt(u) => FormatNat(u) + "u"
    case Bool(b) => if b then "t" else "f"
    case String(s) => "\"" + EscapeString(s) + "\""
  }

  function TagText(t: Tag): string {
    EscapeName(t.key) + "=" + EscapeName(t.value)
  }

  function FieldText(f: Field): string {
    EscapeName(f.key) + "=" + ValueText(f.value)
  }

  function TagTexts(tags: seq<Tag>): (r: seq<string>)
    ensures |r| == |tags| && forall i :: 0 <= i < |tags| ==> r[i] == TagText(tags[i])
  {
    if tags == [] then [] else [TagText(tags[0])] + TagTexts(tags[1..])
  }

  function FieldTexts(fields: seq<Field>): (r: seq<string>)
    ensures |r| == |fields| && forall i :: 0 <= i < |fields| ==> r[i] == FieldText(fields[i])
  {
    if fields == [] then [] else [FieldText(fields[0])] + FieldTexts(fields[1..])
  }

  function TagsByKey(tags: seq<Tag>): seq<Tag> {
    Sorted(tags, (t: Tag) => t.key)
  }

  function FieldsByKey(fields: seq<Field>): seq<Field> {
    Sorted(fields, (f: Field) => f.key)
  }

  function Unit(precision: Precision): (n: nat)
    ensures n > 0
  {
    match precision
    case Nanosecond => 1
    case Microsecond => 1_000
    case Millisecond => 1_000_000
    case Second => 1_000_000_000
  }

  /** The part of a line before its first separating space. */
  function Head(p: Point): string {
    EscapeMeasurement(p.measurement) + if p.tags == [] then "" else "," + Join(TagTexts(TagsByKey(p.tags)), ',')
  }

  function FieldPart(p: Point): string {
    Join(FieldTexts(FieldsByKey(p.fields)), ',')
  }

  /** Euclidean division by a positive unit rounds down, as package time does. */
  function TimePart(precision: Precision, p: Point): string {
    if p.timestamp == ZERO_TIME then "" else " " + FormatInt(p.timestamp / Unit(precision))
  }

  function Line(precision: Precision, p: Point): string {
    Head(p) + " " + (FieldPart(p) + TimePart(precision, p))
  }

  function EncodePoint(precision: Precision, p: Point): Result<string, EncodeError> {
    if p.measurement == "" then Err(NoMeasurement)
    else if p.fields == [] then Err(NoFields)
    else Ok(Line(precision, p))
  }

  function EncodePoints(precision: Precision, ps: seq<Point>): Result<string, EncodeError> {
    if ps == [] then Ok("")
    else
      var line :- EncodePoint(precision, ps[0]);
      var rest :- EncodePoints(precision, ps[1..]);
      Ok(line + ['\n'] + rest)
  }

  // ----- reading -----

  /** The decoder: its precision, and which texts ParseFloat accepts. */
  datatype Reader = Reader(precision: Precision, isFloat: string -> bool)

  function ParseTag(part: string): Result<Tag, DecodeError> {
    var eq := Find(part, '=', false);
    if eq < 0 then Err(InvalidTag) else Ok(Tag(UnescapeName(part[..eq]), UnescapeName(part[eq + 1..])))
  }

  function ParseTagList(parts: seq<string>): Result<seq<Tag>, DecodeError> {
    if parts == [] then Ok([])
    else
      var tag :- ParseTag(parts[0]);
      var rest :- ParseTagList(parts[1..]);
      Ok([tag] + rest)
  }

  function ParseValue(d: Reader, s: string): Result<FieldValue, DecodeError> {
    if s == "" then Err(EmptyValue)
    else
      var last := s[|s| - 1];
      if s[0] == '"' then
        if |s| < 2 || last != '"' then Err(UnterminatedString) else Ok(String(UnescapeString(s[1..|s| - 1])))
      else if s == "t" || s == "T" || s == "true" || s == "True" || s == "TRUE" then Ok(Bool(true))
      else if s == "f" || s == "F" || s == "false" || s == "False" || s == "FALSE" then Ok(Bool(false))
      else if last == 'i' then
        var i := ParseInt(s[..|s| - 1]);
        if i.None? then Err(InvalidInteger) else Ok(Int(i.value))
      else if last == 'u' then
        var u := ParseUint(s[..|s| - 1]);
        if u.None? then Err(InvalidUnsigned) else Ok(UInt(u.value))
      else if d.isFloat(s) then Ok(Float(s)) else Err(InvalidFloat)
  }

  function ParseField(d: Reader, part: string): Result<Field, DecodeError> {
    var eq := Find(part, '=', false);
    if eq < 0 then Err(InvalidField)
    else
      var value :- ParseValue(d, part[eq + 1..]);
      Ok(Field(UnescapeName(part[..eq]), value))
  }

  function ParseFieldList(d: Reader, parts: seq<string>): Result<seq<Field>, DecodeError> {
    if parts == [] then Ok([])
    else
      var field :- ParseField(d, parts[0]);
      var rest :- ParseFieldList(d, parts[1..]);
      Ok([field] + rest)
  }

  /** Measurement and tags. */
  function ParseHead(head: string): Result<(string, seq<Tag>), DecodeError> {
    var tagStart := Find(head, ',', false);
    if tagStart < 0 then Ok((UnescapeMeasurement(head), []))
    else
      var tags :- ParseTagList(Split(head[tagStart + 1..], ','));
      Ok((UnescapeMeasurement(head[..tagStart]), tags))
  }

  /** Fields and timestamp. */
  function ParseTail(d: Reader, tail: string): Result<(seq<Field>, int), DecodeError> {
    var fieldEnd := Find(tail, ' ', false);
    var fieldStr := if fieldEnd < 0 then tail else tail[..fieldEnd];
    var tsStr := if fieldEnd < 0 then "" else TrimSpace(tail[fieldEnd + 1..]);
    var fields :- ParseFieldList(d, Split(fieldStr, ','));
    if tsStr == "" then Ok((fields, ZERO_TIME))
    else
      var ts := ParseInt(tsStr);
      if ts.None? then Err(InvalidTimestamp) else Ok((fields, ts.value * Unit(d.precision)))
  }

  function DecodeLine(d: Reader, line: string): Result<Point, DecodeError> {
    var end := Find(line, ' ', false);
    if end < 0 then Err(MissingFields)
    else
      var head :- ParseHead(line[..end]);
      var tail :- ParseTail(d, line[end + 1..]);
      Ok(Point(head.0, head.1, tail.0, tail.1))
  }

  /** Blank lines and comments are passed over. */
  function DecodeLines(d: Reader, lines: seq<string>): Result<seq<Point>, DecodeError> {
    if lines == [] then Ok([])
    else
      var line := TrimSpace(lines[0]);
      if line == "" || line[0] == '#' then DecodeLines(d, lines[1..])
      else
        var p :- DecodeLine(d, line);
        var rest :- DecodeLines(d, lines[1..]);
        Ok([p] + rest)
  }

  function Decode(d: Reader, data: string): Result<seq<Point>, DecodeError> {
    DecodeLines(d, Lines(data))
  }

  // ----- which points can be written -----

  /** The texts that FormatFloat gives with format f. */
  predicate IsFloatText(s: string) {
    s == "NaN" || s == "+Inf" || s == "-Inf" ||
    (s != "" && forall i :: 0 <= i < |s| ==> IsDigit(s[i]) || s[i] == '-' || s[i] == '.')
  }

  predicate ValidValue(d: Reader, v: FieldValue) {
    v.Float? ==> IsFloatText(v.text) && d.isFloat(v.text)
  }

  /** A point that can be written, with floats and a time that Go has. */
  predicate Valid(d: Reader, p: Point) {
    p.measurement != "" && p.fields != [] && (forall f :: f in p.fields ==> ValidValue(d, f.value)) &&
    (p.timestamp == ZERO_TIME || -TWO_63 <= p.timestamp / Unit(d.precision) < TWO_63)
  }

  // Once escaped, what the scanner must not stop in: which separators it looks
  // for depends on where the name stands.

  predicate MeasurementHidden(s: string) {
    Closed(EscapeMeasurement(s), MEASUREMENT_CHARS, false)
  }

  /** Tag keys and field keys. */
  predicate KeyHidden(s: string) {
    Closed(EscapeName(s), NAME_CHARS, false)
  }

  /** In a tag value an equals sign does no harm. */
  predicate TagValueHidden(s: string) {
    Closed(EscapeName(s), {',', ' '}, false)
  }

  predicate TagHidden(t: Tag) {
    KeyHidden(t.key) && TagValueHidden(t.value)
  }

  predicate Hidden(p: Point) {
    MeasurementHidden(p.measurement) && (forall t :: t in p.tags ==> TagHidden(t)) &&
    forall f :: f in p.fields ==> KeyHidden(f.key)
  }

  // A line feed ends the line wherever it stands.

  predicate TagOneLine(t: Tag) {
    '\n' !in t.key && '\n' !in t.value
  }

  predicate FieldOneLine(f: Field) {
    '\n' !in f.key && (f.value.String? ==> '\n' !in f.value.s)
  }

  predicate OneLine(p: Point) {
    '\n' !in p.measurement && (forall t :: t in p.tags ==> TagOneLine(t)) &&
    forall f :: f in p.fields ==> FieldOneLine(f)
  }

  predicate CleanTag(t: Tag) {
    TagOneLine(t) && TagHidden(t)
  }

  predicate CleanField(d: Reader, f: Field) {
    FieldOneLine(f) && ValidValue(d, f.value) && KeyHidden(f.key)
  }

  predicate CleanValue(d: Reader, v: FieldValue) {
    ValidValue(d, v) && (v.String? ==> '\n' !in v.s)
  }

  predicate CleanTags(tags: seq<Tag>) {
    forall t :: t in tags ==> CleanTag(t)
  }

  predicate CleanFields(d: Reader, fields: seq<Field>) {
    forall f :: f in fields ==> CleanField(d, f)
  }

  predicate Clean(d: Reader, p: Point) {
    Valid(d, p) && OneLine(p) && Hidden(p)
  }

  /** The line is not taken for a comment, and keeps its first character. */
  predicate Starts(p: Point) {
    p.measurement != "" && p.measurement[0] != '#' && (p.measurement[0] == ' ' || !IsSpace(p.measurement[0]))
  }

  /** What comes back: tags and fields sorted, the time cut to the precision. */
  function Norm(precision: Precision, p: Point): Point {
    Point(p.measurement, TagsByKey(p.tags), FieldsByKey(p.fields), p.timestamp / Unit(precision) * Unit(precision))
  }

  /** Names without quotes and backslashes are hidden, whatever separators they
      hold. */
  lemma {:induction false} PlainNamesHidden(s: string)
    requires Plain(s)
    ensures KeyHidden(s) && TagValueHidden(s) && MeasurementHidden(s)
  {
    NameInverse(s);
    MeasurementInverse(s);
    EscapedClosed(s, NAME_CHARS);
    EscapedClosed(s, MEASUREMENT_CHARS);
    ClosedForFewer(EscapeName(s), NAME_CHARS, {',', ' '}, false);
  }

  // ----- tags and fields read back -----

  lemma {:induction false} PairClosed(key: string, value: string, seps: set<char>)
    requires KeyHidden(key) && seps <= {',', ' '} && Closed(value, seps, false)
    ensures Closed(EscapeName(key) + "=" + value, seps, false)
    ensures Find(EscapeName(key) + "=" + value, '=', false) == |EscapeName(key)|
  {
    hide EscapeName, Find;
    ClosedForFewer(EscapeName(key), NAME_CHARS, seps, false);
    OneClosed('=', seps);
    ClosedConcat(EscapeName(key), "=", seps, false);
    ClosedConcat(EscapeName(key) + "=", value, seps, false);
    FindsSeparator(EscapeName(key), value, NAME_CHARS, '=');
  }

  lemma {:induction false} TagReadsBack(t: Tag)
    requires CleanTag(t)
    ensures Closed(TagText(t), {',', ' '}, false) && '\n' !in TagText(t)
    ensures ParseTag(TagText(t)) == Ok(t)
  {
    hide EscapeName, UnescapeName, Find;
    var k, v := EscapeName(t.key), EscapeName(t.value);
    PairClosed(t.key, v, {',', ' '});
    assert (k + "=" + v)[..|k|] == k && (k + "=" + v)[|k| + 1..] == v;
    NameInverse(t.key);
    NameInverse(t.value);
    EscapedOneLine(t.key, NAME_CHARS);
    EscapedOneLine(t.value, NAME_CHARS);
  }

  lemma {:induction false} TagsReadBack(tags: seq<Tag>)
    requires CleanTags(tags)
    ensures forall i :: 0 <= i < |tags| ==> Closed(TagTexts(tags)[i], {',', ' '}, false) && '\n' !in TagTexts(tags)[i]
    ensures ParseTagList(TagTexts(tags)) == Ok(tags)
  {
    hide TagText, ParseTag, CleanTag;
    if tags != [] {
      TagReadsBack(tags[0]);
      TagsReadBack(tags[1..]);
      assert TagTexts(tags)[1..] == TagTexts(tags[1..]);
      assert [tags[0]] + tags[1..] == tags;
    }
  }

  /** Numbers and booleans: no quotes, escapes, separators or white space. */
  predicate Bare(s: string) {
    s != "" && forall i :: 0 <= i < |s| ==> IsBare(s[i])
  }

  predicate IsBare(c: char) {
    IsDigit(c) || 'a' <= c <= 'z' || 'A' <= c <= 'Z' || c == '-' || c == '+' || c == '.'
  }

  lemma {:induction false} BareClosed(s: string)
    requires s == "" || Bare(s)
    ensures Closed(s, {',', ' '}, false) && '\n' !in s
  {
    if s != "" {
      assert s[0] != '"' && s[0] != '\\' && s[0] != ',' && s[0] != ' ';
      BareClosed(s[1..]);
    }
  }

  lemma {:induction false} ValueReadsBack(d: Reader, v: FieldValue)
    requires CleanValue(d, v)
    ensures ParseValue(d, ValueText(v)) == Ok(v)
  {
    hide FormatInt, FormatNat, ParseInt, ParseNat, EscapeString, ParseValue;
    match v
    case Float(text) =>
      FloatReadsBack(d, text);
    case Int(i) =>
      IntReadsBack(i);
      IntBare(i);
      NumberText(d, FormatInt(i), 'i');
    case UInt(u) =>
      NatReadsBack(u);
      NumberText(d, FormatNat(u), 'u');
    case Bool(b) =>
      BoolReadsBack(d, b);
    case String(t) =>
      StringReadsBack(d, t);
  }

  lemma {:induction false} FloatReadsBack(d: Reader, text: string)
    requires IsFloatText(text) && d.isFloat(text)
    ensures ParseValue(d, text) == Ok(Float(text))
  {
    hide ParseInt, ParseUint, UnescapeString;
    assert text[0] != '"' && text[|text| - 1] != 'i' && text[|text| - 1] != 'u';
    assert text[0] != 't' && text[0] != 'T' && text[0] != 'f' && text[0] != 'F';
  }

  lemma {:induction false} BoolReadsBack(d: Reader, b: bool)
    ensures ParseValue(d, if b then "t" else "f") == Ok(Bool(b))
  {
  }

  lemma {:induction false} StringReadsBack(d: Reader, t: string)
    ensures ParseValue(d, "\"" + EscapeString(t) + "\"") == Ok(String(t))
  {
    hide EscapeString, UnescapeString;
    var s := "\"" + EscapeString(t) + "\"";
    assert s[1..|s| - 1] == EscapeString(t);
    StringInverse(t);
  }

  lemma {:induction false} NumberText(d: Reader, digits: string, suffix: char)
    requires digits != "" && (IsDigit(digits[0]) || digits[0] == '-') && (suffix == 'i' || suffix == 'u')
    ensures var s := digits + [suffix];
            ParseValue(d, s) ==
            if suffix == 'i' then (if ParseInt(digits).Some? then Ok(Int(ParseInt(digits).value))
                else Err(InvalidInteger))
            else if ParseUint(digits).Some? then Ok(UInt(ParseUint(digits).value)) else Err(InvalidUnsigned)
  {
    hide ParseInt, ParseUint;
    var s := digits + [suffix];
    assert s[0] == digits[0] && s[|s| - 1] == suffix && s[..|s| - 1] == digits;
  }

  lemma {:induction false} IntBare(i: int)
    ensures Bare(FormatInt(i)) && (IsDigit(FormatInt(i)[0]) || FormatInt(i)[0] == '-') &&
            IsDigit(FormatInt(i)[|FormatInt(i)| - 1])
  {
    var digits := FormatNat(if i < 0 then -i else i);
    assert FormatInt(i)[|FormatInt(i)| - 1] == digits[|digits| - 1];
  }

  lemma {:induction false} ValueClosed(d: Reader, v: FieldValue)
    requires CleanValue(d, v)
    ensures Closed(ValueText(v), {',', ' '}, false) && '\n' !in ValueText(v)
    ensures ValueText(v) != "" && !IsSpace(ValueText(v)[|ValueText(v)| - 1])
  {
    hide EscapeString, FormatInt, FormatNat, Closed;
    match v
    case String(s) => StringClosed(s);
    case Float(text) => BareEnd(text);
    case Int(i) =>
      IntBare(i);
      BareEnd(FormatInt(i) + "i");
    case UInt(u) => BareEnd(FormatNat(u) + "u");
    case Bool(b) => BareEnd(if b then "t" else "f");
  }

  lemma {:induction false} BareEnd(s: string)
    requires Bare(s)
    ensures Closed(s, {',', ' '}, false) && '\n' !in s && !IsSpace(s[|s| - 1])
  {
    BareClosed(s);
    assert IsBare(s[|s| - 1]);
  }

  lemma {:induction false} StringClosed(s: string)
    requires '\n' !in s
    ensures var text := "\"" + EscapeString(s) + "\"";
            Closed(text, {',', ' '}, false) && '\n' !in text && !IsSpace(text[|text| - 1])
  {
    hide EscapeString, Escaped;
    StringInverse(s);
    EscapedOneLine(s, {'\\', '"'});
    QuotedClosed(s, {',', ' '});
    var body := Escaped(s, {'\\', '"'}) + "\"";
    assert "\"" + EscapeString(s) + "\"" == "\"" + body;
    assert ("\"" + body)[1..] == body;
  }

  lemma {:induction false} FieldReadsBack(d: Reader, f: Field)
    requires CleanField(d, f)
    ensures Closed(FieldText(f), {',', ' '}, false) && '\n' !in FieldText(f)
    ensures FieldText(f) != "" && !IsSpace(FieldText(f)[|FieldText(f)| - 1])
    ensures ParseField(d, FieldText(f)) == Ok(f)
  {
    hide EscapeName, UnescapeName, Find, ValueText, ParseValue, IsSpace;
    var k, v := EscapeName(f.key), ValueText(f.value);
    ValueClosed(d, f.value);
    ValueReadsBack(d, f.value);
    PairClosed(f.key, v, {',', ' '});
    assert (k + "=" + v)[..|k|] == k && (k + "=" + v)[|k| + 1..] == v;
    NameInverse(f.key);
    EscapedOneLine(f.key, NAME_CHARS);
  }

  lemma {:induction false} FieldsReadBack(d: Reader, fields: seq<Field>)
    requires CleanFields(d, fields)
    ensures forall i :: 0 <= i < |fields| ==>
              Closed(FieldTexts(fields)[i], {',', ' '}, false) && '\n' !in FieldTexts(fields)[i]
    ensures fields != [] ==> var last := FieldText(fields[|fields| - 1]); last != "" && !IsSpace(last[|last| - 1])
    ensures ParseFieldList(d, FieldTexts(fields)) == Ok(fields)
  {
    hide FieldText, ParseField, CleanField, IsSpace;
    if fields != [] {
      FieldReadsBack(d, fields[0]);
      FieldsReadBack(d, fields[1..]);
      assert FieldTexts(fields)[1..] == FieldTexts(fields[1..]);
      assert [fields[0]] + fields[1..] == fields;
    }
  }

  // ----- a line reads back -----

  lemma {:induction false} PartsClosed(parts: seq<string>)
    requires forall i :: 0 <= i < |parts| ==> Closed(parts[i], {',', ' '}, false)
    ensures Closed(Join(parts, ','), {' '}, false)
    ensures parts != [] ==> Split(Join(parts, ','), ',') == parts
  {
    hide Split, Join;
    forall i | 0 <= i < |parts| ensures Closed(parts[i], {' '}, false) && Closed(parts[i], {','}, false) {
      ClosedForFewer(parts[i], {',', ' '}, {' '}, false);
      ClosedForFewer(parts[i], {',', ' '}, {','}, false);
    }
    JoinClosed(parts, ',', {' '});
    if parts != [] {
      SplitJoin(parts, ',');
    }
  }

  /** Sorting neither adds nor loses tags and fields. */
  lemma {:induction false} SortedMembers(p: Point)
    ensures |TagsByKey(p.tags)| == |p.tags| && |FieldsByKey(p.fields)| == |p.fields|
    ensures forall t :: t in TagsByKey(p.tags) <==> t in p.tags
    ensures forall f :: f in FieldsByKey(p.fields) <==> f in p.fields
  {
    hide Sorted;
    SortedIsSort(p.tags, (t: Tag) => t.key);
    SortedIsSort(p.fields, (f: Field) => f.key);
    var tags, fields := TagsByKey(p.tags), FieldsByKey(p.fields);
    forall t ensures t in tags <==> t in p.tags {
      assert t in multiset(tags) <==> t in multiset(p.tags);
    }
    forall f ensures f in fields <==> f in p.fields {
      assert f in multiset(fields) <==> f in multiset(p.fields);
    }
  }

  lemma {:induction false} SortedClean(d: Reader, p: Point)
    requires Clean(d, p)
    ensures CleanTags(TagsByKey(p.tags)) && CleanFields(d, FieldsByKey(p.fields))
    ensures |TagsByKey(p.tags)| == |p.tags| && |FieldsByKey(p.fields)| == |p.fields|
  {
    hide TagOneLine, TagHidden, FieldOneLine, KeyHidden, ValidValue, TagsByKey, FieldsByKey, MeasurementHidden;
    SortedMembers(p);
  }

  lemma {:induction false} HeadReadsBack(d: Reader, p: Point)
    requires Clean(d, p)
    ensures Closed(Head(p), {' '}, false)
    ensures ParseHead(Head(p)) == Ok((p.measurement, TagsByKey(p.tags)))
  {
    hide EscapeMeasurement, UnescapeMeasurement, TagTexts, Join, Split, Find, CleanTags, CleanFields, ParseTagList;
    var m, tags := EscapeMeasurement(p.measurement), TagsByKey(p.tags);
    var list := Join(TagTexts(tags), ',');
    MeasurementInverse(p.measurement);
    ClosedForFewer(m, MEASUREMENT_CHARS, {' '}, false);
    SortedClean(d, p);
    TagsReadBack(tags);
    PartsClosed(TagTexts(tags));
    if p.tags == [] {
      assert m + "" == m;
      FindsNothing(m, MEASUREMENT_CHARS, ',');
    } else {
      OneClosed(',', {' '});
      ClosedConcat(",", list, {' '}, false);
      ClosedConcat(m, "," + list, {' '}, false);
      Assoc(m, ",", list);
      FindsSeparator(m, list, MEASUREMENT_CHARS, ',');
    }
  }

  lemma {:induction false} TailReadsBack(d: Reader, p: Point)
    requires Clean(d, p)
    ensures ParseTail(d, FieldPart(p) + TimePart(d.precision, p)) ==
            Ok((FieldsByKey(p.fields), p.timestamp / Unit(d.precision) * Unit(d.precision)))
  {
    hide FieldTexts, Join, Split, Find, CleanTags, CleanFields, ParseFieldList, FormatInt, ParseInt, TrimSpace, IsSpace;
    var fields, part := FieldsByKey(p.fields), FieldPart(p);
    SortedClean(d, p);
    FieldsReadBack(d, fields);
    PartsClosed(FieldTexts(fields));
    if p.timestamp == ZERO_TIME {
      assert part + "" == part;
      FindsNothing(part, {' '}, ' ');
      ZeroTimeIsWhole(d.precision);
    } else {
      var v := p.timestamp / Unit(d.precision);
      var text := FormatInt(v);
      Assoc(part, " ", text);
      FindsSeparator(part, text, {' '}, ' ');
      IntReadsBack(v);
      IntTrimmed(v);
    }
  }

  lemma {:induction false} ZeroTimeIsWhole(precision: Precision)
    ensures ZERO_TIME / Unit(precision) * Unit(precision) == ZERO_TIME
  {
  }

  lemma {:induction false} IntTrimmed(i: int)
    ensures FormatInt(i) != "" && TrimSpace(FormatInt(i)) == FormatInt(i)
  {
    IntBare(i);
  }

  lemma {:induction false} LineReadsBack(d: Reader, p: Point)
    requires Clean(d, p)
    ensures DecodeLine(d, Line(d.precision, p)) == Ok(Norm(d.precision, p))
  {
    hide Head, FieldPart, TimePart, Find, ParseHead, ParseTail, Clean;
    HeadReadsBack(d, p);
    TailReadsBack(d, p);
    FindsSeparator(Head(p), FieldPart(p) + TimePart(d.precision, p), {' '}, ' ');
  }

  // ----- a whole text reads back -----

  lemma {:induction false} JoinOneLine(parts: seq<string>)
    requires forall i :: 0 <= i < |parts| ==> '\n' !in parts[i]
    ensures '\n' !in Join(parts, ',')
  {
    if |parts| > 1 {
      JoinOneLine(parts[1..]);
    }
  }

  lemma {:induction false} JoinLast(parts: seq<string>)
    requires parts != [] && parts[|parts| - 1] != ""
    ensures var j, last := Join(parts, ','), parts[|parts| - 1]; j != "" && j[|j| - 1] == last[|last| - 1]
  {
    if |parts| > 1 {
      JoinLast(parts[1..]);
    }
  }

  lemma {:induction false} TagTextsOneLine(tags: seq<Tag>)
    requires forall t :: t in tags ==> TagOneLine(t)
    ensures forall i :: 0 <= i < |tags| ==> '\n' !in TagTexts(tags)[i]
  {
    hide EscapeName, Escaped;
    forall i | 0 <= i < |tags| ensures '\n' !in TagTexts(tags)[i] {
      var t := tags[i];
      assert TagOneLine(t);
      NameInverse(t.key);
      NameInverse(t.value);
      EscapedOneLine(t.key, NAME_CHARS);
      EscapedOneLine(t.value, NAME_CHARS);
    }
  }

  lemma {:induction false} FieldTextsOneLine(d: Reader, fields: seq<Field>)
    requires forall f :: f in fields ==> FieldOneLine(f) && ValidValue(d, f.value)
    ensures forall i :: 0 <= i < |fields| ==>
              var text := FieldTexts(fields)[i]; '\n' !in text && text != "" && !IsSpace(text[|text| - 1])
  {
    hide EscapeName, Escaped, ValueText, IsSpace;
    forall i | 0 <= i < |fields|
      ensures var text := FieldTexts(fields)[i]; '\n' !in text && text != "" && !IsSpace(text[|text| - 1])
    {
      var f := fields[i];
      assert FieldOneLine(f) && ValidValue(d, f.value);
      NameInverse(f.key);
      EscapedOneLine(f.key, NAME_CHARS);
      ValueClosed(d, f.value);
    }
  }

  lemma {:induction false} HeadShape(p: Point)
    requires p.measurement != "" && OneLine(p)
    ensures '\n' !in Head(p) && Head(p) != ""
    ensures Head(p)[0] == if p.measurement[0] in MEASUREMENT_CHARS then '\\' else p.measurement[0]
  {
    hide EscapeMeasurement, TagTexts, Join, TagsByKey, TagOneLine, FieldOneLine;
    var m, tags := EscapeMeasurement(p.measurement), TagsByKey(p.tags);
    MeasurementInverse(p.measurement);
    EscapedOneLine(p.measurement, MEASUREMENT_CHARS);
    SortedMembers(p);
    TagTextsOneLine(tags);
    JoinOneLine(TagTexts(tags));
    assert m[0] == if p.measurement[0] in MEASUREMENT_CHARS then '\\' else p.measurement[0];
  }

  lemma {:induction false} TailShape(d: Reader, p: Point)
    requires Valid(d, p) && OneLine(p)
    ensures var tail := FieldPart(p) + TimePart(d.precision, p);
            '\n' !in tail && tail != "" && !IsSpace(tail[|tail| - 1])
  {
    hide FieldTexts, Join, FormatInt, IsSpace, FieldsByKey, TagOneLine, FieldOneLine, ValidValue, Unit;
    var fields, part := FieldsByKey(p.fields), FieldPart(p);
    SortedMembers(p);
    FieldTextsOneLine(d, fields);
    JoinOneLine(FieldTexts(fields));
    JoinLast(FieldTexts(fields));
    IntBareLast(p.timestamp / Unit(d.precision));
    if p.timestamp == ZERO_TIME {
      assert part + "" == part;
    }
  }

  /** The line is one line, begins like its measurement, and ends without space. */
  lemma {:induction false} LineShape(d: Reader, p: Point)
    requires Valid(d, p) && OneLine(p)
    ensures var line := Line(d.precision, p);
            '\n' !in line && line != "" && !IsSpace(line[|line| - 1]) &&
            line[0] == if p.measurement[0] in MEASUREMENT_CHARS then '\\' else p.measurement[0]
  {
    hide Head, FieldPart, TimePart, OneLine, IsSpace;
    HeadShape(p);
    TailShape(d, p);
  }

  lemma {:induction false} IntBareLast(i: int)
    ensures '\n' !in FormatInt(i) && FormatInt(i) != "" && !IsSpace(FormatInt(i)[|FormatInt(i)| - 1])
  {
    IntBare(i);
    BareClosed(FormatInt(i));
  }

  lemma {:induction false} LineKept(d: Reader, p: Point)
    requires Valid(d, p) && OneLine(p) && (p.measurement[0] == ' ' || !IsSpace(p.measurement[0]))
    ensures TrimSpace(Line(d.precision, p)) == Line(d.precision, p)
  {
    hide Line, TrimLeft, TrimRight, TrimSpace;
    LineShape(d, p);
  }

  function Norms(precision: Precision, ps: seq<Point>): seq<Point> {
    if ps == [] then [] else [Norm(precision, ps[0])] + Norms(precision, ps[1..])
  }

  /** Every list of points reads back, with tags and fields sorted by key and
      times cut to the precision. String values may hold anything but line
      feeds; names may hold any separators. */
  lemma {:induction false} RoundTrip(d: Reader, ps: seq<Point>)
    requires forall i :: 0 <= i < |ps| ==> Clean(d, ps[i]) && Starts(ps[i])
    ensures EncodePoints(d.precision, ps).Ok?
    ensures Decode(d, EncodePoints(d.precision, ps).value) == Ok(Norms(d.precision, ps))
  {
    hide Line, DecodeLine, TrimSpace, Norm;
    if ps == [] {
      assert Lines("") == [""];
      assert TrimSpace("") == "" by { EmptyTrimmed(); }
      assert DecodeLines(d, [""][1..]) == Ok([]);
    } else {
      var line, rest := Line(d.precision, ps[0]), EncodePoints(d.precision, ps[1..]);
      assert Clean(d, ps[0]) && Starts(ps[0]);
      RoundTrip(d, ps[1..]);
      LineShape(d, ps[0]);
      LineKept(d, ps[0]);
      LineReadsBack(d, ps[0]);
      FirstLine(line, rest.value);
      assert ([line] + Lines(rest.value))[1..] == Lines(rest.value);
    }
  }

  lemma {:induction false} EmptyTrimmed()
    ensures TrimSpace("") == ""
  {
  }
}
