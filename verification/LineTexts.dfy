/** The line protocol by its characters: what every spelling of a value, every
    line and every text of lines reads as, whoever wrote it, and what the
    encoder writes. */
module LineTexts {
  import opened Bytes
  import opened Results
  import opened Text
  import opened KeyOrder
  import opened LineProtocol

  // ----- numerals -----

  type Numeral = ds: seq<nat> | forall d :: d in ds ==> d < 10

  function Digits(ds: Numeral): string {
    if ds == [] then "" else Digits(ds[..|ds| - 1]) + ["0123456789"[ds[|ds| - 1]]]
  }

  function Number(ds: Numeral): nat {
    if ds == [] then 0 else 10 * Number(ds[..|ds| - 1]) + ds[|ds| - 1]
  }

  lemma {:induction false} DigitsAre(ds: Numeral)
    ensures |Digits(ds)| == |ds| && forall i :: 0 <= i < |ds| ==> IsDigit(Digits(ds)[i])
  {
    if ds != [] {
      DigitsAre(ds[..|ds| - 1]);
    }
  }

  lemma {:induction false} NumeralReads(ds: Numeral)
    requires ds != []
    ensures ParseNat(Digits(ds)) == Some(Number(ds))
  {
    var s, front, last := Digits(ds), ds[..|ds| - 1], ds[|ds| - 1];
    DigitsAre(ds);
    assert s[..|s| - 1] == Digits(front);
    assert DigitValue("0123456789"[last]) == last;
    if |ds| == 1 {
      assert s == "" + [s[0]];
      assert Number(front) == 0;
    } else {
      NumeralReads(front);
    }
  }

  lemma {:induction false} DigitOf(c: char)
    requires IsDigit(c)
    ensures DigitValue(c) < 10 && "0123456789"[DigitValue(c)] == c
  {
  }

  lemma {:induction false} NoDigits()
    ensures Digits([]) == ""
  {
  }

  lemma {:induction false} DigitsMore(ds: Numeral, d: nat)
    requires d < 10
    ensures Digits(ds + [d]) == Digits(ds) + ["0123456789"[d]]
  {
    assert (ds + [d])[..|ds|] == ds;
  }

  /** Whatever parses as a number is a numeral. */
  lemma {:induction false} NumeralOf(s: string) returns (ds: Numeral)
    requires ParseNat(s).Some?
    ensures ds != [] && Digits(ds) == s
  {
    hide Digits, DigitValue;
    var front, c := s[..|s| - 1], s[|s| - 1];
    var start: Numeral := [];
    if |s| == 1 {
      NoDigits();
    } else {
      start := NumeralOf(front);
    }
    DigitOf(c);
    DigitsMore(start, DigitValue(c));
    ds := start + [DigitValue(c)];
    assert s == front + [c];
  }

  /** A number is written without leading zeros. */
  lemma {:induction false} NumeralWritten(ds: Numeral)
    requires ds != [] && (ds[0] != 0 || |ds| == 1)
    ensures FormatNat(Number(ds)) == Digits(ds) && (ds[0] != 0 ==> Number(ds) > 0)
  {
    var front, last := ds[..|ds| - 1], ds[|ds| - 1];
    if |ds| == 1 {
      assert front == [] && Number(front) == 0;
      assert Digits(ds) == "" + ["0123456789"[last]];
      assert DIGITS[last] == "0123456789"[last];
    } else {
      NumeralWritten(front);
      assert Number(ds) / 10 == Number(front) && Number(ds) % 10 == last;
      assert DIGITS[last] == "0123456789"[last];
    }
  }

  // ----- the spellings of a value -----

  datatype Sign = NoSign | Plus | Minus

  datatype Spelled =
    | Truth(text: string)
    | Falsity(text: string)
    | Whole(sign: Sign, digits: Numeral)
    | Counting(digits: Numeral)
    | Decimal(text: string)
    | Quoted(content: string)

  function SignText(s: Sign): string {
    match s
    case NoSign => ""
    case Plus => "+"
    case Minus => "-"
  }

  function Signed(s: Sign, n: nat): int {
    if s == Minus then -(n as int) else n
  }

  /** Of 64 bits, signed. */
  predicate InRange(i: int) {
    -0x8000_0000_0000_0000 <= i < 0x8000_0000_0000_0000
  }

  const TRUE_TEXTS: set<string> := {"t", "T", "true", "True", "TRUE"}
  const FALSE_TEXTS: set<string> := {"f", "F", "false", "False", "FALSE"}

  function SpelledText(v: Spelled): string {
    match v
    case Truth(text) => text
    case Falsity(text) => text
    case Whole(sign, digits) => SignText(sign) + Digits(digits) + "i"
    case Counting(digits) => Digits(digits) + "u"
    case Decimal(text) => text
    case Quoted(content) => "\"" + Escaped(content, {'\\', '"'}) + "\""
  }

  predicate SpelledOk(d: Reader, v: Spelled) {
    match v
    case Truth(text) => text in TRUE_TEXTS
    case Falsity(text) => text in FALSE_TEXTS
    case Whole(sign, digits) => digits != [] && InRange(Signed(sign, Number(digits)))
    case Counting(digits) => digits != [] && Number(digits) < 0x1_0000_0000_0000_0000
    case Decimal(text) =>
      d.isFloat(text) && text != "" && text[0] != '"' && text[|text| - 1] != 'i' && text[|text| - 1] != 'u' &&
      text !in TRUE_TEXTS && text !in FALSE_TEXTS
    case Quoted(content) => true
  }

  function SpelledMeaning(d: Reader, v: Spelled): FieldValue
    requires SpelledOk(d, v)
  {
    match v
    case Truth(_) => Bool(true)
    case Falsity(_) => Bool(false)
    case Whole(sign, digits) => Int(Signed(sign, Number(digits)))
    case Counting(digits) => UInt(Number(digits))
    case Decimal(text) => Float(text)
    case Quoted(content) => String(content)
  }

  lemma {:induction false} WholeReads(sign: Sign, ds: Numeral)
    requires ds != [] && InRange(Signed(sign, Number(ds)))
    ensures ParseInt(SignText(sign) + Digits(ds)) == Some(Signed(sign, Number(ds)))
  {
    hide ParseNat;
    DigitsAre(ds);
    NumeralReads(ds);
    var s := SignText(sign) + Digits(ds);
    if sign == NoSign {
      assert s == Digits(ds) && IsDigit(s[0]);
    } else {
      assert s[1..] == Digits(ds);
    }
  }

  lemma {:induction false} SpelledReads(d: Reader, v: Spelled)
    requires SpelledOk(d, v)
    ensures ParseValue(d, SpelledText(v)) == Ok(SpelledMeaning(d, v))
  {
    hide ParseInt, ParseNat, EscapeString, ParseValue, Number;
    match v
    case Truth(text) => BooleansExactly(d, text);
    case Falsity(text) => BooleansExactly(d, text);
    case Whole(sign, digits) =>
      WholeReads(sign, digits);
      SuffixReads(d, SignText(sign) + Digits(digits), 'i') by { DigitsAre(digits); }
    case Counting(digits) =>
      NumeralReads(digits);
      SuffixReads(d, Digits(digits), 'u') by { DigitsAre(digits); }
    case Decimal(text) => DecimalReads(d, text);
    case Quoted(content) =>
      StringInverse(content);
      StringReadsBack(d, content);
  }

  lemma {:induction false} SuffixReads(d: Reader, digits: string, suffix: char)
    requires digits != "" && digits[0] !in "\"tTfF" && (suffix == 'i' || suffix == 'u')
    ensures var s := digits + [suffix];
            ParseValue(d, s) ==
            if suffix == 'i' then (if ParseInt(digits).Some? then Ok(Int(ParseInt(digits).value))
                else Err(InvalidInteger))
            else if ParseUint(digits).Some? then Ok(UInt(ParseUint(digits).value)) else Err(InvalidUnsigned)
  {
    hide ParseInt, ParseUint;
    var s := digits + [suffix];
    assert s[0] == digits[0] && s[|s| - 1] == suffix && s[..|s| - 1] == digits;
  }

  lemma {:induction false} DecimalReads(d: Reader, text: string)
    requires SpelledOk(d, Decimal(text))
    ensures ParseValue(d, text) == Ok(Float(text))
  {
    hide ParseInt, ParseUint, UnescapeString;
  }

  /** A text reads as true for exactly five spellings, and as false for exactly
      five. */
  lemma {:induction false} BooleansExactly(d: Reader, s: string)
    ensures ParseValue(d, s) == Ok(Bool(true)) <==> s in {"t", "T", "true", "True", "TRUE"}
    ensures ParseValue(d, s) == Ok(Bool(false)) <==> s in {"f", "F", "false", "False", "FALSE"}
  {
    hide ParseInt, ParseUint, UnescapeString;
  }

  /** Any text that is not quoted reads as a value exactly if it is the text of a
      spelling. */
  lemma {:induction false} ReadsExactly(d: Reader, s: string)
    requires s == "" || s[0] != '"'
    ensures ParseValue(d, s).Ok? <==> exists v: Spelled :: !v.Quoted? && SpelledOk(d, v) && SpelledText(v) == s
  {
    hide ParseValue, SpelledText, SpelledOk;
    if ParseValue(d, s).Ok? {
      var v := SpellingOf(d, s);
      assert SpelledText(v) == s;
    } else {
      forall v: Spelled | SpelledOk(d, v) ensures SpelledText(v) != s {
        SpelledReads(d, v);
      }
    }
  }

  lemma {:induction false} SpellingOf(d: Reader, s: string) returns (v: Spelled)
    requires (s == "" || s[0] != '"') && ParseValue(d, s).Ok?
    ensures !v.Quoted? && SpelledOk(d, v) && SpelledText(v) == s
  {
    hide ParseNat, Number, Digits;
    var last := s[|s| - 1];
    var front := s[..|s| - 1];
    assert front + [last] == s;
    if s in TRUE_TEXTS {
      v := Truth(s);
    } else if s in FALSE_TEXTS {
      v := Falsity(s);
    } else if last == 'i' {
      v := WholeOf(front);
    } else if last == 'u' {
      var ds := NumeralOf(front);
      NumeralReads(ds);
      v := Counting(ds);
    } else {
      v := Decimal(s);
    }
  }

  lemma {:induction false} WholeOf(s: string) returns (v: Spelled)
    requires ParseInt(s).Some?
    ensures v.Whole? && v.digits != [] && SignText(v.sign) + Digits(v.digits) == s
    ensures InRange(Signed(v.sign, Number(v.digits)))
  {
    hide ParseNat, Number, Digits;
    var signed := s[0] == '-' || s[0] == '+';
    var ds := NumeralOf(if signed then s[1..] else s);
    NumeralReads(ds);
    v := Whole(if s[0] == '-' then Minus else if s[0] == '+' then Plus else NoSign, ds);
    assert signed ==> s == [s[0]] + s[1..];
    assert !signed ==> s == "" + s;
  }

  /** Decimal numbers, with a fraction and a minus sign or without, and the three
      texts that are not numbers, are texts of floats. */
  lemma {:induction false} FloatTexts(minus: bool, whole: Numeral, fraction: Numeral)
    requires whole != []
    ensures IsFloatText((if minus then "-" else "") + Digits(whole))
    ensures IsFloatText((if minus then "-" else "") + Digits(whole) + "." + Digits(fraction))
    ensures IsFloatText("NaN") && IsFloatText("+Inf") && IsFloatText("-Inf")
  {
    DigitsAre(whole);
    DigitsAre(fraction);
    var a := (if minus then "-" else "") + Digits(whole);
    forall i | 0 <= i < |a| ensures IsDigit(a[i]) || a[i] == '-' {
      if i >= |a| - |whole| {
        assert a[i] == Digits(whole)[i - (|a| - |whole|)];
      }
    }
    var b := a + "." + Digits(fraction);
    forall i | 0 <= i < |b| ensures IsDigit(b[i]) || b[i] == '-' || b[i] == '.' {
      if i < |a| {
        assert b[i] == a[i];
      } else if i > |a| {
        assert b[i] == Digits(fraction)[i - |a| - 1];
      }
    }
  }

  // ----- what does not read -----

  lemma {:induction false} FindAbsent(s: string, ch: char, quoted: bool)
    requires ch !in s
    ensures Find(s, ch, quoted) == -1
    decreases |s|
  {
    if s != "" {
      assert s[0] in s;
      AbsentBehind(s, ch, 1);
      FindAbsent(s[1..], ch, quoted);
      FindAbsent(s[1..], ch, !quoted);
      if |s| > 1 {
        AbsentBehind(s, ch, 2);
        FindAbsent(s[2..], ch, quoted);
      }
    }
  }

  lemma {:induction false} AbsentBehind(s: string, ch: char, k: nat)
    requires ch !in s && k <= |s|
    ensures ch !in s[k..]
  {
  }

  /** What is wrong with a field is told apart. */
  lemma {:induction false} FieldErrors(d: Reader, key: string, s: string)
    requires KeyHidden(key)
    ensures ParseField(d, Escaped(key, {',', '=', ' '})) == Err(InvalidField)
    ensures s == "" ==> ParseField(d, Escaped(key, {',', '=', ' '}) + "=" + s) == Err(EmptyValue)
    ensures s != "" && s[0] == '"' && (|s| == 1 || s[|s| - 1] != '"') ==>
              ParseField(d, Escaped(key, {',', '=', ' '}) + "=" + s) == Err(UnterminatedString)
    ensures s != "" && s[0] !in "\"tTfF" && s[|s| - 1] == 'i' && ParseInt(s[..|s| - 1]).None? ==>
              ParseField(d, Escaped(key, {',', '=', ' '}) + "=" + s) == Err(InvalidInteger)
    ensures s != "" && s[0] !in "\"tTfF" && s[|s| - 1] == 'u' && ParseUint(s[..|s| - 1]).None? ==>
              ParseField(d, Escaped(key, {',', '=', ' '}) + "=" + s) == Err(InvalidUnsigned)
    ensures s != "" && s[0] !in "\"tTfF" && s[|s| - 1] !in "iu" && !d.isFloat(s) ==>
              ParseField(d, Escaped(key, {',', '=', ' '}) + "=" + s) == Err(InvalidFloat)
  {
    hide EscapeName, UnescapeName, Find, Closed, ParseInt, ParseUint, UnescapeString, Escaped;
    var k := EscapeName(key);
    NameInverse(key);
    FindsNothing(k, NAME_CHARS, '=');
    FindsSeparator(k, s, NAME_CHARS, '=');
  }

  lemma {:induction false} TagError(key: string)
    requires KeyHidden(key)
    ensures ParseTag(Escaped(key, {',', '=', ' '})) == Err(InvalidTag)
  {
    hide EscapeName, Find, Closed;
    NameInverse(key);
    FindsNothing(EscapeName(key), NAME_CHARS, '=');
  }

  lemma {:induction false} NoFieldsError(d: Reader, line: string)
    requires ' ' !in line
    ensures DecodeLine(d, line) == Err(MissingFields)
  {
    FindAbsent(line, ' ', false);
  }

  // ----- a line by its parts -----

  datatype Named = Named(key: string, value: Spelled)

  datatype When = Never | At(blanks: string, sign: Sign, digits: Numeral)

  datatype Written = Written(measurement: string, tags: seq<Tag>, fields: seq<Named>, time: When)

  function TagPart(t: Tag): string {
    Escaped(t.key, {',', '=', ' '}) + "=" + Escaped(t.value, {',', '=', ' '})
  }

  function NamedPart(f: Named): string {
    Escaped(f.key, {',', '=', ' '}) + "=" + SpelledText(f.value)
  }

  function TagParts(tags: seq<Tag>): string {
    if tags == [] then "" else "," + TagPart(tags[0]) + TagParts(tags[1..])
  }

  function NamedParts(fields: seq<Named>): string {
    if fields == [] then ""
    else if |fields| == 1 then NamedPart(fields[0])
    else NamedPart(fields[0]) + "," + NamedParts(fields[1..])
  }

  function WhenPart(t: When): string {
    match t
    case Never => ""
    case At(blanks, sign, digits) => " " + (blanks + (SignText(sign) + Digits(digits)))
  }

  function LineText(w: Written): string {
    Escaped(w.measurement, {',', ' '}) + TagParts(w.tags) + " " + (NamedParts(w.fields) + WhenPart(w.time))
  }

  predicate NamedOk(d: Reader, f: Named) {
    KeyHidden(f.key) && SpelledOk(d, f.value) && (f.value.Decimal? ==> Closed(f.value.text, {',', ' '}, false))
  }

  predicate AllNamedOk(d: Reader, fields: seq<Named>) {
    forall f :: f in fields ==> NamedOk(d, f)
  }

  predicate AllTagsHidden(tags: seq<Tag>) {
    forall t :: t in tags ==> TagHidden(t)
  }

  predicate WhenOk(t: When) {
    t.At? ==> Blank(t.blanks) && t.digits != [] && InRange(Signed(t.sign, Number(t.digits)))
  }

  predicate WrittenOk(d: Reader, w: Written) {
    MeasurementHidden(w.measurement) && AllTagsHidden(w.tags) && w.fields != [] && AllNamedOk(d, w.fields) &&
    WhenOk(w.time)
  }

  function NamedMeaning(d: Reader, fields: seq<Named>): seq<Field>
    requires AllNamedOk(d, fields)
  {
    if fields == [] then []
    else
      assert NamedOk(d, fields[0]);
      [Field(fields[0].key, SpelledMeaning(d, fields[0].value))] + NamedMeaning(d, fields[1..])
  }

  /** In nanoseconds since 1970; without a time, the first instant of the year 1. */
  function WhenMeaning(precision: Precision, t: When): int {
    match t
    case Never => -62135596800_000_000_000
    case At(_, sign, digits) =>
      Signed(sign, Number(digits)) *
      match precision
      case Nanosecond => 1
      case Microsecond => 1000
      case Millisecond => 1000000
      case Second => 1000000000
  }

  function Meaning(d: Reader, w: Written): Point
    requires WrittenOk(d, w)
  {
    Point(w.measurement, w.tags, NamedMeaning(d, w.fields), WhenMeaning(d.precision, w.time))
  }

  // ----- a line reads as what its parts mean -----

  lemma {:induction false} TagPartReads(t: Tag)
    requires TagHidden(t)
    ensures Closed(TagPart(t), {',', ' '}, false) && ParseTag(TagPart(t)) == Ok(t)
  {
    hide EscapeName, UnescapeName, Find, Escaped;
    var k, v := EscapeName(t.key), EscapeName(t.value);
    NameInverse(t.key);
    NameInverse(t.value);
    PairClosed(t.key, v, {',', ' '});
    assert (k + "=" + v)[..|k|] == k && (k + "=" + v)[|k| + 1..] == v;
  }

  function TagTextList(tags: seq<Tag>): (r: seq<string>)
    ensures |r| == |tags| && forall i :: 0 <= i < |r| ==> r[i] == TagPart(tags[i])
  {
    if tags == [] then [] else [TagPart(tags[0])] + TagTextList(tags[1..])
  }

  lemma {:induction false} TagListReads(tags: seq<Tag>)
    requires AllTagsHidden(tags)
    ensures forall i :: 0 <= i < |tags| ==> Closed(TagTextList(tags)[i], {',', ' '}, false)
    ensures ParseTagList(TagTextList(tags)) == Ok(tags)
    ensures tags != [] ==> TagParts(tags) == "," + Join(TagTextList(tags), ',')
  {
    hide TagPart, ParseTag, TagHidden, Closed;
    if tags != [] {
      TagPartReads(tags[0]);
      TagListReads(tags[1..]);
      assert TagTextList(tags)[1..] == TagTextList(tags[1..]);
      assert [tags[0]] + tags[1..] == tags;
      JoinCommas(TagTextList(tags), TagParts(tags[1..]));
    }
  }

  lemma {:induction false} JoinCommas(parts: seq<string>, rest: string)
    requires parts != [] && rest == (if |parts| == 1 then "" else "," + Join(parts[1..], ','))
    ensures "," + parts[0] + rest == "," + Join(parts, ',')
  {
    hide Join;
    JoinStep(parts);
  }

  lemma {:induction false} JoinStep(parts: seq<string>)
    requires parts != []
    ensures Join(parts, ',') == if |parts| == 1 then parts[0] else parts[0] + "," + Join(parts[1..], ',')
  {
  }

  lemma {:induction false} HeadReads(m: string, tags: seq<Tag>)
    requires MeasurementHidden(m) && AllTagsHidden(tags)
    ensures var head := Escaped(m, {',', ' '}) + TagParts(tags);
            Closed(head, {' '}, false) && ParseHead(head) == Ok((m, tags))
  {
    hide EscapeMeasurement, UnescapeMeasurement, TagTextList, Join, Split, Find, ParseTagList, Closed, Escaped,
      TagHidden;
    var e, list := EscapeMeasurement(m), Join(TagTextList(tags), ',');
    MeasurementInverse(m);
    ClosedForFewer(e, MEASUREMENT_CHARS, {' '}, false);
    TagListReads(tags);
    PartsClosed(TagTextList(tags));
    if tags == [] {
      assert e + "" == e;
      FindsNothing(e, MEASUREMENT_CHARS, ',');
    } else {
      OneClosed(',', {' '});
      ClosedConcat(",", list, {' '}, false);
      ClosedConcat(e, "," + list, {' '}, false);
      Assoc(e, ",", list);
      FindsSeparator(e, list, MEASUREMENT_CHARS, ',');
    }
  }

  lemma {:induction false} DigitsBare(sign: Sign, ds: Numeral)
    requires ds != []
    ensures Bare(SignText(sign) + Digits(ds))
    ensures Tight(SignText(sign) + Digits(ds)) && SignText(sign) + Digits(ds) != ""
  {
    DigitsAre(ds);
    var s := SignText(sign) + Digits(ds);
    forall i | 0 <= i < |s| ensures IsBare(s[i]) {
      if i >= |SignText(sign)| {
        assert s[i] == Digits(ds)[i - |SignText(sign)|];
      }
    }
    assert IsBare(s[0]) && IsBare(s[|s| - 1]);
  }

  lemma {:induction false} BareSuffix(s: string, c: char)
    requires Bare(s) && IsBare(c)
    ensures Bare(s + [c])
  {
  }

  lemma {:induction false} SpelledClosed(d: Reader, v: Spelled)
    requires SpelledOk(d, v) && (v.Decimal? ==> Closed(v.text, {',', ' '}, false))
    ensures Closed(SpelledText(v), {',', ' '}, false)
  {
    hide Closed, Digits, Bare, Number;
    match v
    case Truth(text) => WordClosed(text);
    case Falsity(text) => WordClosed(text);
    case Whole(sign, digits) =>
      DigitsBare(sign, digits);
      BareSuffix(SignText(sign) + Digits(digits), 'i');
      BareClosed(SpelledText(v));
    case Counting(digits) =>
      DigitsBare(NoSign, digits);
      assert "" + Digits(digits) == Digits(digits);
      BareSuffix(Digits(digits), 'u');
      BareClosed(SpelledText(v));
    case Decimal(_) =>
    case Quoted(content) => QuotedTextClosed(content);
  }

  lemma {:induction false} WordClosed(text: string)
    requires text in TRUE_TEXTS || text in FALSE_TEXTS
    ensures Closed(text, {',', ' '}, false)
  {
    hide Closed;
    assert Bare(text);
    BareClosed(text);
  }

  lemma {:induction false} QuotedTextClosed(s: string)
    ensures Closed("\"" + Escaped(s, {'\\', '"'}) + "\"", {',', ' '}, false)
  {
    hide Escaped;
    QuotedClosed(s, {',', ' '});
    var body := Escaped(s, {'\\', '"'}) + "\"";
    assert "\"" + Escaped(s, {'\\', '"'}) + "\"" == "\"" + body;
    assert ("\"" + body)[1..] == body;
  }

  lemma {:induction false} NamedPartReads(d: Reader, f: Named)
    requires NamedOk(d, f)
    ensures Closed(NamedPart(f), {',', ' '}, false)
    ensures ParseField(d, NamedPart(f)) == Ok(Field(f.key, SpelledMeaning(d, f.value)))
  {
    hide EscapeName, UnescapeName, Find, SpelledText, SpelledMeaning, SpelledOk, ParseValue, Closed, Escaped;
    var k, v := EscapeName(f.key), SpelledText(f.value);
    NameInverse(f.key);
    SpelledClosed(d, f.value);
    SpelledReads(d, f.value);
    PairClosed(f.key, v, {',', ' '});
    assert (k + "=" + v)[..|k|] == k && (k + "=" + v)[|k| + 1..] == v;
  }

  function NamedTextList(fields: seq<Named>): (r: seq<string>)
    ensures |r| == |fields| && forall i :: 0 <= i < |r| ==> r[i] == NamedPart(fields[i])
  {
    if fields == [] then [] else [NamedPart(fields[0])] + NamedTextList(fields[1..])
  }

  lemma {:induction false} NamedListReads(d: Reader, fields: seq<Named>)
    requires AllNamedOk(d, fields)
    ensures forall i :: 0 <= i < |fields| ==> Closed(NamedTextList(fields)[i], {',', ' '}, false)
    ensures ParseFieldList(d, NamedTextList(fields)) == Ok(NamedMeaning(d, fields))
    ensures NamedParts(fields) == Join(NamedTextList(fields), ',')
  {
    hide NamedPart, ParseField, NamedOk, Closed, SpelledMeaning, SpelledOk;
    if fields != [] {
      assert NamedOk(d, fields[0]);
      NamedPartReads(d, fields[0]);
      NamedListReads(d, fields[1..]);
      assert NamedTextList(fields)[1..] == NamedTextList(fields[1..]);
    }
  }

  lemma {:induction false} TimeReads(precision: Precision, t: When)
    requires WhenOk(t) && t.At?
    ensures TrimSpace(WhenPart(t)[1..]) != ""
    ensures ParseInt(TrimSpace(WhenPart(t)[1..])).Some? &&
            ParseInt(TrimSpace(WhenPart(t)[1..])).value * Unit(precision) == WhenMeaning(precision, t)
  {
    hide ParseInt, TrimSpace, Digits, Number;
    var text := SignText(t.sign) + Digits(t.digits);
    assert WhenPart(t)[1..] == t.blanks + text;
    DigitsBare(t.sign, t.digits);
    assert t.blanks + text + "" == t.blanks + text;
    PaddingTrimmed(t.blanks, text, "");
    WholeReads(t.sign, t.digits);
  }

  lemma {:induction false} TailReads(d: Reader, fields: seq<Named>, t: When)
    requires fields != [] && AllNamedOk(d, fields) && WhenOk(t)
    ensures ParseTail(d, NamedParts(fields) + WhenPart(t)) ==
            Ok((NamedMeaning(d, fields), WhenMeaning(d.precision, t)))
  {
    hide NamedTextList, Join, Split, Find, AllNamedOk, ParseFieldList, ParseInt, TrimSpace, NamedParts, NamedMeaning,
      Closed, Unit, Digits, Number;
    var part := NamedParts(fields);
    NamedListReads(d, fields);
    PartsClosed(NamedTextList(fields));
    if t == Never {
      assert part + "" == part;
      FindsNothing(part, {' '}, ' ');
    } else {
      var rest := WhenPart(t)[1..];
      assert WhenPart(t) == " " + rest;
      Assoc(part, " ", rest);
      FindsSeparator(part, rest, {' '}, ' ');
      TimeReads(d.precision, t);
    }
  }

  /** Tags and fields in the order in which they stand, however their values are
      spelled, with any number of blanks before the time. */
  lemma {:induction false} LineReads(d: Reader, w: Written)
    requires WrittenOk(d, w)
    ensures DecodeLine(d, LineText(w)) == Ok(Meaning(d, w))
  {
    hide TagParts, NamedParts, WhenPart, Find, ParseHead, ParseTail, Closed, Escaped, AllTagsHidden, AllNamedOk,
      NamedMeaning, WhenMeaning, MeasurementHidden, WhenOk;
    HeadReads(w.measurement, w.tags);
    TailReads(d, w.fields, w.time);
    FindsSeparator(Escaped(w.measurement, {',', ' '}) + TagParts(w.tags), NamedParts(w.fields) + WhenPart(w.time),
        {' '}, ' ');
  }

  /** A single field, on literal text. */
  lemma {:induction false} BooleanLine(d: Reader, s: string)
    requires ' ' !in s && ',' !in s
    ensures var true_ := Point("m", [], [Field("k", Bool(true))], -62135596800_000_000_000);
            DecodeLine(d, "m k=" + s) == Ok(true_) <==> s in {"t", "T", "true", "True", "TRUE"}
    ensures var false_ := Point("m", [], [Field("k", Bool(false))], -62135596800_000_000_000);
            DecodeLine(d, "m k=" + s) == Ok(false_) <==> s in {"f", "F", "false", "False", "FALSE"}
  {
    hide ParseValue;
    OneField(d, s);
    BooleansExactly(d, s);
  }

  lemma {:induction false} OneField(d: Reader, s: string)
    requires ' ' !in s && ',' !in s
    ensures DecodeLine(d, "m k=" + s) ==
            match ParseValue(d, s)
            case Err(e) => Err(e)
            case Ok(v) => Ok(Point("m", [], [Field("k", v)], ZERO_TIME))
  {
    hide ParseValue, Find, Split, UnescapeName, UnescapeMeasurement;
    var line, tail := "m k=" + s, "k=" + s;
    assert line == "m" + [' '] + tail && line[..1] == "m" && line[2..] == tail;
    assert tail == "k" + ['='] + s && tail[..1] == "k" && tail[2..] == s;
    assert Bare("m") && Bare("k");
    LetterNames();
    FindsSeparator("m", tail, {' '}, ' ');
    FindAbsent("m", ',', false);
    FindAbsent(tail, ' ', false);
    FindAbsent(tail, ',', false);
    OnePart(tail);
    FindsSeparator("k", s, {'='}, '=');
    OneFieldList(d, tail);
  }

  lemma {:induction false} OnePart(s: string)
    requires Find(s, ',', false) == -1
    ensures Split(s, ',') == [s]
  {
  }

  lemma {:induction false} OneFieldList(d: Reader, part: string)
    ensures ParseFieldList(d, [part]) ==
            match ParseField(d, part)
            case Err(e) => Err(e)
            case Ok(f) => Ok([f])
  {
    hide ParseField;
    assert [part][1..] == [];
    assert ParseFieldList(d, []) == Ok([]);
    var f := ParseField(d, part);
    assert f.Ok? ==> [f.value] + [] == [f.value];
  }

  lemma {:induction false} LetterNames()
    ensures Closed("m", {' '}, false) && Closed("k", {'='}, false)
    ensures UnescapeMeasurement("m") == "m" && UnescapeName("k") == "k"
  {
    hide ReplaceAll, UnescapeName, UnescapeMeasurement;
    assert "m"[1..] == "" && "k"[1..] == "";
    MeasurementInverse("m");
    NameInverse("k");
    assert Escaped("", MEASUREMENT_CHARS) == "" && Escaped("", NAME_CHARS) == "";
    assert Escaped("m", MEASUREMENT_CHARS) == "m" && Escaped("k", NAME_CHARS) == "k";
  }

  // ----- a text of lines -----

  datatype TextLine =
    | Nothing(blanks: string)
    | Comment(blanks: string, text: string)
    | Spoken(before: string, point: Written, behind: string)

  function OneText(l: TextLine): string {
    match l
    case Nothing(blanks) => blanks
    case Comment(blanks, text) => blanks + ("#" + text)
    case Spoken(before, point, behind) => before + LineText(point) + behind
  }

  predicate TextLineOk(d: Reader, l: TextLine) {
    '\n' !in OneText(l) &&
    match l
    case Nothing(blanks) => Blank(blanks)
    case Comment(blanks, text) => Blank(blanks)
    case Spoken(before, point, behind) =>
      Blank(before) && Blank(behind) && WrittenOk(d, point) && Tight(LineText(point)) && LineText(point)[0] != '#'
  }

  function AllTexts(ls: seq<TextLine>): (r: seq<string>)
    ensures |r| == |ls| && forall i :: 0 <= i < |r| ==> r[i] == OneText(ls[i])
  {
    if ls == [] then [] else [OneText(ls[0])] + AllTexts(ls[1..])
  }

  predicate AllLinesOk(d: Reader, ls: seq<TextLine>) {
    forall i :: 0 <= i < |ls| ==> TextLineOk(d, ls[i])
  }

  function Points(d: Reader, ls: seq<TextLine>): seq<Point>
    requires AllLinesOk(d, ls)
  {
    if ls == [] then []
    else if ls[0].Spoken? then [Meaning(d, ls[0].point)] + Points(d, ls[1..])
    else Points(d, ls[1..])
  }

  /** Blank lines and comments say nothing. */
  lemma {:induction false} LineSays(d: Reader, l: TextLine, rest: seq<string>)
    requires TextLineOk(d, l)
    ensures DecodeLines(d, [OneText(l)] + rest) ==
            if !l.Spoken? then DecodeLines(d, rest)
            else if DecodeLines(d, rest).Ok? then Ok([Meaning(d, l.point)] + DecodeLines(d, rest).value)
            else DecodeLines(d, rest)
  {
    hide DecodeLine, LineText, WrittenOk, Meaning, TrimSpace;
    assert ([OneText(l)] + rest)[1..] == rest;
    match l
    case Nothing(blanks) => BlankTrimmed(blanks);
    case Comment(blanks, text) => CommentTrimmed(blanks, text);
    case Spoken(before, point, behind) =>
      PaddingTrimmed(before, LineText(point), behind);
      LineNotEmpty(point);
      LineReads(d, point);
  }

  lemma {:induction false} LineNotEmpty(w: Written)
    ensures LineText(w) != ""
  {
  }

  lemma {:induction false} PointIsOk(d: Reader, l: TextLine)
    requires TextLineOk(d, l) && l.Spoken?
    ensures WrittenOk(d, l.point)
  {
  }

  lemma {:induction false} CommentTrimmed(blanks: string, text: string)
    requires Blank(blanks)
    ensures var s := TrimSpace(blanks + ("#" + text)); s != "" && s[0] == '#'
  {
    hide TrimLeft, TrimRight;
    LeftTrimmed(blanks, "#" + text);
    assert TrimLeft("#" + text) == "#" + text;
    KeepsFirst("#" + text);
  }

  lemma {:induction false} KeepsFirst(s: string)
    requires s != "" && !IsSpace(s[0])
    ensures TrimRight(s) != "" && TrimRight(s)[0] == s[0]
    decreases s
  {
    if IsSpace(s[|s| - 1]) {
      KeepsFirst(s[..|s| - 1]);
    }
  }

  lemma {:induction false} LinesSay(d: Reader, ls: seq<TextLine>, rest: seq<string>)
    requires AllLinesOk(d, ls)
    ensures DecodeLines(d, AllTexts(ls) + rest) ==
            if DecodeLines(d, rest).Ok? then Ok(Points(d, ls) + DecodeLines(d, rest).value) else DecodeLines(d, rest)
  {
    hide OneText, TextLineOk, Meaning, DecodeLines;
    if ls == [] {
      assert AllTexts(ls) + rest == rest;
      assert DecodeLines(d, rest).Ok? ==> [] + DecodeLines(d, rest).value == DecodeLines(d, rest).value;
    } else {
      LinesSay(d, ls[1..], rest);
      LineSays(d, ls[0], AllTexts(ls[1..]) + rest);
      assert AllTexts(ls) + rest == [OneText(ls[0])] + (AllTexts(ls[1..]) + rest);
      if ls[0].Spoken? && DecodeLines(d, rest).Ok? {
        PointIsOk(d, ls[0]);
        Assoc([Meaning(d, ls[0].point)], Points(d, ls[1..]), DecodeLines(d, rest).value);
      }
    }
  }

  /** A text of lines reads as the points on it, in order; lines that say nothing
      may stand anywhere between them. */
  lemma {:induction false} TextReads(d: Reader, ls: seq<TextLine>)
    requires ls != [] && AllLinesOk(d, ls)
    ensures Decode(d, Join(AllTexts(ls), '\n')) == Ok(Points(d, ls))
  {
    hide DecodeLines, Join, OneText;
    assert forall i :: 0 <= i < |ls| ==> TextLineOk(d, ls[i]);
    SplitOnJoin(AllTexts(ls), '\n');
    LinesSay(d, ls, []);
    assert AllTexts(ls) + [] == AllTexts(ls);
    assert DecodeLines(d, []) == Ok([]) by { NoLinesRead(d); }
    assert Points(d, ls) + [] == Points(d, ls);
  }

  lemma {:induction false} NoLinesRead(d: Reader)
    ensures DecodeLines(d, []) == Ok([])
  {
  }

  /** The first line that is wrong fails the text, whatever stands behind it. */
  lemma {:induction false} FirstErrorCounts(d: Reader, ls: seq<TextLine>, bad: string, behind: seq<string>)
    requires AllLinesOk(d, ls) && '\n' !in bad && forall i :: 0 <= i < |behind| ==> '\n' !in behind[i]
    requires var s := TrimSpace(bad); s != "" && s[0] != '#' && DecodeLine(d, s).Err?
    ensures Decode(d, Join(AllTexts(ls) + [bad] + behind, '\n')) == Err(DecodeLine(d, TrimSpace(bad)).error)
  {
    hide DecodeLines, DecodeLine, Join, OneText, TrimSpace;
    var all := AllTexts(ls) + [bad] + behind;
    forall i | 0 <= i < |all| ensures '\n' !in all[i] {
      if i < |ls| {
        assert TextLineOk(d, ls[i]);
      }
    }
    SplitOnJoin(all, '\n');
    Assoc(AllTexts(ls), [bad], behind);
    BadLine(d, bad, behind);
    LinesSay(d, ls, [bad] + behind);
  }

  lemma {:induction false} BadLine(d: Reader, bad: string, behind: seq<string>)
    requires var s := TrimSpace(bad); s != "" && s[0] != '#' && DecodeLine(d, s).Err?
    ensures DecodeLines(d, [bad] + behind) == Err(DecodeLine(d, TrimSpace(bad)).error)
  {
    hide DecodeLine, TrimSpace;
  }

  // ----- what the encoder writes -----

  function ValueOut(v: FieldValue): string {
    match v
    case Float(text) => text
    case Int(i) => FormatInt(i) + "i"
    case UInt(u) => FormatNat(u) + "u"
    case Bool(b) => if b then "t" else "f"
    case String(s) => "\"" + Escaped(s, {'\\', '"'}) + "\""
  }

  function FieldOut(f: Field): string {
    Escaped(f.key, {',', '=', ' '}) + "=" + ValueOut(f.value)
  }

  function FieldsOut(fields: seq<Field>): string {
    if fields == [] then ""
    else if |fields| == 1 then FieldOut(fields[0])
    else FieldOut(fields[0]) + "," + FieldsOut(fields[1..])
  }

  function TimeOut(precision: Precision, time: int): string {
    if time == -62135596800_000_000_000 then ""
    else
      " " + FormatInt(match precision
                      case Nanosecond => time
                      case Microsecond => time / 1000
                      case Millisecond => time / 1000000
                      case Second => time / 1000000000)
  }

  function LineOut(precision: Precision, p: Point): string {
    Escaped(p.measurement, {',', ' '}) + TagParts(Sorted(p.tags, (t: Tag) => t.key)) + " " +
    (FieldsOut(Sorted(p.fields, (f: Field) => f.key)) + TimeOut(precision, p.timestamp))
  }

  function LinesOut(precision: Precision, ps: seq<Point>): string {
    if ps == [] then "" else LineOut(precision, ps[0]) + "\n" + LinesOut(precision, ps[1..])
  }

  lemma {:induction false} ValueOutIs(v: FieldValue)
    ensures ValueText(v) == ValueOut(v)
  {
    hide EscapeString, Escaped, FormatInt, FormatNat;
    if v.String? {
      StringInverse(v.s);
    }
  }

  lemma {:induction false} TagsOutAre(tags: seq<Tag>)
    ensures TagParts(tags) == if tags == [] then "" else "," + Join(TagTexts(tags), ',')
  {
    hide TagPart, TagText, Join;
    if tags != [] {
      TagsOutAre(tags[1..]);
      TagOutIs(tags[0]);
      assert TagTexts(tags)[1..] == TagTexts(tags[1..]);
      JoinCommas(TagTexts(tags), TagParts(tags[1..]));
    }
  }

  lemma {:induction false} TagOutIs(t: Tag)
    ensures TagText(t) == TagPart(t)
  {
    hide EscapeName, Escaped;
    NameInverse(t.key);
    NameInverse(t.value);
  }

  lemma {:induction false} FieldsOutAre(fields: seq<Field>)
    ensures FieldsOut(fields) == Join(FieldTexts(fields), ',')
  {
    hide FieldOut, FieldText;
    if fields != [] {
      FieldsOutAre(fields[1..]);
      FieldOutIs(fields[0]);
      assert FieldTexts(fields)[1..] == FieldTexts(fields[1..]);
    }
  }

  lemma {:induction false} FieldOutIs(f: Field)
    ensures FieldText(f) == FieldOut(f)
  {
    hide EscapeName, Escaped, ValueText, ValueOut;
    NameInverse(f.key);
    ValueOutIs(f.value);
  }

  lemma {:induction false} LineOutIs(precision: Precision, p: Point)
    ensures Line(precision, p) == LineOut(precision, p)
  {
    hide EscapeMeasurement, Escaped, TagParts, FieldsOut, Sorted, FormatInt, Join, TagTexts, FieldTexts;
    MeasurementInverse(p.measurement);
    TagsOutAre(Sorted(p.tags, (t: Tag) => t.key));
    FieldsOutAre(Sorted(p.fields, (f: Field) => f.key));
    SortedNone(p.tags);
    assert TimePart(precision, p) == TimeOut(precision, p.timestamp);
  }

  lemma {:induction false} SortedNone(tags: seq<Tag>)
    ensures Sorted(tags, (t: Tag) => t.key) == [] <==> tags == []
  {
    hide Sorted;
    SortedIsSort(tags, (t: Tag) => t.key);
    assert |multiset(Sorted(tags, (t: Tag) => t.key))| == |multiset(tags)|;
  }

  /** The encoder writes exactly this, a line for each point, and refuses a list
      exactly if a point lacks its name or its fields. */
  lemma {:induction false} EncoderWrites(precision: Precision, ps: seq<Point>)
    ensures EncodePoints(precision, ps).Ok? <==>
            forall i :: 0 <= i < |ps| ==> ps[i].measurement != "" && ps[i].fields != []
    ensures EncodePoints(precision, ps).Ok? ==> EncodePoints(precision, ps).value == LinesOut(precision, ps)
  {
    hide Line, LineOut;
    if ps != [] {
      LineOutIs(precision, ps[0]);
      EncoderWrites(precision, ps[1..]);
      assert EncodePoints(precision, ps).Ok? ==> forall i :: 1 <= i < |ps| ==> ps[i] == ps[1..][i - 1];
    }
  }
}
