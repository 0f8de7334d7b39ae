/** Exactly which points come back from their line. */
module LineExact {
  import opened Bytes
  import opened Results
  import opened Text
  import opened KeyOrder
  import opened LineProtocol

  // ----- a piece that reads as a name is the escaped name -----

  lemma {:induction false} UnescapeNameKeeps(s: string)
    ensures NoBackslashes(UnescapeName(s)) == NoBackslashes(s)
  {
    hide ReplaceAll, NoBackslashes;
    var a := ReplaceAll(s, "\\,", ",");
    var b := ReplaceAll(a, "\\=", "=");
    UnescapeKeeps(s, ',');
    UnescapeKeeps(a, '=');
    UnescapeKeeps(b, ' ');
  }

  lemma {:induction false} UnescapeMeasurementKeeps(s: string)
    ensures NoBackslashes(UnescapeMeasurement(s)) == NoBackslashes(s)
  {
    hide ReplaceAll, NoBackslashes;
    UnescapeKeeps(s, ',');
    UnescapeKeeps(ReplaceAll(s, "\\,", ","), ' ');
  }

  /** Wherever the scanner cuts a line that goes on with a name and a separator:
      if the piece reads as the name, it was cut at the separator. */
  lemma {:induction false} NamePiece(name: string, c: char, rest: string, piece: string)
    requires c != '\\' && piece <= EscapeName(name) + [c] + rest && UnescapeName(piece) == name
    ensures piece == EscapeName(name)
  {
    hide EscapeName, UnescapeName, Escaped, NoBackslashes;
    NameInverse(name);
    UnescapeNameKeeps(piece);
    var j := PieceIs(name, NAME_CHARS, c, rest, piece);
    NameInverse(name[..|name| - j]);
    assert name[..|name|] == name;
  }

  lemma {:induction false} MeasurementPiece(name: string, c: char, rest: string, piece: string)
    requires c != '\\' && piece <= EscapeMeasurement(name) + [c] + rest && UnescapeMeasurement(piece) == name
    ensures piece == EscapeMeasurement(name)
  {
    hide EscapeMeasurement, UnescapeMeasurement, Escaped, NoBackslashes;
    MeasurementInverse(name);
    UnescapeMeasurementKeeps(piece);
    var j := PieceIs(name, MEASUREMENT_CHARS, c, rest, piece);
    MeasurementInverse(name[..|name| - j]);
    assert name[..|name|] == name;
  }

  /** The key of a tag or field, cut at the equals sign. */
  lemma {:induction false} KeyForced(key: string, rest: string, part: string)
    requires part <= EscapeName(key) + ['='] + rest
    requires var eq := Find(part, '=', false); eq >= 0 && UnescapeName(part[..eq]) == key
    ensures var e := EscapeName(key);
            Find(part, '=', false) == |e| && Closed(e, {'='}, false) && part == e + ['='] + part[|e| + 1..] &&
            part[|e| + 1..] <= rest
  {
    hide EscapeName, UnescapeName, Find, Closed;
    var eq, e := Find(part, '=', false), EscapeName(key);
    NamePiece(key, '=', rest, part[..eq]);
    assert part == part[..eq] + ['='] + part[eq + 1..];
    FindsExactly(e, part[eq + 1..], '=');
    var whole := e + ['='] + rest;
    assert whole[..|part|] == part;
    assert whole[|e| + 1..] == rest;
    assert part[|e| + 1..] == whole[|e| + 1..|part|];
  }

  // ----- tags -----

  lemma {:induction false} ParseTagIs(t: Tag, part: string)
    requires ParseTag(part) == Ok(t)
    ensures var eq := Find(part, '=', false);
            eq >= 0 && UnescapeName(part[..eq]) == t.key && UnescapeName(part[eq + 1..]) == t.value
  {
    hide UnescapeName, Find;
  }

  /** A part that reads as a tag is its text. */
  lemma {:induction false} TagForced(t: Tag, c: char, rest: string, part: string)
    requires c != '\\' && part <= TagText(t) + [c] + rest && ParseTag(part) == Ok(t)
    ensures part == TagText(t) && Closed(EscapeName(t.key), {'='}, false)
  {
    hide EscapeName, UnescapeName, Find, Closed, ParseTag;
    var k, v := EscapeName(t.key), EscapeName(t.value);
    ParseTagIs(t, part);
    assert k + "=" + v + [c] + rest == k + ['='] + (v + [c] + rest);
    KeyForced(t.key, v + [c] + rest, part);
    NamePiece(t.value, c, rest, part[|k| + 1..]);
  }

  /** What the scan of the tags says of one of them, with r behind it: nothing, or
      a comma and more. */
  lemma {:induction false} TagScanned(t: Tag, r: string)
    requires Closed(EscapeName(t.key), {'='}, false) && Closed(TagText(t) + r, {' '}, false)
    requires if r == "" then Find(TagText(t), ',', false) < 0
             else r[0] == ',' && Find(TagText(t) + r, ',', false) == |TagText(t)|
    ensures TagHidden(t) && (r != "" ==> Closed(r[1..], {' '}, false))
  {
    hide EscapeName, Find, Closed;
    var k, v := EscapeName(t.key), EscapeName(t.value);
    var all := TagText(t) + r;
    assert TagText(t) + "" == TagText(t);
    assert all == k + (['='] + v + r) == k + ['='] + (v + r);
    ClosedMore(k, ['='] + v + r, {'='}, ',', false);
    ClosedSplit(k, ['='] + v + r, {'='} + {','}, {' '}, false);
    assert {'='} + {','} + {' '} == NAME_CHARS;
    ClosedForFewer(k, NAME_CHARS, {',', ' '}, false);
    OneClosed('=', {',', ' '});
    ClosedConcat(k, ['='], {',', ' '}, false);
    ClosedSplit(k + ['='], v + r, {',', ' '}, {' '}, false);
    FindPasses(k + ['='], v + r, {',', ' '}, ',', false);
    if r == "" {
      assert v + r == v && v + "" == v;
      ClosedMore(v, "", {' '}, ',', false);
      assert {' '} + {','} == {',', ' '};
    } else {
      assert r == [','] + r[1..] && v + r == v + [','] + r[1..];
      FindsExactly(v, r[1..], ',');
      ClosedSplit(v, r, {','}, {' '}, false);
      assert {','} + {' '} == {',', ' '};
      OneClosed(',', {' '});
      ClosedSplit([','], r[1..], {' '}, {' '}, false);
    }
  }

  lemma {:induction false} TagListIs(tags: seq<Tag>, r: string)
    requires tags != [] && ParseTagList(Split(r, ',')) == Ok(tags)
    ensures var i := Find(r, ',', false);
            if i < 0 then ParseTag(r) == Ok(tags[0]) && |tags| == 1
            else ParseTag(r[..i]) == Ok(tags[0]) && |tags| > 1 && ParseTagList(Split(r[i + 1..], ',')) == Ok(tags[1..])
  {
    hide ParseTag, Find;
    var i := Find(r, ',', false);
    var parts := Split(r, ',');
    if i < 0 {
      assert parts == [r] && parts[1..] == [];
      assert tags == [tags[0]];
    } else {
      var more := Split(r[i + 1..], ',');
      assert parts[1..] == more && parts[0] == r[..i];
      assert ParseTagList(more).Ok? && ParseTagList(more).value != [] by { ListNotEmpty(more); }
    }
  }

  lemma {:induction false} ListNotEmpty(parts: seq<string>)
    requires parts != []
    ensures ParseTagList(parts).Ok? ==> ParseTagList(parts).value != []
  {
    hide ParseTag;
  }

  lemma {:induction false} JoinFirst(parts: seq<string>)
    requires parts != []
    ensures Join(parts, ',') == if |parts| == 1 then parts[0] else parts[0] + [','] + Join(parts[1..], ',')
  {
  }

  lemma {:induction false} TagTextsFirst(tags: seq<Tag>)
    requires tags != []
    ensures TagTexts(tags)[0] == TagText(tags[0]) && TagTexts(tags)[1..] == TagTexts(tags[1..])
  {
    hide TagText;
  }

  /** A stretch that ends before a space, and behind a text and a character. */
  lemma {:induction false} Behind(text: string, c: char, rest: string, r: string, i: nat)
    requires i == |text| < |r| && r + [' '] <= text + [c] + rest
    ensures r[..i] == text && r == text + [c] + r[i + 1..] && r[i..] == [c] + r[i + 1..]
    ensures r[i + 1..] + [' '] <= rest
  {
    var all := text + [c] + rest;
    assert all[..|r|] == r && all[|r|] == ' ';
    assert all[i + 1..] == rest;
    assert rest[..|r| - i - 1] == r[i + 1..] && rest[|r| - i - 1] == ' ';
  }

  lemma {:induction false} LastTagForced(t: Tag, r: string, after: string)
    requires r + [' '] <= TagText(t) + [' '] + after && Closed(r, {' '}, false)
    requires Find(r, ',', false) < 0 && ParseTag(r) == Ok(t)
    ensures r == TagText(t) && TagHidden(t)
  {
    hide TagText, Find, Closed, ParseTag, TagHidden, EscapeName;
    TagForced(t, ' ', after, r);
    assert TagText(t) + "" == TagText(t);
    TagScanned(t, "");
  }

  lemma {:induction false} FirstTagForced(t: Tag, rest: string, r: string, i: nat)
    requires r + [' '] <= TagText(t) + [','] + rest && Closed(r, {' '}, false)
    requires Find(r, ',', false) == i && ParseTag(r[..i]) == Ok(t)
    ensures i == |TagText(t)| && TagHidden(t) && Closed(r[i + 1..], {' '}, false)
    ensures r == TagText(t) + [','] + r[i + 1..] && r[i + 1..] + [' '] <= rest
  {
    hide TagText, Find, Closed, ParseTag, TagHidden, EscapeName;
    var all := TagText(t) + [','] + rest;
    assert all[..|r|] == r;
    assert r[..i] == all[..i];
    TagForced(t, ',', rest, r[..i]);
    Behind(TagText(t), ',', rest, r, i);
    assert TagText(t) + r[i..] == r;
    TagScanned(t, r[i..]);
    assert r[i..][1..] == r[i + 1..];
  }

  lemma {:induction false} ListIs(text: string, others: string, after: string)
    ensures text + [','] + others + [' '] + after == text + [','] + (others + [' '] + after)
  {
  }

  /** A stretch r of the line, up to its first separating space, that reads as the
      tags is their text. */
  lemma {:induction false} TagsForced(tags: seq<Tag>, r: string, after: string)
    requires tags != [] && r + [' '] <= Join(TagTexts(tags), ',') + [' '] + after
    requires Closed(r, {' '}, false) && ParseTagList(Split(r, ',')) == Ok(tags)
    ensures r == Join(TagTexts(tags), ',') && forall t :: t in tags ==> TagHidden(t)
    decreases |tags|
  {
    hide TagText, TagTexts, Join, Split, Find, Closed, ParseTag, ParseTagList, TagHidden, EscapeName;
    var i := Find(r, ',', false);
    TagListIs(tags, r);
    TagTextsFirst(tags);
    JoinFirst(TagTexts(tags));
    if i < 0 {
      LastTagForced(tags[0], r, after);
      assert tags == [tags[0]];
    } else {
      var text, others := TagText(tags[0]), Join(TagTexts(tags[1..]), ',');
      ListIs(text, others, after);
      FirstTagForced(tags[0], others + [' '] + after, r, i);
      TagsForced(tags[1..], r[i + 1..], after);
      assert tags == [tags[0]] + tags[1..];
    }
  }

  // ----- measurement and tags -----

  /** The part of a line before its first separating space, if it reads as the
      measurement and the tags, is theirs. */
  lemma {:induction false} HeadForced(m: string, tags: seq<Tag>, after: string)
    requires var line := HeadText(m, tags) + [' '] + after;
             var end := Find(line, ' ', false);
             end >= 0 && ParseHead(line[..end]) == Ok((m, tags))
    ensures Find(HeadText(m, tags) + [' '] + after, ' ', false) == |HeadText(m, tags)|
    ensures MeasurementHidden(m) && forall t :: t in tags ==> TagHidden(t)
  {
    hide HeadText, Find, Closed, TagHidden, MeasurementHidden, ParseHead;
    var line := HeadText(m, tags) + [' '] + after;
    var end := Find(line, ' ', false);
    var cut := line[..end];
    assert line == cut + [' '] + line[end + 1..];
    FindsExactly(cut, line[end + 1..], ' ');
    assert line[..|cut + [' ']|] == cut + [' '];
    if Find(cut, ',', false) < 0 {
      BareHeadForced(m, tags, after, cut);
    } else {
      TaggedHeadForced(m, tags, after, cut);
    }
  }

  function HeadText(m: string, tags: seq<Tag>): string {
    EscapeMeasurement(m) + if tags == [] then "" else "," + Join(TagTexts(tags), ',')
  }

  lemma {:induction false} BareHeadForced(m: string, tags: seq<Tag>, after: string, cut: string)
    requires cut + [' '] <= HeadText(m, tags) + [' '] + after && Closed(cut, {' '}, false)
    requires Find(cut, ',', false) < 0 && ParseHead(cut) == Ok((m, tags))
    ensures cut == HeadText(m, tags) && MeasurementHidden(m) && tags == []
  {
    hide Find, Closed, EscapeMeasurement, UnescapeMeasurement, TagTexts, Join, Split;
    var e := EscapeMeasurement(m);
    assert e + "" == e;
    var line := e + [' '] + after;
    assert line[..|cut|] == cut;
    MeasurementPiece(m, ' ', after, cut);
    assert cut + "" == cut;
    ClosedMore(cut, "", {' '}, ',', false);
    assert {' '} + {','} == MEASUREMENT_CHARS;
  }

  lemma {:induction false} TaggedHeadForced(m: string, tags: seq<Tag>, after: string, cut: string)
    requires cut + [' '] <= HeadText(m, tags) + [' '] + after && Closed(cut, {' '}, false)
    requires Find(cut, ',', false) >= 0 && ParseHead(cut) == Ok((m, tags))
    ensures cut == HeadText(m, tags) && MeasurementHidden(m) && forall t :: t in tags ==> TagHidden(t)
  {
    hide Find, Closed, EscapeMeasurement, UnescapeMeasurement, TagTexts, Join, Split, TagHidden, ParseHead,
      ParseTagList;
    HeadHasTags(cut, m, tags);
    var i, e, list := Find(cut, ',', false), EscapeMeasurement(m), Join(TagTexts(tags), ',');
    HeadIs(e, list, after);
    MeasurementForced(m, list + [' '] + after, cut, i);
    TagsForced(tags, cut[i + 1..], after);
  }

  lemma {:induction false} MeasurementForced(m: string, rest: string, cut: string, i: nat)
    requires cut + [' '] <= EscapeMeasurement(m) + [','] + rest && Closed(cut, {' '}, false)
    requires Find(cut, ',', false) == i && UnescapeMeasurement(cut[..i]) == m
    ensures MeasurementHidden(m) && cut == EscapeMeasurement(m) + [','] + cut[i + 1..]
    ensures cut[i + 1..] + [' '] <= rest && Closed(cut[i + 1..], {' '}, false)
  {
    hide Find, Closed, EscapeMeasurement, UnescapeMeasurement;
    var e, r := EscapeMeasurement(m), cut[i + 1..];
    var line := e + [','] + rest;
    assert line[..|cut|] == cut;
    assert cut[..i] == line[..i];
    MeasurementPiece(m, ',', rest, cut[..i]);
    Behind(e, ',', rest, cut, i);
    FindsExactly(e, r, ',');
    Assoc(e, [','], r);
    ClosedSplit(e, [','] + r, {','}, {' '}, false);
    assert {','} + {' '} == MEASUREMENT_CHARS;
    OneClosed(',', {' '});
    ClosedSplit([','], r, {' '}, {' '}, false);
  }

  lemma {:induction false} HeadIs(e: string, list: string, after: string)
    ensures e + ("," + list) + [' '] + after == e + [','] + (list + [' '] + after)
    ensures e + ("," + list) == e + [','] + list
  {
  }

  lemma {:induction false} HeadHasTags(cut: string, m: string, tags: seq<Tag>)
    requires Find(cut, ',', false) >= 0 && ParseHead(cut) == Ok((m, tags))
    ensures var i := Find(cut, ',', false);
            tags != [] && UnescapeMeasurement(cut[..i]) == m && ParseTagList(Split(cut[i + 1..], ',')) == Ok(tags)
  {
    hide Find, Split, ParseTagList, UnescapeMeasurement;
    ListNotEmpty(Split(cut[Find(cut, ',', false) + 1..], ','));
  }

  // ----- fields -----

  lemma {:induction false} ParseFieldIs(d: Reader, f: Field, part: string)
    requires ParseField(d, part) == Ok(f)
    ensures var eq := Find(part, '=', false); eq >= 0 && UnescapeName(part[..eq]) == f.key
  {
    hide UnescapeName, Find, ParseValue;
  }

  lemma {:induction false} FieldTextsFirst(fields: seq<Field>)
    requires fields != []
    ensures FieldTexts(fields)[0] == FieldText(fields[0]) && FieldTexts(fields)[1..] == FieldTexts(fields[1..])
  {
    hide FieldText;
  }

  /** A text up to its first separating space. */
  function UpToSpace(s: string): (r: string)
    ensures r <= s
  {
    var end := Find(s, ' ', false);
    if end < 0 then s else s[..end]
  }

  lemma {:induction false} FirstFieldIs(d: Reader, fields: seq<Field>, s: string)
    requires fields != [] && ParseFieldList(d, Split(s, ',')) == Ok(fields)
    ensures var i := Find(s, ',', false); ParseField(d, if i < 0 then s else s[..i]) == Ok(fields[0])
    ensures ParseFieldList(d, Split(s, ',')[1..]) == Ok(fields[1..])
  {
    hide ParseField, Find;
    var parts := Split(s, ',');
    assert ParseField(d, parts[0]).Ok? && ParseFieldList(d, parts[1..]).Ok?;
    assert fields == [ParseField(d, parts[0]).value] + ParseFieldList(d, parts[1..]).value;
  }

  lemma {:induction false} KeyScanned(e: string, s: string, all: string)
    requires Closed(e, {'='}, false) && e <= s && e <= all
    requires Find(s, ',', false) < 0 || Find(s, ',', false) >= |e|
    requires Find(all, ' ', false) < 0 || Find(all, ' ', false) >= |e|
    ensures Closed(e, NAME_CHARS, false)
  {
    hide Find, Closed;
    assert s == e + s[|e|..] && all == e + all[|e|..];
    ClosedMore(e, s[|e|..], {'='}, ',', false);
    ClosedMore(e, all[|e|..], {'='} + {','}, ' ', false);
    assert {'='} + {','} + {' '} == NAME_CHARS;
  }

  /** The scan of the fields finds no separator in the key of the first. */
  lemma {:induction false} FieldScanned(d: Reader, f: Field, rest: string)
    requires var s := UpToSpace(FieldText(f) + rest);
             var i := Find(s, ',', false);
             ParseField(d, if i < 0 then s else s[..i]) == Ok(f)
    ensures KeyHidden(f.key)
  {
    hide EscapeName, UnescapeName, Find, Closed, ParseField, ValueText;
    var e, behind := EscapeName(f.key), ValueText(f.value) + rest;
    var all := e + ['='] + behind;
    Assoc(e + ['='], ValueText(f.value), rest);
    var s := UpToSpace(all);
    var i := Find(s, ',', false);
    var part := if i < 0 then s else s[..i];
    ParseFieldIs(d, f, part);
    KeyForced(f.key, behind, part);
    KeyScanned(e, s, all);
  }

  lemma {:induction false} FieldsForced(d: Reader, fields: seq<Field>, after: string)
    requires forall f :: f in fields ==> FieldOneLine(f) && ValidValue(d, f.value)
    requires fields != []
    requires ParseFieldList(d, Split(UpToSpace(Join(FieldTexts(fields), ',') + after), ',')) == Ok(fields)
    ensures forall f :: f in fields ==> KeyHidden(f.key)
    decreases |fields|
  {
    hide FieldText, FieldTexts, Join, Find, Closed, ParseField, ParseFieldList, KeyHidden, FieldOneLine, ValidValue,
      IsSpace, Split, UpToSpace;
    var f, text := fields[0], FieldText(fields[0]);
    assert f in fields;
    var all := Join(FieldTexts(fields), ',') + after;
    FieldTextsFirst(fields);
    JoinFirst(FieldTexts(fields));
    FirstFieldIs(d, fields, UpToSpace(all));
    if |fields| == 1 {
      FieldScanned(d, f, after);
      assert fields == [f];
    } else {
      var more := Join(FieldTexts(fields[1..]), ',') + after;
      assert all == text + [','] + more == text + ([','] + more);
      FieldScanned(d, f, [','] + more);
      FieldIsClosed(d, f);
      FirstFieldCut(text, more);
      assert Split(UpToSpace(all), ',')[1..] == Split(UpToSpace(more), ',');
      FieldsForced(d, fields[1..], after);
      assert fields == [f] + fields[1..];
    }
  }

  lemma {:induction false} FieldIsClosed(d: Reader, f: Field)
    requires FieldOneLine(f) && ValidValue(d, f.value) && KeyHidden(f.key)
    ensures Closed(FieldText(f), {',', ' '}, false)
  {
    hide Closed, IsSpace, ParseField;
    FieldReadsBack(d, f);
  }

  /** A closed field in front moves the scan of the others along. */
  lemma {:induction false} FirstFieldCut(text: string, more: string)
    requires Closed(text, {',', ' '}, false)
    ensures Split(UpToSpace(text + [','] + more), ',') == [text] + Split(UpToSpace(more), ',')
  {
    hide Closed, Find;
    var s := UpToSpace(more);
    ClosedForFewer(text, {',', ' '}, {' '}, false);
    OneClosed(',', {' '});
    ClosedConcat(text, [','], {' '}, false);
    FindPasses(text + [','], more, {' '}, ' ', false);
    assert UpToSpace(text + [','] + more) == text + [','] + s;
    FindsSeparator(text, s, {',', ' '}, ',');
  }

  // ----- a line -----

  /** A line that reads as its point hides every separator of its names. */
  lemma {:induction false} LineForced(d: Reader, p: Point)
    requires Valid(d, p) && OneLine(p)
    requires DecodeLine(d, Line(d.precision, p)) == Ok(Norm(d.precision, p))
    ensures Hidden(p)
  {
    hide TagsByKey, FieldsByKey, EscapeMeasurement, TagTexts, FieldTexts, Join, Split, Find, Closed, ParseHead,
      ParseFieldList, TagHidden, KeyHidden, MeasurementHidden, TagOneLine, FieldOneLine, ValidValue, FormatInt,
      ParseInt, TrimSpace, Unit, TimePart;
    var tags, fields := TagsByKey(p.tags), FieldsByKey(p.fields);
    SortedMembers(p);
    var tail := FieldPart(p) + TimePart(d.precision, p);
    var head := HeadText(p.measurement, tags);
    assert Head(p) == head;
    assert Line(d.precision, p) == head + [' '] + tail;
    HeadForced(p.measurement, tags, tail);
    assert (head + [' '] + tail)[|head| + 1..] == tail;
    FieldsForced(d, fields, TimePart(d.precision, p));
  }

  // ----- line feeds -----

  lemma {:induction false} ReplaceOneLine(s: string, old_: string, new_: string)
    requires old_ != "" && '\n' !in s && '\n' !in new_
    ensures '\n' !in ReplaceAll(s, old_, new_)
    decreases |s|
  {
    if s == "" {
    } else if old_ <= s {
      ReplaceOneLine(s[|old_|..], old_, new_);
    } else {
      ReplaceOneLine(s[1..], old_, new_);
    }
  }

  lemma {:induction false} UnescapedOneLine(s: string)
    requires '\n' !in s
    ensures '\n' !in UnescapeMeasurement(s) && '\n' !in UnescapeName(s) && '\n' !in UnescapeString(s)
  {
    hide ReplaceAll;
    ReplaceOneLine(s, "\\,", ",");
    ReplaceOneLine(ReplaceAll(s, "\\,", ","), "\\ ", " ");
    ReplaceOneLine(ReplaceAll(s, "\\,", ","), "\\=", "=");
    ReplaceOneLine(ReplaceAll(ReplaceAll(s, "\\,", ","), "\\=", "="), "\\ ", " ");
    ReplaceOneLine(s, "\\\"", "\"");
    ReplaceOneLine(ReplaceAll(s, "\\\"", "\""), "\\\\", "\\");
  }

  lemma {:induction false} SplitOneLine(s: string, sep: char)
    requires '\n' !in s
    ensures forall i :: 0 <= i < |Split(s, sep)| ==> '\n' !in Split(s, sep)[i]
    decreases |s|
  {
    hide Find;
    var i := Find(s, sep, false);
    if i >= 0 {
      SplitOneLine(s[i + 1..], sep);
    }
  }

  lemma {:induction false} TagsOneLine(parts: seq<string>)
    requires forall i :: 0 <= i < |parts| ==> '\n' !in parts[i]
    ensures ParseTagList(parts).Ok? ==> forall t :: t in ParseTagList(parts).value ==> TagOneLine(t)
  {
    hide UnescapeName, Find;
    if parts != [] {
      TagsOneLine(parts[1..]);
      var eq := Find(parts[0], '=', false);
      if eq >= 0 {
        UnescapedOneLine(parts[0][..eq]);
        UnescapedOneLine(parts[0][eq + 1..]);
      }
    }
  }

  lemma {:induction false} FieldValueOneLine(d: Reader, s: string)
    requires '\n' !in s
    ensures var v := ParseValue(d, s); v.Ok? && v.value.String? ==> '\n' !in v.value.s
  {
    hide UnescapeString, ParseInt, ParseUint;
    if |s| >= 2 {
      UnescapedOneLine(s[1..|s| - 1]);
    }
  }

  lemma {:induction false} FieldsOneLine(d: Reader, parts: seq<string>)
    requires forall i :: 0 <= i < |parts| ==> '\n' !in parts[i]
    ensures ParseFieldList(d, parts).Ok? ==> forall f :: f in ParseFieldList(d, parts).value ==> FieldOneLine(f)
  {
    hide UnescapeName, Find, ParseValue;
    if parts != [] {
      FieldsOneLine(d, parts[1..]);
      var eq := Find(parts[0], '=', false);
      if eq >= 0 {
        UnescapedOneLine(parts[0][..eq]);
        FieldValueOneLine(d, parts[0][eq + 1..]);
      }
    }
  }

  lemma {:induction false} HeadOneLine(head: string)
    requires '\n' !in head
    ensures ParseHead(head).Ok? ==>
              '\n' !in ParseHead(head).value.0 && forall t :: t in ParseHead(head).value.1 ==> TagOneLine(t)
  {
    hide Find, Split, ParseTagList, UnescapeMeasurement;
    var i := Find(head, ',', false);
    if i < 0 {
      UnescapedOneLine(head);
    } else {
      UnescapedOneLine(head[..i]);
      SplitOneLine(head[i + 1..], ',');
      TagsOneLine(Split(head[i + 1..], ','));
    }
  }

  lemma {:induction false} TailOneLine(d: Reader, tail: string)
    requires '\n' !in tail
    ensures ParseTail(d, tail).Ok? ==> forall f :: f in ParseTail(d, tail).value.0 ==> FieldOneLine(f)
  {
    hide Find, Split, ParseFieldList, FieldOneLine, TrimSpace, ParseInt;
    SplitOneLine(UpToSpace(tail), ',');
    FieldsOneLine(d, Split(UpToSpace(tail), ','));
  }

  lemma {:induction false} DecodedOneLine(d: Reader, line: string)
    requires '\n' !in line
    ensures DecodeLine(d, line).Ok? ==> OneLine(DecodeLine(d, line).value)
  {
    hide Find, ParseHead, ParseTail, TagOneLine, FieldOneLine;
    var end := Find(line, ' ', false);
    if end >= 0 {
      HeadOneLine(line[..end]);
      TailOneLine(d, line[end + 1..]);
    }
  }

  lemma {:induction false} TrimOneLine(s: string)
    requires '\n' !in s
    ensures '\n' !in TrimSpace(s)
  {
    TrimLeftOneLine(s);
  }

  lemma {:induction false} TrimLeftOneLine(s: string)
    requires '\n' !in s
    ensures '\n' !in TrimLeft(s)
  {
    if s != "" {
      TrimLeftOneLine(s[1..]);
    }
  }

  lemma {:induction false} AllOneLine(d: Reader, lines: seq<string>)
    requires forall i :: 0 <= i < |lines| ==> '\n' !in lines[i]
    ensures DecodeLines(d, lines).Ok? ==> forall p :: p in DecodeLines(d, lines).value ==> OneLine(p)
  {
    hide DecodeLine, TrimSpace, OneLine;
    if lines != [] {
      AllOneLine(d, lines[1..]);
      TrimOneLine(lines[0]);
      DecodedOneLine(d, TrimSpace(lines[0]));
    }
  }

  /** No decoded point has a line feed in it. */
  lemma {:induction false} DecodeOneLine(d: Reader, data: string)
    ensures Decode(d, data).Ok? ==> forall p :: p in Decode(d, data).value ==> OneLine(p)
  {
    hide DecodeLines, OneLine;
    PartsLackSep(data, '\n');
    AllOneLine(d, Lines(data));
  }

  lemma {:induction false} NormOneLine(precision: Precision, p: Point)
    ensures OneLine(Norm(precision, p)) <==> OneLine(p)
  {
    hide TagsByKey, FieldsByKey, TagOneLine, FieldOneLine, Unit;
    SortedMembers(p);
  }

  // ----- a trimmed line -----

  lemma {:induction false} ReplaceHeadIs(s: string, c: char)
    ensures var r := ReplaceAll(s, ['\\', c], [c]);
            (s == "" ==> r == "") && (r != "" ==> s != "" && (r[0] == s[0] || r[0] == c))
  {
  }

  lemma {:induction false} UnescapedHead(s: string)
    ensures var r := UnescapeMeasurement(s); r != "" ==> s != "" && (r[0] == s[0] || r[0] == ',' || r[0] == ' ')
  {
    hide ReplaceAll;
    ReplaceHeadIs(s, ',');
    ReplaceHeadIs(ReplaceAll(s, "\\,", ","), ' ');
  }

  lemma {:induction false} DecodedHead(d: Reader, line: string)
    requires line != "" && !IsSpace(line[0]) && DecodeLine(d, line).Ok?
    ensures var m := DecodeLine(d, line).value.measurement; m != "" ==> m[0] == ' ' || !IsSpace(m[0])
  {
    hide UnescapeMeasurement, Find, ParseTagList, ParseTail;
    var head := line[..Find(line, ' ', false)];
    var tagStart := Find(head, ',', false);
    UnescapedHead(if tagStart < 0 then head else head[..tagStart]);
  }

  lemma {:induction false} TrimmedHead(s: string)
    ensures TrimSpace(s) != "" ==> !IsSpace(TrimSpace(s)[0])
  {
  }

  lemma {:induction false} EmptyLines()
    ensures Lines("") == [""]
  {
  }

  lemma {:induction false} OnePoint(d: Reader, p: Point)
    requires Valid(d, p)
    ensures EncodePoints(d.precision, [p]) == Ok(Line(d.precision, p) + "\n")
    ensures Norms(d.precision, [p]) == [Norm(d.precision, p)]
  {
    hide Line, Norm;
    assert [p][1..] == [];
    assert EncodePoints(d.precision, []) == Ok("");
    assert Line(d.precision, p) + ['\n'] + "" == Line(d.precision, p) + "\n";
  }

  lemma {:induction false} TwoLines(d: Reader, line: string)
    ensures var t := TrimSpace(line);
            DecodeLines(d, [line] + [""]) ==
            if t == "" || t[0] == '#' then Ok([])
            else if DecodeLine(d, t).Ok? then Ok([DecodeLine(d, t).value]) else Err(DecodeLine(d, t).error)
  {
    hide DecodeLine, TrimSpace;
    EmptyTrimmed();
    assert ([line] + [""])[1..] == [""] && [""][1..] == [];
    assert DecodeLines(d, []) == Ok([]);
    assert DecodeLines(d, [""]) == Ok([]);
    if DecodeLine(d, TrimSpace(line)).Ok? {
      assert [DecodeLine(d, TrimSpace(line)).value] + [] == [DecodeLine(d, TrimSpace(line)).value];
    }
  }

  // ----- exactly which points come back -----

  /** Every point that can be written comes back from its line, with tags and
      fields sorted and the time cut to the precision, exactly if
      - none of its names and string values holds a line feed,
      - its escaped names are closed for the separators looked for where they
        stand: comma and space in the measurement and the tag values, and the
        equals sign too in the keys,
      - its measurement begins neither with # nor with white space other than a
        space. */
  lemma {:induction false} ComesBackExactly(d: Reader, p: Point)
    requires Valid(d, p)
    ensures Decode(d, Line(d.precision, p) + "\n") == Ok([Norm(d.precision, p)]) <==>
            OneLine(p) && Hidden(p) && Starts(p)
  {
    hide Line, DecodeLine, Decode, OneLine, Hidden, Norm, Starts, Valid;
    if OneLine(p) && Hidden(p) && Starts(p) {
      assert Clean(d, p);
      RoundTrip(d, [p]);
      OnePoint(d, p);
    } else if Decode(d, Line(d.precision, p) + "\n") == Ok([Norm(d.precision, p)]) {
      DecodeOneLine(d, Line(d.precision, p) + "\n");
      assert Norm(d.precision, p) in [Norm(d.precision, p)];
      NormOneLine(d.precision, p);
      MustStart(d, p);
      LineForced(d, p);
    }
  }

  /** A line without line feeds that comes back begins like its measurement and
      is read as it is. */
  lemma {:induction false} MustStart(d: Reader, p: Point)
    requires Valid(d, p) && OneLine(p)
    requires Decode(d, Line(d.precision, p) + "\n") == Ok([Norm(d.precision, p)])
    ensures Starts(p) && DecodeLine(d, Line(d.precision, p)) == Ok(Norm(d.precision, p))
  {
    hide Line, DecodeLine, TrimSpace, Lines, OneLine, IsSpace;
    var line := Line(d.precision, p);
    LineShape(d, p);
    FirstLine(line, "");
    EmptyLines();
    assert line + ['\n'] + "" == line + "\n";
    var trimmed := TrimSpace(line);
    TwoLines(d, line);
    TrimmedHead(line);
    DecodedHead(d, trimmed);
    LineKept(d, p);
  }

  // ----- keys that are not distinct -----

  /** A point with its tags and fields as the sort may leave them: it is not
      stable, so those with equal keys come in any order. */
  ghost predicate Arranged(p: Point, q: Point) {
    q.measurement == p.measurement && q.timestamp == p.timestamp &&
    multiset(q.tags) == multiset(p.tags) && Ordered(q.tags, (t: Tag) => t.key) &&
    multiset(q.fields) == multiset(p.fields) && Ordered(q.fields, (f: Field) => f.key)
  }

  lemma {:induction false} ArrangedStays(p: Point, q: Point)
    requires Arranged(p, q)
    ensures TagsByKey(q.tags) == q.tags && FieldsByKey(q.fields) == q.fields
  {
    hide Sorted;
    SortedStays(q.tags, (t: Tag) => t.key);
    SortedStays(q.fields, (f: Field) => f.key);
  }

  lemma {:induction false} SameMembers<T>(a: seq<T>, b: seq<T>)
    requires multiset(a) == multiset(b)
    ensures |a| == |b| && forall x :: x in a <==> x in b
  {
    assert |multiset(a)| == |a| && |multiset(b)| == |b|;
    forall x ensures x in a <==> x in b {
      assert x in multiset(a) <==> x in multiset(b);
    }
  }

  lemma {:induction false} ArrangedSame(d: Reader, p: Point, q: Point)
    requires Arranged(p, q)
    ensures Valid(d, q) == Valid(d, p) && OneLine(q) == OneLine(p) && Hidden(q) == Hidden(p) && Starts(q) == Starts(p)
  {
    hide Ordered, MeasurementHidden, TagHidden, KeyHidden, TagOneLine, FieldOneLine, ValidValue, IsSpace;
    SameMembers(p.tags, q.tags);
    SameMembers(p.fields, q.fields);
  }

  /** In whatever order the sort leaves equal keys: the line written in that order
      comes back in that order, exactly if the point does. With distinct keys
      there is only one order. */
  lemma {:induction false} AnyOrderComesBack(d: Reader, p: Point, q: Point)
    requires Valid(d, p) && Arranged(p, q)
    ensures Decode(d, Line(d.precision, q) + "\n") ==
            Ok([q.(timestamp := q.timestamp / Unit(d.precision) * Unit(d.precision))]) <==>
            OneLine(p) && Hidden(p) && Starts(p)
    ensures DistinctKeys(p.tags, (t: Tag) => t.key) && DistinctKeys(p.fields, (f: Field) => f.key) ==>
              q == p.(tags := TagsByKey(p.tags), fields := FieldsByKey(p.fields))
  {
    hide Line, Decode, OneLine, Hidden, Starts, Valid, Sorted, Ordered, DistinctKeys;
    ArrangedStays(p, q);
    ArrangedSame(d, p, q);
    ComesBackExactly(d, q);
    if DistinctKeys(p.tags, (t: Tag) => t.key) && DistinctKeys(p.fields, (f: Field) => f.key) {
      OneArrangement(p.tags, q.tags, (t: Tag) => t.key);
      OneArrangement(p.fields, q.fields, (f: Field) => f.key);
    }
  }

  lemma {:induction false} OneArrangement<T>(items: seq<T>, a: seq<T>, key: T -> string)
    requires multiset(a) == multiset(items) && Ordered(a, key) && DistinctKeys(items, key)
    ensures a == Sorted(items, key)
  {
    hide Sorted;
    SortedIsSort(items, key);
    StillDistinct(items, Sorted(items, key), key);
    SortIsUnique(a, Sorted(items, key), key);
  }

  // ----- a name that is not hidden -----

  /** A tag value that is a single backslash escapes the space behind it: the line
      has no fields. */
  lemma {:induction false} BackslashLosesFields(d: Reader)
    ensures var p := Point("m", [Tag("k", "\\")], [Field("f", Bool(true))], ZERO_TIME);
            EncodePoint(d.precision, p) == Ok("m,k=\\ f=t") && DecodeLine(d, "m,k=\\ f=t") == Err(MissingFields)
  {
    hide Closed, Find, EscapeName, EscapeMeasurement, Escaped;
    var p := Point("m", [Tag("k", "\\")], [Field("f", Bool(true))], ZERO_TIME);
    MeasurementInverse("m");
    OneEscaped('m', MEASUREMENT_CHARS);
    OneName('k');
    OneName('\\');
    OneName('f');
    assert p.tags[1..] == [] && p.fields[1..] == [];
    assert TagsByKey(p.tags) == p.tags && FieldsByKey(p.fields) == p.fields;
    assert TagText(p.tags[0]) == "k=\\" && FieldText(p.fields[0]) == "f=t";
    assert Head(p) == "m,k=\\" && FieldPart(p) == "f=t";
    assert TimePart(d.precision, p) == "";
    assert Line(d.precision, p) == "m,k=\\" + " " + ("f=t" + "") == "m,k=\\ f=t";
    BackslashClosed();
    FindsNothing("m,k=\\ f=t", {' '}, ' ');
  }

  lemma {:induction false} OneName(c: char)
    requires c !in NAME_CHARS
    ensures EscapeName([c]) == [c]
  {
    NameInverse([c]);
    OneEscaped(c, NAME_CHARS);
  }

  lemma {:induction false} OneEscaped(c: char, special: set<char>)
    requires c !in special
    ensures Escaped([c], special) == [c]
  {
    assert [c][1..] == "";
    assert Escaped("", special) == "";
  }

  lemma {:induction false} ClosedStep(c: char, s: string, seps: set<char>)
    requires c !in seps && c != '"' && c != '\\' && Closed(s, seps, false)
    ensures Closed([c] + s, seps, false)
  {
    assert ([c] + s)[1..] == s;
  }

  lemma {:induction false} BackslashClosed()
    ensures Closed("m,k=\\ f=t", {' '}, false)
  {
    hide Closed;
    BackslashTail();
    ClosedStep('=', "\\ f=t", {' '});
    assert ['='] + "\\ f=t" == "=\\ f=t";
    ClosedStep('k', "=\\ f=t", {' '});
    assert ['k'] + "=\\ f=t" == "k=\\ f=t";
    ClosedStep(',', "k=\\ f=t", {' '});
    assert [','] + "k=\\ f=t" == ",k=\\ f=t";
    ClosedStep('m', ",k=\\ f=t", {' '});
    assert ['m'] + ",k=\\ f=t" == "m,k=\\ f=t";
  }

  lemma {:induction false} BackslashTail()
    ensures Closed("\\ f=t", {' '}, false)
  {
    OneClosed('t', {' '});
    ClosedStep('=', "t", {' '});
    assert ['='] + "t" == "=t";
    ClosedStep('f', "=t", {' '});
    assert ['f'] + "=t" == "f=t";
    assert "\\ f=t"[2..] == "f=t";
  }
}
