/** The loops of the line protocol encoder and decoder. */
module LineCodec {
  import opened Bytes
  import opened Results
  import opened Text
  import opened KeyOrder
  import opened LineProtocol

  // ----- decoder -----

  method FindUnescaped(s: string, ch: char, pos: nat) returns (r: int)
    requires pos <= |s|
    ensures r == Later(pos, Find(s[pos..], ch, false))
  {
    hide Find;
    var inQuote := false;
    var i := pos;
    while i < |s|
      invariant pos <= i <= |s|
      invariant Later(i, Find(s[i..], ch, inQuote)) == Later(pos, Find(s[pos..], ch, false))
    {
      FindStep(s, i, ch, inQuote);
      if s[i] == '"' {
        inQuote := !inQuote;
        i := i + 1;
        continue;
      }
      if inQuote {
        if s[i] == '\\' && i + 1 < |s| {
          i := i + 1;
        }
        i := i + 1;
        continue;
      }
      if s[i] == '\\' && i + 1 < |s| {
        i := i + 2;
        continue;
      }
      if s[i] == ch {
        return i;
      }
      i := i + 1;
    }
    FindNothing(ch, inQuote);
    assert s[|s|..] == "";
    return -1;
  }

  lemma {:induction false} FindNothing(ch: char, quoted: bool)
    ensures Find("", ch, quoted) == -1
  {
  }

  lemma {:induction false} FindStep(s: string, i: nat, ch: char, quoted: bool)
    requires i < |s|
    ensures Later(i, Find(s[i..], ch, quoted)) ==
            if s[i] == '"' then Later(i + 1, Find(s[i + 1..], ch, !quoted))
            else if s[i] == '\\' && i + 1 < |s| then Later(i + 2, Find(s[i + 2..], ch, quoted))
            else if !quoted && s[i] == ch then i
            else Later(i + 1, Find(s[i + 1..], ch, quoted))
  {
    assert s[i..][1..] == s[i + 1..];
    if i + 1 < |s| {
      assert s[i..][2..] == s[i + 2..];
    }
  }

  method SplitUnescaped(s: string, sep: char) returns (parts: seq<string>)
    ensures parts == Split(s, sep)
  {
    hide Find, Split, SplitSoFar;
    parts := [];
    var start := 0;
    SplitStarts(s, sep);
    while true
      invariant 0 <= start <= |s| && SplitSoFar(parts, s, start, sep)
      decreases |s| - start
    {
      var idx := FindUnescaped(s, sep, start);
      SplitStep(parts, s, start, sep);
      if idx < 0 {
        parts := parts + [s[start..]];
        break;
      }
      parts := parts + [s[start..idx]];
      start := idx + 1;
    }
  }

  /** The parts up to start, and those of the rest, are the parts of s. */
  ghost predicate SplitSoFar(parts: seq<string>, s: string, start: nat, sep: char)
    requires start <= |s|
  {
    parts + Split(s[start..], sep) == Split(s, sep)
  }

  lemma {:induction false} SplitStarts(s: string, sep: char)
    ensures SplitSoFar([], s, 0, sep)
  {
    assert s[0..] == s && [] + Split(s, sep) == Split(s, sep);
  }

  lemma {:induction false} SplitStep(parts: seq<string>, s: string, start: nat, sep: char)
    requires start <= |s| && SplitSoFar(parts, s, start, sep)
    ensures var idx := Later(start, Find(s[start..], sep, false));
            idx < |s| &&
            if idx < 0 then parts + [s[start..]] == Split(s, sep)
            else SplitSoFar(parts + [s[start..idx]], s, idx + 1, sep)
  {
    hide Find;
    var rest := s[start..];
    var i := Find(rest, sep, false);
    if i >= 0 {
      assert rest[..i] == s[start..start + i] && rest[i + 1..] == s[start + i + 1..];
      Assoc(parts, [rest[..i]], Split(rest[i + 1..], sep));
    }
  }

  method ParseTags(s: string) returns (r: Result<seq<Tag>, DecodeError>)
    ensures r == ParseTagList(Split(s, ','))
  {
    hide ParseTag, Split;
    var parts := SplitUnescaped(s, ',');
    var tags := [];
    var i := 0;
    assert parts[0..] == parts;
    AheadNothing(ParseTagList(parts));
    while i < |parts|
      invariant 0 <= i <= |parts|
      invariant ParseTagList(parts) == Ahead(tags, ParseTagList(parts[i..]))
    {
      assert parts[i..][1..] == parts[i + 1..];
      var tag :- ParseOneTag(parts[i]);
      AheadTwice(tags, [tag], ParseTagList(parts[i + 1..]));
      tags := tags + [tag];
      i := i + 1;
    }
    assert tags + [] == tags;
    return Ok(tags);
  }

  /** The body of the loop of ParseTags. */
  method ParseOneTag(part: string) returns (r: Result<Tag, DecodeError>)
    ensures r == ParseTag(part)
  {
    hide UnescapeName, Find;
    var eqIdx := FindUnescaped(part, '=', 0);
    assert part[0..] == part;
    if eqIdx < 0 {
      return Err(InvalidTag);
    }
    return Ok(Tag(UnescapeName(part[..eqIdx]), UnescapeName(part[eqIdx + 1..])));
  }

  method ParseFields(d: Reader, s: string) returns (r: Result<seq<Field>, DecodeError>)
    ensures r == ParseFieldList(d, Split(s, ','))
  {
    hide ParseField, Split;
    var parts := SplitUnescaped(s, ',');
    var fields := [];
    var i := 0;
    assert parts[0..] == parts;
    AheadNothing(ParseFieldList(d, parts));
    while i < |parts|
      invariant 0 <= i <= |parts|
      invariant ParseFieldList(d, parts) == Ahead(fields, ParseFieldList(d, parts[i..]))
    {
      assert parts[i..][1..] == parts[i + 1..];
      var field :- ParseOneField(d, parts[i]);
      AheadTwice(fields, [field], ParseFieldList(d, parts[i + 1..]));
      fields := fields + [field];
      i := i + 1;
    }
    assert fields + [] == fields;
    return Ok(fields);
  }

  /** The body of the loop of ParseFields. */
  method ParseOneField(d: Reader, part: string) returns (r: Result<Field, DecodeError>)
    ensures r == ParseField(d, part)
  {
    hide ParseValue, UnescapeName, Find;
    var eqIdx := FindUnescaped(part, '=', 0);
    assert part[0..] == part;
    if eqIdx < 0 {
      return Err(InvalidField);
    }
    var key := UnescapeName(part[..eqIdx]);
    var val :- ParseValue(d, part[eqIdx + 1..]);
    return Ok(Field(key, val));
  }

  method DecodeOne(d: Reader, line: string) returns (r: Result<Point, DecodeError>)
    ensures r == DecodeLine(d, line)
  {
    hide Find, ParseHead, ParseTail;
    var measurementEnd := FindUnescaped(line, ' ', 0);
    assert line[0..] == line;
    if measurementEnd < 0 {
      return Err(MissingFields);
    }
    var head :- DecodeHead(line[..measurementEnd]);
    var tail :- DecodeTail(d, line[measurementEnd + 1..]);
    return Ok(Point(head.0, head.1, tail.0, tail.1));
  }

  /** The measurement and the tags of a line. */
  method DecodeHead(measurementPart: string) returns (r: Result<(string, seq<Tag>), DecodeError>)
    ensures r == ParseHead(measurementPart)
  {
    hide Find, Split, ParseTagList, UnescapeMeasurement;
    var tagStart := FindUnescaped(measurementPart, ',', 0);
    assert measurementPart[0..] == measurementPart;
    if tagStart < 0 {
      return Ok((UnescapeMeasurement(measurementPart), []));
    }
    var measurement := UnescapeMeasurement(measurementPart[..tagStart]);
    var tags :- ParseTags(measurementPart[tagStart + 1..]);
    return Ok((measurement, tags));
  }

  /** The fields and the timestamp of a line. */
  method DecodeTail(d: Reader, rest: string) returns (r: Result<(seq<Field>, int), DecodeError>)
    ensures r == ParseTail(d, rest)
  {
    hide Find, Split, ParseFieldList, TrimSpace, ParseInt;
    var fieldEnd := FindUnescaped(rest, ' ', 0);
    assert rest[0..] == rest;
    var fieldStr, tsStr := rest, "";
    if fieldEnd >= 0 {
      fieldStr := rest[..fieldEnd];
      tsStr := TrimSpace(rest[fieldEnd + 1..]);
    }
    var fields :- ParseFields(d, fieldStr);
    var timestamp := ZERO_TIME;
    if tsStr != "" {
      var ts := ParseInt(tsStr);
      if ts.None? {
        return Err(InvalidTimestamp);
      }
      timestamp := ts.value * Unit(d.precision);
    }
    return Ok((fields, timestamp));
  }

  method DecodeAll(d: Reader, data: string) returns (r: Result<seq<Point>, DecodeError>)
    ensures r == Decode(d, data)
  {
    hide DecodeLine, TrimSpace, Lines;
    var lines := Lines(data);
    var points := [];
    var i := 0;
    assert lines[0..] == lines;
    AheadNothing(DecodeLines(d, lines));
    while i < |lines|
      invariant 0 <= i <= |lines|
      invariant DecodeLines(d, lines) == Ahead(points, DecodeLines(d, lines[i..]))
    {
      assert lines[i..][1..] == lines[i + 1..];
      var line := TrimSpace(lines[i]);
      i := i + 1;
      if line == "" || line[0] == '#' {
        continue;
      }
      var p :- DecodeOne(d, line);
      AheadTwice(points, [p], DecodeLines(d, lines[i..]));
      points := points + [p];
    }
    assert points + [] == points;
    return Ok(points);
  }

  // ----- encoder -----

  method WriteFieldValue(v: FieldValue) returns (b: string)
    ensures b == ValueText(v)
  {
    b := "";
    match v {
      case Float(text) =>
        b := b + text;
      case Int(i) =>
        b := b + FormatInt(i);
        b := b + "i";
      case UInt(u) =>
        b := b + FormatNat(u);
        b := b + "u";
      case Bool(flag) =>
        if flag {
          b := b + "t";
        } else {
          b := b + "f";
        }
      case String(s) =>
        b := b + "\"";
        b := b + EscapeString(s);
        b := b + "\"";
    }
  }

  method WriteTags(tags: seq<Tag>) returns (b: string)
    ensures b == if tags == [] then "" else "," + Join(TagTexts(TagsByKey(tags)), ',')
  {
    hide EscapeName, Join, TagTexts, Sorted;
    b := "";
    if |tags| > 0 {
      var sorted := TagsByKey(tags);
      assert |sorted| == |tags|;
      ghost var texts := TagTexts(sorted);
      var i := 0;
      while i < |sorted|
        invariant 0 <= i <= |sorted|
        invariant b == if i == 0 then "" else "," + Join(texts[..i], ',')
      {
        ghost var before := b;
        b := b + ",";
        b := b + EscapeName(sorted[i].key);
        b := b + "=";
        b := b + EscapeName(sorted[i].value);
        assert b == before + "," + texts[i];
        AfterComma(before, texts, i);
        i := i + 1;
      }
      assert texts[..|sorted|] == texts;
    }
  }

  method WriteFields(fields: seq<Field>) returns (b: string)
    ensures b == Join(FieldTexts(FieldsByKey(fields)), ',')
  {
    hide EscapeName, Join, FieldTexts, Sorted, ValueText;
    b := "";
    var sorted := FieldsByKey(fields);
    assert |sorted| == |fields|;
    NothingJoined(FieldTexts(sorted));
    ghost var texts := FieldTexts(sorted);
    var i := 0;
    while i < |sorted|
      invariant 0 <= i <= |sorted|
      invariant b == Join(texts[..i], ',')
    {
      ghost var before := b;
      if i > 0 {
        b := b + ",";
      }
      b := b + EscapeName(sorted[i].key);
      b := b + "=";
      var value := WriteFieldValue(sorted[i].value);
      b := b + value;
      assert b == before + (if i > 0 then "," else "") + texts[i];
      JoinOneMore(texts, i, ',');
      i := i + 1;
    }
    assert texts[..|sorted|] == texts;
  }

  lemma {:induction false} NothingJoined(texts: seq<string>)
    ensures Join(texts[..0], ',') == ""
  {
  }

  lemma {:induction false} AfterComma(before: string, texts: seq<string>, i: nat)
    requires i < |texts|
    requires before == if i == 0 then "" else "," + Join(texts[..i], ',')
    ensures before + "," + texts[i] == "," + Join(texts[..i + 1], ',')
  {
    hide Join;
    JoinOneMore(texts, i, ',');
    if i == 0 {
      NothingJoined(texts);
    }
  }

  method EncodeOne(precision: Precision, p: Point) returns (r: Result<string, EncodeError>)
    ensures r == EncodePoint(precision, p)
  {
    hide EscapeMeasurement, Join, TagTexts, FieldTexts, Sorted, FormatInt;
    if p.measurement == "" {
      return Err(NoMeasurement);
    }
    if |p.fields| == 0 {
      return Err(NoFields);
    }
    var b := EscapeMeasurement(p.measurement);
    var tags := WriteTags(p.tags);
    b := b + tags;
    assert b == Head(p);
    b := b + " ";
    var fields := WriteFields(p.fields);
    b := b + fields;
    Assoc(Head(p) + " ", fields, TimePart(precision, p));
    Assoc(Head(p), " ", fields + TimePart(precision, p));
    if p.timestamp != ZERO_TIME {
      Assoc(b, " ", FormatInt(p.timestamp / Unit(precision)));
      b := b + " ";
      b := b + FormatInt(p.timestamp / Unit(precision));
    } else {
      assert fields + "" == fields;
    }
    return Ok(b);
  }

  method EncodeMulti(precision: Precision, points: seq<Point>) returns (r: Result<string, EncodeError>)
    ensures r == EncodePoints(precision, points)
  {
    hide EncodePoint;
    var b := "";
    var i := 0;
    assert points[0..] == points;
    AheadNothing(EncodePoints(precision, points));
    while i < |points|
      invariant 0 <= i <= |points|
      invariant EncodePoints(precision, points) == Ahead(b, EncodePoints(precision, points[i..]))
    {
      assert points[i..][1..] == points[i + 1..];
      var line :- EncodeOne(precision, points[i]);
      AheadTwice(b, line + ['\n'], EncodePoints(precision, points[i + 1..]));
      Assoc(b, line, ['\n']);
      b := b + line;
      b := b + ['\n'];
      i := i + 1;
    }
    assert b + "" == b;
    return Ok(b);
  }
}
