/** W3C tracestate: parsing, printing and sizing, and exactly which entry lists
    survive a header. */
module TraceState {
  import opened Bytes
  import opened Results
  import opened Text

  datatype Entry = Entry(key: string, value: string)

  datatype Error = TooLarge | TooManyEntries | InvalidEntry

  const MAX_ENTRIES := 32
  const MAX_BYTES := 8192

  // ----- printing and sizing -----

  function EntryText(e: Entry): string {
    e.key + "=" + e.value
  }

  function Texts(ts: seq<Entry>): (r: seq<string>)
    ensures |r| == |ts| && forall i :: 0 <= i < |ts| ==> r[i] == EntryText(ts[i])
  {
    if ts == [] then [] else [EntryText(ts[0])] + Texts(ts[1..])
  }

  function Header(ts: seq<Entry>): string {
    Join(Texts(ts), ',')
  }

  /** The length of a string in bytes: that of its UTF-8 encoding. */
  function ByteLen(s: string): nat {
    if s == "" then 0 else CharLen(s[0]) + ByteLen(s[1..])
  }

  function CharLen(c: char): nat {
    if c < '\U{80}' then 1 else if c < '\U{800}' then 2 else if c < '\U{10000}' then 3 else 4
  }

  /** One byte for ASCII, two below 2048, three below 65536, else four. */
  lemma {:induction false} CharLenIs(c: char)
    ensures CharLen(c) == if c as int < 128 then 1 else if c as int < 2048 then 2 else if c as int < 65536 then 3 else 4
  {
  }

  function EntrySize(e: Entry): nat {
    ByteLen(e.key) + 1 + ByteLen(e.value)
  }

  function ByteSize(ts: seq<Entry>): nat {
    if ts == [] then 0 else EntrySize(ts[0]) + (if |ts| > 1 then 1 else 0) + ByteSize(ts[1..])
  }

  // ----- parsing -----

  function ParseParts(parts: seq<string>): Result<seq<Entry>, Error> {
    if parts == [] then Ok([])
    else
      var trimmed := TrimSpace(parts[0]);
      if trimmed == "" then ParseParts(parts[1..])
      else
        var idx := IndexOf(trimmed, '=');
        if idx < 1 then Err(InvalidEntry)
        else
          var rest :- ParseParts(parts[1..]);
          Ok([Entry(trimmed[..idx], trimmed[idx + 1..])] + rest)
  }

  function Parse(header: string): Result<seq<Entry>, Error> {
    if header == "" then Ok([])
    else
      var parts := SplitOn(header, ',');
      if |parts| > MAX_ENTRIES then Err(TooManyEntries)
      else
        var ts :- ParseParts(parts);
        if ByteSize(ts) > MAX_BYTES then Err(TooLarge) else Ok(ts)
  }

  // ----- the size is that of the header -----

  lemma {:induction false} ByteLenConcat(a: string, b: string)
    ensures ByteLen(a + b) == ByteLen(a) + ByteLen(b)
  {
    if a == "" {
      assert a + b == b;
    } else {
      assert (a + b)[1..] == a[1..] + b;
      ByteLenConcat(a[1..], b);
    }
  }

  lemma {:induction false} EntrySizeIsPrinted(e: Entry)
    ensures ByteLen(EntryText(e)) == EntrySize(e) && ByteLen(",") == 1
  {
    assert "="[1..] == "" && ","[1..] == "";
    assert ByteLen("=") == 1;
    ByteLenConcat(e.key, "=");
    ByteLenConcat(e.key + "=", e.value);
  }

  lemma {:induction false} SizeIsPrinted(ts: seq<Entry>)
    ensures ByteSize(ts) == ByteLen(Header(ts))
  {
    if ts != [] {
      EntrySizeIsPrinted(ts[0]);
      SizeIsPrinted(ts[1..]);
      assert Texts(ts)[1..] == Texts(ts[1..]);
      if |ts| > 1 {
        ByteLenConcat(EntryText(ts[0]), ",");
        ByteLenConcat(EntryText(ts[0]) + ",", Header(ts[1..]));
      }
    }
  }

  // ----- which lists come back -----

  /** An entry that its text determines. */
  predicate Clean(e: Entry) {
    e.key != "" && !IsSpace(e.key[0]) && '=' !in e.key && ',' !in e.key && ',' !in e.value &&
    (e.value == "" || !IsSpace(e.value[|e.value| - 1]))
  }

  predicate AllClean(ts: seq<Entry>) {
    forall i :: 0 <= i < |ts| ==> Clean(ts[i])
  }

  lemma {:induction false} EntryReads(e: Entry)
    requires Clean(e)
    ensures ',' !in EntryText(e) && TrimSpace(EntryText(e)) == EntryText(e) != ""
    ensures IndexOf(EntryText(e), '=') == |e.key|
    ensures EntryText(e)[..|e.key|] == e.key && EntryText(e)[|e.key| + 1..] == e.value
  {
    var s := EntryText(e);
    assert s[|e.key|] == '=' && s[..|e.key|] == e.key;
    assert s[|s| - 1] == if e.value == "" then '=' else e.value[|e.value| - 1];
    IndexIs(e.key, '=', e.value);
  }

  lemma {:induction false} PartsRead(ts: seq<Entry>)
    requires AllClean(ts)
    ensures ParseParts(Texts(ts)) == Ok(ts)
    ensures forall i :: 0 <= i < |ts| ==> ',' !in Texts(ts)[i]
  {
    if ts != [] {
      EntryReads(ts[0]);
      PartsRead(ts[1..]);
      assert Texts(ts)[1..] == Texts(ts[1..]);
      assert [ts[0]] + ts[1..] == ts;
    }
  }

  /** Whatever is parsed is clean. */
  lemma {:induction false} ParsedClean(parts: seq<string>)
    requires ParseParts(parts).Ok? && forall i :: 0 <= i < |parts| ==> ',' !in parts[i]
    ensures AllClean(ParseParts(parts).value) && |ParseParts(parts).value| <= |parts|
  {
    hide TrimSpace, IndexOf, Clean;
    if parts != [] {
      ParsedClean(parts[1..]);
      var trimmed := TrimSpace(parts[0]);
      if trimmed != "" {
        TrimmedFrom(parts[0]);
        var idx := IndexOf(trimmed, '=');
        PartClean(trimmed, idx);
      }
    }
  }

  lemma {:induction false} TrimmedFrom(s: string)
    ensures forall c :: c in TrimSpace(s) ==> c in s
  {
    LeftFrom(s);
  }

  lemma {:induction false} LeftFrom(s: string)
    ensures forall c :: c in TrimLeft(s) ==> c in s
  {
    if s != "" && IsSpace(s[0]) {
      LeftFrom(s[1..]);
    }
  }

  lemma {:induction false} PartClean(s: string, idx: int)
    requires s != "" && ',' !in s && !IsSpace(s[0]) && !IsSpace(s[|s| - 1]) && idx == IndexOf(s, '=') >= 1
    ensures Clean(Entry(s[..idx], s[idx + 1..]))
  {
    var value := s[idx + 1..];
    assert value != "" ==> value[|value| - 1] == s[|s| - 1];
  }

  /** A trace state comes back from its header exactly if its entries are clean and
      it is within the limits. */
  lemma {:induction false} ComesBackExactly(ts: seq<Entry>)
    ensures Parse(Header(ts)) == Ok(ts) <==> AllClean(ts) && |ts| <= MAX_ENTRIES && ByteSize(ts) <= MAX_BYTES
  {
    if ts == [] {
      assert Header(ts) == "";
    } else {
      HeaderFull(ts);
      var parts := SplitOn(Header(ts), ',');
      if AllClean(ts) {
        PartsRead(ts);
        SplitOnJoin(Texts(ts), ',');
      }
      if Parse(Header(ts)) == Ok(ts) {
        PartsLackSep(Header(ts), ',');
        ParsedClean(parts);
      }
    }
  }

  lemma {:induction false} HeaderFull(ts: seq<Entry>)
    requires ts != []
    ensures Header(ts) != ""
  {
    assert Texts(ts)[0] == EntryText(ts[0]);
  }

  /** Printing normalises: what was parsed from any header comes back from its own. */
  lemma {:induction false} ParsedComesBack(header: string)
    requires Parse(header).Ok?
    ensures Parse(Header(Parse(header).value)) == Parse(header)
  {
    var ts := Parse(header).value;
    if header != "" {
      PartsLackSep(header, ',');
      ParsedClean(SplitOn(header, ','));
    }
    ComesBackExactly(ts);
  }

  // ----- headers that others write -----

  /** A member of a header: an entry with blanks around it, or blanks only. */
  datatype Member = Padded(left: string, entry: Entry, right: string) | Nothing(blanks: string)

  predicate MemberOk(m: Member) {
    match m
    case Padded(left, entry, right) => Blank(left) && Blank(right) && Clean(entry)
    case Nothing(blanks) => Blank(blanks)
  }

  function MemberText(m: Member): string {
    match m
    case Padded(left, entry, right) => left + (entry.key + "=" + entry.value) + right
    case Nothing(blanks) => blanks
  }

  function MemberTexts(ms: seq<Member>): (r: seq<string>)
    ensures |r| == |ms| && forall i :: 0 <= i < |ms| ==> r[i] == MemberText(ms[i])
  {
    if ms == [] then [] else [MemberText(ms[0])] + MemberTexts(ms[1..])
  }

  function Entries(ms: seq<Member>): seq<Entry> {
    if ms == [] then [] else if ms[0].Padded? then [ms[0].entry] + Entries(ms[1..]) else Entries(ms[1..])
  }

  predicate AllMembersOk(ms: seq<Member>) {
    forall i :: 0 <= i < |ms| ==> MemberOk(ms[i])
  }

  lemma {:induction false} MemberReads(m: Member)
    requires MemberOk(m)
    ensures ',' !in MemberText(m)
    ensures TrimSpace(MemberText(m)) == if m.Padded? then EntryText(m.entry) else ""
  {
    hide TrimSpace;
    match m
    case Padded(left, entry, right) =>
      EntryReads(entry);
      PaddingTrimmed(left, EntryText(entry), right);
      assert MemberText(m) == left + EntryText(entry) + right;
    case Nothing(blanks) =>
      BlankTrimmed(blanks);
  }

  lemma {:induction false} MembersRead(ms: seq<Member>)
    requires AllMembersOk(ms)
    ensures ParseParts(MemberTexts(ms)) == Ok(Entries(ms))
    ensures forall i :: 0 <= i < |ms| ==> ',' !in MemberTexts(ms)[i]
  {
    hide MemberOk, MemberText, TrimSpace;
    if ms != [] {
      assert MemberOk(ms[0]);
      MemberReads(ms[0]);
      MembersRead(ms[1..]);
      assert MemberTexts(ms)[1..] == MemberTexts(ms[1..]);
      if ms[0].Padded? {
        PaddedEntry(ms[0]);
      }
    }
  }

  lemma {:induction false} PaddedEntry(m: Member)
    requires MemberOk(m) && m.Padded?
    ensures EntryText(m.entry) != "" && IndexOf(EntryText(m.entry), '=') == |m.entry.key| >= 1
    ensures EntryText(m.entry)[..|m.entry.key|] == m.entry.key
    ensures EntryText(m.entry)[|m.entry.key| + 1..] == m.entry.value
  {
    EntryReads(m.entry);
  }

  /** Blanks around members and empty members do not matter, but count among the
      32 that a header may have; the entries may have 8192 bytes. */
  lemma {:induction false} PaddedReads(ms: seq<Member>)
    requires ms != [] && AllMembersOk(ms)
    ensures var header := Join(MemberTexts(ms), ',');
            Parse(header) ==
            if header == "" then Ok([])
            else if |ms| > 32 then Err(TooManyEntries)
            else if ByteSize(Entries(ms)) > 8192 then Err(TooLarge)
            else Ok(Entries(ms))
  {
    hide ParseParts, Join, ByteSize, MemberOk, MemberText;
    MembersRead(ms);
    SplitOnJoin(MemberTexts(ms), ',');
  }

  /** A header within the limit of members is invalid exactly if some member, of
      those that are not blank, lacks an equals sign or begins with one. */
  lemma {:induction false} InvalidExactly(parts: seq<string>)
    ensures ParseParts(parts) == Err(InvalidEntry) <==>
            exists i :: 0 <= i < |parts| &&
              var s := TrimSpace(parts[i]); s != "" && ('=' !in s || s[0] == '=')
    ensures ParseParts(parts).Ok? || ParseParts(parts) == Err(InvalidEntry)
  {
    hide TrimSpace;
    if parts != [] {
      InvalidExactly(parts[1..]);
      FirstPartInvalid(parts[0]);
      var bad := (p: string) => TrimSpace(p) != "" && ('=' !in TrimSpace(p) || TrimSpace(p)[0] == '=');
      if i :| 0 <= i < |parts[1..]| && bad(parts[1..][i]) {
        assert bad(parts[i + 1]);
      }
      if i :| 0 < i < |parts| && bad(parts[i]) {
        assert bad(parts[1..][i - 1]);
      }
    }
  }

  lemma {:induction false} FirstPartInvalid(part: string)
    ensures var s := TrimSpace(part); s != "" ==> (IndexOf(s, '=') < 1 <==> '=' !in s || s[0] == '=')
  {
    hide TrimSpace;
  }

  // ----- Get, Set, Delete -----

  function Get(ts: seq<Entry>, key: string): string {
    if ts == [] then "" else if ts[0].key == key then ts[0].value else Get(ts[1..], key)
  }

  function Without(ts: seq<Entry>, key: string): (r: seq<Entry>)
    ensures |r| <= |ts| && forall i :: 0 <= i < |r| ==> r[i].key != key && r[i] in ts
  {
    if ts == [] then [] else (if ts[0].key != key then [ts[0]] else []) + Without(ts[1..], key)
  }

  function Set(ts: seq<Entry>, key: string, value: string): Result<seq<Entry>, Error> {
    var r := [Entry(key, value)] + Without(ts, key);
    if |r| > MAX_ENTRIES then Err(TooManyEntries) else if ByteSize(r) > MAX_BYTES then Err(TooLarge) else Ok(r)
  }

  lemma {:induction false} WithoutKeeps(ts: seq<Entry>, key: string, other: string)
    ensures Get(Without(ts, key), other) == if other == key then "" else Get(ts, other)
  {
    if ts != [] {
      WithoutKeeps(ts[1..], key, other);
      var rest := Without(ts[1..], key);
      assert ([ts[0]] + rest)[1..] == rest && [] + rest == rest;
    }
  }

  /** A successful Set puts the entry in front, is read back, and leaves every
      other key alone. */
  lemma {:induction false} SetThenGet(ts: seq<Entry>, key: string, value: string, other: string)
    requires Set(ts, key, value).Ok?
    ensures var r := Set(ts, key, value).value;
            r[0] == Entry(key, value) && Get(r, other) == if other == key then value else Get(ts, other)
  {
    WithoutKeeps(ts, key, other);
    var rest := Without(ts, key);
    assert ([Entry(key, value)] + rest)[1..] == rest;
  }

  /** The entries with other keys, in order. */
  lemma {:induction false} WithoutExactly(a: seq<Entry>, e: Entry, key: string)
    ensures Without([], key) == []
    ensures Without(a + [e], key) == Without(a, key) + if e.key == key then [] else [e]
  {
    if a == [] {
      assert a + [e] == [e] && [e][1..] == [];
    } else {
      assert (a + [e])[1..] == a[1..] + [e];
      WithoutExactly(a[1..], e, key);
    }
  }

  /** Set fails only at the limits: 32 entries, counting the new one, and 8192 bytes. */
  lemma {:induction false} SetExactly(ts: seq<Entry>, key: string, value: string)
    ensures var r := [Entry(key, value)] + Without(ts, key);
            Set(ts, key, value) ==
            if |r| >= 33 then Err(TooManyEntries) else if ByteLen(Header(r)) >= 8193 then Err(TooLarge) else Ok(r)
  {
    hide ByteSize, ByteLen, Header, Without;
    SizeIsPrinted([Entry(key, value)] + Without(ts, key));
  }

  // ----- the loops -----

  /** What one turn of the loop does to the entries so far. */
  lemma {:induction false} PartTaken(entries: seq<Entry>, parts: seq<string>, i: nat)
    requires i < |parts|
    ensures var trimmed, rest := TrimSpace(parts[i]), ParseParts(parts[i + 1..]);
            var idx := IndexOf(trimmed, '=');
            Ahead(entries, ParseParts(parts[i..])) ==
            if trimmed == "" then Ahead(entries, rest)
            else if idx < 1 then Err(InvalidEntry)
            else Ahead(entries + [Entry(trimmed[..idx], trimmed[idx + 1..])], rest)
  {
    hide TrimSpace, IndexOf;
    assert parts[i..][1..] == parts[i + 1..];
    var trimmed, rest := TrimSpace(parts[i]), ParseParts(parts[i + 1..]);
    var idx := IndexOf(trimmed, '=');
    if trimmed != "" && idx >= 1 {
      AheadTwice(entries, [Entry(trimmed[..idx], trimmed[idx + 1..])], rest);
    }
  }

  lemma {:induction false} NoPartsLeft(entries: seq<Entry>)
    ensures Ahead(entries, ParseParts([])) == Ok(entries)
  {
    assert entries + [] == entries;
  }

  method ParseTraceState(header: string) returns (r: Result<seq<Entry>, Error>)
    ensures r == Parse(header)
  {
    hide TrimSpace, IndexOf, SplitOn, ByteSize, ParseParts, Ahead;
    if header == "" {
      return Ok([]);
    }
    var parts := SplitOn(header, ',');
    if |parts| > MAX_ENTRIES {
      return Err(TooManyEntries);
    }
    var entries := [];
    var i := 0;
    assert parts[0..] == parts;
    AheadNothing(ParseParts(parts));
    while i < |parts|
      invariant 0 <= i <= |parts|
      invariant ParseParts(parts) == Ahead(entries, ParseParts(parts[i..]))
    {
      PartTaken(entries, parts, i);
      var trimmed := TrimSpace(parts[i]);
      i := i + 1;
      if trimmed == "" {
        continue;
      }
      var idx := IndexOf(trimmed, '=');
      if idx < 1 {
        return Err(InvalidEntry);
      }
      var entry := Entry(trimmed[..idx], trimmed[idx + 1..]);
      entries := entries + [entry];
    }
    assert parts[i..] == [];
    NoPartsLeft(entries);
    var size := SizeOf(entries);
    if size > MAX_BYTES {
      return Err(TooLarge);
    }
    return Ok(entries);
  }

  method SizeOf(ts: seq<Entry>) returns (size: nat)
    ensures size == ByteSize(ts)
  {
    size := 0;
    var i := 0;
    assert ts[0..] == ts;
    while i < |ts|
      invariant 0 <= i <= |ts|
      invariant ByteSize(ts) == size + (if 0 < i < |ts| then 1 else 0) + ByteSize(ts[i..])
    {
      assert ts[i..][1..] == ts[i + 1..];
      if i > 0 {
        size := size + 1;
      }
      size := size + EntrySize(ts[i]);
      i := i + 1;
    }
  }

  method Print(ts: seq<Entry>) returns (b: string)
    ensures b == Header(ts)
  {
    b := "";
    var i := 0;
    ghost var texts := Texts(ts);
    while i < |ts|
      invariant 0 <= i <= |ts|
      invariant b == Join(texts[..i], ',')
    {
      ghost var before := b;
      if i > 0 {
        b := b + ",";
      }
      b := b + ts[i].key;
      b := b + "=";
      b := b + ts[i].value;
      assert b == before + (if i > 0 then "," else "") + texts[i];
      JoinOneMore(texts, i, ',');
      i := i + 1;
    }
    assert texts[..|ts|] == texts;
  }
}
