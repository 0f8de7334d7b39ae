/** The OTLP wire format by its bytes: every member of every message with the
    literal tag it has on the wire. What Marshal writes, and what Unmarshal makes
    of any such bytes, in any order and any number. */
module OtlpBytes {
  import opened Bytes
  import opened Results
  import opened Wire
  import opened Messages
  import opened OtlpTypes
  import opened OtlpFields
  import opened OtlpRoundTrip
  import opened OtlpTheorems

  // ----- three shapes of bytes -----

  function Counted(tag: byte, body: bytes): bytes {
    [tag] + (VarintBytes(|body|) + body)
  }

  function Number(tag: bytes, v: uint64): bytes {
    tag + VarintBytes(v)
  }

  function Fixed(tag: byte, v: uint64): bytes {
    [tag, v % 256, v / 256 % 256, v / 65536 % 256, v / 16777216 % 256, v / 4294967296 % 256,
     v / 1099511627776 % 256, v / 281474976710656 % 256, v / 72057594037927936 % 256]
  }

  // ----- messages by the names of their members -----

  datatype AnyMessage = AnyMessage(parts: seq<AnyPart>)

  datatype AnyPart =
    | StringValue(b: bytes) | BoolValue(n: uint64) | IntValue(n: uint64) | DoubleValue(n: uint64)
    | ArrayValue(values: seq<AnyMessage>) | KvListValue(pairs: seq<PairMessage>) | BytesValue(b: bytes)

  datatype PairMessage = PairMessage(parts: seq<PairPart>)

  datatype PairPart = Key(b: bytes) | Value(value: AnyMessage)

  datatype StatusPart = Description(b: bytes) | Code(n: uint64)

  datatype EventPart =
    | EventTime(n: uint64) | EventName(b: bytes) | EventAttribute(pair: PairMessage) | EventDropped(n: uint64)

  datatype LinkPart =
    | LinkTraceId(b: bytes) | LinkSpanId(b: bytes) | LinkTraceState(b: bytes) | LinkAttribute(pair: PairMessage)
    | LinkDropped(n: uint64)

  datatype SpanPart =
    | TraceId(b: bytes) | SpanId(b: bytes) | TraceState(b: bytes) | ParentSpanId(b: bytes) | SpanName(b: bytes)
    | Kind(n: uint64) | StartTime(n: uint64) | EndTime(n: uint64) | SpanAttribute(pair: PairMessage)
    | Event(event: seq<EventPart>) | Link(link: seq<LinkPart>) | SpanStatus(status: seq<StatusPart>)
    | DroppedAttributes(n: uint64) | DroppedEvents(n: uint64) | DroppedLinks(n: uint64)

  datatype ScopePart = ScopeName(b: bytes) | ScopeVersion(b: bytes) | ScopeAttribute(pair: PairMessage)

  datatype ScopeSpansPart = InScope(scope: seq<ScopePart>) | OneSpan(span: seq<SpanPart>)

  datatype ResourceSpansPart = OfResource(attributes: seq<PairMessage>) | OneScope(scope: seq<ScopeSpansPart>)

  // ----- their bytes -----

  function AnyText(p: AnyPart): bytes
    decreases p, 0
  {
    match p
    case StringValue(b) => Counted(0x0A, b)
    case BoolValue(n) => Number([0x10], n)
    case IntValue(n) => Number([0x18], n)
    case DoubleValue(n) => Fixed(0x21, n)
    case ArrayValue(values) => Counted(0x2A, ArrayText(values))
    case KvListValue(pairs) => Counted(0x32, PairsText(0x0A, pairs))
    case BytesValue(b) => Counted(0x3A, b)
  }

  function AnyTexts(ps: seq<AnyPart>): bytes
    decreases ps, 1
  {
    if ps == [] then [] else AnyText(ps[0]) + AnyTexts(ps[1..])
  }

  function AnyMessageText(m: AnyMessage): bytes
    decreases m, 2
  {
    AnyTexts(m.parts)
  }

  function ArrayText(values: seq<AnyMessage>): bytes
    decreases values, 3
  {
    if values == [] then [] else Counted(0x0A, AnyMessageText(values[0])) + ArrayText(values[1..])
  }

  function PairPartText(p: PairPart): bytes
    decreases p, 0
  {
    match p
    case Key(b) => Counted(0x0A, b)
    case Value(value) => Counted(0x12, AnyMessageText(value))
  }

  function PairPartTexts(ps: seq<PairPart>): bytes
    decreases ps, 1
  {
    if ps == [] then [] else PairPartText(ps[0]) + PairPartTexts(ps[1..])
  }

  function PairText(m: PairMessage): bytes
    decreases m, 2
  {
    PairPartTexts(m.parts)
  }

  function PairsText(tag: byte, pairs: seq<PairMessage>): bytes
    decreases pairs, 3
  {
    if pairs == [] then [] else Counted(tag, PairText(pairs[0])) + PairsText(tag, pairs[1..])
  }

  function StatusText(p: StatusPart): bytes {
    match p
    case Description(b) => Counted(0x12, b)
    case Code(n) => Number([0x18], n)
  }

  function EventText(p: EventPart): bytes {
    match p
    case EventTime(n) => Fixed(0x09, n)
    case EventName(b) => Counted(0x12, b)
    case EventAttribute(pair) => Counted(0x1A, PairText(pair))
    case EventDropped(n) => Number([0x20], n)
  }

  function LinkText(p: LinkPart): bytes {
    match p
    case LinkTraceId(b) => Counted(0x0A, b)
    case LinkSpanId(b) => Counted(0x12, b)
    case LinkTraceState(b) => Counted(0x1A, b)
    case LinkAttribute(pair) => Counted(0x22, PairText(pair))
    case LinkDropped(n) => Number([0x28], n)
  }

  function Texts<P>(text: P -> bytes, ps: seq<P>): bytes {
    if ps == [] then [] else text(ps[0]) + Texts(text, ps[1..])
  }

  function SpanText(p: SpanPart): bytes {
    match p
    case TraceId(b) => Counted(0x0A, b)
    case SpanId(b) => Counted(0x12, b)
    case TraceState(b) => Counted(0x1A, b)
    case ParentSpanId(b) => Counted(0x22, b)
    case SpanName(b) => Counted(0x2A, b)
    case Kind(n) => Number([0x30], n)
    case StartTime(n) => Fixed(0x39, n)
    case EndTime(n) => Fixed(0x41, n)
    case SpanAttribute(pair) => Counted(0x4A, PairText(pair))
    case Event(event) => Counted(0x5A, Texts(EventText, event))
    case Link(link) => Counted(0x62, Texts(LinkText, link))
    case SpanStatus(status) => Counted(0x6A, Texts(StatusText, status))
    case DroppedAttributes(n) => Number([0x70], n)
    case DroppedEvents(n) => Number([0x78], n)
    case DroppedLinks(n) => Number([0x80, 0x01], n)
  }

  function ScopeText(p: ScopePart): bytes {
    match p
    case ScopeName(b) => Counted(0x0A, b)
    case ScopeVersion(b) => Counted(0x12, b)
    case ScopeAttribute(pair) => Counted(0x1A, PairText(pair))
  }

  function ScopeSpansText(p: ScopeSpansPart): bytes {
    match p
    case InScope(scope) => Counted(0x0A, Texts(ScopeText, scope))
    case OneSpan(span) => Counted(0x12, Texts(SpanText, span))
  }

  function ResourceSpansText(p: ResourceSpansPart): bytes {
    match p
    case OfResource(attributes) => Counted(0x0A, PairsText(0x0A, attributes))
    case OneScope(scope) => Counted(0x12, Texts(ScopeSpansText, scope))
  }

  function ResourceText(rs: seq<ResourceSpansPart>): bytes {
    Counted(0x0A, Texts(ResourceSpansText, rs))
  }

  function TracesText(rss: seq<seq<ResourceSpansPart>>): bytes {
    Texts(ResourceText, rss)
  }

  // ----- what the bytes mean -----

  /** Of several parts of one message the last counts; the type follows it. */
  function AnyMeaning(v: AnyValue, p: AnyPart): AnyValue
    decreases p, 0
  {
    match p
    case StringValue(b) => v.(typ := 0, str := b)
    case BoolValue(n) => v.(typ := 1, boolVal := n != 0)
    case IntValue(n) => v.(typ := 2, intVal := if n < 0x8000_0000_0000_0000 then n else n - 0x1_0000_0000_0000_0000)
    case DoubleValue(n) => v.(typ := 3, doubleVal := n)
    case BytesValue(b) => v.(typ := 4, bytesVal := b)
    case ArrayValue(values) => v.(typ := 5, arrayVal := ArrayMeaning(values))
    case KvListValue(pairs) => v.(typ := 6, kvListVal := PairsMeaning(pairs))
  }

  function AnyMeanings(v: AnyValue, ps: seq<AnyPart>): AnyValue
    decreases ps, 1
  {
    if ps == [] then v else AnyMeanings(AnyMeaning(v, ps[0]), ps[1..])
  }

  function AnyMessageMeaning(m: AnyMessage): AnyValue
    decreases m, 2
  {
    AnyMeanings(AnyValue(0, [], false, 0, 0, [], [], []), m.parts)
  }

  function ArrayMeaning(values: seq<AnyMessage>): seq<AnyValue>
    decreases values, 3
  {
    if values == [] then [] else [AnyMessageMeaning(values[0])] + ArrayMeaning(values[1..])
  }

  function PairPartMeaning(kv: KeyValue, p: PairPart): KeyValue
    decreases p, 0
  {
    match p
    case Key(b) => kv.(key := b)
    case Value(value) => kv.(value := AnyMessageMeaning(value))
  }

  function PairPartMeanings(kv: KeyValue, ps: seq<PairPart>): KeyValue
    decreases ps, 1
  {
    if ps == [] then kv else PairPartMeanings(PairPartMeaning(kv, ps[0]), ps[1..])
  }

  function PairMeaning(m: PairMessage): KeyValue
    decreases m, 2
  {
    PairPartMeanings(KeyValue([], AnyValue(0, [], false, 0, 0, [], [], [])), m.parts)
  }

  function PairsMeaning(pairs: seq<PairMessage>): seq<KeyValue>
    decreases pairs, 3
  {
    if pairs == [] then [] else [PairMeaning(pairs[0])] + PairsMeaning(pairs[1..])
  }

  /** An attribute that occurs again is replaced in its place. */
  function Given(items: Attributes, m: PairMessage): Attributes {
    WithKey(items, PairMeaning(m).key, PairMeaning(m).value)
  }

  function AllGiven(items: Attributes, ms: seq<PairMessage>): Attributes
    decreases ms
  {
    if ms == [] then items else AllGiven(Given(items, ms[0]), ms[1..])
  }

  /** An id is 16 or 8 bytes; fewer overwrite its first ones, of more the first
      ones count. */
  function Copied(id: bytes, b: bytes): (r: bytes)
    ensures |r| == |id|
  {
    seq(|id|, i requires 0 <= i < |id| => if i < |b| then b[i] else id[i])
  }

  function Int32(n: uint64): int32 {
    var w := n % 0x1_0000_0000;
    if w < 0x8000_0000 then w else w - 0x1_0000_0000
  }

  function StatusMeaning(s: Status, p: StatusPart): Status {
    match p
    case Description(b) => s.(message := b)
    case Code(n) => s.(code := Int32(n))
  }

  function EventMeaning(e: SpanEvent, p: EventPart): SpanEvent {
    match p
    case EventTime(n) => e.(timeUnixNano := n)
    case EventName(b) => e.(name := b)
    case EventAttribute(pair) => e.(attributes := Given(e.attributes, pair))
    case EventDropped(n) => e.(droppedAttributesCount := n % 0x1_0000_0000)
  }

  function LinkMeaning(l: SpanLink, p: LinkPart): SpanLink {
    match p
    case LinkTraceId(b) => l.(traceID := Copied(l.traceID, b))
    case LinkSpanId(b) => l.(spanID := Copied(l.spanID, b))
    case LinkTraceState(b) => l.(traceState := b)
    case LinkAttribute(pair) => l.(attributes := Given(l.attributes, pair))
    case LinkDropped(n) => l.(droppedAttributesCount := n % 0x1_0000_0000)
  }

  function Meanings<A, P>(meaning: (A, P) -> A, acc: A, ps: seq<P>): A
    decreases ps
  {
    if ps == [] then acc else Meanings(meaning, meaning(acc, ps[0]), ps[1..])
  }

  const NO_TRACE: bytes := [0, 0, 0, 0, 0, 0, 0, 0, 0, 0, 0, 0, 0, 0, 0, 0]
  const NO_SPAN: bytes := [0, 0, 0, 0, 0, 0, 0, 0]

  function EventOf(ps: seq<EventPart>): SpanEvent {
    Meanings(EventMeaning, SpanEvent(0, [], [], 0), ps)
  }

  function LinkOf(ps: seq<LinkPart>): SpanLink {
    Meanings(LinkMeaning, SpanLink(NO_TRACE, NO_SPAN, [], [], 0), ps)
  }

  function StatusOf(ps: seq<StatusPart>): Status {
    Meanings(StatusMeaning, Status([], 0), ps)
  }

  function SpanMeaning(s: Span, p: SpanPart): Span {
    match p
    case TraceId(b) => s.(traceID := Copied(s.traceID, b))
    case SpanId(b) => s.(spanID := Copied(s.spanID, b))
    case TraceState(b) => s.(traceState := b)
    case ParentSpanId(b) => s.(parentSpanID := Copied(s.parentSpanID, b))
    case SpanName(b) => s.(name := b)
    case Kind(n) => s.(kind := Int32(n))
    case StartTime(n) => s.(startTimeUnixNano := n)
    case EndTime(n) => s.(endTimeUnixNano := n)
    case SpanAttribute(pair) => s.(attributes := Given(s.attributes, pair))
    case Event(event) => s.(events := s.events + [EventOf(event)])
    case Link(link) => s.(links := s.links + [LinkOf(link)])
    case SpanStatus(status) => s.(status := StatusOf(status))
    case DroppedAttributes(n) => s.(droppedAttributesCount := n % 0x1_0000_0000)
    case DroppedEvents(n) => s.(droppedEventsCount := n % 0x1_0000_0000)
    case DroppedLinks(n) => s.(droppedLinksCount := n % 0x1_0000_0000)
  }

  function SpanOf(ps: seq<SpanPart>): Span {
    Meanings(SpanMeaning,
             Span(NO_TRACE, NO_SPAN, NO_SPAN, [], [], 0, 0, 0, [], [], [], Status([], 0), 0, 0, 0), ps)
  }

  function ScopeMeaning(s: Scope, p: ScopePart): Scope {
    match p
    case ScopeName(b) => s.(name := b)
    case ScopeVersion(b) => s.(version := b)
    case ScopeAttribute(pair) => s.(attributes := Given(s.attributes, pair))
  }

  function ScopeOf(ps: seq<ScopePart>): Scope {
    Meanings(ScopeMeaning, Scope([], [], []), ps)
  }

  function ScopeSpansMeaning(ss: ScopeSpans, p: ScopeSpansPart): ScopeSpans {
    match p
    case InScope(scope) => ss.(scope := ScopeOf(scope))
    case OneSpan(span) => ss.(spans := ss.spans + [SpanOf(span)])
  }

  function ScopeSpansOf(ps: seq<ScopeSpansPart>): ScopeSpans {
    Meanings(ScopeSpansMeaning, ScopeSpans(Scope([], [], []), []), ps)
  }

  function ResourceSpansMeaning(rs: ResourceSpans, p: ResourceSpansPart): ResourceSpans {
    match p
    case OfResource(attributes) => rs.(resource := Resource(AllGiven([], attributes)))
    case OneScope(scope) => rs.(scopeSpans := rs.scopeSpans + [ScopeSpansOf(scope)])
  }

  function ResourceSpansOf(ps: seq<ResourceSpansPart>): ResourceSpans {
    Meanings(ResourceSpansMeaning, ResourceSpans(Resource([]), []), ps)
  }

  function TracesMeaning(td: TracesData, rs: seq<ResourceSpansPart>): TracesData {
    TracesData(td.resourceSpans + [ResourceSpansOf(rs)])
  }

  function TracesOf(rss: seq<seq<ResourceSpansPart>>): TracesData {
    Meanings(TracesMeaning, TracesData([]), rss)
  }

  // ----- the shapes are those of the fields -----

  lemma {:induction false} TagIs(num: uint32, wireType: WireType)
    requires num < 16
    ensures TagBytes(num, wireType) == [num * 8 + wireType]
  {
  }

  lemma {:induction false} CountedIs(num: uint32, b: bytes, fields: seq<Field>)
    requires num < 16
    ensures EncodeField(BytesField(num, b)) == Counted(num * 8 + 2, b)
    ensures EncodeField(MessageField(num, fields)) == Counted(num * 8 + 2, Encode(fields))
  {
    hide VarintBytes, TagBytes;
    TagIs(num, 2);
  }

  lemma {:induction false} NumberIs(num: uint32, v: uint64)
    requires num < 16
    ensures EncodeField(VarintField(num, v)) == Number([num * 8], v)
  {
    hide VarintBytes, TagBytes;
    TagIs(num, 0);
  }

  lemma {:induction false} FixedIs(num: uint32, v: uint64)
    requires num < 16
    ensures EncodeField(Fixed64Field(num, v)) == Fixed(num * 8 + 1, v)
  {
    hide VarintBytes, TagBytes, LittleEndian;
    TagIs(num, 1);
    LittleEight(v);
  }

  // ----- any value -----

  function AnyField(p: AnyPart): Field
    decreases p, 0
  {
    match p
    case StringValue(b) => BytesField(ANY_STRING, b)
    case BoolValue(n) => VarintField(ANY_BOOL, n)
    case IntValue(n) => VarintField(ANY_INT, n)
    case DoubleValue(n) => Fixed64Field(ANY_DOUBLE, n)
    case ArrayValue(values) => MessageField(ANY_ARRAY, ArrayParts(values))
    case KvListValue(pairs) => MessageField(ANY_KV_LIST, PairParts(KV_LIST_VALUES, pairs))
    case BytesValue(b) => BytesField(ANY_BYTES, b)
  }

  function AnyParts(ps: seq<AnyPart>): seq<Field>
    decreases ps, 1
  {
    if ps == [] then [] else [AnyField(ps[0])] + AnyParts(ps[1..])
  }

  function MessageParts(m: AnyMessage): seq<Field>
    decreases m, 2
  {
    AnyParts(m.parts)
  }

  function ArrayParts(values: seq<AnyMessage>): seq<Field>
    decreases values, 3
  {
    if values == [] then [] else [MessageField(ARRAY_VALUES, MessageParts(values[0]))] + ArrayParts(values[1..])
  }

  function PairField(p: PairPart): Field
    decreases p, 0
  {
    match p
    case Key(b) => BytesField(KV_KEY, b)
    case Value(value) => MessageField(KV_VALUE, MessageParts(value))
  }

  function PairFieldList(ps: seq<PairPart>): seq<Field>
    decreases ps, 1
  {
    if ps == [] then [] else [PairField(ps[0])] + PairFieldList(ps[1..])
  }

  function PairOf(m: PairMessage): seq<Field>
    decreases m, 2
  {
    PairFieldList(m.parts)
  }

  function PairParts(num: uint32, pairs: seq<PairMessage>): seq<Field>
    decreases pairs, 3
  {
    if pairs == [] then [] else [MessageField(num, PairOf(pairs[0]))] + PairParts(num, pairs[1..])
  }

  /** One more field in front. */
  lemma {:induction false} FieldThen(t: nat, f: Field, rest: seq<Field>)
    requires Good(t, [f]) && Good(t, rest)
    ensures Good(t, [f] + rest) && Encode([f] + rest) == EncodeField(f) + Encode(rest)
    ensures ([f] + rest)[0] == f && ([f] + rest)[1..] == rest
  {
    hide EncodeField, Good;
    GoodConcat(t, [f], rest);
    EncodeConcat([f], rest);
    EncodeOne(f);
  }

  lemma {:induction false} NoFields(t: nat)
    ensures Good(t, []) && Encode([]) == []
  {
  }

  lemma {:induction false} AnyPartReads(v: AnyValue, p: AnyPart)
    ensures EncodeField(AnyField(p)) == AnyText(p) && Good(ANY_VALUE, [AnyField(p)])
    ensures AnyStep(v, AnyField(p)) == AnyMeaning(v, p)
    decreases p, 0
  {
    hide EncodeField, Counted, Number, Fixed, Good, Encode;
    match p
    case StringValue(b) => AnyLeaf(p); CountedIs(1, b, []);
    case BoolValue(n) => AnyLeaf(p); NumberIs(2, n);
    case IntValue(n) => AnyLeaf(p); NumberIs(3, n);
    case DoubleValue(n) => AnyLeaf(p); FixedIs(4, n);
    case BytesValue(b) => AnyLeaf(p); CountedIs(7, b, []);
    case ArrayValue(values) =>
      ArrayReads([], values);
      CountedIs(5, [], ArrayParts(values));
      GoodMessage(ANY_VALUE, ANY_ARRAY, ArrayParts(values));
      assert [] + ArrayMeaning(values) == ArrayMeaning(values);
    case KvListValue(pairs) =>
      PairsRead([], pairs);
      CountedIs(6, [], PairParts(KV_LIST_VALUES, pairs));
      GoodMessage(ANY_VALUE, ANY_KV_LIST, PairParts(KV_LIST_VALUES, pairs));
      assert [] + PairsMeaning(pairs) == PairsMeaning(pairs);
  }

  lemma {:induction false} AnyLeaf(p: AnyPart)
    requires !p.ArrayValue? && !p.KvListValue?
    ensures Good(ANY_VALUE, [AnyField(p)])
  {
    GoodLeaf(ANY_VALUE, AnyField(p));
  }

  lemma {:induction false} AnyPartsRead(v: AnyValue, ps: seq<AnyPart>)
    ensures Encode(AnyParts(ps)) == AnyTexts(ps) && Good(ANY_VALUE, AnyParts(ps))
    ensures AnyOf(v, AnyParts(ps)) == AnyMeanings(v, ps)
    decreases ps, 1
  {
    hide EncodeField, AnyText, AnyField, AnyStep, AnyMeaning, Good, Encode;
    if ps == [] {
      NoFields(ANY_VALUE);
    } else {
      AnyPartReads(v, ps[0]);
      AnyPartsRead(AnyMeaning(v, ps[0]), ps[1..]);
      FieldThen(ANY_VALUE, AnyField(ps[0]), AnyParts(ps[1..]));
    }
  }

  lemma {:induction false} MessageReads(m: AnyMessage)
    ensures Encode(MessageParts(m)) == AnyMessageText(m) && Good(ANY_VALUE, MessageParts(m))
    ensures AnyOf(EMPTY_VALUE, MessageParts(m)) == AnyMessageMeaning(m)
    decreases m, 2
  {
    hide AnyOf, AnyMeanings, Good, Encode, AnyTexts;
    AnyPartsRead(EMPTY_VALUE, m.parts);
  }

  lemma {:induction false} ArrayReads(vs: seq<AnyValue>, values: seq<AnyMessage>)
    ensures Encode(ArrayParts(values)) == ArrayText(values) && Good(ARRAY_VALUE, ArrayParts(values))
    ensures ArrayOf(vs, ArrayParts(values)) == vs + ArrayMeaning(values)
    decreases values, 3
  {
    hide EncodeField, AnyMessageText, MessageParts, AnyMessageMeaning, AnyOf, Good, Encode, Counted;
    if values == [] {
      NoFields(ARRAY_VALUE);
      assert vs + [] == vs;
    } else {
      var m, fs := values[0], MessageParts(values[0]);
      MessageReads(m);
      ArrayReads(vs + [AnyMessageMeaning(m)], values[1..]);
      CountedIs(1, [], fs);
      GoodMessage(ARRAY_VALUE, ARRAY_VALUES, fs);
      FieldThen(ARRAY_VALUE, MessageField(ARRAY_VALUES, fs), ArrayParts(values[1..]));
      Assoc(vs, [AnyMessageMeaning(m)], ArrayMeaning(values[1..]));
    }
  }

  lemma {:induction false} PairPartReads(kv: KeyValue, p: PairPart)
    ensures EncodeField(PairField(p)) == PairPartText(p) && Good(KEY_VALUE, [PairField(p)])
    ensures KeyValueStep(kv, PairField(p)) == PairPartMeaning(kv, p)
    decreases p, 0
  {
    hide EncodeField, Counted, Good, Encode, AnyMessageText, MessageParts, AnyOf, AnyMessageMeaning;
    match p
    case Key(b) =>
      CountedIs(1, b, []);
      GoodLeaf(KEY_VALUE, PairField(p));
    case Value(value) =>
      MessageReads(value);
      CountedIs(2, [], MessageParts(value));
      GoodMessage(KEY_VALUE, KV_VALUE, MessageParts(value));
  }

  lemma {:induction false} PairPartsRead(kv: KeyValue, ps: seq<PairPart>)
    ensures Encode(PairFieldList(ps)) == PairPartTexts(ps) && Good(KEY_VALUE, PairFieldList(ps))
    ensures KeyValueOf(kv, PairFieldList(ps)) == PairPartMeanings(kv, ps)
    decreases ps, 1
  {
    hide EncodeField, PairPartText, PairField, KeyValueStep, PairPartMeaning, Good, Encode;
    if ps == [] {
      NoFields(KEY_VALUE);
    } else {
      PairPartReads(kv, ps[0]);
      PairPartsRead(PairPartMeaning(kv, ps[0]), ps[1..]);
      FieldThen(KEY_VALUE, PairField(ps[0]), PairFieldList(ps[1..]));
    }
  }

  lemma {:induction false} PairReads(m: PairMessage)
    ensures Encode(PairOf(m)) == PairText(m) && Good(KEY_VALUE, PairOf(m))
    ensures KeyValueOf(EMPTY_KEY_VALUE, PairOf(m)) == PairMeaning(m)
    decreases m, 2
  {
    hide KeyValueOf, PairPartMeanings, Good, Encode, PairPartTexts;
    PairPartsRead(EMPTY_KEY_VALUE, m.parts);
  }

  lemma {:induction false} PairsRead(kvs: seq<KeyValue>, pairs: seq<PairMessage>)
    ensures Encode(PairParts(KV_LIST_VALUES, pairs)) == PairsText(0x0A, pairs)
    ensures Good(KV_LIST, PairParts(KV_LIST_VALUES, pairs))
    ensures PairsOf(kvs, PairParts(KV_LIST_VALUES, pairs)) == kvs + PairsMeaning(pairs)
    decreases pairs, 3
  {
    hide EncodeField, PairText, PairOf, PairMeaning, KeyValueOf, Good, Encode, Counted;
    if pairs == [] {
      NoFields(KV_LIST);
      assert kvs + [] == kvs;
    } else {
      var m, fs := pairs[0], PairOf(pairs[0]);
      PairReads(m);
      PairsRead(kvs + [PairMeaning(m)], pairs[1..]);
      CountedIs(1, [], fs);
      GoodMessage(KV_LIST, KV_LIST_VALUES, fs);
      FieldThen(KV_LIST, MessageField(KV_LIST_VALUES, fs), PairParts(KV_LIST_VALUES, pairs[1..]));
      Assoc(kvs, [PairMeaning(m)], PairsMeaning(pairs[1..]));
    }
  }

  // ----- the other messages, one after the other -----

  function Fields<P>(field: P -> Field, ps: seq<P>): seq<Field> {
    if ps == [] then [] else [field(ps[0])] + Fields(field, ps[1..])
  }

  /** A part is written as its text, fits its message, and does what it means. */
  ghost predicate PartReads<A(!new), P>(t: nat, step: (A, Field) -> A, field: P -> Field, text: P -> bytes,
      meaning: (A, P) -> A, p: P)
  {
    EncodeField(field(p)) == text(p) && Good(t, [field(p)]) && forall acc :: step(acc, field(p)) == meaning(acc, p)
  }

  lemma {:induction false} PartsRead<A(!new), P>(t: nat, step: (A, Field) -> A, field: P -> Field, text: P -> bytes,
          meaning: (A, P) -> A, acc: A, ps: seq<P>)
    requires forall i :: 0 <= i < |ps| ==> PartReads(t, step, field, text, meaning, ps[i])
    ensures Encode(Fields(field, ps)) == Texts(text, ps) && Good(t, Fields(field, ps))
    ensures Fold(step, acc, Fields(field, ps)) == Meanings(meaning, acc, ps)
    decreases ps
  {
    hide EncodeField, Good, Encode;
    if ps == [] {
      NoFields(t);
    } else {
      assert PartReads(t, step, field, text, meaning, ps[0]);
      assert forall i :: 0 <= i < |ps[1..]| ==> ps[1..][i] == ps[i + 1];
      PartsRead(t, step, field, text, meaning, meaning(acc, ps[0]), ps[1..]);
      FieldThen(t, field(ps[0]), Fields(field, ps[1..]));
      FoldOne(step, acc, field(ps[0]), Fields(field, ps[1..]));
    }
  }

  lemma {:induction false} CopiedIs(id: bytes, b: bytes)
    ensures Overwrite(id, b) == Copied(id, b)
  {
  }

  /** An attribute of any message. */
  lemma {:induction false} AttributeReads(t: nat, num: uint32, m: PairMessage)
    requires num < 16 && Otlp(t, num) == MessageKind(KEY_VALUE)
    ensures var f := MessageField(num, PairOf(m));
            EncodeField(f) == Counted(num * 8 + 2, PairText(m)) && Good(t, [f])
    ensures forall items :: SetPair(items, PairOf(m)) == Given(items, m)
  {
    hide EncodeField, Encode, Good, Counted, PairOf, PairText, KeyValueOf, PairMeaning, Otlp;
    PairReads(m);
    CountedIs(num, [], PairOf(m));
    GoodMessage(t, num, PairOf(m));
  }

  function StatusField(p: StatusPart): Field {
    match p
    case Description(b) => BytesField(STATUS_MESSAGE, b)
    case Code(n) => VarintField(STATUS_CODE, n)
  }

  lemma {:induction false} StatusPartReads(p: StatusPart)
    ensures PartReads(STATUS, StatusStep, StatusField, StatusText, StatusMeaning, p)
  {
    hide EncodeField, Good, Counted, Number;
    assert LeafFits(STATUS, StatusField(p));
    GoodLeaf(STATUS, StatusField(p));
    match p
    case Description(b) => CountedIs(2, b, []);
    case Code(n) => NumberIs(3, n);
  }

  lemma {:induction false} StatusReads(ps: seq<StatusPart>)
    ensures Encode(Fields(StatusField, ps)) == Texts(StatusText, ps) && Good(STATUS, Fields(StatusField, ps))
    ensures Fold(StatusStep, EMPTY_STATUS, Fields(StatusField, ps)) == StatusOf(ps)
  {
    hide PartReads, Good, Encode;
    forall i | 0 <= i < |ps| ensures PartReads(STATUS, StatusStep, StatusField, StatusText, StatusMeaning, ps[i]) {
      StatusPartReads(ps[i]);
    }
    PartsRead(STATUS, StatusStep, StatusField, StatusText, StatusMeaning, EMPTY_STATUS, ps);
  }

  function EventField(p: EventPart): Field {
    match p
    case EventTime(n) => Fixed64Field(EVENT_TIME, n)
    case EventName(b) => BytesField(EVENT_NAME, b)
    case EventAttribute(pair) => MessageField(EVENT_ATTRIBUTES, PairOf(pair))
    case EventDropped(n) => VarintField(EVENT_DROPPED_ATTRIBUTES, n)
  }

  lemma {:induction false} EventPartReads(p: EventPart)
    ensures PartReads(EVENT, EventStep, EventField, EventText, EventMeaning, p)
  {
    hide EncodeField, Good, Counted, Number, Fixed, PairOf, PairText, SetPair, Given;
    match p
    case EventTime(n) =>
      FixedIs(1, n);
      GoodLeaf(EVENT, EventField(p));
    case EventName(b) =>
      CountedIs(2, b, []);
      GoodLeaf(EVENT, EventField(p));
    case EventAttribute(pair) => AttributeReads(EVENT, EVENT_ATTRIBUTES, pair);
    case EventDropped(n) =>
      NumberIs(4, n);
      GoodLeaf(EVENT, EventField(p));
  }

  lemma {:induction false} EventReads(ps: seq<EventPart>)
    ensures Encode(Fields(EventField, ps)) == Texts(EventText, ps) && Good(EVENT, Fields(EventField, ps))
    ensures Fold(EventStep, EMPTY_EVENT, Fields(EventField, ps)) == EventOf(ps)
  {
    hide PartReads, Good, Encode;
    forall i | 0 <= i < |ps| ensures PartReads(EVENT, EventStep, EventField, EventText, EventMeaning, ps[i]) {
      EventPartReads(ps[i]);
    }
    PartsRead(EVENT, EventStep, EventField, EventText, EventMeaning, EMPTY_EVENT, ps);
  }

  function LinkField(p: LinkPart): Field {
    match p
    case LinkTraceId(b) => BytesField(LINK_TRACE_ID, b)
    case LinkSpanId(b) => BytesField(LINK_SPAN_ID, b)
    case LinkTraceState(b) => BytesField(LINK_TRACE_STATE, b)
    case LinkAttribute(pair) => MessageField(LINK_ATTRIBUTES, PairOf(pair))
    case LinkDropped(n) => VarintField(LINK_DROPPED_ATTRIBUTES, n)
  }

  lemma {:induction false} LinkPartReads(p: LinkPart)
    ensures PartReads(LINK, LinkStep, LinkField, LinkText, LinkMeaning, p)
  {
    hide EncodeField, Good, Counted, Number, PairOf, PairText, SetPair, Given, Overwrite, Copied;
    if p.LinkAttribute? {
      AttributeReads(LINK, LINK_ATTRIBUTES, p.pair);
    } else {
      GoodLeaf(LINK, LinkField(p));
      if p.LinkDropped? {
        NumberIs(5, p.n);
      } else {
        CountedIs(if p.LinkTraceId? then 1 else if p.LinkSpanId? then 2 else 3, p.b, []);
        forall l: SpanLink ensures LinkStep(l, LinkField(p)) == LinkMeaning(l, p) {
          CopiedIs(l.traceID, p.b);
          CopiedIs(l.spanID, p.b);
        }
      }
    }
  }

  lemma {:induction false} LinkReads(ps: seq<LinkPart>)
    ensures Encode(Fields(LinkField, ps)) == Texts(LinkText, ps) && Good(LINK, Fields(LinkField, ps))
    ensures Fold(LinkStep, EMPTY_LINK, Fields(LinkField, ps)) == LinkOf(ps)
  {
    hide PartReads, Good, Encode;
    forall i | 0 <= i < |ps| ensures PartReads(LINK, LinkStep, LinkField, LinkText, LinkMeaning, ps[i]) {
      LinkPartReads(ps[i]);
    }
    PartsRead(LINK, LinkStep, LinkField, LinkText, LinkMeaning, EMPTY_LINK, ps);
  }

  function SpanField(p: SpanPart): Field {
    match p
    case TraceId(b) => BytesField(SPAN_TRACE_ID, b)
    case SpanId(b) => BytesField(SPAN_SPAN_ID, b)
    case TraceState(b) => BytesField(SPAN_TRACE_STATE, b)
    case ParentSpanId(b) => BytesField(SPAN_PARENT_SPAN_ID, b)
    case SpanName(b) => BytesField(SPAN_NAME, b)
    case Kind(n) => VarintField(SPAN_KIND, n)
    case StartTime(n) => Fixed64Field(SPAN_START_TIME, n)
    case EndTime(n) => Fixed64Field(SPAN_END_TIME, n)
    case SpanAttribute(pair) => MessageField(SPAN_ATTRIBUTES, PairOf(pair))
    case Event(event) => MessageField(SPAN_EVENTS, Fields(EventField, event))
    case Link(link) => MessageField(SPAN_LINKS, Fields(LinkField, link))
    case SpanStatus(status) => MessageField(SPAN_STATUS, Fields(StatusField, status))
    case DroppedAttributes(n) => VarintField(SPAN_DROPPED_ATTRIBUTES, n)
    case DroppedEvents(n) => VarintField(SPAN_DROPPED_EVENTS, n)
    case DroppedLinks(n) => VarintField(SPAN_DROPPED_LINKS, n)
  }

  lemma {:induction false} SpanNumberReads(p: SpanPart)
    requires p.Kind? || p.DroppedAttributes? || p.DroppedEvents? || p.DroppedLinks? || p.StartTime? || p.EndTime?
    ensures EncodeField(SpanField(p)) == SpanText(p) && Good(SPAN, [SpanField(p)])
    ensures forall s :: SpanStep(s, SpanField(p)) == SpanMeaning(s, p)
  {
    hide Good, Counted, Fixed, Fold, Copied, Given, EncodeField;
    GoodLeaf(SPAN, SpanField(p));
    match p
    case Kind(n) => NumberIs(6, n);
    case DroppedAttributes(n) => NumberIs(14, n);
    case DroppedEvents(n) => NumberIs(15, n);
    case DroppedLinks(n) => TagSixteen(n);
    case StartTime(n) => FixedIs(7, n);
    case EndTime(n) => FixedIs(8, n);
    case _ =>
  }

  lemma {:induction false} TagSixteen(n: uint64)
    ensures EncodeField(VarintField(16, n)) == Number([0x80, 0x01], n)
  {
    assert VarintBytes(1) == [1];
    assert VarintBytes(128) == [0x80] + VarintBytes(1) == [0x80, 0x01];
  }

  lemma {:induction false} SpanBytesRead(p: SpanPart)
    requires p.TraceId? || p.SpanId? || p.TraceState? || p.ParentSpanId? || p.SpanName?
    ensures EncodeField(SpanField(p)) == SpanText(p) && Good(SPAN, [SpanField(p)])
    ensures forall s :: SpanStep(s, SpanField(p)) == SpanMeaning(s, p)
  {
    hide Good, Counted, Fixed, Fold, Copied, Overwrite, Given, EncodeField;
    GoodLeaf(SPAN, SpanField(p));
    CountedIs(if p.TraceId? then 1 else if p.SpanId? then 2 else if p.TraceState? then 3
              else if p.ParentSpanId? then 4 else 5, p.b, []);
    forall s: Span ensures SpanStep(s, SpanField(p)) == SpanMeaning(s, p) {
      CopiedIs(s.traceID, p.b);
      CopiedIs(s.spanID, p.b);
      CopiedIs(s.parentSpanID, p.b);
    }
  }

  lemma {:induction false} SpanPartReads(p: SpanPart)
    ensures PartReads(SPAN, SpanStep, SpanField, SpanText, SpanMeaning, p)
  {
    hide EncodeField, Encode, Good, Counted, Number, Fixed, PairOf, PairText, SetPair, Given, Copied, Fold, Texts, Fields,
      EventOf, LinkOf, StatusOf;
    match p
    case SpanAttribute(pair) => AttributeReads(SPAN, SPAN_ATTRIBUTES, pair);
    case Event(event) =>
      EventReads(event);
      CountedIs(11, [], Fields(EventField, event));
      GoodMessage(SPAN, SPAN_EVENTS, Fields(EventField, event));
    case Link(link) =>
      LinkReads(link);
      CountedIs(12, [], Fields(LinkField, link));
      GoodMessage(SPAN, SPAN_LINKS, Fields(LinkField, link));
    case SpanStatus(status) =>
      StatusReads(status);
      CountedIs(13, [], Fields(StatusField, status));
      GoodMessage(SPAN, SPAN_STATUS, Fields(StatusField, status));
    case Kind(_) | DroppedAttributes(_) | DroppedEvents(_) | DroppedLinks(_) | StartTime(_) | EndTime(_) =>
      SpanNumberReads(p);
    case TraceId(_) | SpanId(_) | TraceState(_) | ParentSpanId(_) | SpanName(_) => SpanBytesRead(p);
  }

  lemma {:induction false} SpanReads(ps: seq<SpanPart>)
    ensures Encode(Fields(SpanField, ps)) == Texts(SpanText, ps) && Good(SPAN, Fields(SpanField, ps))
    ensures Fold(SpanStep, EMPTY_SPAN, Fields(SpanField, ps)) == SpanOf(ps)
  {
    hide PartReads, Good, Encode, SpanStep, SpanField, SpanText, SpanMeaning;
    forall i | 0 <= i < |ps| ensures PartReads(SPAN, SpanStep, SpanField, SpanText, SpanMeaning, ps[i]) {
      SpanPartReads(ps[i]);
    }
    PartsRead(SPAN, SpanStep, SpanField, SpanText, SpanMeaning, EMPTY_SPAN, ps);
  }

  function ScopeField(p: ScopePart): Field {
    match p
    case ScopeName(b) => BytesField(SCOPE_NAME, b)
    case ScopeVersion(b) => BytesField(SCOPE_VERSION, b)
    case ScopeAttribute(pair) => MessageField(SCOPE_ATTRIBUTES, PairOf(pair))
  }

  lemma {:induction false} ScopePartReads(p: ScopePart)
    ensures PartReads(SCOPE, ScopeStep, ScopeField, ScopeText, ScopeMeaning, p)
  {
    hide EncodeField, Good, Counted, PairOf, PairText, SetPair, Given;
    if p.ScopeAttribute? {
      AttributeReads(SCOPE, SCOPE_ATTRIBUTES, p.pair);
    } else {
      GoodLeaf(SCOPE, ScopeField(p));
      CountedIs(if p.ScopeName? then 1 else 2, p.b, []);
    }
  }

  lemma {:induction false} ScopeReads(ps: seq<ScopePart>)
    ensures Encode(Fields(ScopeField, ps)) == Texts(ScopeText, ps) && Good(SCOPE, Fields(ScopeField, ps))
    ensures Fold(ScopeStep, EMPTY_SCOPE, Fields(ScopeField, ps)) == ScopeOf(ps)
  {
    hide PartReads, Good, Encode;
    forall i | 0 <= i < |ps| ensures PartReads(SCOPE, ScopeStep, ScopeField, ScopeText, ScopeMeaning, ps[i]) {
      ScopePartReads(ps[i]);
    }
    PartsRead(SCOPE, ScopeStep, ScopeField, ScopeText, ScopeMeaning, EMPTY_SCOPE, ps);
  }

  function ScopeSpansField(p: ScopeSpansPart): Field {
    match p
    case InScope(scope) => MessageField(SCOPE_SPANS_SCOPE, Fields(ScopeField, scope))
    case OneSpan(span) => MessageField(SCOPE_SPANS_SPANS, Fields(SpanField, span))
  }

  lemma {:induction false} ScopeSpansPartReads(p: ScopeSpansPart)
    ensures PartReads(SCOPE_SPANS, ScopeSpansStep, ScopeSpansField, ScopeSpansText, ScopeSpansMeaning, p)
  {
    hide EncodeField, Encode, Good, Counted, Fold, Texts, Fields, ScopeOf, SpanOf;
    match p
    case InScope(scope) =>
      ScopeReads(scope);
      CountedIs(1, [], Fields(ScopeField, scope));
      GoodMessage(SCOPE_SPANS, SCOPE_SPANS_SCOPE, Fields(ScopeField, scope));
    case OneSpan(span) =>
      SpanReads(span);
      CountedIs(2, [], Fields(SpanField, span));
      GoodMessage(SCOPE_SPANS, SCOPE_SPANS_SPANS, Fields(SpanField, span));
  }

  lemma {:induction false} ScopeSpansRead(ps: seq<ScopeSpansPart>)
    ensures Encode(Fields(ScopeSpansField, ps)) == Texts(ScopeSpansText, ps)
    ensures Good(SCOPE_SPANS, Fields(ScopeSpansField, ps))
    ensures Fold(ScopeSpansStep, EMPTY_SCOPE_SPANS, Fields(ScopeSpansField, ps)) == ScopeSpansOf(ps)
  {
    hide PartReads, Good, Encode;
    forall i | 0 <= i < |ps|
      ensures PartReads(SCOPE_SPANS, ScopeSpansStep, ScopeSpansField, ScopeSpansText, ScopeSpansMeaning, ps[i])
    {
      ScopeSpansPartReads(ps[i]);
    }
    PartsRead(SCOPE_SPANS, ScopeSpansStep, ScopeSpansField, ScopeSpansText, ScopeSpansMeaning, EMPTY_SCOPE_SPANS, ps);
  }

  lemma {:induction false} ResourceReads(r: Resource, ms: seq<PairMessage>)
    ensures Encode(PairParts(RESOURCE_ATTRIBUTES, ms)) == PairsText(0x0A, ms)
    ensures Good(RESOURCE, PairParts(RESOURCE_ATTRIBUTES, ms))
    ensures Fold(ResourceStep, r, PairParts(RESOURCE_ATTRIBUTES, ms)) == Resource(AllGiven(r.attributes, ms))
    decreases ms
  {
    hide EncodeField, Encode, Good, Counted, PairOf, PairText, SetPair, Given;
    if ms == [] {
      NoFields(RESOURCE);
    } else {
      AttributeReads(RESOURCE, RESOURCE_ATTRIBUTES, ms[0]);
      ResourceReads(Resource(Given(r.attributes, ms[0])), ms[1..]);
      var f := MessageField(RESOURCE_ATTRIBUTES, PairOf(ms[0]));
      FieldThen(RESOURCE, f, PairParts(RESOURCE_ATTRIBUTES, ms[1..]));
      FoldOne(ResourceStep, r, f, PairParts(RESOURCE_ATTRIBUTES, ms[1..]));
    }
  }

  function ResourceSpansField(p: ResourceSpansPart): Field {
    match p
    case OfResource(attributes) => MessageField(RESOURCE_SPANS_RESOURCE, PairParts(RESOURCE_ATTRIBUTES, attributes))
    case OneScope(scope) => MessageField(RESOURCE_SPANS_SCOPE_SPANS, Fields(ScopeSpansField, scope))
  }

  lemma {:induction false} ResourceSpansPartReads(p: ResourceSpansPart)
    ensures PartReads(RESOURCE_SPANS, ResourceSpansStep, ResourceSpansField, ResourceSpansText, ResourceSpansMeaning, p)
  {
    hide EncodeField, Encode, Good, Counted, Fold, Texts, Fields, PairParts, PairsText, AllGiven, ScopeSpansOf;
    match p
    case OfResource(attributes) =>
      ResourceReads(EMPTY_RESOURCE, attributes);
      CountedIs(1, [], PairParts(RESOURCE_ATTRIBUTES, attributes));
      GoodMessage(RESOURCE_SPANS, RESOURCE_SPANS_RESOURCE, PairParts(RESOURCE_ATTRIBUTES, attributes));
    case OneScope(scope) =>
      ScopeSpansRead(scope);
      CountedIs(2, [], Fields(ScopeSpansField, scope));
      GoodMessage(RESOURCE_SPANS, RESOURCE_SPANS_SCOPE_SPANS, Fields(ScopeSpansField, scope));
  }

  lemma {:induction false} ResourceSpansRead(ps: seq<ResourceSpansPart>)
    ensures Encode(Fields(ResourceSpansField, ps)) == Texts(ResourceSpansText, ps)
    ensures Good(RESOURCE_SPANS, Fields(ResourceSpansField, ps))
    ensures Fold(ResourceSpansStep, EMPTY_RESOURCE_SPANS, Fields(ResourceSpansField, ps)) == ResourceSpansOf(ps)
  {
    hide PartReads, Good, Encode;
    forall i | 0 <= i < |ps|
      ensures PartReads(RESOURCE_SPANS, ResourceSpansStep, ResourceSpansField, ResourceSpansText, ResourceSpansMeaning,
                        ps[i])
    {
      ResourceSpansPartReads(ps[i]);
    }
    PartsRead(RESOURCE_SPANS, ResourceSpansStep, ResourceSpansField, ResourceSpansText, ResourceSpansMeaning,
        EMPTY_RESOURCE_SPANS, ps);
  }

  function TracesField(rs: seq<ResourceSpansPart>): Field {
    MessageField(TRACES_RESOURCE_SPANS, Fields(ResourceSpansField, rs))
  }

  lemma {:induction false} TracesPartReads(rs: seq<ResourceSpansPart>)
    ensures PartReads(TRACES_DATA, TracesStep, TracesField, ResourceText, TracesMeaning, rs)
  {
    hide EncodeField, Encode, Good, Counted, Fold, Texts, Fields, ResourceSpansOf;
    ResourceSpansRead(rs);
    CountedIs(1, [], Fields(ResourceSpansField, rs));
    GoodMessage(TRACES_DATA, TRACES_RESOURCE_SPANS, Fields(ResourceSpansField, rs));
  }

  lemma {:induction false} TracesRead(rss: seq<seq<ResourceSpansPart>>)
    ensures Encode(Fields(TracesField, rss)) == TracesText(rss) && Good(TRACES_DATA, Fields(TracesField, rss))
    ensures Fold(TracesStep, EMPTY_TRACES, Fields(TracesField, rss)) == TracesOf(rss)
  {
    hide PartReads, Good, Encode;
    forall i | 0 <= i < |rss|
      ensures PartReads(TRACES_DATA, TracesStep, TracesField, ResourceText, TracesMeaning, rss[i])
    {
      TracesPartReads(rss[i]);
    }
    PartsRead(TRACES_DATA, TracesStep, TracesField, ResourceText, TracesMeaning, EMPTY_TRACES, rss);
  }

  /** Unmarshal on the wire format: any members of any messages, with their literal
      tags, in any order and any number, below 2^63 bytes. */
  lemma {:induction false} UnmarshalReadsBytes(rss: seq<seq<ResourceSpansPart>>)
    requires |TracesText(rss)| < 0x8000_0000_0000_0000
    ensures Unmarshaled(TracesText(rss)) == Ok(TracesOf(rss))
  {
    hide Good, TracesText, TracesOf, Fields, Encode, Decode, Fold;
    TracesRead(rss);
    GoodIs(TRACES_DATA, Fields(TracesField, rss));
    TreeReadsBack(Otlp, TRACES_DATA, Fields(TracesField, rss));
  }

  lemma {:induction false} GoodIs(t: nat, fs: seq<Field>)
    requires Good(t, fs)
    ensures Fits(Otlp, t, fs) && Strip(fs) == fs
  {
  }

  // ----- what Marshal writes, in order -----

  function Unsigned(i: int64): uint64 {
    if i >= 0 then i else i + 0x1_0000_0000_0000_0000
  }

  /** One place, that of the type; none for an unknown type. */
  function AnyOut(v: AnyValue): AnyMessage
    decreases v, 0
  {
    AnyMessage(
      if v.typ == 0 then [StringValue(v.str)]
      else if v.typ == 1 then [BoolValue(if v.boolVal then 1 else 0)]
      else if v.typ == 2 then [IntValue(Unsigned(v.intVal))]
      else if v.typ == 3 then [DoubleValue(v.doubleVal)]
      else if v.typ == 4 then [BytesValue(v.bytesVal)]
      else if v.typ == 5 then [ArrayValue(ArrayOut(v.arrayVal))]
      else if v.typ == 6 then [KvListValue(PairsOut(v.kvListVal))]
      else [])
  }

  function ArrayOut(vs: seq<AnyValue>): seq<AnyMessage>
    decreases vs, 1
  {
    if vs == [] then [] else [AnyOut(vs[0])] + ArrayOut(vs[1..])
  }

  function PairOut(kv: KeyValue): PairMessage
    decreases kv, 0
  {
    PairMessage([Key(kv.key), Value(AnyOut(kv.value))])
  }

  function PairsOut(kvs: seq<KeyValue>): seq<PairMessage>
    decreases kvs, 1
  {
    if kvs == [] then [] else [PairOut(kvs[0])] + PairsOut(kvs[1..])
  }

  /** A part that is left out when its member has its default. */
  function If<P>(c: bool, p: P): seq<P> {
    if c then [p] else []
  }

  function StatusOut(s: Status): seq<StatusPart> {
    If(s.message != [], Description(s.message)) + If(s.code != 0, Code(Unsigned(s.code)))
  }

  function EventAttributes(kvs: Attributes): seq<EventPart> {
    if kvs == [] then [] else [EventAttribute(PairOut(kvs[0]))] + EventAttributes(kvs[1..])
  }

  function EventOut(e: SpanEvent): seq<EventPart> {
    [EventTime(e.timeUnixNano), EventName(e.name)] +
    (EventAttributes(e.attributes) + If(e.droppedAttributesCount > 0, EventDropped(e.droppedAttributesCount)))
  }

  function LinkAttributes(kvs: Attributes): seq<LinkPart> {
    if kvs == [] then [] else [LinkAttribute(PairOut(kvs[0]))] + LinkAttributes(kvs[1..])
  }

  function LinkOut(l: SpanLink): seq<LinkPart> {
    [LinkTraceId(l.traceID), LinkSpanId(l.spanID)] +
    (If(l.traceState != [], LinkTraceState(l.traceState)) +
     (LinkAttributes(l.attributes) + If(l.droppedAttributesCount > 0, LinkDropped(l.droppedAttributesCount))))
  }

  function SpanAttributes(kvs: Attributes): seq<SpanPart> {
    if kvs == [] then [] else [SpanAttribute(PairOut(kvs[0]))] + SpanAttributes(kvs[1..])
  }

  function EventsOut(events: seq<SpanEvent>): seq<SpanPart> {
    if events == [] then [] else [Event(EventOut(events[0]))] + EventsOut(events[1..])
  }

  function LinksOut(links: seq<SpanLink>): seq<SpanPart> {
    if links == [] then [] else [Link(LinkOut(links[0]))] + LinksOut(links[1..])
  }

  function SpanOut(s: Span): seq<SpanPart> {
    ([TraceId(s.traceID), SpanId(s.spanID)] +
     (If(s.traceState != [], TraceState(s.traceState)) +
      (If(s.parentSpanID != NO_SPAN, ParentSpanId(s.parentSpanID)) +
       ([SpanName(s.name)] +
        (If(s.kind != 0, Kind(Unsigned(s.kind))) +
         [StartTime(s.startTimeUnixNano), EndTime(s.endTimeUnixNano)]))))) +
    (SpanAttributes(s.attributes) +
     (EventsOut(s.events) +
      (LinksOut(s.links) +
       (If(s.status.code != 0 || s.status.message != [], SpanStatus(StatusOut(s.status))) +
        (If(s.droppedAttributesCount > 0, DroppedAttributes(s.droppedAttributesCount)) +
         (If(s.droppedEventsCount > 0, DroppedEvents(s.droppedEventsCount)) +
          If(s.droppedLinksCount > 0, DroppedLinks(s.droppedLinksCount))))))))
  }

  function ScopeAttributes(kvs: Attributes): seq<ScopePart> {
    if kvs == [] then [] else [ScopeAttribute(PairOut(kvs[0]))] + ScopeAttributes(kvs[1..])
  }

  function ScopeOut(s: Scope): seq<ScopePart> {
    If(s.name != [], ScopeName(s.name)) +
    (If(s.version != [], ScopeVersion(s.version)) + ScopeAttributes(s.attributes))
  }

  function SpansOut(spans: seq<Span>): seq<ScopeSpansPart> {
    if spans == [] then [] else [OneSpan(SpanOut(spans[0]))] + SpansOut(spans[1..])
  }

  function ScopeSpansOut(ss: ScopeSpans): seq<ScopeSpansPart> {
    If(ss.scope.name != [] || ss.scope.version != [], InScope(ScopeOut(ss.scope))) + SpansOut(ss.spans)
  }

  function ScopesOut(scopes: seq<ScopeSpans>): seq<ResourceSpansPart> {
    if scopes == [] then [] else [OneScope(ScopeSpansOut(scopes[0]))] + ScopesOut(scopes[1..])
  }

  function ResourceSpansOut(rs: ResourceSpans): seq<ResourceSpansPart> {
    If(rs.resource.attributes != [], OfResource(PairsOut(rs.resource.attributes))) + ScopesOut(rs.scopeSpans)
  }

  function TracesOut(rss: seq<ResourceSpans>): seq<seq<ResourceSpansPart>> {
    if rss == [] then [] else [ResourceSpansOut(rss[0])] + TracesOut(rss[1..])
  }

  // ----- these parts are the fields that Marshal writes -----

  lemma {:induction false} AnyOutIs(v: AnyValue)
    ensures MessageParts(AnyOut(v)) == AnyFields(v)
    decreases v, 0
  {
    if v.typ == 5 {
      ArrayOutIs(v.arrayVal);
    } else if v.typ == 6 {
      PairsOutIs(KV_LIST_VALUES, v.kvListVal);
    }
    var parts := AnyOut(v).parts;
    if parts != [] {
      assert parts[1..] == [];
      assert AnyParts(parts) == [AnyField(parts[0])] + AnyParts([]);
    }
  }

  lemma {:induction false} ArrayOutIs(vs: seq<AnyValue>)
    ensures ArrayParts(ArrayOut(vs)) == ArrayFields(vs)
    decreases vs, 1
  {
    hide AnyOut, AnyFields, MessageParts;
    if vs != [] {
      AnyOutIs(vs[0]);
      ArrayOutIs(vs[1..]);
      assert ArrayOut(vs)[1..] == ArrayOut(vs[1..]);
    }
  }

  lemma {:induction false} PairOutIs(kv: KeyValue)
    ensures PairOf(PairOut(kv)) == KeyValueFields(kv)
    decreases kv, 0
  {
    hide AnyOut, AnyFields, MessageParts;
    AnyOutIs(kv.value);
    var parts := PairOut(kv).parts;
    assert parts[1..] == [Value(AnyOut(kv.value))] && parts[1..][1..] == [];
    assert PairFieldList(parts[1..]) == [PairField(Value(AnyOut(kv.value)))] + PairFieldList([]);
    assert PairFieldList(parts) == [PairField(Key(kv.key))] + PairFieldList(parts[1..]);
  }

  lemma {:induction false} PairsOutIs(num: uint32, kvs: seq<KeyValue>)
    ensures PairParts(num, PairsOut(kvs)) == PairFields(num, kvs)
    decreases kvs, 1
  {
    hide PairOut, KeyValueFields, PairOf;
    if kvs != [] {
      PairOutIs(kvs[0]);
      PairsOutIs(num, kvs[1..]);
      assert PairsOut(kvs)[1..] == PairsOut(kvs[1..]);
    }
  }

  lemma {:induction false} FieldsConcat<P>(field: P -> Field, a: seq<P>, b: seq<P>)
    ensures Fields(field, a + b) == Fields(field, a) + Fields(field, b)
  {
    if a == [] {
      assert a + b == b;
    } else {
      FieldsConcat(field, a[1..], b);
      assert (a + b)[1..] == a[1..] + b;
      Assoc([field(a[0])], Fields(field, a[1..]), Fields(field, b));
    }
  }

  lemma {:induction false} FieldsIf<P>(field: P -> Field, c: bool, p: P)
    ensures Fields(field, If(c, p)) == Opt(c, field(p))
  {
    assert [p][1..] == [];
  }

  lemma {:induction false} FieldsTwo<P>(field: P -> Field, p: P, q: P)
    ensures Fields(field, [p, q]) == [field(p), field(q)] && Fields(field, [p]) == [field(p)]
  {
    assert [p, q][1..] == [q] && [q][1..] == [] && [p][1..] == [];
    assert Fields(field, [q]) == [field(q)];
  }

  lemma {:induction false} FieldsFirst<P>(field: P -> Field, p: P, ps: seq<P>)
    ensures Fields(field, [p] + ps) == [field(p)] + Fields(field, ps)
  {
    assert ([p] + ps)[1..] == ps;
  }

  lemma {:induction false} StatusOutIs(s: Status)
    ensures Fields(StatusField, StatusOut(s)) == StatusFields(s)
  {
    FieldsConcat(StatusField, If(s.message != [], Description(s.message)), If(s.code != 0, Code(Unsigned(s.code))));
    FieldsIf(StatusField, s.message != [], Description(s.message));
    FieldsIf(StatusField, s.code != 0, Code(Unsigned(s.code)));
  }

  lemma {:induction false} EventAttributesAre(kvs: Attributes)
    ensures Fields(EventField, EventAttributes(kvs)) == PairFields(EVENT_ATTRIBUTES, kvs)
  {
    hide PairOut, PairOf, KeyValueFields;
    if kvs != [] {
      PairOutIs(kvs[0]);
      EventAttributesAre(kvs[1..]);
      FieldsFirst(EventField, EventAttribute(PairOut(kvs[0])), EventAttributes(kvs[1..]));
    }
  }

  lemma {:induction false} EventOutIs(e: SpanEvent)
    ensures Fields(EventField, EventOut(e)) == EventFields(e)
  {
    hide EventAttributes, PairFields, Fields;
    var last := If(e.droppedAttributesCount > 0, EventDropped(e.droppedAttributesCount));
    EventAttributesAre(e.attributes);
    FieldsIf(EventField, e.droppedAttributesCount > 0, EventDropped(e.droppedAttributesCount));
    FieldsConcat(EventField, EventAttributes(e.attributes), last);
    FieldsTwo(EventField, EventTime(e.timeUnixNano), EventName(e.name));
    FieldsConcat(EventField, [EventTime(e.timeUnixNano), EventName(e.name)], EventAttributes(e.attributes) + last);
  }

  lemma {:induction false} LinkAttributesAre(kvs: Attributes)
    ensures Fields(LinkField, LinkAttributes(kvs)) == PairFields(LINK_ATTRIBUTES, kvs)
  {
    hide PairOut, PairOf, KeyValueFields;
    if kvs != [] {
      PairOutIs(kvs[0]);
      LinkAttributesAre(kvs[1..]);
      FieldsFirst(LinkField, LinkAttribute(PairOut(kvs[0])), LinkAttributes(kvs[1..]));
    }
  }

  lemma {:induction false} LinkOutIs(l: SpanLink)
    ensures Fields(LinkField, LinkOut(l)) == LinkFields(l)
  {
    hide LinkAttributes, PairFields, Fields;
    var last := If(l.droppedAttributesCount > 0, LinkDropped(l.droppedAttributesCount));
    var state := If(l.traceState != [], LinkTraceState(l.traceState));
    LinkAttributesAre(l.attributes);
    FieldsIf(LinkField, l.droppedAttributesCount > 0, LinkDropped(l.droppedAttributesCount));
    FieldsIf(LinkField, l.traceState != [], LinkTraceState(l.traceState));
    FieldsConcat(LinkField, LinkAttributes(l.attributes), last);
    FieldsConcat(LinkField, state, LinkAttributes(l.attributes) + last);
    FieldsTwo(LinkField, LinkTraceId(l.traceID), LinkSpanId(l.spanID));
    FieldsConcat(LinkField, [LinkTraceId(l.traceID), LinkSpanId(l.spanID)],
        state + (LinkAttributes(l.attributes) + last));
  }

  lemma {:induction false} SpanAttributesAre(kvs: Attributes)
    ensures Fields(SpanField, SpanAttributes(kvs)) == PairFields(SPAN_ATTRIBUTES, kvs)
  {
    hide PairOut, PairOf, KeyValueFields;
    if kvs != [] {
      PairOutIs(kvs[0]);
      SpanAttributesAre(kvs[1..]);
      FieldsFirst(SpanField, SpanAttribute(PairOut(kvs[0])), SpanAttributes(kvs[1..]));
    }
  }

  lemma {:induction false} EventsOutAre(events: seq<SpanEvent>)
    ensures Fields(SpanField, EventsOut(events)) == Repeated(SPAN_EVENTS, EventFields, events)
  {
    hide EventOut, EventFields;
    if events != [] {
      EventOutIs(events[0]);
      EventsOutAre(events[1..]);
      FieldsFirst(SpanField, Event(EventOut(events[0])), EventsOut(events[1..]));
    }
  }

  lemma {:induction false} LinksOutAre(links: seq<SpanLink>)
    ensures Fields(SpanField, LinksOut(links)) == Repeated(SPAN_LINKS, LinkFields, links)
  {
    hide LinkOut, LinkFields;
    if links != [] {
      LinkOutIs(links[0]);
      LinksOutAre(links[1..]);
      FieldsFirst(SpanField, Link(LinkOut(links[0])), LinksOut(links[1..]));
    }
  }

  /** A part in front that may be left out. */
  lemma {:induction false} IfThen(c: bool, p: SpanPart, rest: seq<SpanPart>)
    ensures Fields(SpanField, If(c, p) + rest) == Opt(c, SpanField(p)) + Fields(SpanField, rest)
  {
    hide Fields, SpanField;
    FieldsConcat(SpanField, If(c, p), rest);
    FieldsIf(SpanField, c, p);
  }

  lemma {:induction false} SpanHeadOut(s: Span)
    ensures Fields(SpanField,
                   [TraceId(s.traceID), SpanId(s.spanID)] +
                   (If(s.traceState != [], TraceState(s.traceState)) +
                    (If(s.parentSpanID != NO_SPAN, ParentSpanId(s.parentSpanID)) +
                     ([SpanName(s.name)] +
                      (If(s.kind != 0, Kind(Unsigned(s.kind))) +
                       [StartTime(s.startTimeUnixNano), EndTime(s.endTimeUnixNano)]))))) == SpanHead(s)
  {
    hide Fields;
    var times := [StartTime(s.startTimeUnixNano), EndTime(s.endTimeUnixNano)];
    var r1 := If(s.kind != 0, Kind(Unsigned(s.kind))) + times;
    var r2 := [SpanName(s.name)] + r1;
    var r3 := If(s.parentSpanID != NO_SPAN, ParentSpanId(s.parentSpanID)) + r2;
    var r4 := If(s.traceState != [], TraceState(s.traceState)) + r3;
    FieldsTwo(SpanField, times[0], times[1]);
    IfThen(s.kind != 0, Kind(Unsigned(s.kind)), times);
    FieldsFirst(SpanField, SpanName(s.name), r1);
    IfThen(s.parentSpanID != NO_SPAN, ParentSpanId(s.parentSpanID), r2);
    IfThen(s.traceState != [], TraceState(s.traceState), r3);
    FieldsTwo(SpanField, TraceId(s.traceID), SpanId(s.spanID));
    FieldsConcat(SpanField, [TraceId(s.traceID), SpanId(s.spanID)], r4);
  }

  lemma {:induction false} TailFieldsAre(n: uint64, status: seq<StatusPart>)
    ensures SpanField(SpanStatus(status)) == MessageField(SPAN_STATUS, Fields(StatusField, status))
    ensures SpanField(DroppedAttributes(n)) == VarintField(SPAN_DROPPED_ATTRIBUTES, n)
    ensures SpanField(DroppedEvents(n)) == VarintField(SPAN_DROPPED_EVENTS, n)
    ensures SpanField(DroppedLinks(n)) == VarintField(SPAN_DROPPED_LINKS, n)
  {
    hide Fields;
  }

  lemma {:induction false} SpanTailOut(s: Span)
    ensures Fields(SpanField,
                   If(s.status.code != 0 || s.status.message != [], SpanStatus(StatusOut(s.status))) +
                   (If(s.droppedAttributesCount > 0, DroppedAttributes(s.droppedAttributesCount)) +
                    (If(s.droppedEventsCount > 0, DroppedEvents(s.droppedEventsCount)) +
                     If(s.droppedLinksCount > 0, DroppedLinks(s.droppedLinksCount))))) == SpanTail(s)
  {
    hide Fields, StatusOut, StatusFields, SpanField, If, Opt;
    var r1 := If(s.droppedLinksCount > 0, DroppedLinks(s.droppedLinksCount));
    var r2 := If(s.droppedEventsCount > 0, DroppedEvents(s.droppedEventsCount)) + r1;
    var r3 := If(s.droppedAttributesCount > 0, DroppedAttributes(s.droppedAttributesCount)) + r2;
    StatusOutIs(s.status);
    TailFieldsAre(s.droppedAttributesCount, StatusOut(s.status));
    TailFieldsAre(s.droppedEventsCount, []);
    TailFieldsAre(s.droppedLinksCount, []);
    FieldsIf(SpanField, s.droppedLinksCount > 0, DroppedLinks(s.droppedLinksCount));
    IfThen(s.droppedEventsCount > 0, DroppedEvents(s.droppedEventsCount), r1);
    IfThen(s.droppedAttributesCount > 0, DroppedAttributes(s.droppedAttributesCount), r2);
    IfThen(s.status.code != 0 || s.status.message != [], SpanStatus(StatusOut(s.status)), r3);
  }

  lemma {:induction false} SpanOutIs(s: Span)
    ensures Fields(SpanField, SpanOut(s)) == SpanFields(s)
  {
    hide Fields, SpanHead, SpanTail, SpanAttributes, EventsOut, LinksOut, PairFields, StatusOut, If;
    var head := [TraceId(s.traceID), SpanId(s.spanID)] +
                (If(s.traceState != [], TraceState(s.traceState)) +
                 (If(s.parentSpanID != NO_SPAN, ParentSpanId(s.parentSpanID)) +
                  ([SpanName(s.name)] +
                   (If(s.kind != 0, Kind(Unsigned(s.kind))) +
                    [StartTime(s.startTimeUnixNano), EndTime(s.endTimeUnixNano)]))));
    var tail := If(s.status.code != 0 || s.status.message != [], SpanStatus(StatusOut(s.status))) +
                (If(s.droppedAttributesCount > 0, DroppedAttributes(s.droppedAttributesCount)) +
                 (If(s.droppedEventsCount > 0, DroppedEvents(s.droppedEventsCount)) +
                  If(s.droppedLinksCount > 0, DroppedLinks(s.droppedLinksCount))));
    var attributes, events, links := SpanAttributes(s.attributes), EventsOut(s.events), LinksOut(s.links);
    SpanHeadOut(s);
    SpanTailOut(s);
    SpanAttributesAre(s.attributes);
    EventsOutAre(s.events);
    LinksOutAre(s.links);
    FieldsConcat(SpanField, links, tail);
    FieldsConcat(SpanField, events, links + tail);
    FieldsConcat(SpanField, attributes, events + (links + tail));
    FieldsConcat(SpanField, head, attributes + (events + (links + tail)));
    assert SpanOut(s) == head + (attributes + (events + (links + tail)));
  }

  lemma {:induction false} ScopeAttributesAre(kvs: Attributes)
    ensures Fields(ScopeField, ScopeAttributes(kvs)) == PairFields(SCOPE_ATTRIBUTES, kvs)
  {
    hide PairOut, PairOf, KeyValueFields;
    if kvs != [] {
      PairOutIs(kvs[0]);
      ScopeAttributesAre(kvs[1..]);
      FieldsFirst(ScopeField, ScopeAttribute(PairOut(kvs[0])), ScopeAttributes(kvs[1..]));
    }
  }

  lemma {:induction false} ScopeOutIs(s: Scope)
    ensures Fields(ScopeField, ScopeOut(s)) == ScopeFields(s)
  {
    hide ScopeAttributes, PairFields, Fields;
    var name, version := If(s.name != [], ScopeName(s.name)), If(s.version != [], ScopeVersion(s.version));
    ScopeAttributesAre(s.attributes);
    FieldsIf(ScopeField, s.name != [], ScopeName(s.name));
    FieldsIf(ScopeField, s.version != [], ScopeVersion(s.version));
    FieldsConcat(ScopeField, version, ScopeAttributes(s.attributes));
    FieldsConcat(ScopeField, name, version + ScopeAttributes(s.attributes));
  }

  lemma {:induction false} SpansOutAre(spans: seq<Span>)
    ensures Fields(ScopeSpansField, SpansOut(spans)) == Repeated(SCOPE_SPANS_SPANS, SpanFields, spans)
  {
    hide SpanOut, SpanFields;
    if spans != [] {
      SpanOutIs(spans[0]);
      SpansOutAre(spans[1..]);
      FieldsFirst(ScopeSpansField, OneSpan(SpanOut(spans[0])), SpansOut(spans[1..]));
    }
  }

  lemma {:induction false} ScopeSpansOutIs(ss: ScopeSpans)
    ensures Fields(ScopeSpansField, ScopeSpansOut(ss)) == ScopeSpansFields(ss)
  {
    hide SpansOut, ScopeOut, ScopeFields, Repeated, Fields;
    var named := ss.scope.name != [] || ss.scope.version != [];
    SpansOutAre(ss.spans);
    ScopeOutIs(ss.scope);
    FieldsIf(ScopeSpansField, named, InScope(ScopeOut(ss.scope)));
    FieldsConcat(ScopeSpansField, If(named, InScope(ScopeOut(ss.scope))), SpansOut(ss.spans));
  }

  lemma {:induction false} ScopesOutAre(scopes: seq<ScopeSpans>)
    ensures Fields(ResourceSpansField, ScopesOut(scopes)) ==
            Repeated(RESOURCE_SPANS_SCOPE_SPANS, ScopeSpansFields, scopes)
  {
    hide ScopeSpansOut, ScopeSpansFields;
    if scopes != [] {
      ScopeSpansOutIs(scopes[0]);
      ScopesOutAre(scopes[1..]);
      FieldsFirst(ResourceSpansField, OneScope(ScopeSpansOut(scopes[0])), ScopesOut(scopes[1..]));
    }
  }

  lemma {:induction false} ResourceSpansOutIs(rs: ResourceSpans)
    ensures Fields(ResourceSpansField, ResourceSpansOut(rs)) == ResourceSpansFields(rs)
  {
    hide ScopesOut, PairsOut, PairParts, PairFields, Repeated, Fields;
    var attributes := rs.resource.attributes;
    ScopesOutAre(rs.scopeSpans);
    PairsOutIs(RESOURCE_ATTRIBUTES, attributes);
    FieldsIf(ResourceSpansField, attributes != [], OfResource(PairsOut(attributes)));
    FieldsConcat(ResourceSpansField, If(attributes != [], OfResource(PairsOut(attributes))), ScopesOut(rs.scopeSpans));
  }

  lemma {:induction false} TracesOutAre(rss: seq<ResourceSpans>)
    ensures Fields(TracesField, TracesOut(rss)) == Repeated(TRACES_RESOURCE_SPANS, ResourceSpansFields, rss)
  {
    hide ResourceSpansOut, ResourceSpansFields;
    if rss != [] {
      ResourceSpansOutIs(rss[0]);
      TracesOutAre(rss[1..]);
      FieldsFirst(TracesField, ResourceSpansOut(rss[0]), TracesOut(rss[1..]));
    }
  }

  /** Marshal on the wire format: exactly these bytes, in this order. */
  lemma {:induction false} MarshalWritesBytes(td: TracesData)
    ensures Marshaled(td) == TracesText(TracesOut(td.resourceSpans))
  {
    hide Encode, Fields, TracesText, TracesOut, Repeated;
    TracesOutAre(td.resourceSpans);
    TracesRead(TracesOut(td.resourceSpans));
  }
}
