/** How OTLP values become trees of wire fields and how fields become values:
    the field numbers, the defaults left out on the wire, and what each field
    does to the value under construction. */
module OtlpFields {
  import opened Bytes
  import opened Results
  import opened Wire
  import opened Messages
  import opened OtlpTypes

  // ----- message types and field numbers -----

  const TRACES_DATA := 0
  const RESOURCE_SPANS := 1
  const RESOURCE := 2
  const SCOPE_SPANS := 3
  const SCOPE := 4
  const SPAN := 5
  const EVENT := 6
  const LINK := 7
  const STATUS := 8
  const KEY_VALUE := 9
  const ANY_VALUE := 10
  const ARRAY_VALUE := 11
  const KV_LIST := 12

  const TRACES_RESOURCE_SPANS: uint32 := 1
  const RESOURCE_SPANS_RESOURCE: uint32 := 1
  const RESOURCE_SPANS_SCOPE_SPANS: uint32 := 2
  const RESOURCE_ATTRIBUTES: uint32 := 1
  const SCOPE_SPANS_SCOPE: uint32 := 1
  const SCOPE_SPANS_SPANS: uint32 := 2
  const SCOPE_NAME: uint32 := 1
  const SCOPE_VERSION: uint32 := 2
  const SCOPE_ATTRIBUTES: uint32 := 3
  const SPAN_TRACE_ID: uint32 := 1
  const SPAN_SPAN_ID: uint32 := 2
  const SPAN_TRACE_STATE: uint32 := 3
  const SPAN_PARENT_SPAN_ID: uint32 := 4
  const SPAN_NAME: uint32 := 5
  const SPAN_KIND: uint32 := 6
  const SPAN_START_TIME: uint32 := 7
  const SPAN_END_TIME: uint32 := 8
  const SPAN_ATTRIBUTES: uint32 := 9
  const SPAN_EVENTS: uint32 := 11
  const SPAN_LINKS: uint32 := 12
  const SPAN_STATUS: uint32 := 13
  const SPAN_DROPPED_ATTRIBUTES: uint32 := 14
  const SPAN_DROPPED_EVENTS: uint32 := 15
  const SPAN_DROPPED_LINKS: uint32 := 16
  const EVENT_TIME: uint32 := 1
  const EVENT_NAME: uint32 := 2
  const EVENT_ATTRIBUTES: uint32 := 3
  const EVENT_DROPPED_ATTRIBUTES: uint32 := 4
  const LINK_TRACE_ID: uint32 := 1
  const LINK_SPAN_ID: uint32 := 2
  const LINK_TRACE_STATE: uint32 := 3
  const LINK_ATTRIBUTES: uint32 := 4
  const LINK_DROPPED_ATTRIBUTES: uint32 := 5
  const STATUS_MESSAGE: uint32 := 2
  const STATUS_CODE: uint32 := 3
  const KV_KEY: uint32 := 1
  const KV_VALUE: uint32 := 2
  const ANY_STRING: uint32 := 1
  const ANY_BOOL: uint32 := 2
  const ANY_INT: uint32 := 3
  const ANY_DOUBLE: uint32 := 4
  const ANY_ARRAY: uint32 := 5
  const ANY_KV_LIST: uint32 := 6
  const ANY_BYTES: uint32 := 7
  const ARRAY_VALUES: uint32 := 1
  const KV_LIST_VALUES: uint32 := 1

  function Otlp(t: nat, num: uint32): Kind {
    if t == TRACES_DATA then
      if num == TRACES_RESOURCE_SPANS then MessageKind(RESOURCE_SPANS) else UnknownKind
    else if t == RESOURCE_SPANS then
      if num == RESOURCE_SPANS_RESOURCE then MessageKind(RESOURCE)
      else if num == RESOURCE_SPANS_SCOPE_SPANS then MessageKind(SCOPE_SPANS) else UnknownKind
    else if t == RESOURCE then
      if num == RESOURCE_ATTRIBUTES then MessageKind(KEY_VALUE) else UnknownKind
    else if t == SCOPE_SPANS then
      if num == SCOPE_SPANS_SCOPE then MessageKind(SCOPE)
      else if num == SCOPE_SPANS_SPANS then MessageKind(SPAN) else UnknownKind
    else if t == SCOPE then
      if num == SCOPE_NAME || num == SCOPE_VERSION then BytesKind
      else if num == SCOPE_ATTRIBUTES then MessageKind(KEY_VALUE) else UnknownKind
    else if t == SPAN then SpanKinds(num)
    else if t == EVENT then
      if num == EVENT_TIME then Fixed64Kind
      else if num == EVENT_NAME then BytesKind
      else if num == EVENT_ATTRIBUTES then MessageKind(KEY_VALUE)
      else if num == EVENT_DROPPED_ATTRIBUTES then VarintKind else UnknownKind
    else if t == LINK then
      if num == LINK_TRACE_ID || num == LINK_SPAN_ID || num == LINK_TRACE_STATE then BytesKind
      else if num == LINK_ATTRIBUTES then MessageKind(KEY_VALUE)
      else if num == LINK_DROPPED_ATTRIBUTES then VarintKind else UnknownKind
    else if t == STATUS then
      if num == STATUS_MESSAGE then BytesKind
      else if num == STATUS_CODE then VarintKind else UnknownKind
    else if t == KEY_VALUE then
      if num == KV_KEY then BytesKind
      else if num == KV_VALUE then MessageKind(ANY_VALUE) else UnknownKind
    else if t == ANY_VALUE then
      if num == ANY_STRING || num == ANY_BYTES then BytesKind
      else if num == ANY_BOOL || num == ANY_INT then VarintKind
      else if num == ANY_DOUBLE then Fixed64Kind
      else if num == ANY_ARRAY then MessageKind(ARRAY_VALUE)
      else if num == ANY_KV_LIST then MessageKind(KV_LIST) else UnknownKind
    else if t == ARRAY_VALUE then
      if num == ARRAY_VALUES then MessageKind(ANY_VALUE) else UnknownKind
    else if t == KV_LIST then
      if num == KV_LIST_VALUES then MessageKind(KEY_VALUE) else UnknownKind
    else UnknownKind
  }

  function SpanKinds(num: uint32): Kind {
    if num == SPAN_TRACE_ID || num == SPAN_SPAN_ID || num == SPAN_TRACE_STATE || num == SPAN_PARENT_SPAN_ID ||
        num == SPAN_NAME then BytesKind
    else if num == SPAN_KIND || num == SPAN_DROPPED_ATTRIBUTES || num == SPAN_DROPPED_EVENTS ||
            num == SPAN_DROPPED_LINKS then VarintKind
    else if num == SPAN_START_TIME || num == SPAN_END_TIME then Fixed64Kind
    else if num == SPAN_ATTRIBUTES then MessageKind(KEY_VALUE)
    else if num == SPAN_EVENTS then MessageKind(EVENT)
    else if num == SPAN_LINKS then MessageKind(LINK)
    else if num == SPAN_STATUS then MessageKind(STATUS) else UnknownKind
  }

  // ----- values to fields -----

  function Opt(c: bool, f: Field): seq<Field> {
    if c then [f] else []
  }

  function AnyFields(v: AnyValue): seq<Field>
    decreases v, 0
  {
    if v.typ == STRING_TYPE then [BytesField(ANY_STRING, v.str)]
    else if v.typ == BOOL_TYPE then [VarintField(ANY_BOOL, if v.boolVal then 1 else 0)]
    else if v.typ == INT_TYPE then [VarintField(ANY_INT, AsUint64(v.intVal))]
    else if v.typ == DOUBLE_TYPE then [Fixed64Field(ANY_DOUBLE, v.doubleVal)]
    else if v.typ == BYTES_TYPE then [BytesField(ANY_BYTES, v.bytesVal)]
    else if v.typ == ARRAY_TYPE then [MessageField(ANY_ARRAY, ArrayFields(v.arrayVal))]
    else if v.typ == KV_LIST_TYPE then [MessageField(ANY_KV_LIST, PairFields(KV_LIST_VALUES, v.kvListVal))]
    else []
  }

  function ArrayFields(vs: seq<AnyValue>): seq<Field>
    decreases vs, 1
  {
    if vs == [] then [] else [MessageField(ARRAY_VALUES, AnyFields(vs[0]))] + ArrayFields(vs[1..])
  }

  function KeyValueFields(kv: KeyValue): seq<Field>
    decreases kv, 0
  {
    [BytesField(KV_KEY, kv.key), MessageField(KV_VALUE, AnyFields(kv.value))]
  }

  function PairFields(num: uint32, kvs: seq<KeyValue>): seq<Field>
    decreases kvs, 1
  {
    if kvs == [] then [] else [MessageField(num, KeyValueFields(kvs[0]))] + PairFields(num, kvs[1..])
  }

  /** One message field per item. */
  function Repeated<A>(num: uint32, fieldsOf: A -> seq<Field>, items: seq<A>): seq<Field> {
    if items == [] then [] else [MessageField(num, fieldsOf(items[0]))] + Repeated(num, fieldsOf, items[1..])
  }

  function StatusFields(s: Status): seq<Field> {
    Opt(s.message != [], BytesField(STATUS_MESSAGE, s.message)) +
    Opt(s.code != 0, VarintField(STATUS_CODE, AsUint64(s.code)))
  }

  function EventFields(e: SpanEvent): seq<Field> {
    [Fixed64Field(EVENT_TIME, e.timeUnixNano), BytesField(EVENT_NAME, e.name)] +
    (PairFields(EVENT_ATTRIBUTES, e.attributes) +
     Opt(e.droppedAttributesCount > 0, VarintField(EVENT_DROPPED_ATTRIBUTES, e.droppedAttributesCount)))
  }

  function LinkFields(l: SpanLink): seq<Field> {
    [BytesField(LINK_TRACE_ID, l.traceID), BytesField(LINK_SPAN_ID, l.spanID)] +
    (Opt(l.traceState != [], BytesField(LINK_TRACE_STATE, l.traceState)) +
     (PairFields(LINK_ATTRIBUTES, l.attributes) +
      Opt(l.droppedAttributesCount > 0, VarintField(LINK_DROPPED_ATTRIBUTES, l.droppedAttributesCount))))
  }

  function SpanHead(s: Span): seq<Field> {
    [BytesField(SPAN_TRACE_ID, s.traceID), BytesField(SPAN_SPAN_ID, s.spanID)] +
    (Opt(s.traceState != [], BytesField(SPAN_TRACE_STATE, s.traceState)) +
     (Opt(s.parentSpanID != ZERO_SPAN_ID, BytesField(SPAN_PARENT_SPAN_ID, s.parentSpanID)) +
      ([BytesField(SPAN_NAME, s.name)] +
       (Opt(s.kind != 0, VarintField(SPAN_KIND, AsUint64(s.kind))) +
        [Fixed64Field(SPAN_START_TIME, s.startTimeUnixNano), Fixed64Field(SPAN_END_TIME, s.endTimeUnixNano)]))))
  }

  function SpanTail(s: Span): seq<Field> {
    Opt(s.status.code != 0 || s.status.message != [], MessageField(SPAN_STATUS, StatusFields(s.status))) +
    (Opt(s.droppedAttributesCount > 0, VarintField(SPAN_DROPPED_ATTRIBUTES, s.droppedAttributesCount)) +
     (Opt(s.droppedEventsCount > 0, VarintField(SPAN_DROPPED_EVENTS, s.droppedEventsCount)) +
      Opt(s.droppedLinksCount > 0, VarintField(SPAN_DROPPED_LINKS, s.droppedLinksCount))))
  }

  function SpanFields(s: Span): seq<Field> {
    SpanHead(s) +
    (PairFields(SPAN_ATTRIBUTES, s.attributes) +
     (Repeated(SPAN_EVENTS, EventFields, s.events) +
      (Repeated(SPAN_LINKS, LinkFields, s.links) +
       SpanTail(s))))
  }

  function ScopeFields(s: Scope): seq<Field> {
    Opt(s.name != [], BytesField(SCOPE_NAME, s.name)) +
    (Opt(s.version != [], BytesField(SCOPE_VERSION, s.version)) +
     PairFields(SCOPE_ATTRIBUTES, s.attributes))
  }

  function ScopeSpansFields(ss: ScopeSpans): seq<Field> {
    Opt(ss.scope.name != [] || ss.scope.version != [], MessageField(SCOPE_SPANS_SCOPE, ScopeFields(ss.scope))) +
    Repeated(SCOPE_SPANS_SPANS, SpanFields, ss.spans)
  }

  function ResourceFields(r: Resource): seq<Field> {
    PairFields(RESOURCE_ATTRIBUTES, r.attributes)
  }

  function ResourceSpansFields(rs: ResourceSpans): seq<Field> {
    Opt(rs.resource.attributes != [], MessageField(RESOURCE_SPANS_RESOURCE, ResourceFields(rs.resource))) +
    Repeated(RESOURCE_SPANS_SCOPE_SPANS, ScopeSpansFields, rs.scopeSpans)
  }

  function TracesFields(td: TracesData): seq<Field> {
    Repeated(TRACES_RESOURCE_SPANS, ResourceSpansFields, td.resourceSpans)
  }

  /** What Marshal writes. */
  function Marshaled(td: TracesData): bytes {
    Encode(TracesFields(td))
  }

  // ----- fields to values -----

  function Fold<A>(step: (A, Field) -> A, acc: A, fs: seq<Field>): A
    decreases fs
  {
    if fs == [] then acc else Fold(step, step(acc, fs[0]), fs[1..])
  }

  lemma {:induction false} FoldConcat<A>(step: (A, Field) -> A, acc: A, a: seq<Field>, b: seq<Field>)
    ensures Fold(step, acc, a + b) == Fold(step, Fold(step, acc, a), b)
    decreases a
  {
    if a == [] {
      assert a + b == b;
    } else {
      assert (a + b)[1..] == a[1..] + b;
      FoldConcat(step, step(acc, a[0]), a[1..], b);
    }
  }

  /** Go's copy into an array: as many bytes as fit, the rest stays. */
  function Overwrite(dst: bytes, src: bytes): (r: bytes)
    ensures |r| == |dst|
  {
    if |src| >= |dst| then src[..|dst|] else src + dst[|src|..]
  }

  function AnyStep(v: AnyValue, f: Field): AnyValue
    decreases f, 0
  {
    match f
    case BytesField(num, b) =>
      if num == ANY_STRING then v.(typ := STRING_TYPE, str := b)
      else if num == ANY_BYTES then v.(typ := BYTES_TYPE, bytesVal := b) else v
    case VarintField(num, x) =>
      if num == ANY_BOOL then v.(typ := BOOL_TYPE, boolVal := x != 0)
      else if num == ANY_INT then v.(typ := INT_TYPE, intVal := AsInt64(x)) else v
    case Fixed64Field(num, x) =>
      if num == ANY_DOUBLE then v.(typ := DOUBLE_TYPE, doubleVal := x) else v
    case MessageField(num, fields) =>
      if num == ANY_ARRAY then v.(typ := ARRAY_TYPE, arrayVal := ArrayOf([], fields))
      else if num == ANY_KV_LIST then v.(typ := KV_LIST_TYPE, kvListVal := PairsOf([], fields)) else v
    case Alien(_) => v
  }

  function AnyOf(v: AnyValue, fs: seq<Field>): AnyValue
    decreases fs, 1
  {
    if fs == [] then v else AnyOf(AnyStep(v, fs[0]), fs[1..])
  }

  function ArrayStep(vs: seq<AnyValue>, f: Field): seq<AnyValue>
    decreases f, 0
  {
    if f.MessageField? && f.num == ARRAY_VALUES then vs + [AnyOf(EMPTY_VALUE, f.fields)] else vs
  }

  function ArrayOf(vs: seq<AnyValue>, fs: seq<Field>): seq<AnyValue>
    decreases fs, 1
  {
    if fs == [] then vs else ArrayOf(ArrayStep(vs, fs[0]), fs[1..])
  }

  function KeyValueStep(kv: KeyValue, f: Field): KeyValue
    decreases f, 0
  {
    match f
    case BytesField(num, b) => if num == KV_KEY then kv.(key := b) else kv
    case MessageField(num, fields) => if num == KV_VALUE then kv.(value := AnyOf(EMPTY_VALUE, fields)) else kv
    case _ => kv
  }

  function KeyValueOf(kv: KeyValue, fs: seq<Field>): KeyValue
    decreases fs, 1
  {
    if fs == [] then kv else KeyValueOf(KeyValueStep(kv, fs[0]), fs[1..])
  }

  function PairsStep(kvs: seq<KeyValue>, f: Field): seq<KeyValue>
    decreases f, 0
  {
    if f.MessageField? && f.num == KV_LIST_VALUES then kvs + [KeyValueOf(EMPTY_KEY_VALUE, f.fields)] else kvs
  }

  function PairsOf(kvs: seq<KeyValue>, fs: seq<Field>): seq<KeyValue>
    decreases fs, 1
  {
    if fs == [] then kvs else PairsOf(PairsStep(kvs, fs[0]), fs[1..])
  }

  /** An attribute field sets one key. */
  function SetPair(items: Attributes, fields: seq<Field>): Attributes {
    var kv := KeyValueOf(EMPTY_KEY_VALUE, fields);
    WithKey(items, kv.key, kv.value)
  }

  function StatusStep(s: Status, f: Field): Status {
    match f
    case BytesField(num, b) => if num == STATUS_MESSAGE then s.(message := b) else s
    case VarintField(num, v) => if num == STATUS_CODE then s.(code := ToInt32(v)) else s
    case _ => s
  }

  function EventStep(e: SpanEvent, f: Field): SpanEvent {
    match f
    case Fixed64Field(num, v) => if num == EVENT_TIME then e.(timeUnixNano := v) else e
    case BytesField(num, b) => if num == EVENT_NAME then e.(name := b) else e
    case MessageField(num, fields) => if num == EVENT_ATTRIBUTES then e.(attributes := SetPair(e.attributes,
        fields)) else e
    case VarintField(num, v) => if num == EVENT_DROPPED_ATTRIBUTES then e.(droppedAttributesCount := ToUint32(v)) else e
    case Alien(_) => e
  }

  function LinkStep(l: SpanLink, f: Field): SpanLink {
    match f
    case BytesField(num, b) =>
      if num == LINK_TRACE_ID then l.(traceID := Overwrite(l.traceID, b))
      else if num == LINK_SPAN_ID then l.(spanID := Overwrite(l.spanID, b))
      else if num == LINK_TRACE_STATE then l.(traceState := b) else l
    case MessageField(num, fields) => if num == LINK_ATTRIBUTES then l.(attributes := SetPair(l.attributes,
        fields)) else l
    case VarintField(num, v) => if num == LINK_DROPPED_ATTRIBUTES then l.(droppedAttributesCount := ToUint32(v)) else l
    case _ => l
  }

  function SpanStep(s: Span, f: Field): Span {
    match f
    case BytesField(num, b) =>
      if num == SPAN_TRACE_ID then s.(traceID := Overwrite(s.traceID, b))
      else if num == SPAN_SPAN_ID then s.(spanID := Overwrite(s.spanID, b))
      else if num == SPAN_TRACE_STATE then s.(traceState := b)
      else if num == SPAN_PARENT_SPAN_ID then s.(parentSpanID := Overwrite(s.parentSpanID, b))
      else if num == SPAN_NAME then s.(name := b) else s
    case VarintField(num, v) =>
      if num == SPAN_KIND then s.(kind := ToInt32(v))
      else if num == SPAN_DROPPED_ATTRIBUTES then s.(droppedAttributesCount := ToUint32(v))
      else if num == SPAN_DROPPED_EVENTS then s.(droppedEventsCount := ToUint32(v))
      else if num == SPAN_DROPPED_LINKS then s.(droppedLinksCount := ToUint32(v)) else s
    case Fixed64Field(num, v) =>
      if num == SPAN_START_TIME then s.(startTimeUnixNano := v)
      else if num == SPAN_END_TIME then s.(endTimeUnixNano := v) else s
    case MessageField(num, fields) =>
      if num == SPAN_ATTRIBUTES then s.(attributes := SetPair(s.attributes, fields))
      else if num == SPAN_EVENTS then s.(events := s.events + [Fold(EventStep, EMPTY_EVENT, fields)])
      else if num == SPAN_LINKS then s.(links := s.links + [Fold(LinkStep, EMPTY_LINK, fields)])
      else if num == SPAN_STATUS then s.(status := Fold(StatusStep, EMPTY_STATUS, fields)) else s
    case Alien(_) => s
  }

  function ScopeStep(s: Scope, f: Field): Scope {
    match f
    case BytesField(num, b) =>
      if num == SCOPE_NAME then s.(name := b)
      else if num == SCOPE_VERSION then s.(version := b) else s
    case MessageField(num, fields) => if num == SCOPE_ATTRIBUTES then s.(attributes := SetPair(s.attributes,
        fields)) else s
    case _ => s
  }

  function ScopeSpansStep(ss: ScopeSpans, f: Field): ScopeSpans {
    match f
    case MessageField(num, fields) =>
      if num == SCOPE_SPANS_SCOPE then ss.(scope := Fold(ScopeStep, EMPTY_SCOPE, fields))
      else if num == SCOPE_SPANS_SPANS then ss.(spans := ss.spans + [Fold(SpanStep, EMPTY_SPAN, fields)]) else ss
    case _ => ss
  }

  function ResourceStep(r: Resource, f: Field): Resource {
    match f
    case MessageField(num, fields) =>
      if num == RESOURCE_ATTRIBUTES then Resource(SetPair(r.attributes, fields)) else r
    case _ => r
  }

  function ResourceSpansStep(rs: ResourceSpans, f: Field): ResourceSpans {
    match f
    case MessageField(num, fields) =>
      if num == RESOURCE_SPANS_RESOURCE then rs.(resource := Fold(ResourceStep, EMPTY_RESOURCE, fields))
      else if num == RESOURCE_SPANS_SCOPE_SPANS then
        rs.(scopeSpans := rs.scopeSpans + [Fold(ScopeSpansStep, EMPTY_SCOPE_SPANS, fields)]) else rs
    case _ => rs
  }

  function TracesStep(td: TracesData, f: Field): TracesData {
    match f
    case MessageField(num, fields) =>
      if num == TRACES_RESOURCE_SPANS then
        TracesData(td.resourceSpans + [Fold(ResourceSpansStep, EMPTY_RESOURCE_SPANS, fields)]) else td
    case _ => td
  }

  /** The value read from the fields between pos and the end of the buffer,
      starting from what has been read so far. */
  function From<A>(step: (A, Field) -> A, acc: A, t: nat, buf: bytes, pos: nat): Result<A, Error> {
    match Decode(Otlp, t, buf, pos)
    case Ok(fs) => Ok(Fold(step, acc, fs))
    case Err(e) => Err(e)
  }

  /** What Unmarshal returns. */
  function Unmarshaled(data: bytes): Result<TracesData, Error> {
    From(TracesStep, EMPTY_TRACES, TRACES_DATA, data, 0)
  }
}
