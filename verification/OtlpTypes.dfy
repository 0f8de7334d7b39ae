/** The OTLP trace data model: internal/protocol/otlp/traces.go and attributes.go.
    Strings are byte sequences, doubles are their 64-bit patterns. */
module OtlpTypes {
  import opened Bytes

  const STRING_TYPE: byte := 0
  const BOOL_TYPE: byte := 1
  const INT_TYPE: byte := 2
  const DOUBLE_TYPE: byte := 3
  const BYTES_TYPE: byte := 4
  const ARRAY_TYPE: byte := 5
  const KV_LIST_TYPE: byte := 6

  /** As in the source, a value has a place for every type and a tag that says
      which of them counts; the others may hold leftovers. */
  datatype AnyValue = AnyValue(
    typ: byte, str: bytes, boolVal: bool, intVal: int64, doubleVal: uint64,
    bytesVal: bytes, arrayVal: seq<AnyValue>, kvListVal: seq<KeyValue>)

  datatype KeyValue = KeyValue(key: bytes, value: AnyValue)

  const EMPTY_VALUE := AnyValue(STRING_TYPE, [], false, 0, 0, [], [], [])
  const EMPTY_KEY_VALUE := KeyValue([], EMPTY_VALUE)

  type Attributes = seq<KeyValue>

  datatype Status = Status(message: bytes, code: int32)

  datatype SpanEvent = SpanEvent(
    timeUnixNano: uint64, name: bytes, attributes: Attributes, droppedAttributesCount: uint32)

  datatype SpanLink = SpanLink(
    traceID: TraceID, spanID: SpanID, traceState: bytes, attributes: Attributes, droppedAttributesCount: uint32)

  datatype Span = Span(
    traceID: TraceID, spanID: SpanID, parentSpanID: SpanID, traceState: bytes, name: bytes, kind: int32,
    startTimeUnixNano: uint64, endTimeUnixNano: uint64, attributes: Attributes,
    events: seq<SpanEvent>, links: seq<SpanLink>, status: Status,
    droppedAttributesCount: uint32, droppedEventsCount: uint32, droppedLinksCount: uint32)

  datatype Scope = Scope(name: bytes, version: bytes, attributes: Attributes)

  datatype ScopeSpans = ScopeSpans(scope: Scope, spans: seq<Span>)

  datatype Resource = Resource(attributes: Attributes)

  datatype ResourceSpans = ResourceSpans(resource: Resource, scopeSpans: seq<ScopeSpans>)

  datatype TracesData = TracesData(resourceSpans: seq<ResourceSpans>)

  const EMPTY_STATUS := Status([], 0)
  const EMPTY_EVENT := SpanEvent(0, [], [], 0)
  const EMPTY_LINK := SpanLink(ZERO_TRACE_ID, ZERO_SPAN_ID, [], [], 0)
  const EMPTY_SPAN := Span(ZERO_TRACE_ID, ZERO_SPAN_ID, ZERO_SPAN_ID, [], [], 0, 0, 0, [], [], [], EMPTY_STATUS, 0, 0, 0)
  const EMPTY_SCOPE := Scope([], [], [])
  const EMPTY_SCOPE_SPANS := ScopeSpans(EMPTY_SCOPE, [])
  const EMPTY_RESOURCE := Resource([])
  const EMPTY_RESOURCE_SPANS := ResourceSpans(EMPTY_RESOURCE, [])
  const EMPTY_TRACES := TracesData([])

  // ----- attributes: an ordered map kept in a list -----

  ghost predicate DistinctKeys(items: Attributes) {
    forall i, j :: 0 <= i < j < |items| ==> items[i].key != items[j].key
  }

  function WithKey(items: Attributes, key: bytes, value: AnyValue): Attributes {
    if items == [] then [KeyValue(key, value)]
    else if items[0].key == key then [KeyValue(key, value)] + items[1..]
    else [items[0]] + WithKey(items[1..], key, value)
  }

  function WithKeys(items: Attributes, more: Attributes): Attributes
    decreases more
  {
    if more == [] then items else WithKeys(WithKey(items, more[0].key, more[0].value), more[1..])
  }

  method Set(items: Attributes, key: bytes, value: AnyValue) returns (result: Attributes)
    ensures result == WithKey(items, key, value)
  {
    for i := 0 to |items|
      invariant forall k :: 0 <= k < i ==> items[k].key != key
    {
      if items[i].key == key {
        WithKeySplit(items, i, key, value);
        return items[i := KeyValue(key, value)];
      }
    }
    WithKeySplit(items, |items|, key, value);
    return items + [KeyValue(key, value)];
  }

  /** Where the key is first found its value is replaced; if it is nowhere, the
      pair is added at the end. */
  lemma {:induction false} WithKeySplit(items: Attributes, i: nat, key: bytes, value: AnyValue)
    requires i <= |items|
    requires forall k :: 0 <= k < i ==> items[k].key != key
    requires i < |items| ==> items[i].key == key
    ensures WithKey(items, key, value) ==
            if i < |items| then items[i := KeyValue(key, value)] else items + [KeyValue(key, value)]
  {
    if i > 0 {
      WithKeySplit(items[1..], i - 1, key, value);
    }
  }

  lemma {:induction false} WithKeyDistinct(items: Attributes, key: bytes, value: AnyValue)
    requires DistinctKeys(items)
    ensures DistinctKeys(WithKey(items, key, value))
  {
    if i :| 0 <= i < |items| && items[i].key == key {
      WithKeySplit(items, i, key, value);
    } else {
      WithKeySplit(items, |items|, key, value);
    }
  }

  lemma {:induction false} WithKeysDistinct(items: Attributes, more: Attributes)
    requires DistinctKeys(items)
    ensures DistinctKeys(WithKeys(items, more))
    decreases more
  {
    if more != [] {
      WithKeyDistinct(items, more[0].key, more[0].value);
      WithKeysDistinct(WithKey(items, more[0].key, more[0].value), more[1..]);
    }
  }

  lemma {:induction false} WithNewKeys(items: Attributes, more: Attributes)
    requires DistinctKeys(items + more)
    ensures WithKeys(items, more) == items + more
    decreases more
  {
    if more != [] {
      var (key, value) := (more[0].key, more[0].value);
      assert (items + more)[|items|] == more[0];
      assert forall k :: 0 <= k < |items| ==> items[k] == (items + more)[k];
      WithKeySplit(items, |items|, key, value);
      assert items + [KeyValue(key, value)] + more[1..] == items + more;
      WithNewKeys(items + [KeyValue(key, value)], more[1..]);
    }
  }

  /** Setting all pairs of a list one by one gives the list back exactly when
      no key occurs twice. */
  lemma {:induction false} WithKeysExact(kvs: Attributes)
    ensures WithKeys([], kvs) == kvs <==> DistinctKeys(kvs)
  {
    WithKeysDistinct([], kvs);
    if DistinctKeys(kvs) {
      assert [] + kvs == kvs;
      WithNewKeys([], kvs);
    }
  }

  /** The value found for a key, if any. */
  function Get(items: Attributes, key: bytes): seq<AnyValue> {
    if items == [] then [] else if items[0].key == key then [items[0].value] else Get(items[1..], key)
  }

  lemma {:induction false} SetThenGet(items: Attributes, key: bytes, value: AnyValue, other: bytes)
    ensures Get(WithKey(items, key, value), other) == if other == key then [value] else Get(items, other)
  {
    if items != [] && items[0].key != key {
      SetThenGet(items[1..], key, value, other);
    }
  }
}
