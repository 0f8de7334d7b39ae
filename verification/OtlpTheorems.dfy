/** The properties of Marshal and Unmarshal as a pair. */
module OtlpTheorems {
  import opened Bytes
  import opened Results
  import opened Wire
  import opened Messages
  import opened OtlpTypes
  import opened OtlpFields
  import opened OtlpRoundTrip

  // ----- what Marshal writes fits the schema and holds no unknown field -----

  ghost predicate Good(t: nat, fs: seq<Field>) {
    Fits(Otlp, t, fs) && Strip(fs) == fs
  }

  lemma {:induction false} StripConcat(a: seq<Field>, b: seq<Field>)
    ensures Strip(a + b) == Strip(a) + Strip(b)
  {
    hide StripField;
    if a == [] {
      assert a + b == b;
    } else {
      StripConcat(a[1..], b);
      assert (a + b)[1..] == a[1..] + b;
      Assoc(StripField(a[0]), Strip(a[1..]), Strip(b));
    }
  }

  lemma {:induction false} GoodConcat(t: nat, a: seq<Field>, b: seq<Field>)
    requires Good(t, a) && Good(t, b)
    ensures Good(t, a + b)
  {
    FitsConcat(Otlp, t, a, b);
    StripConcat(a, b);
  }

  /** A leaf field is good when its kind is that of its number. */
  predicate LeafFits(t: nat, f: Field) {
    !f.Alien? && !f.MessageField? && FieldFits(Otlp, t, f)
  }

  lemma {:induction false} GoodLeaf(t: nat, f: Field)
    requires LeafFits(t, f)
    ensures Good(t, [f])
  {
    assert [f][1..] == [];
    assert Strip([f]) == StripField(f) + Strip([]);
  }

  lemma {:induction false} GoodMessage(t: nat, num: uint32, fs: seq<Field>)
    requires Otlp(t, num).MessageKind? && Good(Otlp(t, num).sub, fs)
    ensures Good(t, [MessageField(num, fs)])
  {
    var f := MessageField(num, fs);
    assert [f][1..] == [];
    assert Strip([f]) == StripField(f) + Strip([]);
  }

  lemma {:induction false} GoodLeafThen(t: nat, f: Field, rest: seq<Field>)
    requires LeafFits(t, f) && Good(t, rest)
    ensures Good(t, [f] + rest)
  {
    GoodLeaf(t, f);
    GoodConcat(t, [f], rest);
  }

  lemma {:induction false} GoodOptThen(t: nat, c: bool, f: Field, rest: seq<Field>)
    requires c ==> LeafFits(t, f)
    requires Good(t, rest)
    ensures Good(t, Opt(c, f) + rest)
  {
    if c {
      GoodLeafThen(t, f, rest);
    } else {
      assert Opt(c, f) + rest == rest;
    }
  }

  lemma {:induction false} GoodOpt(t: nat, c: bool, f: Field)
    requires c ==> LeafFits(t, f)
    ensures Good(t, Opt(c, f))
  {
    GoodOptThen(t, c, f, []);
    assert Opt(c, f) + [] == Opt(c, f);
  }

  lemma {:induction false} AnyGood(v: AnyValue)
    ensures Good(ANY_VALUE, AnyFields(v))
    decreases v, 0
  {
    if v.typ == ARRAY_TYPE {
      ArrayGood(v.arrayVal);
      GoodMessage(ANY_VALUE, ANY_ARRAY, ArrayFields(v.arrayVal));
    } else if v.typ == KV_LIST_TYPE {
      PairsGood(KV_LIST, KV_LIST_VALUES, v.kvListVal);
      GoodMessage(ANY_VALUE, ANY_KV_LIST, PairFields(KV_LIST_VALUES, v.kvListVal));
    } else if v.typ <= KV_LIST_TYPE {
      GoodLeaf(ANY_VALUE, AnyFields(v)[0]);
    }
  }

  lemma {:induction false} ArrayGood(vs: seq<AnyValue>)
    ensures Good(ARRAY_VALUE, ArrayFields(vs))
    decreases vs, 1
  {
    if vs != [] {
      AnyGood(vs[0]);
      GoodMessage(ARRAY_VALUE, ARRAY_VALUES, AnyFields(vs[0]));
      ArrayGood(vs[1..]);
      GoodConcat(ARRAY_VALUE, [MessageField(ARRAY_VALUES, AnyFields(vs[0]))], ArrayFields(vs[1..]));
    }
  }

  lemma {:induction false} PairsGood(t: nat, num: uint32, kvs: seq<KeyValue>)
    requires Otlp(t, num) == MessageKind(KEY_VALUE)
    ensures Good(t, PairFields(num, kvs))
    decreases kvs, 1
  {
    if kvs != [] {
      AnyGood(kvs[0].value);
      GoodMessage(KEY_VALUE, KV_VALUE, AnyFields(kvs[0].value));
      GoodLeafThen(KEY_VALUE, BytesField(KV_KEY, kvs[0].key), [MessageField(KV_VALUE, AnyFields(kvs[0].value))]);
      GoodMessage(t, num, KeyValueFields(kvs[0]));
      PairsGood(t, num, kvs[1..]);
      GoodConcat(t, [MessageField(num, KeyValueFields(kvs[0]))], PairFields(num, kvs[1..]));
    }
  }

  lemma {:induction false} RepeatedGood<A>(t: nat, num: uint32, fieldsOf: A -> seq<Field>, items: seq<A>)
    requires Otlp(t, num).MessageKind?
    requires forall i :: 0 <= i < |items| ==> Good(Otlp(t, num).sub, fieldsOf(items[i]))
    ensures Good(t, Repeated(num, fieldsOf, items))
  {
    if items != [] {
      assert Good(Otlp(t, num).sub, fieldsOf(items[0]));
      GoodMessage(t, num, fieldsOf(items[0]));
      RepeatedGood(t, num, fieldsOf, items[1..]);
      GoodConcat(t, [MessageField(num, fieldsOf(items[0]))], Repeated(num, fieldsOf, items[1..]));
    }
  }

  lemma {:induction false} StatusGood(s: Status)
    ensures Good(STATUS, StatusFields(s))
  {
    GoodOpt(STATUS, s.code != 0, VarintField(STATUS_CODE, AsUint64(s.code)));
    GoodOptThen(STATUS, s.message != [], BytesField(STATUS_MESSAGE, s.message),
                Opt(s.code != 0, VarintField(STATUS_CODE, AsUint64(s.code))));
  }

  lemma {:induction false} EventGood(e: SpanEvent)
    ensures Good(EVENT, EventFields(e))
  {
    var last := VarintField(EVENT_DROPPED_ATTRIBUTES, e.droppedAttributesCount);
    GoodOpt(EVENT, e.droppedAttributesCount > 0, last);
    PairsGood(EVENT, EVENT_ATTRIBUTES, e.attributes);
    GoodConcat(EVENT, PairFields(EVENT_ATTRIBUTES, e.attributes), Opt(e.droppedAttributesCount > 0, last));
    var (f, g) := (Fixed64Field(EVENT_TIME, e.timeUnixNano), BytesField(EVENT_NAME, e.name));
    GoodLeaf(EVENT, g);
    GoodLeafThen(EVENT, f, [g]);
    assert [f] + [g] == [f, g];
    GoodConcat(EVENT, [f, g], PairFields(EVENT_ATTRIBUTES, e.attributes) + Opt(e.droppedAttributesCount > 0, last));
  }

  lemma {:induction false} LinkGood(l: SpanLink)
    ensures Good(LINK, LinkFields(l))
  {
    var last := VarintField(LINK_DROPPED_ATTRIBUTES, l.droppedAttributesCount);
    GoodOpt(LINK, l.droppedAttributesCount > 0, last);
    PairsGood(LINK, LINK_ATTRIBUTES, l.attributes);
    var rest := PairFields(LINK_ATTRIBUTES, l.attributes) + Opt(l.droppedAttributesCount > 0, last);
    GoodConcat(LINK, PairFields(LINK_ATTRIBUTES, l.attributes), Opt(l.droppedAttributesCount > 0, last));
    GoodOptThen(LINK, l.traceState != [], BytesField(LINK_TRACE_STATE, l.traceState), rest);
    var (f, g) := (BytesField(LINK_TRACE_ID, l.traceID), BytesField(LINK_SPAN_ID, l.spanID));
    GoodLeaf(LINK, g);
    GoodLeafThen(LINK, f, [g]);
    assert [f] + [g] == [f, g];
    GoodConcat(LINK, [f, g], Opt(l.traceState != [], BytesField(LINK_TRACE_STATE, l.traceState)) + rest);
  }

  lemma {:induction false} SpanHeadGood(s: Span)
    ensures Good(SPAN, SpanHead(s))
  {
    hide Good;
    var (f, g) := (Fixed64Field(SPAN_START_TIME, s.startTimeUnixNano), Fixed64Field(SPAN_END_TIME, s.endTimeUnixNano));
    GoodLeaf(SPAN, g);
    GoodLeafThen(SPAN, f, [g]);
    assert [f] + [g] == [f, g];
    GoodOptThen(SPAN, s.kind != 0, VarintField(SPAN_KIND, AsUint64(s.kind)), [f, g]);
    var r4 := Opt(s.kind != 0, VarintField(SPAN_KIND, AsUint64(s.kind))) + [f, g];
    GoodLeafThen(SPAN, BytesField(SPAN_NAME, s.name), r4);
    var r3 := [BytesField(SPAN_NAME, s.name)] + r4;
    GoodOptThen(SPAN, s.parentSpanID != ZERO_SPAN_ID, BytesField(SPAN_PARENT_SPAN_ID, s.parentSpanID), r3);
    var r2 := Opt(s.parentSpanID != ZERO_SPAN_ID, BytesField(SPAN_PARENT_SPAN_ID, s.parentSpanID)) + r3;
    GoodOptThen(SPAN, s.traceState != [], BytesField(SPAN_TRACE_STATE, s.traceState), r2);
    var r1 := Opt(s.traceState != [], BytesField(SPAN_TRACE_STATE, s.traceState)) + r2;
    var (d, e) := (BytesField(SPAN_TRACE_ID, s.traceID), BytesField(SPAN_SPAN_ID, s.spanID));
    GoodLeafThen(SPAN, e, r1);
    GoodLeafThen(SPAN, d, [e] + r1);
    assert [d] + ([e] + r1) == [d, e] + r1;
  }

  lemma {:induction false} SpanTailGood(s: Span)
    ensures Good(SPAN, SpanTail(s))
  {
    hide Good;
    var f3 := VarintField(SPAN_DROPPED_LINKS, s.droppedLinksCount);
    var f2 := VarintField(SPAN_DROPPED_EVENTS, s.droppedEventsCount);
    var f1 := VarintField(SPAN_DROPPED_ATTRIBUTES, s.droppedAttributesCount);
    GoodOpt(SPAN, s.droppedLinksCount > 0, f3);
    var r2 := Opt(s.droppedEventsCount > 0, f2) + Opt(s.droppedLinksCount > 0, f3);
    GoodOptThen(SPAN, s.droppedEventsCount > 0, f2, Opt(s.droppedLinksCount > 0, f3));
    GoodOptThen(SPAN, s.droppedAttributesCount > 0, f1, r2);
    var r1 := Opt(s.droppedAttributesCount > 0, f1) + r2;
    StatusGood(s.status);
    GoodMessage(SPAN, SPAN_STATUS, StatusFields(s.status));
    GoodConcat(SPAN, [MessageField(SPAN_STATUS, StatusFields(s.status))], r1);
    assert Opt(false, f1) + r1 == r1;
  }

  lemma {:induction false} SpanGood(s: Span)
    ensures Good(SPAN, SpanFields(s))
  {
    hide Good, SpanHead, SpanTail, EventFields, LinkFields;
    SpanHeadGood(s);
    PairsGood(SPAN, SPAN_ATTRIBUTES, s.attributes);
    forall i | 0 <= i < |s.events| ensures Good(EVENT, EventFields(s.events[i])) {
      EventGood(s.events[i]);
    }
    RepeatedGood(SPAN, SPAN_EVENTS, EventFields, s.events);
    forall i | 0 <= i < |s.links| ensures Good(LINK, LinkFields(s.links[i])) {
      LinkGood(s.links[i]);
    }
    RepeatedGood(SPAN, SPAN_LINKS, LinkFields, s.links);
    SpanTailGood(s);
    var links := Repeated(SPAN_LINKS, LinkFields, s.links);
    var events := Repeated(SPAN_EVENTS, EventFields, s.events);
    var attributes := PairFields(SPAN_ATTRIBUTES, s.attributes);
    GoodConcat(SPAN, links, SpanTail(s));
    GoodConcat(SPAN, events, links + SpanTail(s));
    GoodConcat(SPAN, attributes, events + (links + SpanTail(s)));
    GoodConcat(SPAN, SpanHead(s), attributes + (events + (links + SpanTail(s))));
  }

  lemma {:induction false} ScopeGood(s: Scope)
    ensures Good(SCOPE, ScopeFields(s))
  {
    PairsGood(SCOPE, SCOPE_ATTRIBUTES, s.attributes);
    var attributes := PairFields(SCOPE_ATTRIBUTES, s.attributes);
    GoodOptThen(SCOPE, s.version != [], BytesField(SCOPE_VERSION, s.version), attributes);
    GoodOptThen(SCOPE, s.name != [], BytesField(SCOPE_NAME, s.name),
                Opt(s.version != [], BytesField(SCOPE_VERSION, s.version)) + attributes);
  }

  lemma {:induction false} ScopeSpansGood(ss: ScopeSpans)
    ensures Good(SCOPE_SPANS, ScopeSpansFields(ss))
  {
    hide Good, SpanFields, ScopeFields;
    forall i | 0 <= i < |ss.spans| ensures Good(SPAN, SpanFields(ss.spans[i])) {
      SpanGood(ss.spans[i]);
    }
    RepeatedGood(SCOPE_SPANS, SCOPE_SPANS_SPANS, SpanFields, ss.spans);
    var spans := Repeated(SCOPE_SPANS_SPANS, SpanFields, ss.spans);
    ScopeGood(ss.scope);
    GoodMessage(SCOPE_SPANS, SCOPE_SPANS_SCOPE, ScopeFields(ss.scope));
    GoodConcat(SCOPE_SPANS, [MessageField(SCOPE_SPANS_SCOPE, ScopeFields(ss.scope))], spans);
    assert Opt(false, MessageField(SCOPE_SPANS_SCOPE, ScopeFields(ss.scope))) + spans == spans;
  }

  lemma {:induction false} ResourceSpansGood(rs: ResourceSpans)
    ensures Good(RESOURCE_SPANS, ResourceSpansFields(rs))
  {
    hide Good, ScopeSpansFields;
    forall i | 0 <= i < |rs.scopeSpans| ensures Good(SCOPE_SPANS, ScopeSpansFields(rs.scopeSpans[i])) {
      ScopeSpansGood(rs.scopeSpans[i]);
    }
    RepeatedGood(RESOURCE_SPANS, RESOURCE_SPANS_SCOPE_SPANS, ScopeSpansFields, rs.scopeSpans);
    var scopes := Repeated(RESOURCE_SPANS_SCOPE_SPANS, ScopeSpansFields, rs.scopeSpans);
    PairsGood(RESOURCE, RESOURCE_ATTRIBUTES, rs.resource.attributes);
    var f := MessageField(RESOURCE_SPANS_RESOURCE, ResourceFields(rs.resource));
    GoodMessage(RESOURCE_SPANS, RESOURCE_SPANS_RESOURCE, ResourceFields(rs.resource));
    GoodConcat(RESOURCE_SPANS, [f], scopes);
    assert Opt(false, f) + scopes == scopes;
  }

  lemma {:induction false} TracesGood(td: TracesData)
    ensures Good(TRACES_DATA, TracesFields(td))
  {
    forall i | 0 <= i < |td.resourceSpans| ensures Good(RESOURCE_SPANS, ResourceSpansFields(td.resourceSpans[i])) {
      ResourceSpansGood(td.resourceSpans[i]);
    }
    RepeatedGood(TRACES_DATA, TRACES_RESOURCE_SPANS, ResourceSpansFields, td.resourceSpans);
  }

  // ----- the round trip -----

  /** Every value that can be encoded at all decodes to its normal form. */
  lemma {:induction false} RoundTrip(td: TracesData)
    requires |Marshaled(td)| < TWO_63
    ensures Unmarshaled(Marshaled(td)) == Ok(Norm(td))
  {
    hide Fits, Strip, Decode, Encode;
    TracesGood(td);
    TreeReadsBack(Otlp, TRACES_DATA, TracesFields(td));
    ResourcesRoundTrip(EMPTY_TRACES, td.resourceSpans);
    assert [] + Mapped(NormResourceSpans, td.resourceSpans) == Mapped(NormResourceSpans, td.resourceSpans);
  }

  // ----- when the round trip is exact -----

  /** The type tag is assigned and only the place it names is filled, at every depth. */
  predicate NormalAny(v: AnyValue)
    decreases v, 0
  {
    v.typ <= KV_LIST_TYPE &&
    (v.typ == STRING_TYPE || v.str == []) &&
    (v.typ == BOOL_TYPE || !v.boolVal) &&
    (v.typ == INT_TYPE || v.intVal == 0) &&
    (v.typ == DOUBLE_TYPE || v.doubleVal == 0) &&
    (v.typ == BYTES_TYPE || v.bytesVal == []) &&
    (v.typ == ARRAY_TYPE || v.arrayVal == []) &&
    (v.typ == KV_LIST_TYPE || v.kvListVal == []) &&
    NormalArray(v.arrayVal) && NormalPairs(v.kvListVal)
  }

  predicate NormalArray(vs: seq<AnyValue>)
    decreases vs, 1
  {
    vs == [] || (NormalAny(vs[0]) && NormalArray(vs[1..]))
  }

  predicate NormalPairs(kvs: seq<KeyValue>)
    decreases kvs, 1
  {
    kvs == [] || (NormalAny(kvs[0].value) && NormalPairs(kvs[1..]))
  }

  ghost predicate NormalAttributes(kvs: Attributes) {
    NormalPairs(kvs) && DistinctKeys(kvs)
  }

  ghost predicate NormalSpan(s: Span) {
    NormalAttributes(s.attributes) &&
    (forall i :: 0 <= i < |s.events| ==> NormalAttributes(s.events[i].attributes)) &&
    (forall i :: 0 <= i < |s.links| ==> NormalAttributes(s.links[i].attributes))
  }

  ghost predicate NormalScope(s: Scope) {
    NormalAttributes(s.attributes) && (s.name == [] && s.version == [] ==> s.attributes == [])
  }

  ghost predicate NormalScopeSpans(ss: ScopeSpans) {
    NormalScope(ss.scope) && forall i :: 0 <= i < |ss.spans| ==> NormalSpan(ss.spans[i])
  }

  ghost predicate NormalResourceSpans(rs: ResourceSpans) {
    NormalAttributes(rs.resource.attributes) &&
    forall i :: 0 <= i < |rs.scopeSpans| ==> NormalScopeSpans(rs.scopeSpans[i])
  }

  /** Distinct attribute keys, no attributed scope without name and version, and
      no leftovers in attribute values. */
  ghost predicate Normal(td: TracesData) {
    forall i :: 0 <= i < |td.resourceSpans| ==> NormalResourceSpans(td.resourceSpans[i])
  }

  lemma {:induction false} AnyExact(v: AnyValue)
    ensures NormAny(v) == v <==> NormalAny(v)
    decreases v, 0
  {
    ArrayExact(v.arrayVal);
    PairsExact(v.kvListVal);
  }

  lemma {:induction false} ArrayExact(vs: seq<AnyValue>)
    ensures NormArray(vs) == vs <==> NormalArray(vs)
    decreases vs, 1
  {
    if vs != [] {
      AnyExact(vs[0]);
      ArrayExact(vs[1..]);
      assert vs == [vs[0]] + vs[1..];
      assert NormArray(vs)[0] == NormAny(vs[0]) && NormArray(vs)[1..] == NormArray(vs[1..]);
    }
  }

  lemma {:induction false} PairsExact(kvs: seq<KeyValue>)
    ensures NormPairs(kvs) == kvs <==> NormalPairs(kvs)
    decreases kvs, 1
  {
    if kvs != [] {
      AnyExact(kvs[0].value);
      PairsExact(kvs[1..]);
      assert kvs == [kvs[0]] + kvs[1..];
      assert NormPairs(kvs)[0] == NormKeyValue(kvs[0]) && NormPairs(kvs)[1..] == NormPairs(kvs[1..]);
    }
  }

  lemma {:induction false} PairKeys(kvs: seq<KeyValue>)
    ensures |NormPairs(kvs)| == |kvs|
    ensures forall i :: 0 <= i < |kvs| ==> NormPairs(kvs)[i].key == kvs[i].key
  {
    if kvs != [] {
      PairKeys(kvs[1..]);
    }
  }

  lemma {:induction false} WithKeysLength(items: Attributes, more: Attributes)
    ensures |WithKeys(items, more)| <= |items| + |more|
    decreases more
  {
    if more != [] {
      WithKeyLength(items, more[0].key, more[0].value);
      WithKeysLength(WithKey(items, more[0].key, more[0].value), more[1..]);
    }
  }

  lemma {:induction false} WithKeyLength(items: Attributes, key: bytes, value: AnyValue)
    ensures |WithKey(items, key, value)| <= |items| + 1
  {
    if items != [] {
      WithKeyLength(items[1..], key, value);
    }
  }

  lemma {:induction false} AttributesExact(kvs: Attributes)
    ensures NormAttributes(kvs) == kvs <==> NormalAttributes(kvs)
  {
    var norm := NormPairs(kvs);
    PairsExact(kvs);
    PairKeys(kvs);
    WithKeysExact(kvs);
    if NormAttributes(kvs) == kvs {
      WithKeysDistinct([], norm);
      assert DistinctKeys(kvs);
      assert DistinctKeys(norm);
      WithKeysExact(norm);
      assert norm == kvs;
    }
  }

  lemma {:induction false} MappedExact<A>(f: A -> A, items: seq<A>, i: nat)
    requires Mapped(f, items) == items && i < |items|
    ensures f(items[i]) == items[i]
  {
    assert Mapped(f, items)[i] == f(items[i]);
  }

  lemma {:induction false} EventsExact(events: seq<SpanEvent>)
    ensures Mapped(NormEvent, events) == events <==>
            forall i :: 0 <= i < |events| ==> NormalAttributes(events[i].attributes)
  {
    hide NormAttributes, NormalAttributes;
    forall i | 0 <= i < |events|
      ensures NormEvent(events[i]) == events[i] <==> NormalAttributes(events[i].attributes)
    {
      AttributesExact(events[i].attributes);
    }
    if Mapped(NormEvent, events) == events {
      forall i | 0 <= i < |events| ensures NormalAttributes(events[i].attributes) {
        MappedExact(NormEvent, events, i);
      }
    }
  }

  lemma {:induction false} LinksExact(links: seq<SpanLink>)
    ensures Mapped(NormLink, links) == links <==>
            forall i :: 0 <= i < |links| ==> NormalAttributes(links[i].attributes)
  {
    hide NormAttributes, NormalAttributes;
    forall i | 0 <= i < |links|
      ensures NormLink(links[i]) == links[i] <==> NormalAttributes(links[i].attributes)
    {
      AttributesExact(links[i].attributes);
    }
    if Mapped(NormLink, links) == links {
      forall i | 0 <= i < |links| ensures NormalAttributes(links[i].attributes) {
        MappedExact(NormLink, links, i);
      }
    }
  }

  lemma {:induction false} SpanExact(s: Span)
    ensures NormSpan(s) == s <==> NormalSpan(s)
  {
    hide NormAttributes, NormalAttributes, Mapped;
    AttributesExact(s.attributes);
    EventsExact(s.events);
    LinksExact(s.links);
  }

  lemma {:induction false} ScopeExact(s: Scope)
    ensures NormScope(s) == s <==> NormalScope(s)
  {
    AttributesExact(s.attributes);
    if s.attributes == [] {
      assert NormalAttributes(s.attributes);
    }
  }

  lemma {:induction false} ScopeSpansExact(ss: ScopeSpans)
    ensures NormScopeSpans(ss) == ss <==> NormalScopeSpans(ss)
  {
    hide NormScope, NormalScope, NormSpan, NormalSpan;
    ScopeExact(ss.scope);
    forall i | 0 <= i < |ss.spans| ensures NormSpan(ss.spans[i]) == ss.spans[i] <==> NormalSpan(ss.spans[i]) {
      SpanExact(ss.spans[i]);
    }
    if NormScopeSpans(ss) == ss {
      forall i | 0 <= i < |ss.spans| ensures NormalSpan(ss.spans[i]) {
        MappedExact(NormSpan, ss.spans, i);
      }
    }
  }

  lemma {:induction false} ResourceSpansExact(rs: ResourceSpans)
    ensures NormResourceSpans(rs) == rs <==> NormalResourceSpans(rs)
  {
    hide NormAttributes, NormalAttributes, NormScopeSpans, NormalScopeSpans;
    AttributesExact(rs.resource.attributes);
    var scopes := rs.scopeSpans;
    forall i | 0 <= i < |scopes| ensures NormScopeSpans(scopes[i]) == scopes[i] <==> NormalScopeSpans(scopes[i]) {
      ScopeSpansExact(scopes[i]);
    }
    if NormResourceSpans(rs) == rs {
      forall i | 0 <= i < |scopes| ensures NormalScopeSpans(scopes[i]) {
        MappedExact(NormScopeSpans, scopes, i);
      }
    }
  }

  lemma {:induction false} NormExact(td: TracesData)
    ensures Norm(td) == td <==> Normal(td)
  {
    hide NormResourceSpans, NormalResourceSpans;
    var all := td.resourceSpans;
    forall i | 0 <= i < |all| ensures NormResourceSpans(all[i]) == all[i] <==> NormalResourceSpans(all[i]) {
      ResourceSpansExact(all[i]);
    }
    if Norm(td) == td {
      forall i | 0 <= i < |all| ensures NormalResourceSpans(all[i]) {
        MappedExact(NormResourceSpans, all, i);
      }
    }
  }

  /** The round trip returns the value itself exactly for normal values. */
  lemma {:induction false} RoundTripExact(td: TracesData)
    requires |Marshaled(td)| < TWO_63
    ensures Unmarshaled(Marshaled(td)) == Ok(td) <==> Normal(td)
  {
    RoundTrip(td);
    NormExact(td);
  }

  // ----- concatenation and unknown fields -----

  lemma {:induction false} TracesFoldAppends(td: TracesData, fs: seq<Field>)
    ensures Fold(TracesStep, td, fs).resourceSpans ==
            td.resourceSpans + Fold(TracesStep, EMPTY_TRACES, fs).resourceSpans
    decreases fs
  {
    if fs == [] {
      assert td.resourceSpans + [] == td.resourceSpans;
    } else {
      var one := TracesStep(EMPTY_TRACES, fs[0]).resourceSpans;
      assert TracesStep(td, fs[0]).resourceSpans == td.resourceSpans + one;
      TracesFoldAppends(TracesStep(td, fs[0]), fs[1..]);
      TracesFoldAppends(TracesStep(EMPTY_TRACES, fs[0]), fs[1..]);
      var rest := Fold(TracesStep, EMPTY_TRACES, fs[1..]).resourceSpans;
      assert td.resourceSpans + one + rest == td.resourceSpans + (one + rest);
    }
  }

  /** Two encoded batches put one after the other decode to both. */
  lemma {:induction false} UnmarshalConcat(a: bytes, b: bytes)
    requires |a + b| < TWO_63
    requires Unmarshaled(a).Ok? && Unmarshaled(b).Ok?
    ensures Unmarshaled(a + b) ==
            Ok(TracesData(Unmarshaled(a).value.resourceSpans + Unmarshaled(b).value.resourceSpans))
  {
    hide Decode;
    DecodeConcat(Otlp, TRACES_DATA, a, b);
    var fa := Decode(Otlp, TRACES_DATA, a, 0).value;
    var fb := Decode(Otlp, TRACES_DATA, b, 0).value;
    FoldConcat(TracesStep, EMPTY_TRACES, fa, fb);
    TracesFoldAppends(Fold(TracesStep, EMPTY_TRACES, fa), fb);
  }

  /** Fields unknown to this version, put anywhere at any depth into an encoded
      batch, change nothing: the fields of td, with unknown fields among them,
      still decode to the normal form of td. */
  lemma {:induction false} UnknownFieldsIgnored(td: TracesData, fields: seq<Field>)
    requires Fits(Otlp, TRACES_DATA, fields) && Strip(fields) == TracesFields(td)
    requires |Encode(fields)| < TWO_63
    ensures Unmarshaled(Encode(fields)) == Ok(Norm(td))
  {
    hide Fits, Strip, Decode, Encode;
    TreeReadsBack(Otlp, TRACES_DATA, fields);
    ResourcesRoundTrip(EMPTY_TRACES, td.resourceSpans);
    assert [] + Mapped(NormResourceSpans, td.resourceSpans) == Mapped(NormResourceSpans, td.resourceSpans);
  }

  /** The same on bytes: an unknown field between two decodable parts. */
  lemma {:induction false} UnknownFieldInserted(a: bytes, raw: bytes, b: bytes)
    requires |a + raw + b| < TWO_63
    requires Unmarshaled(a).Ok? && IsAlien(Otlp, TRACES_DATA, raw) && Unmarshaled(b).Ok?
    ensures Unmarshaled(a + raw + b) == Unmarshaled(a + b)
  {
    AlienInserted(Otlp, TRACES_DATA, a, raw, b);
  }
}
