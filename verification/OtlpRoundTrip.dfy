/** What decoding makes of an encoded value: its normal form, which is the value
    itself exactly when the value is already normal. */
module OtlpRoundTrip {
  import opened Bytes
  import opened Results
  import opened Wire
  import opened Messages
  import opened OtlpTypes
  import opened OtlpFields

  // ----- normal forms -----

  /** Only the place that the type tag names survives; an unassigned tag turns
      into the empty string. */
  function NormAny(v: AnyValue): AnyValue
    decreases v, 0
  {
    if v.typ == STRING_TYPE then EMPTY_VALUE.(str := v.str)
    else if v.typ == BOOL_TYPE then EMPTY_VALUE.(typ := BOOL_TYPE, boolVal := v.boolVal)
    else if v.typ == INT_TYPE then EMPTY_VALUE.(typ := INT_TYPE, intVal := v.intVal)
    else if v.typ == DOUBLE_TYPE then EMPTY_VALUE.(typ := DOUBLE_TYPE, doubleVal := v.doubleVal)
    else if v.typ == BYTES_TYPE then EMPTY_VALUE.(typ := BYTES_TYPE, bytesVal := v.bytesVal)
    else if v.typ == ARRAY_TYPE then EMPTY_VALUE.(typ := ARRAY_TYPE, arrayVal := NormArray(v.arrayVal))
    else if v.typ == KV_LIST_TYPE then EMPTY_VALUE.(typ := KV_LIST_TYPE, kvListVal := NormPairs(v.kvListVal))
    else EMPTY_VALUE
  }

  function NormArray(vs: seq<AnyValue>): seq<AnyValue>
    decreases vs, 1
  {
    if vs == [] then [] else [NormAny(vs[0])] + NormArray(vs[1..])
  }

  function NormKeyValue(kv: KeyValue): KeyValue
    decreases kv, 0
  {
    KeyValue(kv.key, NormAny(kv.value))
  }

  function NormPairs(kvs: seq<KeyValue>): (r: seq<KeyValue>)
    decreases kvs, 1
  {
    if kvs == [] then [] else [NormKeyValue(kvs[0])] + NormPairs(kvs[1..])
  }

  /** Attributes are set one by one, so a repeated key keeps its first place
      and its last value. */
  function NormAttributes(kvs: Attributes): Attributes {
    WithKeys([], NormPairs(kvs))
  }

  function NormEvent(e: SpanEvent): SpanEvent {
    e.(attributes := NormAttributes(e.attributes))
  }

  function NormLink(l: SpanLink): SpanLink {
    l.(attributes := NormAttributes(l.attributes))
  }

  function Mapped<A, B>(f: A -> B, items: seq<A>): (r: seq<B>)
    ensures |r| == |items|
    ensures forall i :: 0 <= i < |items| ==> r[i] == f(items[i])
  {
    if items == [] then [] else [f(items[0])] + Mapped(f, items[1..])
  }

  function NormSpan(s: Span): Span {
    s.(attributes := NormAttributes(s.attributes), events := Mapped(NormEvent, s.events), links := Mapped(NormLink,
        s.links))
  }

  /** A scope without name and version is not written, attributes or not. */
  function NormScope(s: Scope): Scope {
    if s.name == [] && s.version == [] then EMPTY_SCOPE else s.(attributes := NormAttributes(s.attributes))
  }

  function NormScopeSpans(ss: ScopeSpans): ScopeSpans {
    ScopeSpans(NormScope(ss.scope), Mapped(NormSpan, ss.spans))
  }

  function NormResourceSpans(rs: ResourceSpans): ResourceSpans {
    ResourceSpans(Resource(NormAttributes(rs.resource.attributes)), Mapped(NormScopeSpans, rs.scopeSpans))
  }

  function Norm(td: TracesData): TracesData {
    TracesData(Mapped(NormResourceSpans, td.resourceSpans))
  }

  // ----- folds -----

  lemma {:induction false} FoldOne<A>(step: (A, Field) -> A, acc: A, f: Field, rest: seq<Field>)
    ensures Fold(step, acc, [f] + rest) == Fold(step, step(acc, f), rest)
  {
    assert ([f] + rest)[1..] == rest;
  }

  lemma {:induction false} FoldTwo<A>(step: (A, Field) -> A, acc: A, f: Field, g: Field, rest: seq<Field>)
    ensures Fold(step, acc, [f, g] + rest) == Fold(step, step(step(acc, f), g), rest)
  {
    assert [f, g] + rest == [f] + ([g] + rest);
    FoldOne(step, acc, f, [g] + rest);
    FoldOne(step, step(acc, f), g, rest);
  }

  lemma {:induction false} FoldLastTwo<A>(step: (A, Field) -> A, acc: A, f: Field, g: Field)
    ensures Fold(step, acc, [f, g]) == step(step(acc, f), g)
  {
    FoldTwo(step, acc, f, g, []);
    assert [f, g] + [] == [f, g];
  }

  lemma {:induction false} FoldOpt<A>(step: (A, Field) -> A, acc: A, c: bool, f: Field, rest: seq<Field>)
    ensures Fold(step, acc, Opt(c, f) + rest) == Fold(step, if c then step(acc, f) else acc, rest)
  {
    if c {
      FoldOne(step, acc, f, rest);
    } else {
      assert Opt(c, f) + rest == rest;
    }
  }

  lemma {:induction false} FoldOptLast<A>(step: (A, Field) -> A, acc: A, c: bool, f: Field)
    ensures Fold(step, acc, Opt(c, f)) == if c then step(acc, f) else acc
  {
    FoldOpt(step, acc, c, f, []);
    assert Opt(c, f) + [] == Opt(c, f);
  }

  // ----- attribute values, at every depth -----

  lemma {:induction false} AnyRoundTrip(v: AnyValue)
    ensures AnyOf(EMPTY_VALUE, AnyFields(v)) == NormAny(v)
    decreases v, 0
  {
    var fs := AnyFields(v);
    if fs != [] {
      assert fs[1..] == [];
      assert AnyOf(EMPTY_VALUE, fs) == AnyStep(EMPTY_VALUE, fs[0]);
    }
    if v.typ == ARRAY_TYPE {
      ArrayRoundTrip([], v.arrayVal);
      assert [] + NormArray(v.arrayVal) == NormArray(v.arrayVal);
    } else if v.typ == KV_LIST_TYPE {
      PairsRoundTrip([], v.kvListVal);
      assert [] + NormPairs(v.kvListVal) == NormPairs(v.kvListVal);
    }
  }

  lemma {:induction false} ArrayRoundTrip(acc: seq<AnyValue>, vs: seq<AnyValue>)
    ensures ArrayOf(acc, ArrayFields(vs)) == acc + NormArray(vs)
    decreases vs, 1
  {
    if vs != [] {
      AnyRoundTrip(vs[0]);
      ArrayRoundTrip(acc + [NormAny(vs[0])], vs[1..]);
      assert ArrayFields(vs)[1..] == ArrayFields(vs[1..]);
      assert acc + [NormAny(vs[0])] + NormArray(vs[1..]) == acc + NormArray(vs);
    }
  }

  lemma {:induction false} KeyValueRoundTrip(kv: KeyValue)
    ensures KeyValueOf(EMPTY_KEY_VALUE, KeyValueFields(kv)) == NormKeyValue(kv)
    decreases kv, 0
  {
    AnyRoundTrip(kv.value);
    var fs := KeyValueFields(kv);
    var kv1 := KeyValueStep(EMPTY_KEY_VALUE, fs[0]);
    assert KeyValueOf(EMPTY_KEY_VALUE, fs) == KeyValueOf(kv1, fs[1..]);
    assert KeyValueOf(kv1, fs[1..]) == KeyValueOf(KeyValueStep(kv1, fs[1]), fs[1..][1..]);
  }

  lemma {:induction false} PairsRoundTrip(acc: seq<KeyValue>, kvs: seq<KeyValue>)
    ensures PairsOf(acc, PairFields(KV_LIST_VALUES, kvs)) == acc + NormPairs(kvs)
    decreases kvs, 1
  {
    if kvs != [] {
      KeyValueRoundTrip(kvs[0]);
      PairsRoundTrip(acc + [NormKeyValue(kvs[0])], kvs[1..]);
      assert PairFields(KV_LIST_VALUES, kvs)[1..] == PairFields(KV_LIST_VALUES, kvs[1..]);
      assert acc + [NormKeyValue(kvs[0])] + NormPairs(kvs[1..]) == acc + NormPairs(kvs);
    }
  }

  // ----- a run of attribute fields -----

  lemma {:induction false} EventAttributes(e: SpanEvent, kvs: Attributes)
    ensures Fold(EventStep, e, PairFields(EVENT_ATTRIBUTES, kvs)) ==
            e.(attributes := WithKeys(e.attributes, NormPairs(kvs)))
    decreases kvs
  {
    if kvs != [] {
      KeyValueRoundTrip(kvs[0]);
      EventAttributes(e.(attributes := WithKey(e.attributes, kvs[0].key, NormAny(kvs[0].value))), kvs[1..]);
    }
  }

  lemma {:induction false} LinkAttributes(l: SpanLink, kvs: Attributes)
    ensures Fold(LinkStep, l, PairFields(LINK_ATTRIBUTES, kvs)) ==
            l.(attributes := WithKeys(l.attributes, NormPairs(kvs)))
    decreases kvs
  {
    if kvs != [] {
      KeyValueRoundTrip(kvs[0]);
      LinkAttributes(l.(attributes := WithKey(l.attributes, kvs[0].key, NormAny(kvs[0].value))), kvs[1..]);
    }
  }

  lemma {:induction false} SpanAttributes(s: Span, kvs: Attributes)
    ensures Fold(SpanStep, s, PairFields(SPAN_ATTRIBUTES, kvs)) ==
            s.(attributes := WithKeys(s.attributes, NormPairs(kvs)))
    decreases kvs
  {
    if kvs != [] {
      KeyValueRoundTrip(kvs[0]);
      SpanAttributes(s.(attributes := WithKey(s.attributes, kvs[0].key, NormAny(kvs[0].value))), kvs[1..]);
    }
  }

  lemma {:induction false} ScopeAttributes(s: Scope, kvs: Attributes)
    ensures Fold(ScopeStep, s, PairFields(SCOPE_ATTRIBUTES, kvs)) ==
            s.(attributes := WithKeys(s.attributes, NormPairs(kvs)))
    decreases kvs
  {
    if kvs != [] {
      KeyValueRoundTrip(kvs[0]);
      ScopeAttributes(s.(attributes := WithKey(s.attributes, kvs[0].key, NormAny(kvs[0].value))), kvs[1..]);
    }
  }

  lemma {:induction false} ResourceAttributes(r: Resource, kvs: Attributes)
    ensures Fold(ResourceStep, r, PairFields(RESOURCE_ATTRIBUTES, kvs)) ==
            Resource(WithKeys(r.attributes, NormPairs(kvs)))
    decreases kvs
  {
    if kvs != [] {
      KeyValueRoundTrip(kvs[0]);
      ResourceAttributes(Resource(WithKey(r.attributes, kvs[0].key, NormAny(kvs[0].value))), kvs[1..]);
    }
  }

  // ----- messages -----

  lemma {:induction false} SignedRoundTrip(i: int32)
    ensures ToInt32(AsUint64(i)) == i
  {
  }

  lemma {:induction false} OverwriteAll(dst: bytes, src: bytes)
    requires |src| == |dst|
    ensures Overwrite(dst, src) == src
  {
  }

  lemma {:induction false} StatusRoundTrip(s: Status)
    ensures Fold(StatusStep, EMPTY_STATUS, StatusFields(s)) == s
  {
    SignedRoundTrip(s.code);
    FoldOpt(StatusStep, EMPTY_STATUS, s.message != [], BytesField(STATUS_MESSAGE, s.message),
            Opt(s.code != 0, VarintField(STATUS_CODE, AsUint64(s.code))));
    FoldOptLast(StatusStep, Status(s.message, 0), s.code != 0, VarintField(STATUS_CODE, AsUint64(s.code)));
  }

  lemma {:induction false} EventRoundTrip(e: SpanEvent)
    ensures Fold(EventStep, EMPTY_EVENT, EventFields(e)) == NormEvent(e)
  {
    var last := Opt(e.droppedAttributesCount > 0, VarintField(EVENT_DROPPED_ATTRIBUTES, e.droppedAttributesCount));
    var e1 := SpanEvent(e.timeUnixNano, e.name, [], 0);
    FoldTwo(EventStep, EMPTY_EVENT, Fixed64Field(EVENT_TIME, e.timeUnixNano), BytesField(EVENT_NAME, e.name),
            PairFields(EVENT_ATTRIBUTES, e.attributes) + last);
    FoldConcat(EventStep, e1, PairFields(EVENT_ATTRIBUTES, e.attributes), last);
    EventAttributes(e1, e.attributes);
    FoldOptLast(EventStep, e1.(attributes := NormAttributes(e.attributes)),
                e.droppedAttributesCount > 0, VarintField(EVENT_DROPPED_ATTRIBUTES, e.droppedAttributesCount));
  }

  lemma {:induction false} LinkRoundTrip(l: SpanLink)
    ensures Fold(LinkStep, EMPTY_LINK, LinkFields(l)) == NormLink(l)
  {
    var last := Opt(l.droppedAttributesCount > 0, VarintField(LINK_DROPPED_ATTRIBUTES, l.droppedAttributesCount));
    var rest := PairFields(LINK_ATTRIBUTES, l.attributes) + last;
    var l1 := SpanLink(l.traceID, l.spanID, [], [], 0);
    var l2 := l1.(traceState := l.traceState);
    OverwriteAll(ZERO_TRACE_ID, l.traceID);
    OverwriteAll(ZERO_SPAN_ID, l.spanID);
    FoldTwo(LinkStep, EMPTY_LINK, BytesField(LINK_TRACE_ID, l.traceID), BytesField(LINK_SPAN_ID, l.spanID),
            Opt(l.traceState != [], BytesField(LINK_TRACE_STATE, l.traceState)) + rest);
    FoldOpt(LinkStep, l1, l.traceState != [], BytesField(LINK_TRACE_STATE, l.traceState), rest);
    FoldConcat(LinkStep, l2, PairFields(LINK_ATTRIBUTES, l.attributes), last);
    LinkAttributes(l2, l.attributes);
    FoldOptLast(LinkStep, l2.(attributes := NormAttributes(l.attributes)),
                l.droppedAttributesCount > 0, VarintField(LINK_DROPPED_ATTRIBUTES, l.droppedAttributesCount));
  }

  lemma {:induction false} EventsRoundTrip(s: Span, events: seq<SpanEvent>)
    ensures Fold(SpanStep, s, Repeated(SPAN_EVENTS, EventFields, events)) ==
            s.(events := s.events + Mapped(NormEvent, events))
    decreases events
  {
    hide EventFields, NormEvent, EventStep;
    if events == [] {
      assert s.events + [] == s.events;
    } else {
      EventRoundTrip(events[0]);
      EventsRoundTrip(s.(events := s.events + [NormEvent(events[0])]), events[1..]);
      Assoc(s.events, [NormEvent(events[0])], Mapped(NormEvent, events[1..]));
    }
  }

  lemma {:induction false} LinksRoundTrip(s: Span, links: seq<SpanLink>)
    ensures Fold(SpanStep, s, Repeated(SPAN_LINKS, LinkFields, links)) ==
            s.(links := s.links + Mapped(NormLink, links))
    decreases links
  {
    hide LinkFields, NormLink, LinkStep;
    if links == [] {
      assert s.links + [] == s.links;
    } else {
      LinkRoundTrip(links[0]);
      LinksRoundTrip(s.(links := s.links + [NormLink(links[0])]), links[1..]);
      Assoc(s.links, [NormLink(links[0])], Mapped(NormLink, links[1..]));
    }
  }

  lemma {:induction false} SpanHeadRoundTrip(s: Span)
    ensures Fold(SpanStep, EMPTY_SPAN, SpanHead(s)) ==
            EMPTY_SPAN.(traceID := s.traceID, spanID := s.spanID, parentSpanID := s.parentSpanID,
                        traceState := s.traceState, name := s.name, kind := s.kind,
                        startTimeUnixNano := s.startTimeUnixNano, endTimeUnixNano := s.endTimeUnixNano)
  {
    hide Fold;
    SignedRoundTrip(s.kind);
    OverwriteAll(ZERO_TRACE_ID, s.traceID);
    OverwriteAll(ZERO_SPAN_ID, s.spanID);
    OverwriteAll(ZERO_SPAN_ID, s.parentSpanID);
    var r5 := [Fixed64Field(SPAN_START_TIME, s.startTimeUnixNano), Fixed64Field(SPAN_END_TIME, s.endTimeUnixNano)];
    var r4 := Opt(s.kind != 0, VarintField(SPAN_KIND, AsUint64(s.kind))) + r5;
    var r3 := [BytesField(SPAN_NAME, s.name)] + r4;
    var r2 := Opt(s.parentSpanID != ZERO_SPAN_ID, BytesField(SPAN_PARENT_SPAN_ID, s.parentSpanID)) + r3;
    var r1 := Opt(s.traceState != [], BytesField(SPAN_TRACE_STATE, s.traceState)) + r2;
    var s1 := EMPTY_SPAN.(traceID := s.traceID, spanID := s.spanID);
    FoldTwo(SpanStep, EMPTY_SPAN, BytesField(SPAN_TRACE_ID, s.traceID), BytesField(SPAN_SPAN_ID, s.spanID), r1);
    FoldOpt(SpanStep, s1, s.traceState != [], BytesField(SPAN_TRACE_STATE, s.traceState), r2);
    var s2 := s1.(traceState := s.traceState);
    FoldOpt(SpanStep, s2, s.parentSpanID != ZERO_SPAN_ID, BytesField(SPAN_PARENT_SPAN_ID, s.parentSpanID), r3);
    var s3 := s2.(parentSpanID := s.parentSpanID);
    FoldOne(SpanStep, s3, BytesField(SPAN_NAME, s.name), r4);
    var s4 := s3.(name := s.name);
    FoldOpt(SpanStep, s4, s.kind != 0, VarintField(SPAN_KIND, AsUint64(s.kind)), r5);
    var s5 := s4.(kind := s.kind);
    FoldLastTwo(SpanStep, s5, r5[0], r5[1]);
  }

  lemma {:induction false} SpanTailRoundTrip(s: Span, s0: Span)
    requires s0.status == EMPTY_STATUS
    requires s0.droppedAttributesCount == s0.droppedEventsCount == s0.droppedLinksCount == 0
    ensures Fold(SpanStep, s0, SpanTail(s)) ==
            s0.(status := s.status, droppedAttributesCount := s.droppedAttributesCount,
                droppedEventsCount := s.droppedEventsCount, droppedLinksCount := s.droppedLinksCount)
  {
    hide Fold, StatusFields, Opt, StatusStep, EventStep, LinkStep, KeyValueOf, SetPair;
    StatusRoundTrip(s.status);
    var f3 := VarintField(SPAN_DROPPED_LINKS, s.droppedLinksCount);
    var f2 := VarintField(SPAN_DROPPED_EVENTS, s.droppedEventsCount);
    var f1 := VarintField(SPAN_DROPPED_ATTRIBUTES, s.droppedAttributesCount);
    var r2 := Opt(s.droppedEventsCount > 0, f2) + Opt(s.droppedLinksCount > 0, f3);
    var r1 := Opt(s.droppedAttributesCount > 0, f1) + r2;
    FoldOpt(SpanStep, s0, s.status.code != 0 || s.status.message != [], MessageField(SPAN_STATUS,
        StatusFields(s.status)), r1);
    var s1 := s0.(status := s.status);
    FoldOpt(SpanStep, s1, s.droppedAttributesCount > 0, f1, r2);
    var s2 := s1.(droppedAttributesCount := s.droppedAttributesCount);
    FoldOpt(SpanStep, s2, s.droppedEventsCount > 0, f2, Opt(s.droppedLinksCount > 0, f3));
    var s3 := s2.(droppedEventsCount := s.droppedEventsCount);
    FoldOptLast(SpanStep, s3, s.droppedLinksCount > 0, f3);
  }

  lemma {:induction false} SpanRoundTrip(s: Span)
    ensures Fold(SpanStep, EMPTY_SPAN, SpanFields(s)) == NormSpan(s)
  {
    hide Fold, SpanStep, SpanHead, SpanTail, EventFields, LinkFields, PairFields, Repeated, Mapped;
    var links := Repeated(SPAN_LINKS, LinkFields, s.links);
    var events := Repeated(SPAN_EVENTS, EventFields, s.events);
    var attributes := PairFields(SPAN_ATTRIBUTES, s.attributes);
    var s1 := EMPTY_SPAN.(traceID := s.traceID, spanID := s.spanID, parentSpanID := s.parentSpanID,
                          traceState := s.traceState, name := s.name, kind := s.kind,
                          startTimeUnixNano := s.startTimeUnixNano, endTimeUnixNano := s.endTimeUnixNano);
    var s2 := s1.(attributes := NormAttributes(s.attributes));
    var s3 := s2.(events := Mapped(NormEvent, s.events));
    var s4 := s3.(links := Mapped(NormLink, s.links));
    SpanHeadRoundTrip(s);
    FoldConcat(SpanStep, EMPTY_SPAN, SpanHead(s), attributes + (events + (links + SpanTail(s))));
    SpanAttributes(s1, s.attributes);
    FoldConcat(SpanStep, s1, attributes, events + (links + SpanTail(s)));
    EventsRoundTrip(s2, s.events);
    assert [] + Mapped(NormEvent, s.events) == Mapped(NormEvent, s.events);
    FoldConcat(SpanStep, s2, events, links + SpanTail(s));
    LinksRoundTrip(s3, s.links);
    assert [] + Mapped(NormLink, s.links) == Mapped(NormLink, s.links);
    FoldConcat(SpanStep, s3, links, SpanTail(s));
    SpanTailRoundTrip(s, s4);
  }

  lemma {:induction false} ScopeRoundTrip(s: Scope)
    requires s.name != [] || s.version != []
    ensures Fold(ScopeStep, EMPTY_SCOPE, ScopeFields(s)) == NormScope(s)
  {
    var attributes := PairFields(SCOPE_ATTRIBUTES, s.attributes);
    FoldOpt(ScopeStep, EMPTY_SCOPE, s.name != [], BytesField(SCOPE_NAME, s.name),
            Opt(s.version != [], BytesField(SCOPE_VERSION, s.version)) + attributes);
    FoldOpt(ScopeStep, Scope(s.name, [], []), s.version != [], BytesField(SCOPE_VERSION, s.version), attributes);
    ScopeAttributes(Scope(s.name, s.version, []), s.attributes);
  }

  lemma {:induction false} SpansRoundTrip(ss: ScopeSpans, spans: seq<Span>)
    ensures Fold(ScopeSpansStep, ss, Repeated(SCOPE_SPANS_SPANS, SpanFields, spans)) ==
            ss.(spans := ss.spans + Mapped(NormSpan, spans))
    decreases spans
  {
    hide SpanFields, NormSpan, SpanStep;
    if spans == [] {
      assert ss.spans + [] == ss.spans;
    } else {
      SpanRoundTrip(spans[0]);
      SpansRoundTrip(ss.(spans := ss.spans + [NormSpan(spans[0])]), spans[1..]);
      Assoc(ss.spans, [NormSpan(spans[0])], Mapped(NormSpan, spans[1..]));
    }
  }

  lemma {:induction false} ScopeSpansRoundTrip(ss: ScopeSpans)
    ensures Fold(ScopeSpansStep, EMPTY_SCOPE_SPANS, ScopeSpansFields(ss)) == NormScopeSpans(ss)
  {
    var present := ss.scope.name != [] || ss.scope.version != [];
    if present {
      ScopeRoundTrip(ss.scope);
    }
    FoldOpt(ScopeSpansStep, EMPTY_SCOPE_SPANS, present, MessageField(SCOPE_SPANS_SCOPE, ScopeFields(ss.scope)),
            Repeated(SCOPE_SPANS_SPANS, SpanFields, ss.spans));
    SpansRoundTrip(ScopeSpans(NormScope(ss.scope), []), ss.spans);
    assert [] + Mapped(NormSpan, ss.spans) == Mapped(NormSpan, ss.spans);
  }

  lemma {:induction false} ScopesRoundTrip(rs: ResourceSpans, scopes: seq<ScopeSpans>)
    ensures Fold(ResourceSpansStep, rs, Repeated(RESOURCE_SPANS_SCOPE_SPANS, ScopeSpansFields, scopes)) ==
            rs.(scopeSpans := rs.scopeSpans + Mapped(NormScopeSpans, scopes))
    decreases scopes
  {
    hide ScopeSpansFields, NormScopeSpans, ScopeSpansStep;
    if scopes == [] {
      assert rs.scopeSpans + [] == rs.scopeSpans;
    } else {
      ScopeSpansRoundTrip(scopes[0]);
      ScopesRoundTrip(rs.(scopeSpans := rs.scopeSpans + [NormScopeSpans(scopes[0])]), scopes[1..]);
      Assoc(rs.scopeSpans, [NormScopeSpans(scopes[0])], Mapped(NormScopeSpans, scopes[1..]));
    }
  }

  lemma {:induction false} ResourceSpansRoundTrip(rs: ResourceSpans)
    ensures Fold(ResourceSpansStep, EMPTY_RESOURCE_SPANS, ResourceSpansFields(rs)) == NormResourceSpans(rs)
  {
    ResourceAttributes(EMPTY_RESOURCE, rs.resource.attributes);
    FoldOpt(ResourceSpansStep, EMPTY_RESOURCE_SPANS, rs.resource.attributes != [],
            MessageField(RESOURCE_SPANS_RESOURCE, ResourceFields(rs.resource)),
            Repeated(RESOURCE_SPANS_SCOPE_SPANS, ScopeSpansFields, rs.scopeSpans));
    ScopesRoundTrip(ResourceSpans(Resource(NormAttributes(rs.resource.attributes)), []), rs.scopeSpans);
    assert [] + Mapped(NormScopeSpans, rs.scopeSpans) == Mapped(NormScopeSpans, rs.scopeSpans);
  }

  lemma {:induction false} ResourcesRoundTrip(td: TracesData, resources: seq<ResourceSpans>)
    ensures Fold(TracesStep, td, Repeated(TRACES_RESOURCE_SPANS, ResourceSpansFields, resources)) ==
            TracesData(td.resourceSpans + Mapped(NormResourceSpans, resources))
    decreases resources
  {
    hide ResourceSpansFields, NormResourceSpans, ResourceSpansStep;
    if resources == [] {
      assert td.resourceSpans + [] == td.resourceSpans;
    } else {
      ResourceSpansRoundTrip(resources[0]);
      ResourcesRoundTrip(TracesData(td.resourceSpans + [NormResourceSpans(resources[0])]), resources[1..]);
      Assoc(td.resourceSpans, [NormResourceSpans(resources[0])], Mapped(NormResourceSpans, resources[1..]));
    }
  }
}
