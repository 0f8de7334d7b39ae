/** Marshal: internal/protocol/otlp/marshal.go. Each method appends to an
    encoder exactly the bytes of the fields of its value. */
module OtlpMarshal {
  import opened Bytes
  import opened Wire
  import opened Messages
  import opened Protobuf
  import opened OtlpTypes
  import opened OtlpFields

  /** The bytes of these fields are all that buf lacks of whole. */
  ghost predicate Owes(whole: bytes, buf: bytes, fields: seq<Field>) {
    whole == buf + Encode(fields)
  }

  lemma {:induction false} Pay(whole: bytes, before: bytes, after: bytes, f: Field, rest: seq<Field>)
    requires Owes(whole, before, [f] + rest)
    requires after == before + EncodeField(f)
    ensures Owes(whole, after, rest)
  {
    assert ([f] + rest)[1..] == rest;
    Assoc(before, EncodeField(f), Encode(rest));
  }

  lemma {:induction false} PayTwo(whole: bytes, before: bytes, after: bytes, f: Field, g: Field, rest: seq<Field>)
    requires Owes(whole, before, [f, g] + rest)
    requires after == before + EncodeField(f) + EncodeField(g)
    ensures Owes(whole, after, rest)
  {
    assert [f, g] + rest == [f] + ([g] + rest);
    Pay(whole, before, before + EncodeField(f), f, [g] + rest);
    Pay(whole, before + EncodeField(f), after, g, rest);
  }

  lemma {:induction false} PayOpt(whole: bytes, before: bytes, after: bytes, c: bool, f: Field, rest: seq<Field>)
    requires Owes(whole, before, Opt(c, f) + rest)
    requires after == if c then before + EncodeField(f) else before
    ensures Owes(whole, after, rest)
  {
    if c {
      Pay(whole, before, after, f, rest);
    } else {
      assert Opt(c, f) + rest == rest;
    }
  }

  lemma {:induction false} PayRun(whole: bytes, before: bytes, after: bytes, run: seq<Field>, rest: seq<Field>)
    requires Owes(whole, before, run + rest)
    requires after == before + Encode(run)
    ensures Owes(whole, after, rest)
  {
    hide Encode;
    EncodeConcat(run, rest);
    Assoc(before, Encode(run), Encode(rest));
  }

  lemma {:induction false} PayLast(whole: bytes, before: bytes, after: bytes, c: bool, f: Field)
    requires Owes(whole, before, Opt(c, f))
    requires after == if c then before + EncodeField(f) else before
    ensures whole == after
  {
    assert Opt(c, f) + [] == Opt(c, f);
    PayOpt(whole, before, after, c, f, []);
  }

  /** One round of a loop over the items of a repeated field. */
  lemma {:induction false} PayItem<A>(whole: bytes, before: bytes, after: bytes, num: uint32,
          fieldsOf: A -> seq<Field>, items: seq<A>, i: nat, rest: seq<Field>)
    requires i < |items|
    requires Owes(whole, before, Repeated(num, fieldsOf, items[i..]) + rest)
    requires after == before + EncodeField(MessageField(num, fieldsOf(items[i])))
    ensures Owes(whole, after, Repeated(num, fieldsOf, items[i + 1..]) + rest)
  {
    assert items[i..][1..] == items[i + 1..];
    var f := MessageField(num, fieldsOf(items[i]));
    var more := Repeated(num, fieldsOf, items[i + 1..]) + rest;
    assert Repeated(num, fieldsOf, items[i..]) + rest == [f] + more;
    Pay(whole, before, after, f, more);
  }

  /** A loop over the items of a repeated field starts with all of them owed,
      and when it ends none is left. */
  lemma {:induction false} AllItems<A>(whole: bytes, buf: bytes, num: uint32, fieldsOf: A -> seq<Field>,
          items: seq<A>, rest: seq<Field>)
    ensures Owes(whole, buf, Repeated(num, fieldsOf, items) + rest) == Owes(whole, buf, Repeated(num, fieldsOf,
        items[0..]) + rest)
    ensures Owes(whole, buf, rest) == Owes(whole, buf, Repeated(num, fieldsOf, items[|items|..]) + rest)
    ensures Owes(whole, buf, []) ==> whole == buf
  {
    assert items[0..] == items;
    assert [] + rest == rest;
  }

  method Marshal(td: TracesData) returns (out: bytes)
    ensures out == Marshaled(td)
  {
    hide Owes, Encode, EncodeField, Repeated, ResourceSpansFields;
    var enc := new Encoder();
    ghost var whole := Marshaled(td);
    Start(whole, enc.buf, TracesFields(td));
    AllItems(whole, enc.buf, TRACES_RESOURCE_SPANS, ResourceSpansFields, td.resourceSpans, []);
    for i := 0 to |td.resourceSpans|
      invariant Owes(whole, enc.buf, Repeated(TRACES_RESOURCE_SPANS, ResourceSpansFields, td.resourceSpans[i..]) + [])
    {
      ghost var before := enc.buf;
      var inner := new Encoder();
      MarshalResourceSpans(inner, td.resourceSpans[i]);
      enc.EncodeMessage(TRACES_RESOURCE_SPANS, inner, ResourceSpansFields(td.resourceSpans[i]));
      PayItem(whole, before, enc.buf, TRACES_RESOURCE_SPANS, ResourceSpansFields, td.resourceSpans, i, []);
    }
    AllItems(whole, enc.buf, TRACES_RESOURCE_SPANS, ResourceSpansFields, td.resourceSpans, []);
    out := enc.buf;
  }

  lemma {:induction false} Start(whole: bytes, buf: bytes, fields: seq<Field>)
    requires whole == buf + Encode(fields)
    ensures Owes(whole, buf, fields) && Owes(whole, buf, fields + [])
  {
    assert fields + [] == fields;
  }

  method MarshalResourceSpans(enc: Encoder, rs: ResourceSpans)
    modifies enc
    ensures enc.buf == old(enc.buf) + Encode(ResourceSpansFields(rs))
  {
    hide Owes, Encode, EncodeField, Repeated, ScopeSpansFields, Opt, ResourceFields;
    ghost var whole := enc.buf + Encode(ResourceSpansFields(rs));
    ghost var scopes := Repeated(RESOURCE_SPANS_SCOPE_SPANS, ScopeSpansFields, rs.scopeSpans);
    Start(whole, enc.buf, ResourceSpansFields(rs));
    if |rs.resource.attributes| > 0 {
      var inner := new Encoder();
      MarshalResource(inner, rs.resource);
      enc.EncodeMessage(RESOURCE_SPANS_RESOURCE, inner, ResourceFields(rs.resource));
    }
    PayOpt(whole, old(enc.buf), enc.buf, rs.resource.attributes != [],
           MessageField(RESOURCE_SPANS_RESOURCE, ResourceFields(rs.resource)), scopes);
    Plus(whole, enc.buf, scopes);
    AllItems(whole, enc.buf, RESOURCE_SPANS_SCOPE_SPANS, ScopeSpansFields, rs.scopeSpans, []);
    for i := 0 to |rs.scopeSpans|
      invariant Owes(whole, enc.buf, Repeated(RESOURCE_SPANS_SCOPE_SPANS, ScopeSpansFields, rs.scopeSpans[i..]) + [])
    {
      ghost var before := enc.buf;
      var inner := new Encoder();
      MarshalScopeSpans(inner, rs.scopeSpans[i]);
      enc.EncodeMessage(RESOURCE_SPANS_SCOPE_SPANS, inner, ScopeSpansFields(rs.scopeSpans[i]));
      PayItem(whole, before, enc.buf, RESOURCE_SPANS_SCOPE_SPANS, ScopeSpansFields, rs.scopeSpans, i, []);
    }
    AllItems(whole, enc.buf, RESOURCE_SPANS_SCOPE_SPANS, ScopeSpansFields, rs.scopeSpans, []);
  }

  lemma {:induction false} Plus(whole: bytes, buf: bytes, fields: seq<Field>)
    requires Owes(whole, buf, fields)
    ensures Owes(whole, buf, fields + [])
  {
    assert fields + [] == fields;
  }

  method MarshalResource(enc: Encoder, r: Resource)
    modifies enc
    ensures enc.buf == old(enc.buf) + Encode(ResourceFields(r))
  {
    MarshalAttributes(enc, RESOURCE_ATTRIBUTES, r.attributes);
  }

  method MarshalScopeSpans(enc: Encoder, ss: ScopeSpans)
    modifies enc
    ensures enc.buf == old(enc.buf) + Encode(ScopeSpansFields(ss))
  {
    hide Owes, Encode, EncodeField, Repeated, SpanFields, Opt, ScopeFields;
    ghost var whole := enc.buf + Encode(ScopeSpansFields(ss));
    ghost var spans := Repeated(SCOPE_SPANS_SPANS, SpanFields, ss.spans);
    Start(whole, enc.buf, ScopeSpansFields(ss));
    if ss.scope.name != [] || ss.scope.version != [] {
      var inner := new Encoder();
      MarshalScope(inner, ss.scope);
      enc.EncodeMessage(SCOPE_SPANS_SCOPE, inner, ScopeFields(ss.scope));
    }
    PayOpt(whole, old(enc.buf), enc.buf, ss.scope.name != [] || ss.scope.version != [],
           MessageField(SCOPE_SPANS_SCOPE, ScopeFields(ss.scope)), spans);
    Plus(whole, enc.buf, spans);
    AllItems(whole, enc.buf, SCOPE_SPANS_SPANS, SpanFields, ss.spans, []);
    for i := 0 to |ss.spans|
      invariant Owes(whole, enc.buf, Repeated(SCOPE_SPANS_SPANS, SpanFields, ss.spans[i..]) + [])
    {
      ghost var before := enc.buf;
      var inner := new Encoder();
      MarshalSpan(inner, ss.spans[i]);
      enc.EncodeMessage(SCOPE_SPANS_SPANS, inner, SpanFields(ss.spans[i]));
      PayItem(whole, before, enc.buf, SCOPE_SPANS_SPANS, SpanFields, ss.spans, i, []);
    }
    AllItems(whole, enc.buf, SCOPE_SPANS_SPANS, SpanFields, ss.spans, []);
  }

  method MarshalScope(enc: Encoder, s: Scope)
    modifies enc
    ensures enc.buf == old(enc.buf) + Encode(ScopeFields(s))
  {
    hide Owes, Encode, EncodeField, Opt;
    ghost var whole := enc.buf + Encode(ScopeFields(s));
    ghost var attributes := PairFields(SCOPE_ATTRIBUTES, s.attributes);
    ghost var version := BytesField(SCOPE_VERSION, s.version);
    Start(whole, enc.buf, ScopeFields(s));
    if s.name != [] {
      enc.WriteTagBytes(SCOPE_NAME, s.name);
    }
    PayOpt(whole, old(enc.buf), enc.buf, s.name != [], BytesField(SCOPE_NAME, s.name), Opt(s.version != [],
        version) + attributes);
    ghost var before := enc.buf;
    if s.version != [] {
      enc.WriteTagBytes(SCOPE_VERSION, s.version);
    }
    PayOpt(whole, before, enc.buf, s.version != [], version, attributes);
    Plus(whole, enc.buf, attributes);
    before := enc.buf;
    MarshalAttributes(enc, SCOPE_ATTRIBUTES, s.attributes);
    PayRun(whole, before, enc.buf, attributes, []);
    Done(whole, enc.buf);
  }

  lemma {:induction false} Done(whole: bytes, buf: bytes)
    requires Owes(whole, buf, [])
    ensures whole == buf
  {
  }

  method MarshalSpan(enc: Encoder, s: Span)
    modifies enc
    ensures enc.buf == old(enc.buf) + Encode(SpanFields(s))
  {
    hide Owes, Encode, EncodeField, Repeated, SpanHead, SpanTail, EventFields, LinkFields, PairFields;
    ghost var whole := enc.buf + Encode(SpanFields(s));
    ghost var tail := SpanTail(s);
    ghost var links := Repeated(SPAN_LINKS, LinkFields, s.links) + tail;
    ghost var events := Repeated(SPAN_EVENTS, EventFields, s.events) + links;
    ghost var attributes := PairFields(SPAN_ATTRIBUTES, s.attributes);
    Start(whole, enc.buf, SpanFields(s));
    MarshalSpanHead(enc, s);
    PayRun(whole, old(enc.buf), enc.buf, SpanHead(s), attributes + events);
    ghost var before := enc.buf;
    MarshalAttributes(enc, SPAN_ATTRIBUTES, s.attributes);
    PayRun(whole, before, enc.buf, attributes, events);
    AllItems(whole, enc.buf, SPAN_EVENTS, EventFields, s.events, links);
    for i := 0 to |s.events|
      invariant Owes(whole, enc.buf, Repeated(SPAN_EVENTS, EventFields, s.events[i..]) + links)
    {
      before := enc.buf;
      var inner := new Encoder();
      MarshalSpanEvent(inner, s.events[i]);
      enc.EncodeMessage(SPAN_EVENTS, inner, EventFields(s.events[i]));
      PayItem(whole, before, enc.buf, SPAN_EVENTS, EventFields, s.events, i, links);
    }
    AllItems(whole, enc.buf, SPAN_EVENTS, EventFields, s.events, links);
    AllItems(whole, enc.buf, SPAN_LINKS, LinkFields, s.links, tail);
    for i := 0 to |s.links|
      invariant Owes(whole, enc.buf, Repeated(SPAN_LINKS, LinkFields, s.links[i..]) + tail)
    {
      before := enc.buf;
      var inner := new Encoder();
      MarshalSpanLink(inner, s.links[i]);
      enc.EncodeMessage(SPAN_LINKS, inner, LinkFields(s.links[i]));
      PayItem(whole, before, enc.buf, SPAN_LINKS, LinkFields, s.links, i, tail);
    }
    AllItems(whole, enc.buf, SPAN_LINKS, LinkFields, s.links, tail);
    before := enc.buf;
    Plus(whole, enc.buf, tail);
    MarshalSpanTail(enc, s);
    PayRun(whole, before, enc.buf, tail, []);
    Done(whole, enc.buf);
  }

  /** The first half of marshalSpan: the fields before the attributes. */
  method MarshalSpanHead(enc: Encoder, s: Span)
    modifies enc
    ensures enc.buf == old(enc.buf) + Encode(SpanHead(s))
  {
    hide Owes, Encode, EncodeField, Opt;
    ghost var whole := enc.buf + Encode(SpanHead(s));
    ghost var r5 := [Fixed64Field(SPAN_START_TIME, s.startTimeUnixNano), Fixed64Field(SPAN_END_TIME, s.endTimeUnixNano)];
    ghost var r4 := Opt(s.kind != 0, VarintField(SPAN_KIND, AsUint64(s.kind))) + r5;
    ghost var r3 := [BytesField(SPAN_NAME, s.name)] + r4;
    ghost var r2 := Opt(s.parentSpanID != ZERO_SPAN_ID, BytesField(SPAN_PARENT_SPAN_ID, s.parentSpanID)) + r3;
    ghost var r1 := Opt(s.traceState != [], BytesField(SPAN_TRACE_STATE, s.traceState)) + r2;
    Start(whole, enc.buf, SpanHead(s));
    enc.WriteTagBytes(SPAN_TRACE_ID, s.traceID);
    enc.WriteTagBytes(SPAN_SPAN_ID, s.spanID);
    PayTwo(whole, old(enc.buf), enc.buf, BytesField(SPAN_TRACE_ID, s.traceID), BytesField(SPAN_SPAN_ID, s.spanID), r1);
    ghost var before := enc.buf;
    if s.traceState != [] {
      enc.WriteTagBytes(SPAN_TRACE_STATE, s.traceState);
    }
    PayOpt(whole, before, enc.buf, s.traceState != [], BytesField(SPAN_TRACE_STATE, s.traceState), r2);
    before := enc.buf;
    if s.parentSpanID != ZERO_SPAN_ID {
      enc.WriteTagBytes(SPAN_PARENT_SPAN_ID, s.parentSpanID);
    }
    PayOpt(whole, before, enc.buf, s.parentSpanID != ZERO_SPAN_ID, BytesField(SPAN_PARENT_SPAN_ID, s.parentSpanID), r3);
    before := enc.buf;
    enc.WriteTagBytes(SPAN_NAME, s.name);
    Pay(whole, before, enc.buf, BytesField(SPAN_NAME, s.name), r4);
    before := enc.buf;
    if s.kind != 0 {
      enc.WriteTagVarint(SPAN_KIND, AsUint64(s.kind));
    }
    PayOpt(whole, before, enc.buf, s.kind != 0, VarintField(SPAN_KIND, AsUint64(s.kind)), r5);
    Plus(whole, enc.buf, r5);
    before := enc.buf;
    enc.WriteTagFixed64(SPAN_START_TIME, s.startTimeUnixNano);
    enc.WriteTagFixed64(SPAN_END_TIME, s.endTimeUnixNano);
    PayTwo(whole, before, enc.buf, Fixed64Field(SPAN_START_TIME, s.startTimeUnixNano),
           Fixed64Field(SPAN_END_TIME, s.endTimeUnixNano), []);
    Done(whole, enc.buf);
  }

  /** The end of marshalSpan: the fields after the links. */
  method MarshalSpanTail(enc: Encoder, s: Span)
    modifies enc
    ensures enc.buf == old(enc.buf) + Encode(SpanTail(s))
  {
    hide Owes, Encode, EncodeField, Opt, StatusFields;
    ghost var whole := enc.buf + Encode(SpanTail(s));
    ghost var f3 := VarintField(SPAN_DROPPED_LINKS, s.droppedLinksCount);
    ghost var f2 := VarintField(SPAN_DROPPED_EVENTS, s.droppedEventsCount);
    ghost var f1 := VarintField(SPAN_DROPPED_ATTRIBUTES, s.droppedAttributesCount);
    ghost var r2 := Opt(s.droppedEventsCount > 0, f2) + Opt(s.droppedLinksCount > 0, f3);
    ghost var r1 := Opt(s.droppedAttributesCount > 0, f1) + r2;
    Start(whole, enc.buf, SpanTail(s));
    if s.status.code != 0 || s.status.message != [] {
      var inner := new Encoder();
      MarshalStatus(inner, s.status);
      enc.EncodeMessage(SPAN_STATUS, inner, StatusFields(s.status));
    }
    PayOpt(whole, old(enc.buf), enc.buf, s.status.code != 0 || s.status.message != [],
           MessageField(SPAN_STATUS, StatusFields(s.status)), r1);
    ghost var before := enc.buf;
    if s.droppedAttributesCount > 0 {
      enc.WriteTagVarint(SPAN_DROPPED_ATTRIBUTES, s.droppedAttributesCount);
    }
    PayOpt(whole, before, enc.buf, s.droppedAttributesCount > 0, f1, r2);
    before := enc.buf;
    if s.droppedEventsCount > 0 {
      enc.WriteTagVarint(SPAN_DROPPED_EVENTS, s.droppedEventsCount);
    }
    PayOpt(whole, before, enc.buf, s.droppedEventsCount > 0, f2, Opt(s.droppedLinksCount > 0, f3));
    before := enc.buf;
    if s.droppedLinksCount > 0 {
      enc.WriteTagVarint(SPAN_DROPPED_LINKS, s.droppedLinksCount);
    }
    PayLast(whole, before, enc.buf, s.droppedLinksCount > 0, f3);
  }

  method MarshalStatus(enc: Encoder, s: Status)
    modifies enc
    ensures enc.buf == old(enc.buf) + Encode(StatusFields(s))
  {
    hide Owes, Encode, EncodeField, Opt;
    ghost var whole := enc.buf + Encode(StatusFields(s));
    ghost var code := VarintField(STATUS_CODE, AsUint64(s.code));
    Start(whole, enc.buf, StatusFields(s));
    if s.message != [] {
      enc.WriteTagBytes(STATUS_MESSAGE, s.message);
    }
    PayOpt(whole, old(enc.buf), enc.buf, s.message != [], BytesField(STATUS_MESSAGE, s.message), Opt(s.code != 0, code));
    ghost var before := enc.buf;
    if s.code != 0 {
      enc.WriteTagVarint(STATUS_CODE, AsUint64(s.code));
    }
    PayLast(whole, before, enc.buf, s.code != 0, code);
  }

  method MarshalSpanEvent(enc: Encoder, e: SpanEvent)
    modifies enc
    ensures enc.buf == old(enc.buf) + Encode(EventFields(e))
  {
    hide Owes, Encode, EncodeField, Opt, PairFields;
    ghost var whole := enc.buf + Encode(EventFields(e));
    ghost var last := VarintField(EVENT_DROPPED_ATTRIBUTES, e.droppedAttributesCount);
    ghost var r2 := Opt(e.droppedAttributesCount > 0, last);
    ghost var r1 := PairFields(EVENT_ATTRIBUTES, e.attributes) + r2;
    Start(whole, enc.buf, EventFields(e));
    enc.WriteTagFixed64(EVENT_TIME, e.timeUnixNano);
    enc.WriteTagBytes(EVENT_NAME, e.name);
    PayTwo(whole, old(enc.buf), enc.buf, Fixed64Field(EVENT_TIME, e.timeUnixNano), BytesField(EVENT_NAME, e.name), r1);
    ghost var before := enc.buf;
    MarshalAttributes(enc, EVENT_ATTRIBUTES, e.attributes);
    PayRun(whole, before, enc.buf, PairFields(EVENT_ATTRIBUTES, e.attributes), r2);
    before := enc.buf;
    if e.droppedAttributesCount > 0 {
      enc.WriteTagVarint(EVENT_DROPPED_ATTRIBUTES, e.droppedAttributesCount);
    }
    PayLast(whole, before, enc.buf, e.droppedAttributesCount > 0, last);
  }

  method MarshalSpanLink(enc: Encoder, l: SpanLink)
    modifies enc
    ensures enc.buf == old(enc.buf) + Encode(LinkFields(l))
  {
    hide Owes, Encode, EncodeField, Opt, PairFields;
    ghost var whole := enc.buf + Encode(LinkFields(l));
    ghost var last := VarintField(LINK_DROPPED_ATTRIBUTES, l.droppedAttributesCount);
    ghost var r3 := Opt(l.droppedAttributesCount > 0, last);
    ghost var r2 := PairFields(LINK_ATTRIBUTES, l.attributes) + r3;
    ghost var r1 := Opt(l.traceState != [], BytesField(LINK_TRACE_STATE, l.traceState)) + r2;
    Start(whole, enc.buf, LinkFields(l));
    enc.WriteTagBytes(LINK_TRACE_ID, l.traceID);
    enc.WriteTagBytes(LINK_SPAN_ID, l.spanID);
    PayTwo(whole, old(enc.buf), enc.buf, BytesField(LINK_TRACE_ID, l.traceID), BytesField(LINK_SPAN_ID, l.spanID), r1);
    ghost var before := enc.buf;
    if l.traceState != [] {
      enc.WriteTagBytes(LINK_TRACE_STATE, l.traceState);
    }
    PayOpt(whole, before, enc.buf, l.traceState != [], BytesField(LINK_TRACE_STATE, l.traceState), r2);
    before := enc.buf;
    MarshalAttributes(enc, LINK_ATTRIBUTES, l.attributes);
    PayRun(whole, before, enc.buf, PairFields(LINK_ATTRIBUTES, l.attributes), r3);
    before := enc.buf;
    if l.droppedAttributesCount > 0 {
      enc.WriteTagVarint(LINK_DROPPED_ATTRIBUTES, l.droppedAttributesCount);
    }
    PayLast(whole, before, enc.buf, l.droppedAttributesCount > 0, last);
  }

  /** Also the loop of the key-value list case of marshalAnyValue. */
  method MarshalAttributes(enc: Encoder, num: uint32, kvs: Attributes)
    modifies enc
    ensures enc.buf == old(enc.buf) + Encode(PairFields(num, kvs))
    decreases kvs, 1
  {
    hide Owes, Encode, EncodeField, AnyFields, KeyValueFields;
    ghost var whole := enc.buf + Encode(PairFields(num, kvs));
    assert kvs[0..] == kvs;
    Start(whole, enc.buf, PairFields(num, kvs));
    for i := 0 to |kvs|
      invariant Owes(whole, enc.buf, PairFields(num, kvs[i..]))
    {
      ghost var before := enc.buf;
      var pair := new Encoder();
      MarshalKeyValue(pair, kvs[i]);
      enc.EncodeMessage(num, pair, KeyValueFields(kvs[i]));
      assert kvs[i..][1..] == kvs[i + 1..];
      Pay(whole, before, enc.buf, MessageField(num, KeyValueFields(kvs[i])), PairFields(num, kvs[i + 1..]));
    }
    Done(whole, enc.buf);
  }

  method MarshalKeyValue(enc: Encoder, kv: KeyValue)
    modifies enc
    ensures enc.buf == old(enc.buf) + Encode(KeyValueFields(kv))
    decreases kv, 0
  {
    hide Owes, Encode, EncodeField, AnyFields;
    ghost var whole := enc.buf + Encode(KeyValueFields(kv));
    Start(whole, enc.buf, KeyValueFields(kv));
    enc.WriteTagBytes(KV_KEY, kv.key);
    var value := new Encoder();
    MarshalAnyValue(value, kv.value);
    enc.EncodeMessage(KV_VALUE, value, AnyFields(kv.value));
    PayTwo(whole, old(enc.buf), enc.buf, BytesField(KV_KEY, kv.key), MessageField(KV_VALUE, AnyFields(kv.value)), []);
    Done(whole, enc.buf);
  }

  method MarshalAnyValue(enc: Encoder, v: AnyValue)
    modifies enc
    ensures enc.buf == old(enc.buf) + Encode(AnyFields(v))
    decreases v, 0
  {
    hide Encode, EncodeField, ArrayFields, PairFields;
    if AnyFields(v) != [] {
      EncodeOne(AnyFields(v)[0]);
    }
    if v.typ == STRING_TYPE {
      enc.WriteTagBytes(ANY_STRING, v.str);
    } else if v.typ == BOOL_TYPE {
      enc.WriteTagBool(ANY_BOOL, v.boolVal);
    } else if v.typ == INT_TYPE {
      enc.WriteTagSignedVarint(ANY_INT, v.intVal);
    } else if v.typ == DOUBLE_TYPE {
      enc.WriteTagFixed64(ANY_DOUBLE, v.doubleVal);
    } else if v.typ == BYTES_TYPE {
      enc.WriteTagBytes(ANY_BYTES, v.bytesVal);
    } else if v.typ == ARRAY_TYPE {
      var inner := new Encoder();
      MarshalArray(inner, v.arrayVal);
      enc.EncodeMessage(ANY_ARRAY, inner, ArrayFields(v.arrayVal));
    } else if v.typ == KV_LIST_TYPE {
      var inner := new Encoder();
      MarshalAttributes(inner, KV_LIST_VALUES, v.kvListVal);
      enc.EncodeMessage(ANY_KV_LIST, inner, PairFields(KV_LIST_VALUES, v.kvListVal));
    } else {
      EncodeNothing();
    }
  }

  lemma {:induction false} EncodeNothing()
    ensures Encode([]) == []
  {
  }

  method MarshalArray(enc: Encoder, vs: seq<AnyValue>)
    modifies enc
    ensures enc.buf == old(enc.buf) + Encode(ArrayFields(vs))
    decreases vs, 1
  {
    hide Owes, Encode, EncodeField, AnyFields;
    ghost var whole := enc.buf + Encode(ArrayFields(vs));
    assert vs[0..] == vs;
    Start(whole, enc.buf, ArrayFields(vs));
    for i := 0 to |vs|
      invariant Owes(whole, enc.buf, ArrayFields(vs[i..]))
    {
      ghost var before := enc.buf;
      var inner := new Encoder();
      MarshalAnyValue(inner, vs[i]);
      enc.EncodeMessage(ARRAY_VALUES, inner, AnyFields(vs[i]));
      assert vs[i..][1..] == vs[i + 1..];
      Pay(whole, before, enc.buf, MessageField(ARRAY_VALUES, AnyFields(vs[i])), ArrayFields(vs[i + 1..]));
    }
    Done(whole, enc.buf);
  }
}
