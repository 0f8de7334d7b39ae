/** Unmarshal: internal/protocol/otlp/unmarshal.go. Each method reads fields from
    a decoder until it is done; its result is the fold of the fields that the
    buffer decodes to, or the first error. */
module OtlpUnmarshal {
  import opened Bytes
  import opened Results
  import opened Wire
  import opened Messages
  import opened Protobuf
  import opened OtlpTypes
  import opened OtlpFields

  /** What handling the value of a field at pos makes of the value read so far. */
  function StepValue<A>(step: (A, Field) -> A, acc: A, t: nat, num: uint32, wireType: WireType,
                        buf: bytes, pos: nat): (r: Read<A>)
    ensures r.Got? ==> pos < r.next <= |buf|
  {
    match ReadValue(Otlp, Otlp(t, num), num, wireType, buf, pos)
    case Bad(e) => Bad(e)
    case Got(fs, next) => Got(Fold(step, acc, fs), next)
  }

  /** The same for a field with its tag. */
  function StepField<A>(step: (A, Field) -> A, acc: A, t: nat, buf: bytes, pos: nat): Read<A> {
    match ReadTag(buf, pos)
    case Bad(e) => Bad(e)
    case Got(tag, p) => StepValue(step, acc, t, tag.0, tag.1, buf, p)
  }

  /** A loop that handles one field after another computes From. */
  lemma {:induction false} OneField<A>(step: (A, Field) -> A, acc: A, t: nat, buf: bytes, pos: nat)
    requires pos < |buf|
    ensures var r := StepField(step, acc, t, buf, pos);
            From(step, acc, t, buf, pos) == if r.Got? then From(step, r.value, t, buf, r.next) else Err(r.error)
  {
    hide Otlp, ReadValue, Fold;
    var one := ReadOne(Otlp, t, buf, pos);
    if one.Got? {
      var rest := Decode(Otlp, t, buf, one.next);
      if rest.Ok? {
        FoldConcat(step, acc, one.value, rest.value);
      }
    }
  }

  lemma {:induction false} Folded<A>(step: (A, Field) -> A, acc: A, f: Field)
    ensures Fold(step, acc, [f]) == step(acc, f)
  {
    assert [f][1..] == [];
  }

  // ----- the explicit folds over values, as folds -----

  lemma {:induction false} AnyFold(v: AnyValue, fs: seq<Field>)
    ensures Fold(AnyStep, v, fs) == AnyOf(v, fs)
    decreases fs
  {
    if fs != [] {
      AnyFold(AnyStep(v, fs[0]), fs[1..]);
    }
  }

  lemma {:induction false} ArrayFold(vs: seq<AnyValue>, fs: seq<Field>)
    ensures Fold(ArrayStep, vs, fs) == ArrayOf(vs, fs)
    decreases fs
  {
    if fs != [] {
      ArrayFold(ArrayStep(vs, fs[0]), fs[1..]);
    }
  }

  lemma {:induction false} KeyValueFold(kv: KeyValue, fs: seq<Field>)
    ensures Fold(KeyValueStep, kv, fs) == KeyValueOf(kv, fs)
    decreases fs
  {
    if fs != [] {
      KeyValueFold(KeyValueStep(kv, fs[0]), fs[1..]);
    }
  }

  lemma {:induction false} PairsFold(kvs: seq<KeyValue>, fs: seq<Field>)
    ensures Fold(PairsStep, kvs, fs) == PairsOf(kvs, fs)
    decreases fs
  {
    if fs != [] {
      PairsFold(PairsStep(kvs, fs[0]), fs[1..]);
    }
  }

  // ----- the message types -----

  method Unmarshal(data: bytes) returns (r: Result<TracesData, Error>)
    ensures r == Unmarshaled(data)
  {
    var dec := new Decoder(data);
    r := UnmarshalTraces(dec);
  }

  method UnmarshalTraces(dec: Decoder) returns (r: Result<TracesData, Error>)
    modifies dec
    ensures r == From(TracesStep, EMPTY_TRACES, TRACES_DATA, dec.buf, old(dec.pos))
  {
    hide Otlp, StepValue, From, ReadTag, TracesStep;
    var td: TracesData := EMPTY_TRACES;
    while !dec.Done()
      invariant dec.pos >= old(dec.pos)
      invariant From(TracesStep, EMPTY_TRACES, TRACES_DATA, dec.buf, old(dec.pos)) ==
                From(TracesStep, td, TRACES_DATA, dec.buf, dec.pos)
      decreases |dec.buf| - dec.pos
    {
      OneField(TracesStep, td, TRACES_DATA, dec.buf, dec.pos);
      var tag :- dec.ReadField();
      td :- TracesField(dec, td, tag.0, tag.1);
    }
    AtEnd(TracesStep, td, TRACES_DATA, dec.buf, dec.pos);
    return Ok(td);
  }

  method TracesField(dec: Decoder, td: TracesData, num: uint32, wireType: WireType) returns (r: Result<TracesData, Error>)
    modifies dec
    ensures Reads(StepValue(TracesStep, td, TRACES_DATA, num, wireType, dec.buf, old(dec.pos)), r, dec.pos)
  {
    hide Decode, Wire.ReadBytes, Wire.ReadVarint, Wire.ReadFixed64, Skip, KeyValueOf, AnyOf, ArrayOf, PairsOf, WithKey;
    if num == TRACES_RESOURCE_SPANS {
      var b :- dec.ReadBytes();
      var inner := new Decoder(b);
      var sub :- UnmarshalResourceSpans(inner);
      ghost var fs := Decode(Otlp, RESOURCE_SPANS, b, 0).value;
      Folded(TracesStep, td, MessageField(num, fs));
      return Ok(TracesData(td.resourceSpans + [sub]));
    } else {
      var _ :- dec.SkipField(wireType);
      return Ok(td);
    }
  }

  method UnmarshalResourceSpans(dec: Decoder) returns (r: Result<ResourceSpans, Error>)
    modifies dec
    ensures r == From(ResourceSpansStep, EMPTY_RESOURCE_SPANS, RESOURCE_SPANS, dec.buf, old(dec.pos))
  {
    hide Otlp, StepValue, From, ReadTag, ResourceSpansStep;
    var rs: ResourceSpans := EMPTY_RESOURCE_SPANS;
    while !dec.Done()
      invariant dec.pos >= old(dec.pos)
      invariant From(ResourceSpansStep, EMPTY_RESOURCE_SPANS, RESOURCE_SPANS, dec.buf, old(dec.pos)) ==
                From(ResourceSpansStep, rs, RESOURCE_SPANS, dec.buf, dec.pos)
      decreases |dec.buf| - dec.pos
    {
      OneField(ResourceSpansStep, rs, RESOURCE_SPANS, dec.buf, dec.pos);
      var tag :- dec.ReadField();
      rs :- ResourceSpansField(dec, rs, tag.0, tag.1);
    }
    AtEnd(ResourceSpansStep, rs, RESOURCE_SPANS, dec.buf, dec.pos);
    return Ok(rs);
  }

  method ResourceSpansField(dec: Decoder, rs: ResourceSpans, num: uint32, wireType: WireType)
          returns (r: Result<ResourceSpans, Error>)
    modifies dec
    ensures Reads(StepValue(ResourceSpansStep, rs, RESOURCE_SPANS, num, wireType, dec.buf, old(dec.pos)), r, dec.pos)
  {
    hide Decode, Wire.ReadBytes, Wire.ReadVarint, Wire.ReadFixed64, Skip, KeyValueOf, AnyOf, ArrayOf, PairsOf, WithKey;
    if num == RESOURCE_SPANS_RESOURCE {
      var b :- dec.ReadBytes();
      var inner := new Decoder(b);
      var sub :- UnmarshalResource(inner);
      ghost var fs := Decode(Otlp, RESOURCE, b, 0).value;
      Folded(ResourceSpansStep, rs, MessageField(num, fs));
      return Ok(rs.(resource := sub));
    } else if num == RESOURCE_SPANS_SCOPE_SPANS {
      var b :- dec.ReadBytes();
      var inner := new Decoder(b);
      var sub :- UnmarshalScopeSpans(inner);
      ghost var fs := Decode(Otlp, SCOPE_SPANS, b, 0).value;
      Folded(ResourceSpansStep, rs, MessageField(num, fs));
      return Ok(rs.(scopeSpans := rs.scopeSpans + [sub]));
    } else {
      var _ :- dec.SkipField(wireType);
      return Ok(rs);
    }
  }

  method UnmarshalResource(dec: Decoder) returns (r: Result<Resource, Error>)
    modifies dec
    ensures r == From(ResourceStep, EMPTY_RESOURCE, RESOURCE, dec.buf, old(dec.pos))
  {
    hide Otlp, StepValue, From, ReadTag, ResourceStep;
    var res: Resource := EMPTY_RESOURCE;
    while !dec.Done()
      invariant dec.pos >= old(dec.pos)
      invariant From(ResourceStep, EMPTY_RESOURCE, RESOURCE, dec.buf, old(dec.pos)) ==
                From(ResourceStep, res, RESOURCE, dec.buf, dec.pos)
      decreases |dec.buf| - dec.pos
    {
      OneField(ResourceStep, res, RESOURCE, dec.buf, dec.pos);
      var tag :- dec.ReadField();
      res :- ResourceField(dec, res, tag.0, tag.1);
    }
    AtEnd(ResourceStep, res, RESOURCE, dec.buf, dec.pos);
    return Ok(res);
  }

  method ResourceField(dec: Decoder, res: Resource, num: uint32, wireType: WireType) returns (r: Result<Resource, Error>)
    modifies dec
    ensures Reads(StepValue(ResourceStep, res, RESOURCE, num, wireType, dec.buf, old(dec.pos)), r, dec.pos)
  {
    hide Decode, Wire.ReadBytes, Wire.ReadVarint, Wire.ReadFixed64, Skip, KeyValueOf, AnyOf, ArrayOf, PairsOf, WithKey;
    if num == RESOURCE_ATTRIBUTES {
      var b :- dec.ReadBytes();
      var inner := new Decoder(b);
      var sub :- UnmarshalKeyValue(inner);
      ghost var fs := Decode(Otlp, KEY_VALUE, b, 0).value;
      Folded(ResourceStep, res, MessageField(num, fs));
      KeyValueFold(EMPTY_KEY_VALUE, fs);
      var items := Set(res.attributes, sub.key, sub.value);
      return Ok(Resource(items));
    } else {
      var _ :- dec.SkipField(wireType);
      return Ok(res);
    }
  }

  method UnmarshalScopeSpans(dec: Decoder) returns (r: Result<ScopeSpans, Error>)
    modifies dec
    ensures r == From(ScopeSpansStep, EMPTY_SCOPE_SPANS, SCOPE_SPANS, dec.buf, old(dec.pos))
  {
    hide Otlp, StepValue, From, ReadTag, ScopeSpansStep;
    var ss: ScopeSpans := EMPTY_SCOPE_SPANS;
    while !dec.Done()
      invariant dec.pos >= old(dec.pos)
      invariant From(ScopeSpansStep, EMPTY_SCOPE_SPANS, SCOPE_SPANS, dec.buf, old(dec.pos)) == From(ScopeSpansStep,
          ss, SCOPE_SPANS, dec.buf, dec.pos)
      decreases |dec.buf| - dec.pos
    {
      OneField(ScopeSpansStep, ss, SCOPE_SPANS, dec.buf, dec.pos);
      var tag :- dec.ReadField();
      ss :- ScopeSpansField(dec, ss, tag.0, tag.1);
    }
    AtEnd(ScopeSpansStep, ss, SCOPE_SPANS, dec.buf, dec.pos);
    return Ok(ss);
  }

  method ScopeSpansField(dec: Decoder, ss: ScopeSpans, num: uint32, wireType: WireType)
          returns (r: Result<ScopeSpans, Error>)
    modifies dec
    ensures Reads(StepValue(ScopeSpansStep, ss, SCOPE_SPANS, num, wireType, dec.buf, old(dec.pos)), r, dec.pos)
  {
    hide Decode, Wire.ReadBytes, Wire.ReadVarint, Wire.ReadFixed64, Skip, KeyValueOf, AnyOf, ArrayOf, PairsOf, WithKey;
    if num == SCOPE_SPANS_SCOPE {
      var b :- dec.ReadBytes();
      var inner := new Decoder(b);
      var sub :- UnmarshalScope(inner);
      ghost var fs := Decode(Otlp, SCOPE, b, 0).value;
      Folded(ScopeSpansStep, ss, MessageField(num, fs));
      return Ok(ss.(scope := sub));
    } else if num == SCOPE_SPANS_SPANS {
      var b :- dec.ReadBytes();
      var inner := new Decoder(b);
      var sub :- UnmarshalSpan(inner);
      ghost var fs := Decode(Otlp, SPAN, b, 0).value;
      Folded(ScopeSpansStep, ss, MessageField(num, fs));
      return Ok(ss.(spans := ss.spans + [sub]));
    } else {
      var _ :- dec.SkipField(wireType);
      return Ok(ss);
    }
  }

  method UnmarshalScope(dec: Decoder) returns (r: Result<Scope, Error>)
    modifies dec
    ensures r == From(ScopeStep, EMPTY_SCOPE, SCOPE, dec.buf, old(dec.pos))
  {
    hide Otlp, StepValue, From, ReadTag, ScopeStep;
    var s: Scope := EMPTY_SCOPE;
    while !dec.Done()
      invariant dec.pos >= old(dec.pos)
      invariant From(ScopeStep, EMPTY_SCOPE, SCOPE, dec.buf, old(dec.pos)) == From(ScopeStep, s, SCOPE, dec.buf, dec.pos)
      decreases |dec.buf| - dec.pos
    {
      OneField(ScopeStep, s, SCOPE, dec.buf, dec.pos);
      var tag :- dec.ReadField();
      s :- ScopeField(dec, s, tag.0, tag.1);
    }
    AtEnd(ScopeStep, s, SCOPE, dec.buf, dec.pos);
    return Ok(s);
  }

  method ScopeField(dec: Decoder, s: Scope, num: uint32, wireType: WireType) returns (r: Result<Scope, Error>)
    modifies dec
    ensures Reads(StepValue(ScopeStep, s, SCOPE, num, wireType, dec.buf, old(dec.pos)), r, dec.pos)
  {
    hide Decode, Wire.ReadBytes, Wire.ReadVarint, Wire.ReadFixed64, Skip, KeyValueOf, AnyOf, ArrayOf, PairsOf, WithKey;
    if num == SCOPE_NAME {
      var b :- dec.ReadBytes();
      Folded(ScopeStep, s, BytesField(num, b));
      return Ok(s.(name := b));
    } else if num == SCOPE_VERSION {
      var b :- dec.ReadBytes();
      Folded(ScopeStep, s, BytesField(num, b));
      return Ok(s.(version := b));
    } else if num == SCOPE_ATTRIBUTES {
      var b :- dec.ReadBytes();
      var inner := new Decoder(b);
      var sub :- UnmarshalKeyValue(inner);
      ghost var fs := Decode(Otlp, KEY_VALUE, b, 0).value;
      Folded(ScopeStep, s, MessageField(num, fs));
      KeyValueFold(EMPTY_KEY_VALUE, fs);
      var items := Set(s.attributes, sub.key, sub.value);
      return Ok(s.(attributes := items));
    } else {
      var _ :- dec.SkipField(wireType);
      return Ok(s);
    }
  }

  method UnmarshalSpan(dec: Decoder) returns (r: Result<Span, Error>)
    modifies dec
    ensures r == From(SpanStep, EMPTY_SPAN, SPAN, dec.buf, old(dec.pos))
  {
    hide Otlp, StepValue, From, ReadTag, SpanStep;
    var s: Span := EMPTY_SPAN;
    while !dec.Done()
      invariant dec.pos >= old(dec.pos)
      invariant From(SpanStep, EMPTY_SPAN, SPAN, dec.buf, old(dec.pos)) == From(SpanStep, s, SPAN, dec.buf, dec.pos)
      decreases |dec.buf| - dec.pos
    {
      OneField(SpanStep, s, SPAN, dec.buf, dec.pos);
      var tag :- dec.ReadField();
      s :- SpanField(dec, s, tag.0, tag.1);
    }
    AtEnd(SpanStep, s, SPAN, dec.buf, dec.pos);
    return Ok(s);
  }

  /** The plain fields; SpanMessageField has the other cases of the switch. */
  method SpanField(dec: Decoder, s: Span, num: uint32, wireType: WireType) returns (r: Result<Span, Error>)
    modifies dec
    ensures Reads(StepValue(SpanStep, s, SPAN, num, wireType, dec.buf, old(dec.pos)), r, dec.pos)
  {
    hide Decode, Wire.ReadBytes, Wire.ReadVarint, Wire.ReadFixed64, Skip, KeyValueOf, AnyOf, ArrayOf, PairsOf, WithKey;
    if num == SPAN_TRACE_ID {
      var b :- dec.ReadBytes();
      Folded(SpanStep, s, BytesField(num, b));
      return Ok(s.(traceID := Overwrite(s.traceID, b)));
    } else if num == SPAN_SPAN_ID {
      var b :- dec.ReadBytes();
      Folded(SpanStep, s, BytesField(num, b));
      return Ok(s.(spanID := Overwrite(s.spanID, b)));
    } else if num == SPAN_TRACE_STATE {
      var b :- dec.ReadBytes();
      Folded(SpanStep, s, BytesField(num, b));
      return Ok(s.(traceState := b));
    } else if num == SPAN_PARENT_SPAN_ID {
      var b :- dec.ReadBytes();
      Folded(SpanStep, s, BytesField(num, b));
      return Ok(s.(parentSpanID := Overwrite(s.parentSpanID, b)));
    } else if num == SPAN_NAME {
      var b :- dec.ReadBytes();
      Folded(SpanStep, s, BytesField(num, b));
      return Ok(s.(name := b));
    } else if num == SPAN_KIND {
      var x :- dec.ReadVarint();
      Folded(SpanStep, s, VarintField(num, x));
      return Ok(s.(kind := ToInt32(x)));
    } else if num == SPAN_START_TIME {
      var x :- dec.ReadFixed64();
      Folded(SpanStep, s, Fixed64Field(num, x));
      return Ok(s.(startTimeUnixNano := x));
    } else if num == SPAN_END_TIME {
      var x :- dec.ReadFixed64();
      Folded(SpanStep, s, Fixed64Field(num, x));
      return Ok(s.(endTimeUnixNano := x));
    } else if num == SPAN_DROPPED_ATTRIBUTES {
      var x :- dec.ReadVarint();
      Folded(SpanStep, s, VarintField(num, x));
      return Ok(s.(droppedAttributesCount := ToUint32(x)));
    } else if num == SPAN_DROPPED_EVENTS {
      var x :- dec.ReadVarint();
      Folded(SpanStep, s, VarintField(num, x));
      return Ok(s.(droppedEventsCount := ToUint32(x)));
    } else if num == SPAN_DROPPED_LINKS {
      var x :- dec.ReadVarint();
      Folded(SpanStep, s, VarintField(num, x));
      return Ok(s.(droppedLinksCount := ToUint32(x)));
    } else {
      r := SpanMessageField(dec, s, num, wireType);
    }
  }

  method SpanMessageField(dec: Decoder, s: Span, num: uint32, wireType: WireType) returns (r: Result<Span, Error>)
    requires SpanKinds(num).MessageKind? || SpanKinds(num).UnknownKind?
    modifies dec
    ensures Reads(StepValue(SpanStep, s, SPAN, num, wireType, dec.buf, old(dec.pos)), r, dec.pos)
  {
    hide Decode, Wire.ReadBytes, Wire.ReadVarint, Wire.ReadFixed64, Skip, KeyValueOf, AnyOf, ArrayOf, PairsOf, WithKey;
    if num == SPAN_ATTRIBUTES {
      var b :- dec.ReadBytes();
      var inner := new Decoder(b);
      var sub :- UnmarshalKeyValue(inner);
      ghost var fs := Decode(Otlp, KEY_VALUE, b, 0).value;
      Folded(SpanStep, s, MessageField(num, fs));
      KeyValueFold(EMPTY_KEY_VALUE, fs);
      var items := Set(s.attributes, sub.key, sub.value);
      return Ok(s.(attributes := items));
    } else if num == SPAN_EVENTS {
      var b :- dec.ReadBytes();
      var inner := new Decoder(b);
      var sub :- UnmarshalSpanEvent(inner);
      ghost var fs := Decode(Otlp, EVENT, b, 0).value;
      Folded(SpanStep, s, MessageField(num, fs));
      return Ok(s.(events := s.events + [sub]));
    } else if num == SPAN_LINKS {
      var b :- dec.ReadBytes();
      var inner := new Decoder(b);
      var sub :- UnmarshalSpanLink(inner);
      ghost var fs := Decode(Otlp, LINK, b, 0).value;
      Folded(SpanStep, s, MessageField(num, fs));
      return Ok(s.(links := s.links + [sub]));
    } else if num == SPAN_STATUS {
      var b :- dec.ReadBytes();
      var inner := new Decoder(b);
      var sub :- UnmarshalStatus(inner);
      ghost var fs := Decode(Otlp, STATUS, b, 0).value;
      Folded(SpanStep, s, MessageField(num, fs));
      return Ok(s.(status := sub));
    } else {
      var _ :- dec.SkipField(wireType);
      return Ok(s);
    }
  }

  method UnmarshalSpanEvent(dec: Decoder) returns (r: Result<SpanEvent, Error>)
    modifies dec
    ensures r == From(EventStep, EMPTY_EVENT, EVENT, dec.buf, old(dec.pos))
  {
    hide Otlp, StepValue, From, ReadTag, EventStep;
    var e: SpanEvent := EMPTY_EVENT;
    while !dec.Done()
      invariant dec.pos >= old(dec.pos)
      invariant From(EventStep, EMPTY_EVENT, EVENT, dec.buf, old(dec.pos)) == From(EventStep, e, EVENT, dec.buf, dec.pos)
      decreases |dec.buf| - dec.pos
    {
      OneField(EventStep, e, EVENT, dec.buf, dec.pos);
      var tag :- dec.ReadField();
      e :- SpanEventField(dec, e, tag.0, tag.1);
    }
    AtEnd(EventStep, e, EVENT, dec.buf, dec.pos);
    return Ok(e);
  }

  method SpanEventField(dec: Decoder, e: SpanEvent, num: uint32, wireType: WireType) returns (r: Result<SpanEvent, Error>)
    modifies dec
    ensures Reads(StepValue(EventStep, e, EVENT, num, wireType, dec.buf, old(dec.pos)), r, dec.pos)
  {
    hide Decode, Wire.ReadBytes, Wire.ReadVarint, Wire.ReadFixed64, Skip, KeyValueOf, AnyOf, ArrayOf, PairsOf, WithKey;
    if num == EVENT_TIME {
      var x :- dec.ReadFixed64();
      Folded(EventStep, e, Fixed64Field(num, x));
      return Ok(e.(timeUnixNano := x));
    } else if num == EVENT_NAME {
      var b :- dec.ReadBytes();
      Folded(EventStep, e, BytesField(num, b));
      return Ok(e.(name := b));
    } else if num == EVENT_ATTRIBUTES {
      var b :- dec.ReadBytes();
      var inner := new Decoder(b);
      var sub :- UnmarshalKeyValue(inner);
      ghost var fs := Decode(Otlp, KEY_VALUE, b, 0).value;
      Folded(EventStep, e, MessageField(num, fs));
      KeyValueFold(EMPTY_KEY_VALUE, fs);
      var items := Set(e.attributes, sub.key, sub.value);
      return Ok(e.(attributes := items));
    } else if num == EVENT_DROPPED_ATTRIBUTES {
      var x :- dec.ReadVarint();
      Folded(EventStep, e, VarintField(num, x));
      return Ok(e.(droppedAttributesCount := ToUint32(x)));
    } else {
      var _ :- dec.SkipField(wireType);
      return Ok(e);
    }
  }

  method UnmarshalSpanLink(dec: Decoder) returns (r: Result<SpanLink, Error>)
    modifies dec
    ensures r == From(LinkStep, EMPTY_LINK, LINK, dec.buf, old(dec.pos))
  {
    hide Otlp, StepValue, From, ReadTag, LinkStep;
    var l: SpanLink := EMPTY_LINK;
    while !dec.Done()
      invariant dec.pos >= old(dec.pos)
      invariant From(LinkStep, EMPTY_LINK, LINK, dec.buf, old(dec.pos)) == From(LinkStep, l, LINK, dec.buf, dec.pos)
      decreases |dec.buf| - dec.pos
    {
      OneField(LinkStep, l, LINK, dec.buf, dec.pos);
      var tag :- dec.ReadField();
      l :- SpanLinkField(dec, l, tag.0, tag.1);
    }
    AtEnd(LinkStep, l, LINK, dec.buf, dec.pos);
    return Ok(l);
  }

  method SpanLinkField(dec: Decoder, l: SpanLink, num: uint32, wireType: WireType) returns (r: Result<SpanLink, Error>)
    modifies dec
    ensures Reads(StepValue(LinkStep, l, LINK, num, wireType, dec.buf, old(dec.pos)), r, dec.pos)
  {
    hide Decode, Wire.ReadBytes, Wire.ReadVarint, Wire.ReadFixed64, Skip, KeyValueOf, AnyOf, ArrayOf, PairsOf, WithKey;
    if num == LINK_TRACE_ID {
      var b :- dec.ReadBytes();
      Folded(LinkStep, l, BytesField(num, b));
      return Ok(l.(traceID := Overwrite(l.traceID, b)));
    } else if num == LINK_SPAN_ID {
      var b :- dec.ReadBytes();
      Folded(LinkStep, l, BytesField(num, b));
      return Ok(l.(spanID := Overwrite(l.spanID, b)));
    } else if num == LINK_TRACE_STATE {
      var b :- dec.ReadBytes();
      Folded(LinkStep, l, BytesField(num, b));
      return Ok(l.(traceState := b));
    } else if num == LINK_ATTRIBUTES {
      var b :- dec.ReadBytes();
      var inner := new Decoder(b);
      var sub :- UnmarshalKeyValue(inner);
      ghost var fs := Decode(Otlp, KEY_VALUE, b, 0).value;
      Folded(LinkStep, l, MessageField(num, fs));
      KeyValueFold(EMPTY_KEY_VALUE, fs);
      var items := Set(l.attributes, sub.key, sub.value);
      return Ok(l.(attributes := items));
    } else if num == LINK_DROPPED_ATTRIBUTES {
      var x :- dec.ReadVarint();
      Folded(LinkStep, l, VarintField(num, x));
      return Ok(l.(droppedAttributesCount := ToUint32(x)));
    } else {
      var _ :- dec.SkipField(wireType);
      return Ok(l);
    }
  }

  method UnmarshalStatus(dec: Decoder) returns (r: Result<Status, Error>)
    modifies dec
    ensures r == From(StatusStep, EMPTY_STATUS, STATUS, dec.buf, old(dec.pos))
  {
    hide Otlp, StepValue, From, ReadTag, StatusStep;
    var s: Status := EMPTY_STATUS;
    while !dec.Done()
      invariant dec.pos >= old(dec.pos)
      invariant From(StatusStep, EMPTY_STATUS, STATUS, dec.buf, old(dec.pos)) == From(StatusStep, s, STATUS,
          dec.buf, dec.pos)
      decreases |dec.buf| - dec.pos
    {
      OneField(StatusStep, s, STATUS, dec.buf, dec.pos);
      var tag :- dec.ReadField();
      s :- StatusField(dec, s, tag.0, tag.1);
    }
    AtEnd(StatusStep, s, STATUS, dec.buf, dec.pos);
    return Ok(s);
  }

  method StatusField(dec: Decoder, s: Status, num: uint32, wireType: WireType) returns (r: Result<Status, Error>)
    modifies dec
    ensures Reads(StepValue(StatusStep, s, STATUS, num, wireType, dec.buf, old(dec.pos)), r, dec.pos)
  {
    hide Decode, Wire.ReadBytes, Wire.ReadVarint, Wire.ReadFixed64, Skip, KeyValueOf, AnyOf, ArrayOf, PairsOf, WithKey;
    if num == STATUS_MESSAGE {
      var b :- dec.ReadBytes();
      Folded(StatusStep, s, BytesField(num, b));
      return Ok(s.(message := b));
    } else if num == STATUS_CODE {
      var x :- dec.ReadVarint();
      Folded(StatusStep, s, VarintField(num, x));
      return Ok(s.(code := ToInt32(x)));
    } else {
      var _ :- dec.SkipField(wireType);
      return Ok(s);
    }
  }

  method UnmarshalKeyValue(dec: Decoder) returns (r: Result<KeyValue, Error>)
    modifies dec
    ensures r == From(KeyValueStep, EMPTY_KEY_VALUE, KEY_VALUE, dec.buf, old(dec.pos))
    decreases |dec.buf| - dec.pos, 1
  {
    hide Otlp, StepValue, From, ReadTag, KeyValueStep;
    var kv: KeyValue := EMPTY_KEY_VALUE;
    while !dec.Done()
      invariant dec.pos >= old(dec.pos)
      invariant From(KeyValueStep, EMPTY_KEY_VALUE, KEY_VALUE, dec.buf, old(dec.pos)) ==
                From(KeyValueStep, kv, KEY_VALUE, dec.buf, dec.pos)
      decreases |dec.buf| - dec.pos
    {
      OneField(KeyValueStep, kv, KEY_VALUE, dec.buf, dec.pos);
      var tag :- dec.ReadField();
      kv :- KeyValueField(dec, kv, tag.0, tag.1);
    }
    AtEnd(KeyValueStep, kv, KEY_VALUE, dec.buf, dec.pos);
    return Ok(kv);
  }

  method KeyValueField(dec: Decoder, kv: KeyValue, num: uint32, wireType: WireType) returns (r: Result<KeyValue, Error>)
    modifies dec
    ensures Reads(StepValue(KeyValueStep, kv, KEY_VALUE, num, wireType, dec.buf, old(dec.pos)), r, dec.pos)
    decreases |dec.buf| - dec.pos, 0
  {
    hide Decode, Wire.ReadBytes, Wire.ReadVarint, Wire.ReadFixed64, Skip, KeyValueOf, AnyOf, ArrayOf, PairsOf, WithKey;
    if num == KV_KEY {
      var b :- dec.ReadBytes();
      Folded(KeyValueStep, kv, BytesField(num, b));
      return Ok(kv.(key := b));
    } else if num == KV_VALUE {
      var b :- dec.ReadBytes();
      var inner := new Decoder(b);
      var sub :- UnmarshalAnyValue(inner);
      ghost var fs := Decode(Otlp, ANY_VALUE, b, 0).value;
      Folded(KeyValueStep, kv, MessageField(num, fs));
      AnyFold(EMPTY_VALUE, fs);
      return Ok(kv.(value := sub));
    } else {
      var _ :- dec.SkipField(wireType);
      return Ok(kv);
    }
  }

  method UnmarshalAnyValue(dec: Decoder) returns (r: Result<AnyValue, Error>)
    modifies dec
    ensures r == From(AnyStep, EMPTY_VALUE, ANY_VALUE, dec.buf, old(dec.pos))
    decreases |dec.buf| - dec.pos, 1
  {
    hide Otlp, StepValue, From, ReadTag, AnyStep;
    var v: AnyValue := EMPTY_VALUE;
    while !dec.Done()
      invariant dec.pos >= old(dec.pos)
      invariant From(AnyStep, EMPTY_VALUE, ANY_VALUE, dec.buf, old(dec.pos)) == From(AnyStep, v, ANY_VALUE,
          dec.buf, dec.pos)
      decreases |dec.buf| - dec.pos
    {
      OneField(AnyStep, v, ANY_VALUE, dec.buf, dec.pos);
      var tag :- dec.ReadField();
      v :- AnyValueField(dec, v, tag.0, tag.1);
    }
    AtEnd(AnyStep, v, ANY_VALUE, dec.buf, dec.pos);
    return Ok(v);
  }

  method AnyValueField(dec: Decoder, v: AnyValue, num: uint32, wireType: WireType) returns (r: Result<AnyValue, Error>)
    modifies dec
    ensures Reads(StepValue(AnyStep, v, ANY_VALUE, num, wireType, dec.buf, old(dec.pos)), r, dec.pos)
    decreases |dec.buf| - dec.pos, 0
  {
    hide Decode, Wire.ReadBytes, Wire.ReadVarint, Wire.ReadFixed64, Skip, KeyValueOf, AnyOf, ArrayOf, PairsOf, WithKey;
    if num == ANY_STRING {
      var b :- dec.ReadBytes();
      Folded(AnyStep, v, BytesField(num, b));
      return Ok(v.(typ := STRING_TYPE, str := b));
    } else if num == ANY_BOOL {
      ghost var before := dec.pos;
      var x :- dec.ReadBool();
      Folded(AnyStep, v, VarintField(num, Wire.ReadVarint(dec.buf, before).value));
      return Ok(v.(typ := BOOL_TYPE, boolVal := x));
    } else if num == ANY_INT {
      ghost var before := dec.pos;
      var x :- dec.ReadSignedVarint();
      Folded(AnyStep, v, VarintField(num, Wire.ReadVarint(dec.buf, before).value));
      return Ok(v.(typ := INT_TYPE, intVal := x));
    } else if num == ANY_DOUBLE {
      var x :- dec.ReadFixed64();
      Folded(AnyStep, v, Fixed64Field(num, x));
      return Ok(v.(typ := DOUBLE_TYPE, doubleVal := x));
    } else if num == ANY_BYTES {
      var b :- dec.ReadBytes();
      Folded(AnyStep, v, BytesField(num, b));
      return Ok(v.(typ := BYTES_TYPE, bytesVal := b));
    } else if num == ANY_ARRAY {
      var b :- dec.ReadBytes();
      var inner := new Decoder(b);
      var sub :- UnmarshalArrayValue(inner);
      ghost var fs := Decode(Otlp, ARRAY_VALUE, b, 0).value;
      Folded(AnyStep, v, MessageField(num, fs));
      ArrayFold([], fs);
      return Ok(v.(typ := ARRAY_TYPE, arrayVal := sub));
    } else if num == ANY_KV_LIST {
      var b :- dec.ReadBytes();
      var inner := new Decoder(b);
      var sub :- UnmarshalKvListValue(inner);
      ghost var fs := Decode(Otlp, KV_LIST, b, 0).value;
      Folded(AnyStep, v, MessageField(num, fs));
      PairsFold([], fs);
      return Ok(v.(typ := KV_LIST_TYPE, kvListVal := sub));
    } else {
      var _ :- dec.SkipField(wireType);
      return Ok(v);
    }
  }

  method UnmarshalArrayValue(dec: Decoder) returns (r: Result<seq<AnyValue>, Error>)
    modifies dec
    ensures r == From(ArrayStep, [], ARRAY_VALUE, dec.buf, old(dec.pos))
    decreases |dec.buf| - dec.pos, 1
  {
    hide Otlp, StepValue, From, ReadTag, ArrayStep;
    var vs: seq<AnyValue> := [];
    while !dec.Done()
      invariant dec.pos >= old(dec.pos)
      invariant From(ArrayStep, [], ARRAY_VALUE, dec.buf, old(dec.pos)) == From(ArrayStep, vs, ARRAY_VALUE,
          dec.buf, dec.pos)
      decreases |dec.buf| - dec.pos
    {
      OneField(ArrayStep, vs, ARRAY_VALUE, dec.buf, dec.pos);
      var tag :- dec.ReadField();
      vs :- ArrayValueField(dec, vs, tag.0, tag.1);
    }
    AtEnd(ArrayStep, vs, ARRAY_VALUE, dec.buf, dec.pos);
    return Ok(vs);
  }

  method ArrayValueField(dec: Decoder, vs: seq<AnyValue>, num: uint32, wireType: WireType)
          returns (r: Result<seq<AnyValue>, Error>)
    modifies dec
    ensures Reads(StepValue(ArrayStep, vs, ARRAY_VALUE, num, wireType, dec.buf, old(dec.pos)), r, dec.pos)
    decreases |dec.buf| - dec.pos, 0
  {
    hide Decode, Wire.ReadBytes, Wire.ReadVarint, Wire.ReadFixed64, Skip, KeyValueOf, AnyOf, ArrayOf, PairsOf, WithKey;
    if num == ARRAY_VALUES {
      var b :- dec.ReadBytes();
      var inner := new Decoder(b);
      var sub :- UnmarshalAnyValue(inner);
      ghost var fs := Decode(Otlp, ANY_VALUE, b, 0).value;
      Folded(ArrayStep, vs, MessageField(num, fs));
      AnyFold(EMPTY_VALUE, fs);
      return Ok(vs + [sub]);
    } else {
      var _ :- dec.SkipField(wireType);
      return Ok(vs);
    }
  }

  method UnmarshalKvListValue(dec: Decoder) returns (r: Result<seq<KeyValue>, Error>)
    modifies dec
    ensures r == From(PairsStep, [], KV_LIST, dec.buf, old(dec.pos))
    decreases |dec.buf| - dec.pos, 1
  {
    hide Otlp, StepValue, From, ReadTag, PairsStep;
    var kvs: seq<KeyValue> := [];
    while !dec.Done()
      invariant dec.pos >= old(dec.pos)
      invariant From(PairsStep, [], KV_LIST, dec.buf, old(dec.pos)) == From(PairsStep, kvs, KV_LIST, dec.buf, dec.pos)
      decreases |dec.buf| - dec.pos
    {
      OneField(PairsStep, kvs, KV_LIST, dec.buf, dec.pos);
      var tag :- dec.ReadField();
      kvs :- KvListValueField(dec, kvs, tag.0, tag.1);
    }
    AtEnd(PairsStep, kvs, KV_LIST, dec.buf, dec.pos);
    return Ok(kvs);
  }

  method KvListValueField(dec: Decoder, kvs: seq<KeyValue>, num: uint32, wireType: WireType)
          returns (r: Result<seq<KeyValue>, Error>)
    modifies dec
    ensures Reads(StepValue(PairsStep, kvs, KV_LIST, num, wireType, dec.buf, old(dec.pos)), r, dec.pos)
    decreases |dec.buf| - dec.pos, 0
  {
    hide Decode, Wire.ReadBytes, Wire.ReadVarint, Wire.ReadFixed64, Skip, KeyValueOf, AnyOf, ArrayOf, PairsOf, WithKey;
    if num == KV_LIST_VALUES {
      var b :- dec.ReadBytes();
      var inner := new Decoder(b);
      var sub :- UnmarshalKeyValue(inner);
      ghost var fs := Decode(Otlp, KEY_VALUE, b, 0).value;
      Folded(PairsStep, kvs, MessageField(num, fs));
      KeyValueFold(EMPTY_KEY_VALUE, fs);
      return Ok(kvs + [sub]);
    } else {
      var _ :- dec.SkipField(wireType);
      return Ok(kvs);
    }
  }

  lemma {:induction false} AtEnd<A>(step: (A, Field) -> A, acc: A, t: nat, buf: bytes, pos: nat)
    requires pos >= |buf|
    ensures From(step, acc, t, buf, pos) == Ok(acc)
  {
  }
}
