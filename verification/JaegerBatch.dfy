/** What the Jaeger Thrift receiver makes of bytes: the batch decoder, which skips
    the fields it does not know, against the field trees that clients encode. */
module JaegerBatch {
  import opened Bytes
  import opened Results
  import opened ThriftTypes
  import opened BinaryWire

  datatype Process = Process(serviceName: bytes)

  datatype Span = Span(traceID: TraceID, spanID: SpanID, operationName: bytes, startTime: uint64, duration: uint64)

  datatype Batch = Batch(process: Process, spans: seq<Span>)

  const NO_PROCESS := Process([])
  const NO_SPAN := Span([0, 0, 0, 0, 0, 0, 0, 0, 0, 0, 0, 0, 0, 0, 0, 0], [0, 0, 0, 0, 0, 0, 0, 0], [], 0, 0)
  const NO_BATCH := Batch(NO_PROCESS, [])

  // ----- one field of a span or a process, read and set -----

  function WithNumber(span: Span, id: int16, v: int64): Span {
    if id == 1 then span.(traceID := span.traceID[..8] + I64Bytes(v))
    else if id == 2 then span.(traceID := I64Bytes(v) + span.traceID[8..])
    else if id == 3 then span.(spanID := I64Bytes(v))
    else if id == 7 then span.(startTime := AsUint64(v))
    else span.(duration := AsUint64(v))
  }

  predicate IsNumber(id: int16) {
    id == 1 || id == 2 || id == 3 || id == 7 || id == 8
  }

  function Skipped<T>(x: T, t: TType, buf: bytes, pos: nat): (o: Outcome<T>)
    requires pos <= |buf|
    ensures pos <= o.next <= |buf|
  {
    match Skip(t, buf, pos)
    case Ok(next) => Outcome(Ok(x), next)
    case Err(e) => Outcome(Err(e), pos)
  }

  function ReadSpanField(span: Span, t: TType, id: int16, buf: bytes, pos: nat): (o: Outcome<Span>)
    requires pos <= |buf|
    ensures pos <= o.next <= |buf|
  {
    if IsNumber(id) then
      var v := ReadI64(buf, pos);
      if v.result.Err? then Outcome(Err(v.result.error), v.next)
      else Outcome(Ok(WithNumber(span, id, v.result.value)), v.next)
    else if id == 5 then
      var s := ReadString(buf, pos);
      if s.result.Err? then Outcome(Err(s.result.error), s.next)
      else Outcome(Ok(span.(operationName := s.result.value)), s.next)
    else Skipped(span, t, buf, pos)
  }

  function ReadProcessField(process: Process, t: TType, id: int16, buf: bytes, pos: nat): (o: Outcome<Process>)
    requires pos <= |buf|
    ensures pos <= o.next <= |buf|
  {
    if id == 1 then
      var s := ReadString(buf, pos);
      if s.result.Err? then Outcome(Err(s.result.error), s.next)
      else Outcome(Ok(process.(serviceName := s.result.value)), s.next)
    else Skipped(process, t, buf, pos)
  }

  // ----- whole structs -----

  function ReadSpan(span: Span, buf: bytes, pos: nat): (o: Outcome<Span>)
    requires pos <= |buf|
    ensures pos <= o.next <= |buf|
    decreases |buf| - pos
  {
    var h := ReadFieldBegin(buf, pos);
    if h.result.Err? then Outcome(Err(h.result.error), h.next)
    else if h.result.value.0 == TYPE_STOP then Outcome(Ok(span), h.next)
    else
      var f := ReadSpanField(span, h.result.value.0, h.result.value.1, buf, h.next);
      if f.result.Err? then f else ReadSpan(f.result.value, buf, f.next)
  }

  function ReadSpans(done: seq<Span>, n: int, buf: bytes, pos: nat): (o: Outcome<seq<Span>>)
    requires pos <= |buf|
    ensures pos <= o.next <= |buf|
    decreases n
  {
    if n <= 0 then Outcome(Ok(done), pos)
    else
      var span := ReadSpan(NO_SPAN, buf, pos);
      if span.result.Err? then Outcome(Err(span.result.error), span.next)
      else ReadSpans(done + [span.result.value], n - 1, buf, span.next)
  }

  function ReadProcess(process: Process, buf: bytes, pos: nat): (o: Outcome<Process>)
    requires pos <= |buf|
    ensures pos <= o.next <= |buf|
    decreases |buf| - pos
  {
    var h := ReadFieldBegin(buf, pos);
    if h.result.Err? then Outcome(Err(h.result.error), h.next)
    else if h.result.value.0 == TYPE_STOP then Outcome(Ok(process), h.next)
    else
      var f := ReadProcessField(process, h.result.value.0, h.result.value.1, buf, h.next);
      if f.result.Err? then f else ReadProcess(f.result.value, buf, f.next)
  }

  /** A process or a span list that occurs again replaces the earlier one. */
  function ReadBatchField(batch: Batch, t: TType, id: int16, buf: bytes, pos: nat): (o: Outcome<Batch>)
    requires pos <= |buf|
    ensures pos <= o.next <= |buf|
  {
    if id == 1 then
      var p := ReadProcess(NO_PROCESS, buf, pos);
      if p.result.Err? then Outcome(Err(p.result.error), p.next)
      else Outcome(Ok(batch.(process := p.result.value)), p.next)
    else if id == 2 then
      var h := ReadListBegin(buf, pos);
      if h.result.Err? then Outcome(Err(h.result.error), h.next)
      else if h.result.value.1 < 0 then Outcome(Err(Panic), h.next)
      else
        var spans := ReadSpans([], h.result.value.1, buf, h.next);
        if spans.result.Err? then Outcome(Err(spans.result.error), spans.next)
        else Outcome(Ok(batch.(spans := spans.result.value)), spans.next)
    else Skipped(batch, t, buf, pos)
  }

  function ReadBatch(batch: Batch, buf: bytes, pos: nat): (o: Outcome<Batch>)
    requires pos <= |buf|
    ensures pos <= o.next <= |buf|
    decreases |buf| - pos
  {
    var h := ReadFieldBegin(buf, pos);
    if h.result.Err? then Outcome(Err(h.result.error), h.next)
    else if h.result.value.0 == TYPE_STOP then Outcome(Ok(batch), h.next)
    else
      var f := ReadBatchField(batch, h.result.value.0, h.result.value.1, buf, h.next);
      if f.result.Err? then f else ReadBatch(f.result.value, buf, f.next)
  }

  // ----- what a field tree means -----

  /** The fields the receiver knows have the types it reads; it does not look at
      the types on the wire. */
  predicate SpanFieldShaped(f: Field) {
    (IsNumber(f.id) ==> f.value.I64?) && (f.id == 5 ==> f.value.String?)
  }

  predicate SpanShaped(fields: seq<Field>) {
    forall i :: 0 <= i < |fields| ==> SpanFieldShaped(fields[i])
  }

  predicate ProcessShaped(fields: seq<Field>) {
    forall i :: 0 <= i < |fields| ==> fields[i].id == 1 ==> fields[i].value.String?
  }

  predicate SpansShaped(items: seq<Value>) {
    forall i :: 0 <= i < |items| ==> items[i].Struct? && SpanShaped(items[i].fields)
  }

  predicate BatchFieldShaped(f: Field) {
    (f.id == 1 ==> f.value.Struct? && ProcessShaped(f.value.fields)) &&
    (f.id == 2 ==> f.value.List? && SpansShaped(f.value.items))
  }

  predicate BatchShaped(fields: seq<Field>) {
    forall i :: 0 <= i < |fields| ==> BatchFieldShaped(fields[i])
  }

  function SpanWith(span: Span, f: Field): Span
    requires SpanFieldShaped(f)
  {
    if IsNumber(f.id) then WithNumber(span, f.id, f.value.i64)
    else if f.id == 5 then span.(operationName := f.value.s)
    else span
  }

  function SpanOf(span: Span, fields: seq<Field>): Span
    requires SpanShaped(fields)
    decreases fields
  {
    if fields == [] then span else SpanOf(SpanWith(span, fields[0]), fields[1..])
  }

  function SpansOf(items: seq<Value>): seq<Span>
    requires SpansShaped(items)
  {
    if items == [] then [] else [SpanOf(NO_SPAN, items[0].fields)] + SpansOf(items[1..])
  }

  function ProcessOf(process: Process, fields: seq<Field>): Process
    requires ProcessShaped(fields)
    decreases fields
  {
    if fields == [] then process
    else ProcessOf(if fields[0].id == 1 then process.(serviceName := fields[0].value.s) else process, fields[1..])
  }

  function BatchWith(batch: Batch, f: Field): Batch
    requires BatchFieldShaped(f)
  {
    if f.id == 1 then batch.(process := ProcessOf(NO_PROCESS, f.value.fields))
    else if f.id == 2 then batch.(spans := SpansOf(f.value.items))
    else batch
  }

  function BatchOf(batch: Batch, fields: seq<Field>): Batch
    requires BatchShaped(fields)
    decreases fields
  {
    if fields == [] then batch else BatchOf(BatchWith(batch, fields[0]), fields[1..])
  }

  // ----- the decoder reads the meaning of the tree, whatever unknown fields it holds -----

  lemma {:induction false} SkippedField<T>(x: T, f: Field, buf: bytes, pos: nat)
    requires FieldTyped(f) && Sized(f.value) && At(buf, pos, EncodeField(f))
    ensures pos + 3 <= |buf| && TypeOf(f.value) != TYPE_STOP
    ensures ReadFieldBegin(buf, pos) == Outcome(Ok((TypeOf(f.value), f.id)), pos + 3)
    ensures Skipped(x, TypeOf(f.value), buf, pos + 3) == Outcome(Ok(x), pos + |EncodeField(f)|)
    ensures At(buf, pos + 3, Encode(f.value)) && |EncodeField(f)| == 3 + |Encode(f.value)|
  {
    hide ReadFieldBegin, Skip, FieldHeader, Sized, Encode;
    FieldHeaderLength(TypeOf(f.value), f.id);
    AtSplit(buf, pos, FieldHeader(TypeOf(f.value), f.id), Encode(f.value));
    SkipsField(f, buf, pos);
  }

  lemma {:induction false} SpanFieldReads(span: Span, f: Field, buf: bytes, pos: nat)
    requires FieldTyped(f) && Sized(f.value) && SpanFieldShaped(f) && At(buf, pos, EncodeField(f))
    ensures pos + 3 <= |buf| && ReadFieldBegin(buf, pos) == Outcome(Ok((TypeOf(f.value), f.id)), pos + 3)
    ensures ReadSpanField(span, TypeOf(f.value), f.id, buf, pos + 3) ==
            Outcome(Ok(SpanWith(span, f)), pos + |EncodeField(f)|)
  {
    hide ReadFieldBegin, Skipped, FieldHeader, WithNumber, ReadI64, ReadString, EncodeField, StringBytes, I64Bytes;
    SkippedField(span, f, buf, pos);
    if IsNumber(f.id) {
      I64ReadsBack(buf, pos + 3, f.value.i64);
      LengthOfI64(f.value.i64);
    } else if f.id == 5 {
      StringReadsBack(buf, pos + 3, f.value.s);
    }
  }

  lemma {:induction false} SpanReads(span: Span, fields: seq<Field>, buf: bytes, pos: nat)
    requires FieldsTyped(fields) && FieldsSized(fields) && SpanShaped(fields)
    requires At(buf, pos, EncodeFields(fields))
    ensures ReadSpan(span, buf, pos) == Outcome(Ok(SpanOf(span, fields)), pos + |EncodeFields(fields)|)
    decreases fields
  {
    hide ReadFieldBegin, ReadSpanField, EncodeField, SpanFieldShaped, SpanWith, Sized, FieldTyped, TypeOf;
    if fields == [] {
      StopReadsBack(buf, pos);
    } else {
      var f := fields[0];
      AtSplit(buf, pos, EncodeField(f), EncodeFields(fields[1..]));
      SkippedField(span, f, buf, pos);
      SpanFieldReads(span, f, buf, pos);
      SpanReads(SpanWith(span, f), fields[1..], buf, pos + |EncodeField(f)|);
    }
  }

  lemma {:induction false} SpansRead(done: seq<Span>, elem: TType, items: seq<Value>, buf: bytes, pos: nat)
    requires AllTyped(elem, items) && (forall i :: 0 <= i < |items| ==> Sized(items[i])) && SpansShaped(items)
    requires At(buf, pos, EncodeAll(elem, items))
    ensures ReadSpans(done, |items|, buf, pos) == Outcome(Ok(done + SpansOf(items)), pos + |EncodeAll(elem, items)|)
    decreases items
  {
    hide ReadSpan, EncodeFields, FieldsTyped, SpanShaped, SpanOf;
    if items == [] {
      assert done + [] == done;
    } else {
      var span := SpanOf(NO_SPAN, items[0].fields);
      AtSplit(buf, pos, Encode(items[0]), EncodeAll(elem, items[1..]));
      SpanReads(NO_SPAN, items[0].fields, buf, pos);
      SpansRead(done + [span], elem, items[1..], buf, pos + |Encode(items[0])|);
      Assoc(done, [span], SpansOf(items[1..]));
    }
  }

  lemma {:induction false} ProcessFieldReads(process: Process, f: Field, buf: bytes, pos: nat)
    requires FieldTyped(f) && Sized(f.value) && (f.id == 1 ==> f.value.String?) && At(buf, pos, EncodeField(f))
    ensures pos + 3 <= |buf| && ReadFieldBegin(buf, pos) == Outcome(Ok((TypeOf(f.value), f.id)), pos + 3)
    ensures ReadProcessField(process, TypeOf(f.value), f.id, buf, pos + 3) ==
            Outcome(Ok(if f.id == 1 then process.(serviceName := f.value.s) else process), pos + |EncodeField(f)|)
  {
    hide ReadFieldBegin, ReadString, EncodeField, Skipped, StringBytes;
    SkippedField(process, f, buf, pos);
    if f.id == 1 {
      StringReadsBack(buf, pos + 3, f.value.s);
    }
  }

  lemma {:induction false} ProcessReads(process: Process, fields: seq<Field>, buf: bytes, pos: nat)
    requires FieldsTyped(fields) && FieldsSized(fields) && ProcessShaped(fields)
    requires At(buf, pos, EncodeFields(fields))
    ensures ReadProcess(process, buf, pos) == Outcome(Ok(ProcessOf(process, fields)), pos + |EncodeFields(fields)|)
    decreases fields
  {
    hide ReadFieldBegin, ReadProcessField, EncodeField, Sized, FieldTyped, TypeOf;
    if fields == [] {
      StopReadsBack(buf, pos);
    } else {
      var f := fields[0];
      var next := if f.id == 1 then process.(serviceName := f.value.s) else process;
      AtSplit(buf, pos, EncodeField(f), EncodeFields(fields[1..]));
      SkippedField(process, f, buf, pos);
      ProcessFieldReads(process, f, buf, pos);
      ProcessReads(next, fields[1..], buf, pos + |EncodeField(f)|);
    }
  }

  lemma {:induction false} BatchFieldReads(batch: Batch, f: Field, buf: bytes, pos: nat)
    requires FieldTyped(f) && Sized(f.value) && BatchFieldShaped(f) && At(buf, pos, EncodeField(f))
    ensures pos + 3 <= |buf| && ReadFieldBegin(buf, pos) == Outcome(Ok((TypeOf(f.value), f.id)), pos + 3)
    ensures ReadBatchField(batch, TypeOf(f.value), f.id, buf, pos + 3) ==
            Outcome(Ok(BatchWith(batch, f)), pos + |EncodeField(f)|)
  {
    hide ReadFieldBegin, Skipped, EncodeField, EncodeFields, EncodeAll, ReadProcess, ReadSpans, ProcessOf, SpansOf,
      ReadListBegin, ListHeader, SpansShaped, ProcessShaped, AllTyped, FieldsTyped;
    SkippedField(batch, f, buf, pos);
    if f.id == 1 {
      ProcessReads(NO_PROCESS, f.value.fields, buf, pos + 3);
    } else if f.id == 2 {
      var elem, items := f.value.elem, f.value.items;
      HeaderLengths(elem, 0, |items|);
      AtSplit(buf, pos + 3, ListHeader(elem, |items|), EncodeAll(elem, items));
      ListHeaderReadsBack(buf, pos + 3, elem, |items|);
      SpansRead([], elem, items, buf, pos + 8);
      assert [] + SpansOf(items) == SpansOf(items);
    }
  }

  lemma {:induction false} BatchReads(batch: Batch, fields: seq<Field>, buf: bytes, pos: nat)
    requires FieldsTyped(fields) && FieldsSized(fields) && BatchShaped(fields)
    requires At(buf, pos, EncodeFields(fields))
    ensures ReadBatch(batch, buf, pos) == Outcome(Ok(BatchOf(batch, fields)), pos + |EncodeFields(fields)|)
    decreases fields
  {
    hide ReadFieldBegin, ReadBatchField, EncodeField, BatchFieldShaped, BatchWith, Sized, FieldTyped, TypeOf;
    if fields == [] {
      StopReadsBack(buf, pos);
    } else {
      var f := fields[0];
      AtSplit(buf, pos, EncodeField(f), EncodeFields(fields[1..]));
      SkippedField(batch, f, buf, pos);
      BatchFieldReads(batch, f, buf, pos);
      BatchReads(BatchWith(batch, f), fields[1..], buf, pos + |EncodeField(f)|);
    }
  }

  // ----- unknown fields do not matter -----

  /** A tree that clients may send. */
  predicate WellFormed(fields: seq<Field>) {
    FieldsTyped(fields) && FieldsSized(fields) && BatchShaped(fields)
  }

  function Known(ids: set<int>, fields: seq<Field>): seq<Field> {
    if fields == [] then []
    else (if fields[0].id in ids then [fields[0]] else []) + Known(ids, fields[1..])
  }

  function KnownSpans(items: seq<Value>): seq<seq<Field>>
    requires SpansShaped(items)
  {
    if items == [] then [] else [Known({1, 2, 3, 5, 7, 8}, items[0].fields)] + KnownSpans(items[1..])
  }

  /** What is left of a batch without the unknown fields, at all three levels. */
  datatype Essence = KnownProcess(fields: seq<Field>) | KnownSpanList(spans: seq<seq<Field>>)

  function EssenceOf(fields: seq<Field>): seq<Essence>
    requires BatchShaped(fields)
  {
    if fields == [] then []
    else (if fields[0].id == 1 then [KnownProcess(Known({1}, fields[0].value.fields))]
          else if fields[0].id == 2 then [KnownSpanList(KnownSpans(fields[0].value.items))]
          else []) + EssenceOf(fields[1..])
  }

  lemma {:induction false} SpanOfKnown(span: Span, fields: seq<Field>)
    requires SpanShaped(fields)
    ensures SpanShaped(Known({1, 2, 3, 5, 7, 8}, fields))
    ensures SpanOf(span, Known({1, 2, 3, 5, 7, 8}, fields)) == SpanOf(span, fields)
    decreases fields
  {
    hide WithNumber;
    if fields != [] {
      var rest := Known({1, 2, 3, 5, 7, 8}, fields[1..]);
      SpanOfKnown(SpanWith(span, fields[0]), fields[1..]);
      assert ([fields[0]] + rest)[1..] == rest;
      assert [] + rest == rest;
    }
  }

  lemma {:induction false} ProcessOfKnown(process: Process, fields: seq<Field>)
    requires ProcessShaped(fields)
    ensures ProcessShaped(Known({1}, fields))
    ensures ProcessOf(process, Known({1}, fields)) == ProcessOf(process, fields)
    decreases fields
  {
    if fields != [] {
      var rest := Known({1}, fields[1..]);
      ProcessOfKnown(if fields[0].id == 1 then process.(serviceName := fields[0].value.s) else process, fields[1..]);
      assert ([fields[0]] + rest)[1..] == rest;
      assert [] + rest == rest;
    }
  }

  lemma {:induction false} SameSpans(a: seq<Value>, b: seq<Value>)
    requires SpansShaped(a) && SpansShaped(b) && KnownSpans(a) == KnownSpans(b)
    ensures SpansOf(a) == SpansOf(b)
    decreases a
  {
    if a != [] && b != [] {
      assert KnownSpans(a)[1..] == KnownSpans(a[1..]) && KnownSpans(b)[1..] == KnownSpans(b[1..]);
      assert KnownSpans(a)[0] == KnownSpans(b)[0];
      SpanOfKnown(NO_SPAN, a[0].fields);
      SpanOfKnown(NO_SPAN, b[0].fields);
      SameSpans(a[1..], b[1..]);
    }
  }

  function DropUnknown(fields: seq<Field>): (r: seq<Field>)
    requires BatchShaped(fields)
    ensures BatchShaped(r) && EssenceOf(r) == EssenceOf(fields)
    ensures forall batch :: BatchOf(batch, r) == BatchOf(batch, fields)
    ensures r != [] ==> r[0].id == 1 || r[0].id == 2
    ensures |r| <= |fields|
  {
    if fields == [] || fields[0].id == 1 || fields[0].id == 2 then fields
    else
      assert [] + EssenceOf(fields[1..]) == EssenceOf(fields[1..]);
      DropUnknown(fields[1..])
  }

  lemma {:induction false} SameBatch(batch: Batch, a: seq<Field>, b: seq<Field>)
    requires BatchShaped(a) && BatchShaped(b) && EssenceOf(a) == EssenceOf(b)
    ensures BatchOf(batch, a) == BatchOf(batch, b)
    decreases |a| + |b|
  {
    var x, y := DropUnknown(a), DropUnknown(b);
    if x != [] && y != [] {
      assert EssenceOf(x)[0] == EssenceOf(y)[0];
      assert EssenceOf(x)[1..] == EssenceOf(x[1..]) && EssenceOf(y)[1..] == EssenceOf(y[1..]);
      if x[0].id == 1 {
        ProcessOfKnown(NO_PROCESS, x[0].value.fields);
        ProcessOfKnown(NO_PROCESS, y[0].value.fields);
      } else {
        SameSpans(x[0].value.items, y[0].value.items);
      }
      SameBatch(BatchWith(batch, x[0]), x[1..], y[1..]);
    }
  }

  /** Two batches that differ only in fields the receiver does not know, at batch,
      process or span level and nested to any depth, decode to the same batch. */
  lemma {:induction false} UnknownFieldsIgnored(a: seq<Field>, b: seq<Field>)
    requires WellFormed(a) && WellFormed(b) && EssenceOf(a) == EssenceOf(b)
    ensures ReadBatch(NO_BATCH, EncodeFields(a), 0) == Outcome(Ok(BatchOf(NO_BATCH, a)), |EncodeFields(a)|)
    ensures ReadBatch(NO_BATCH, EncodeFields(a), 0).result == ReadBatch(NO_BATCH, EncodeFields(b), 0).result
  {
    assert At(EncodeFields(a), 0, EncodeFields(a)) && At(EncodeFields(b), 0, EncodeFields(b));
    BatchReads(NO_BATCH, a, EncodeFields(a), 0);
    BatchReads(NO_BATCH, b, EncodeFields(b), 0);
    SameBatch(NO_BATCH, a, b);
  }

  // ----- every batch can be sent -----

  function Number(b: bytes): (v: int64)
    requires |b| == 8
    ensures I64Bytes(v) == b
  {
    assert Range(8) == TWO_64;
    FromBigEndianInverse(b);
    AsInt64(FromBigEndian(b))
  }

  function SpanTree(span: Span): seq<Field> {
    [Field(1, I64(Number(span.traceID[8..]))), Field(2, I64(Number(span.traceID[..8]))), Field(3,
        I64(Number(span.spanID))),
     Field(5, String(span.operationName)), Field(7, I64(AsInt64(span.startTime))), Field(8, I64(AsInt64(span.duration)))]
  }

  function SpanTrees(spans: seq<Span>): seq<Value> {
    if spans == [] then [] else [Struct(SpanTree(spans[0]))] + SpanTrees(spans[1..])
  }

  function BatchTree(batch: Batch): seq<Field> {
    [Field(1, Struct([Field(1, String(batch.process.serviceName))])), Field(2, List(TYPE_STRUCT, SpanTrees(batch.spans)))]
  }

  predicate Sendable(batch: Batch) {
    |batch.process.serviceName| < 0x8000_0000 && |batch.spans| < 0x8000_0000 &&
    forall i :: 0 <= i < |batch.spans| ==> |batch.spans[i].operationName| < 0x8000_0000
  }

  lemma {:induction false} SpanTreeTyped(span: Span)
    requires |span.operationName| < 0x8000_0000
    ensures FieldsTyped(SpanTree(span)) && FieldsSized(SpanTree(span)) && SpanShaped(SpanTree(span))
    ensures Typed(Struct(SpanTree(span))) && Sized(Struct(SpanTree(span)))
  {
    hide Number, AsInt64;
    var t := SpanTree(span);
    assert t[1..][1..][1..][1..][1..][1..] == [];
    assert Typed(t[0].value) && Typed(t[1].value) && Typed(t[2].value) && Typed(t[3].value) && Typed(t[4].value) &&
        Typed(t[5].value);
    ThreeTyped(t[1..][1..][1..]);
    ThreeTyped(t);
  }

  lemma {:induction false} SpanTreeMeans(span: Span)
    requires |span.operationName| < 0x8000_0000
    ensures SpanShaped(SpanTree(span)) && SpanOf(NO_SPAN, SpanTree(span)) == span
  {
    hide I64Bytes, AsInt64, AsUint64, Number, FieldsTyped, FieldsSized, Typed, Sized;
    SpanTreeTyped(span);
    var t := SpanTree(span);
    assert t[1..][1..][1..][1..][1..][1..] == [];
    assert I64Bytes(Number(span.traceID[..8])) + I64Bytes(Number(span.traceID[8..])) == span.traceID;
    var s1 := SpanWith(NO_SPAN, t[0]);
    var s2 := SpanWith(s1, t[1]);
    assert s2.traceID == span.traceID;
    var s3 := SpanWith(SpanWith(s2, t[2]), t[3]);
    TimeInverse(span.startTime);
    TimeInverse(span.duration);
    assert SpanWith(SpanWith(s3, t[4]), t[5]) == span;
    ThreeSteps(NO_SPAN, t);
    ThreeSteps(s2.(spanID := span.spanID), t[1..][1..][1..]);
  }

  lemma {:induction false} TimeInverse(u: uint64)
    ensures AsUint64(AsInt64(u)) == u
  {
  }

  lemma {:induction false} OneTyped(t: seq<Field>)
    requires |t| >= 1 && FieldTyped(t[0]) && FieldsTyped(t[1..])
    ensures FieldsTyped(t)
  {
  }

  lemma {:induction false} ThreeTyped(t: seq<Field>)
    requires |t| >= 3 && FieldTyped(t[0]) && FieldTyped(t[1]) && FieldTyped(t[2]) && FieldsTyped(t[1..][1..][1..])
    ensures FieldsTyped(t)
  {
    OneTyped(t[1..][1..]);
    OneTyped(t[1..]);
    OneTyped(t);
  }

  lemma {:induction false} ThreeSteps(span: Span, t: seq<Field>)
    requires |t| >= 3 && SpanShaped(t)
    ensures SpanOf(span, t) == SpanOf(SpanWith(SpanWith(SpanWith(span, t[0]), t[1]), t[2]), t[1..][1..][1..])
  {
    hide SpanWith;
    var s1 := SpanWith(span, t[0]);
    assert SpanOf(span, t) == SpanOf(s1, t[1..]);
    var s2 := SpanWith(s1, t[1..][0]);
    assert SpanOf(s1, t[1..]) == SpanOf(s2, t[1..][1..]);
    assert SpanOf(s2, t[1..][1..]) == SpanOf(SpanWith(s2, t[1..][1..][0]), t[1..][1..][1..]);
  }

  lemma {:induction false} SpanTreesMean(spans: seq<Span>)
    requires forall i :: 0 <= i < |spans| ==> |spans[i].operationName| < 0x8000_0000
    ensures |SpanTrees(spans)| == |spans| && AllTyped(TYPE_STRUCT, SpanTrees(spans)) && SpansShaped(SpanTrees(spans))
    ensures forall i :: 0 <= i < |spans| ==> Sized(SpanTrees(spans)[i])
    ensures SpansOf(SpanTrees(spans)) == spans
    decreases spans
  {
    hide SpanTree, SpanOf, SpanShaped, Typed, Sized, FieldsTyped, FieldsSized;
    if spans != [] {
      SpanTreeTyped(spans[0]);
      SpanTreeMeans(spans[0]);
      SpanTreesMean(spans[1..]);
      assert SpanTrees(spans)[1..] == SpanTrees(spans[1..]);
    }
  }

  /** For every batch there are bytes that decode to it. */
  lemma {:induction false} EveryBatchReadsBack(batch: Batch)
    requires Sendable(batch)
    ensures WellFormed(BatchTree(batch))
    ensures ReadBatch(NO_BATCH, EncodeFields(BatchTree(batch)), 0).result == Ok(batch)
  {
    hide SpanTrees, SpansOf, SpansShaped, AllTyped, EncodeFields, ReadBatch;
    var t := BatchTree(batch);
    SpanTreesMean(batch.spans);
    assert t[1..][1..] == [] && t[0].value.fields[1..] == [];
    OneTyped(t[0].value.fields);
    assert Typed(t[0].value) && FieldTyped(t[0]);
    assert Typed(t[1].value) && FieldTyped(t[1]);
    OneTyped(t[1..]);
    assert ProcessOf(NO_PROCESS, t[0].value.fields) == batch.process;
    assert BatchOf(NO_BATCH, t) == BatchOf(NO_BATCH.(process := batch.process), t[1..]);
    assert BatchOf(NO_BATCH.(process := batch.process), t[1..]) == BatchOf(batch, []);
    UnknownFieldsIgnored(t, t);
  }
}
