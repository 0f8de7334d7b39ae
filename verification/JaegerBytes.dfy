/** Jaeger batches by their bytes: what the receiver reads from the members it
    knows, in any order and any number, with anything else in between. */
module JaegerBytes {
  import opened Bytes
  import opened Results
  import opened ThriftTypes
  import opened BinaryWire
  import opened ThriftBytes
  import opened JaegerBatch

  // ----- members and their bytes -----

  datatype SpanPart =
    | TraceLow(b: bytes) | TraceHigh(b: bytes) | Id(b: bytes) | Name(s: bytes) | Start(n: uint64) | Lasts(n: uint64)
    | Other(f: Field)

  datatype ProcessPart = Service(s: bytes) | OtherOfProcess(f: Field)

  datatype BatchPart = Sender(parts: seq<ProcessPart>) | Spans(spans: seq<seq<SpanPart>>) | OtherOfBatch(f: Field)

  function SpanPartText(p: SpanPart): bytes {
    match p
    case TraceLow(b) => [10, 0, 1] + b
    case TraceHigh(b) => [10, 0, 2] + b
    case Id(b) => [10, 0, 3] + b
    case Name(s) => [11, 0, 5] + (Four(|s|) + s)
    case Start(n) => [10, 0, 7] + Eight(n)
    case Lasts(n) => [10, 0, 8] + Eight(n)
    case Other(f) => BinaryFieldText(f)
  }

  function SpanText(ps: seq<SpanPart>): bytes {
    if ps == [] then [0] else SpanPartText(ps[0]) + SpanText(ps[1..])
  }

  function SpanTexts(spans: seq<seq<SpanPart>>): bytes {
    if spans == [] then [] else SpanText(spans[0]) + SpanTexts(spans[1..])
  }

  function ProcessPartText(p: ProcessPart): bytes {
    match p
    case Service(s) => [11, 0, 1] + (Four(|s|) + s)
    case OtherOfProcess(f) => BinaryFieldText(f)
  }

  function ProcessText(ps: seq<ProcessPart>): bytes {
    if ps == [] then [0] else ProcessPartText(ps[0]) + ProcessText(ps[1..])
  }

  function BatchPartText(p: BatchPart): bytes {
    match p
    case Sender(parts) => [12, 0, 1] + ProcessText(parts)
    case Spans(spans) => [15, 0, 2] + ([12] + Four(|spans|) + SpanTexts(spans))
    case OtherOfBatch(f) => BinaryFieldText(f)
  }

  function BatchText(ps: seq<BatchPart>): bytes {
    if ps == [] then [0] else BatchPartText(ps[0]) + BatchText(ps[1..])
  }

  // ----- what they mean -----

  /** The low half of a trace id is its last eight bytes. */
  function SpanPartMeaning(span: Span, p: SpanPart): Span
    requires SpanPartOk(p)
  {
    match p
    case TraceLow(b) => span.(traceID := span.traceID[..8] + b)
    case TraceHigh(b) => span.(traceID := b + span.traceID[8..])
    case Id(b) => span.(spanID := b)
    case Name(s) => span.(operationName := s)
    case Start(n) => span.(startTime := n)
    case Lasts(n) => span.(duration := n)
    case Other(_) => span
  }

  function SpanMeaning(span: Span, ps: seq<SpanPart>): Span
    requires SpanPartsOk(ps)
    decreases ps
  {
    if ps == [] then span else SpanMeaning(SpanPartMeaning(span, ps[0]), ps[1..])
  }

  function SpanMeanings(spans: seq<seq<SpanPart>>): seq<Span>
    requires SpansOk(spans)
  {
    if spans == [] then []
    else
      var blank := Span([0, 0, 0, 0, 0, 0, 0, 0, 0, 0, 0, 0, 0, 0, 0, 0], [0, 0, 0, 0, 0, 0, 0, 0], [], 0, 0);
      [SpanMeaning(blank, spans[0])] + SpanMeanings(spans[1..])
  }

  function ProcessMeaning(process: Process, ps: seq<ProcessPart>): Process
    decreases ps
  {
    if ps == [] then process
    else ProcessMeaning(if ps[0].Service? then Process(ps[0].s) else process, ps[1..])
  }

  function BatchPartMeaning(batch: Batch, p: BatchPart): Batch
    requires BatchPartOk(p)
  {
    match p
    case Sender(parts) => batch.(process := ProcessMeaning(Process([]), parts))
    case Spans(spans) => batch.(spans := SpanMeanings(spans))
    case OtherOfBatch(_) => batch
  }

  function BatchMeaning(batch: Batch, ps: seq<BatchPart>): Batch
    requires BatchPartsOk(ps)
    decreases ps
  {
    if ps == [] then batch else BatchMeaning(BatchPartMeaning(batch, ps[0]), ps[1..])
  }

  predicate FieldOk(f: Field) {
    FieldTyped(f) && Sized(f.value)
  }

  predicate SpanPartOk(p: SpanPart) {
    match p
    case TraceLow(b) => |b| == 8
    case TraceHigh(b) => |b| == 8
    case Id(b) => |b| == 8
    case Name(s) => |s| < 0x8000_0000
    case Start(_) => true
    case Lasts(_) => true
    case Other(f) => f.id !in {1, 2, 3, 5, 7, 8} && FieldOk(f)
  }

  predicate SpanPartsOk(ps: seq<SpanPart>) {
    ps == [] || (SpanPartOk(ps[0]) && SpanPartsOk(ps[1..]))
  }

  predicate SpansOk(spans: seq<seq<SpanPart>>) {
    spans == [] || (SpanPartsOk(spans[0]) && SpansOk(spans[1..]))
  }

  predicate ProcessPartOk(p: ProcessPart) {
    if p.Service? then |p.s| < 0x8000_0000 else p.f.id != 1 && FieldOk(p.f)
  }

  predicate ProcessPartsOk(ps: seq<ProcessPart>) {
    ps == [] || (ProcessPartOk(ps[0]) && ProcessPartsOk(ps[1..]))
  }

  predicate BatchPartOk(p: BatchPart) {
    match p
    case Sender(parts) => ProcessPartsOk(parts)
    case Spans(spans) => |spans| < 0x8000_0000 && SpansOk(spans)
    case OtherOfBatch(f) => f.id != 1 && f.id != 2 && FieldOk(f)
  }

  predicate BatchPartsOk(ps: seq<BatchPart>) {
    ps == [] || (BatchPartOk(ps[0]) && BatchPartsOk(ps[1..]))
  }

  // ----- the same as fields -----

  function SpanPartField(p: SpanPart): Field
    requires SpanPartOk(p)
  {
    match p
    case TraceLow(b) => Field(1, I64(Number(b)))
    case TraceHigh(b) => Field(2, I64(Number(b)))
    case Id(b) => Field(3, I64(Number(b)))
    case Name(s) => Field(5, String(s))
    case Start(n) => Field(7, I64(AsInt64(n)))
    case Lasts(n) => Field(8, I64(AsInt64(n)))
    case Other(f) => f
  }

  function SpanFields(ps: seq<SpanPart>): seq<Field>
    requires SpanPartsOk(ps)
  {
    if ps == [] then [] else [SpanPartField(ps[0])] + SpanFields(ps[1..])
  }

  function SpanValues(spans: seq<seq<SpanPart>>): (r: seq<Value>)
    requires SpansOk(spans)
    ensures |r| == |spans|
  {
    if spans == [] then [] else [Struct(SpanFields(spans[0]))] + SpanValues(spans[1..])
  }

  function ProcessPartField(p: ProcessPart): Field {
    if p.Service? then Field(1, String(p.s)) else p.f
  }

  function ProcessFields(ps: seq<ProcessPart>): seq<Field> {
    if ps == [] then [] else [ProcessPartField(ps[0])] + ProcessFields(ps[1..])
  }

  function BatchPartField(p: BatchPart): Field
    requires BatchPartOk(p)
  {
    match p
    case Sender(parts) => Field(1, Struct(ProcessFields(parts)))
    case Spans(spans) => Field(2, List(12, SpanValues(spans)))
    case OtherOfBatch(f) => f
  }

  function BatchFields(ps: seq<BatchPart>): seq<Field>
    requires BatchPartsOk(ps)
  {
    if ps == [] then [] else [BatchPartField(ps[0])] + BatchFields(ps[1..])
  }

  lemma {:induction false} NumberIs(b: bytes)
    requires |b| == 8
    ensures Eight(Number(b) % 0x1_0000_0000_0000_0000) == b
  {
    hide Eight, Number;
    IntegersAre(0, 0, Number(b));
  }

  lemma {:induction false} TimeIs(n: uint64)
    ensures AsInt64(n) % 0x1_0000_0000_0000_0000 == n && AsUint64(AsInt64(n)) == n
  {
  }

  /** Ids below 256 have a zero in front. */
  lemma {:induction false} IdIs(id: int16)
    requires 0 <= id < 256
    ensures Two(id % 0x1_0000) == [0, id]
  {
  }

  lemma {:induction false} PlainFieldOk(id: int16, v: int64, s: bytes)
    requires |s| < 0x8000_0000
    ensures FieldOk(Field(id, I64(v))) && FieldOk(Field(id, String(s)))
  {
  }

  lemma {:induction false} SpanPartIs(p: SpanPart)
    requires SpanPartOk(p)
    ensures BinaryFieldText(SpanPartField(p)) == SpanPartText(p)
    ensures FieldOk(SpanPartField(p)) && SpanFieldShaped(SpanPartField(p))
  {
    hide Eight, Two, Four, Number, FieldOk;
    IdIs(1);
    IdIs(2);
    IdIs(3);
    IdIs(5);
    IdIs(7);
    IdIs(8);
    match p
    case TraceLow(b) => NumberIs(b); PlainFieldOk(1, Number(b), []);
    case TraceHigh(b) => NumberIs(b); PlainFieldOk(2, Number(b), []);
    case Id(b) => NumberIs(b); PlainFieldOk(3, Number(b), []);
    case Name(s) => PlainFieldOk(5, 0, s);
    case Start(n) => TimeIs(n); PlainFieldOk(7, AsInt64(n), []);
    case Lasts(n) => TimeIs(n); PlainFieldOk(8, AsInt64(n), []);
    case Other(_) =>
  }

  lemma {:induction false} SpanPartMeans(span: Span, p: SpanPart)
    requires SpanPartOk(p)
    ensures SpanFieldShaped(SpanPartField(p)) && SpanWith(span, SpanPartField(p)) == SpanPartMeaning(span, p)
  {
    hide Number, I64Bytes;
    match p
    case Start(n) => TimeIs(n);
    case Lasts(n) => TimeIs(n);
    case _ =>
  }

  lemma {:induction false} SpanIs(span: Span, ps: seq<SpanPart>)
    requires SpanPartsOk(ps)
    ensures BinaryFieldTexts(SpanFields(ps)) == SpanText(ps)
    ensures FieldsTyped(SpanFields(ps)) && FieldsSized(SpanFields(ps)) && SpanShaped(SpanFields(ps))
    ensures SpanOf(span, SpanFields(ps)) == SpanMeaning(span, ps)
    decreases ps
  {
    hide SpanPartField, BinaryFieldText, SpanPartText, SpanPartOk, Sized, FieldTyped, SpanWith, SpanPartMeaning,
      SpanFieldShaped;
    if ps != [] {
      SpanPartIs(ps[0]);
      SpanPartMeans(span, ps[0]);
      FieldIsOk(SpanPartField(ps[0]));
      SpanIs(SpanPartMeaning(span, ps[0]), ps[1..]);
      assert SpanFields(ps)[1..] == SpanFields(ps[1..]);
    }
  }

  lemma {:induction false} FieldIsOk(f: Field)
    ensures FieldOk(f) <==> FieldTyped(f) && Sized(f.value)
  {
  }

  lemma {:induction false} SpansAre(spans: seq<seq<SpanPart>>)
    requires SpansOk(spans)
    ensures BinaryTexts(SpanValues(spans)) == SpanTexts(spans)
    ensures AllTyped(12, SpanValues(spans)) && SpansShaped(SpanValues(spans))
    ensures forall i :: 0 <= i < |spans| ==> Sized(SpanValues(spans)[i])
    ensures SpansOf(SpanValues(spans)) == SpanMeanings(spans)
    decreases spans
  {
    hide SpanFields, SpanText, BinaryFieldTexts, SpanPartsOk, FieldsTyped, SpanShaped, SpanOf, SpanMeaning;
    if spans != [] {
      SpanIs(NO_SPAN, spans[0]);
      SpansAre(spans[1..]);
      assert SpanValues(spans)[1..] == SpanValues(spans[1..]);
      assert BinaryText(SpanValues(spans)[0]) == SpanText(spans[0]);
    }
  }

  lemma {:induction false} ProcessIs(process: Process, ps: seq<ProcessPart>)
    requires ProcessPartsOk(ps)
    ensures BinaryFieldTexts(ProcessFields(ps)) == ProcessText(ps)
    ensures FieldsTyped(ProcessFields(ps)) && FieldsSized(ProcessFields(ps)) && ProcessShaped(ProcessFields(ps))
    ensures ProcessOf(process, ProcessFields(ps)) == ProcessMeaning(process, ps)
    decreases ps
  {
    hide BinaryFieldText, ProcessPartText, Sized, FieldTyped, ProcessPartField;
    if ps != [] {
      ProcessPartIs(ps[0]);
      ProcessIs(if ps[0].Service? then Process(ps[0].s) else process, ps[1..]);
      assert ProcessFields(ps)[1..] == ProcessFields(ps[1..]);
    }
  }

  lemma {:induction false} ProcessPartIs(p: ProcessPart)
    requires ProcessPartOk(p)
    ensures BinaryFieldText(ProcessPartField(p)) == ProcessPartText(p)
    ensures FieldTyped(ProcessPartField(p)) && Sized(ProcessPartField(p).value)
    ensures p.Service? ==> ProcessPartField(p) == Field(1, String(p.s))
    ensures p.OtherOfProcess? ==> ProcessPartField(p).id != 1
  {
    hide Two, Four;
    IdIs(1);
  }

  lemma {:induction false} BatchPartIs(batch: Batch, p: BatchPart)
    requires BatchPartOk(p)
    ensures BinaryFieldText(BatchPartField(p)) == BatchPartText(p)
    ensures FieldTyped(BatchPartField(p)) && Sized(BatchPartField(p).value) && BatchFieldShaped(BatchPartField(p))
    ensures BatchWith(batch, BatchPartField(p)) == BatchPartMeaning(batch, p)
  {
    hide Two, Four, SpanTexts, ProcessText, SpanValues, ProcessFields, ProcessMeaning, SpanMeanings, ProcessOf, SpansOf,
      BinaryTexts, BinaryFieldTexts, AllTyped, FieldsTyped, SpansShaped, ProcessShaped, SpansOk, ProcessPartsOk;
    IdIs(1);
    IdIs(2);
    match p
    case Sender(parts) => ProcessIs(NO_PROCESS, parts);
    case Spans(spans) => SpansAre(spans);
    case OtherOfBatch(_) =>
  }

  lemma {:induction false} BatchIs(batch: Batch, ps: seq<BatchPart>)
    requires BatchPartsOk(ps)
    ensures BinaryFieldTexts(BatchFields(ps)) == BatchText(ps)
    ensures FieldsTyped(BatchFields(ps)) && FieldsSized(BatchFields(ps)) && BatchShaped(BatchFields(ps))
    ensures BatchOf(batch, BatchFields(ps)) == BatchMeaning(batch, ps)
    decreases ps
  {
    hide BatchPartField, BinaryFieldText, BatchPartText, BatchPartOk, Sized, FieldTyped, BatchWith, BatchPartMeaning,
      BatchFieldShaped;
    if ps != [] {
      BatchPartIs(batch, ps[0]);
      BatchIs(BatchPartMeaning(batch, ps[0]), ps[1..]);
      assert BatchFields(ps)[1..] == BatchFields(ps[1..]);
    }
  }

  /** From any members in any order the receiver reads what they mean: of a
      repeated one the last, of unknown ones nothing. */
  lemma {:induction false} BatchTextReads(ps: seq<BatchPart>)
    requires BatchPartsOk(ps)
    ensures ReadBatch(Batch(Process([]), []), BatchText(ps), 0) ==
            Outcome(Ok(BatchMeaning(Batch(Process([]), []), ps)), |BatchText(ps)|)
  {
    hide ReadBatch, EncodeFields, BinaryFieldTexts, BatchText, BatchFields, BatchOf, BatchMeaning, FieldsTyped,
      BatchShaped, BatchPartsOk;
    BatchIs(NO_BATCH, ps);
    BinaryFields(BatchFields(ps));
    assert At(BatchText(ps), 0, EncodeFields(BatchFields(ps)));
    BatchReads(NO_BATCH, BatchFields(ps), BatchText(ps), 0);
  }
}
