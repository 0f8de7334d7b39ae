/** The Jaeger receiver's decoding loops over the shared binary decoder. */
module JaegerReceiver {
  import opened Bytes
  import opened Results
  import opened ThriftTypes
  import opened BinaryWire
  import opened Binary
  import opened JaegerBatch

  method DecodeThriftBatch(data: bytes) returns (r: Result<Batch, Error>)
    ensures r == ReadBatch(NO_BATCH, data, 0).result
  {
    var dec := new Decoder(data);
    var batch := NO_BATCH;
    while true
      invariant dec.buf == data && dec.Valid()
      invariant ReadBatch(batch, data, dec.pos).result == ReadBatch(NO_BATCH, data, 0).result
      decreases |data| - dec.pos
    {
      var h :- dec.ReadFieldBegin();
      if h.0 == TYPE_STOP {
        return Ok(batch);
      }
      batch :- DecodeBatchField(dec, batch, h.0, h.1);
    }
  }

  /** The switch in the batch loop. */
  method DecodeBatchField(dec: Decoder, batch: Batch, ft: TType, id: int16) returns (r: Result<Batch, Error>)
    requires dec.Valid()
    modifies dec
    ensures r == ReadBatchField(batch, ft, id, dec.buf, old(dec.pos)).result
    ensures r.Ok? ==> dec.pos == ReadBatchField(batch, ft, id, dec.buf, old(dec.pos)).next
  {
    hide ReadProcess, ReadSpan, BinaryWire.ReadListBegin, Skip;
    if id == 1 {
      var process :- DecodeThriftProcess(dec);
      return Ok(batch.(process := process));
    } else if id == 2 {
      var h :- dec.ReadListBegin();
      var size := h.1;
      if size < 0 {
        return Err(Panic);
      }
      ghost var p := dec.pos;
      var spans := [];
      var i := 0;
      while i < size
        invariant 0 <= i <= size && dec.Valid()
        invariant ReadSpans(spans, size - i, dec.buf, dec.pos) == ReadSpans([], size, dec.buf, p)
      {
        var span :- DecodeThriftSpan(dec);
        spans := spans + [span];
        i := i + 1;
      }
      return Ok(batch.(spans := spans));
    } else {
      var _ :- SkipThriftField(dec, ft);
      return Ok(batch);
    }
  }

  method DecodeThriftProcess(dec: Decoder) returns (r: Result<Process, Error>)
    requires dec.Valid()
    modifies dec
    ensures r == ReadProcess(NO_PROCESS, dec.buf, old(dec.pos)).result
    ensures r.Ok? ==> dec.pos == ReadProcess(NO_PROCESS, dec.buf, old(dec.pos)).next
  {
    ghost var start := dec.pos;
    var proc := NO_PROCESS;
    while true
      invariant dec.Valid()
      invariant ReadProcess(proc, dec.buf, dec.pos) == ReadProcess(NO_PROCESS, dec.buf, start)
      decreases |dec.buf| - dec.pos
    {
      var h :- dec.ReadFieldBegin();
      if h.0 == TYPE_STOP {
        return Ok(proc);
      }
      if h.1 == 1 {
        var s :- dec.ReadString();
        proc := proc.(serviceName := s);
      } else {
        var _ :- SkipThriftField(dec, h.0);
      }
    }
  }

  method DecodeThriftSpan(dec: Decoder) returns (r: Result<Span, Error>)
    requires dec.Valid()
    modifies dec
    ensures r == ReadSpan(NO_SPAN, dec.buf, old(dec.pos)).result
    ensures r.Ok? ==> dec.pos == ReadSpan(NO_SPAN, dec.buf, old(dec.pos)).next && dec.Valid()
  {
    ghost var start := dec.pos;
    var span := NO_SPAN;
    while true
      invariant dec.Valid()
      invariant ReadSpan(span, dec.buf, dec.pos) == ReadSpan(NO_SPAN, dec.buf, start)
      decreases |dec.buf| - dec.pos
    {
      var h :- dec.ReadFieldBegin();
      if h.0 == TYPE_STOP {
        return Ok(span);
      }
      span :- DecodeSpanField(dec, span, h.0, h.1);
    }
  }

  /** The switch in the span loop. */
  method DecodeSpanField(dec: Decoder, span: Span, ft: TType, id: int16) returns (r: Result<Span, Error>)
    requires dec.Valid()
    modifies dec
    ensures r == ReadSpanField(span, ft, id, dec.buf, old(dec.pos)).result
    ensures r.Ok? ==> dec.pos == ReadSpanField(span, ft, id, dec.buf, old(dec.pos)).next
  {
    if id == 1 {
      var v :- dec.ReadI64();
      var traceID := PutBytes(span.traceID, 15, v);
      assert span.traceID[..8] + I64Bytes(v) + span.traceID[16..] == span.traceID[..8] + I64Bytes(v);
      return Ok(span.(traceID := traceID));
    } else if id == 2 {
      var v :- dec.ReadI64();
      var traceID := PutBytes(span.traceID, 7, v);
      assert span.traceID[..0] + I64Bytes(v) + span.traceID[8..] == I64Bytes(v) + span.traceID[8..];
      return Ok(span.(traceID := traceID));
    } else if id == 3 {
      var v :- dec.ReadI64();
      var spanID := PutBytes(span.spanID, 7, v);
      assert span.spanID[..0] + I64Bytes(v) + span.spanID[8..] == I64Bytes(v);
      return Ok(span.(spanID := spanID));
    } else if id == 5 {
      var s :- dec.ReadString();
      return Ok(span.(operationName := s));
    } else if id == 7 {
      var v :- dec.ReadI64();
      return Ok(span.(startTime := AsUint64(v)));
    } else if id == 8 {
      var v :- dec.ReadI64();
      return Ok(span.(duration := AsUint64(v)));
    } else {
      var _ :- SkipThriftField(dec, ft);
      return Ok(span);
    }
  }

  /** The loop that spreads a number over eight bytes, the lowest at index last. */
  method PutBytes(b: bytes, last: nat, v: int64) returns (r: bytes)
    requires 7 <= last < |b|
    ensures r == b[..last - 7] + I64Bytes(v) + b[last + 1..]
  {
    r := b;
    var shifted := AsUint64(v);
    var i := 0;
    while i < 8
      invariant 0 <= i <= 8 && 0 <= shifted && shifted == Shift(AsUint64(v), i)
      invariant r == b[..last + 1 - i] + BigEndian(AsUint64(v), i) + b[last + 1..]
    {
      NextDigit(AsUint64(v), i);
      NextShift(AsUint64(v), i);
      ghost var tail := BigEndian(AsUint64(v), i) + b[last + 1..];
      assert r == b[..last - i] + [b[last - i]] + tail;
      r := r[last - i := shifted % 0x100];
      assert r == b[..last - i] + [shifted % 0x100] + tail;
      shifted := shifted / 0x100;
      i := i + 1;
    }
  }

  function Shift(u: nat, i: nat): nat {
    if i == 0 then u else Shift(u / 0x100, i - 1)
  }

  lemma {:induction false} NextShift(u: nat, i: nat)
    ensures Shift(u, i + 1) == Shift(u, i) / 0x100
  {
    if i > 0 {
      NextShift(u / 0x100, i - 1);
    }
  }

  lemma {:induction false} NextDigit(u: nat, i: nat)
    ensures BigEndian(u, i + 1) == [Shift(u, i) % 0x100] + BigEndian(u, i)
  {
    if i == 0 {
      assert BigEndian(u, 1) == BigEndian(u / 0x100, 0) + [u % 0x100];
    } else {
      NextDigit(u / 0x100, i - 1);
    }
  }
}
