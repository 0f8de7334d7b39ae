/** The Thrift binary protocol: what each call writes, what each call reads and
    where it leaves the cursor, also when it fails, and how the Jaeger receiver
    skips a value it does not know. */
module BinaryWire {
  import opened Bytes
  import opened Results
  import opened ThriftTypes

  /** Panic stands for a slice or an allocation with a negative length. */
  datatype Error = Underflow | Panic

  /** The result of a read, and the cursor after it. */
  datatype Outcome<+T> = Outcome(result: Result<T, Error>, next: nat)

  // ----- writing -----

  function I16Bytes(i: int16): bytes {
    BigEndian(i % TWO_16, 2)
  }

  function I32Bytes(i: int32): bytes {
    BigEndian(i % TWO_32, 4)
  }

  function I64Bytes(i: int64): bytes {
    BigEndian(AsUint64(i), 8)
  }

  /** The length is cut to 32 bits. */
  function StringBytes(s: bytes): bytes {
    I32Bytes(ToInt32(|s| % TWO_64)) + s
  }

  function FieldHeader(t: TType, id: int16): bytes {
    [t] + I16Bytes(id)
  }

  function ListHeader(elem: TType, size: int32): bytes {
    [elem] + I32Bytes(size)
  }

  function MapHeader(key: TType, value: TType, size: int32): bytes {
    [key, value] + I32Bytes(size)
  }

  function Encode(v: Value): bytes
    requires Typed(v)
    decreases v, 0
  {
    match v
    case Bool(b) => [if b then 1 else 0]
    case I8(b) => [b]
    case I16(i) => I16Bytes(i)
    case I32(i) => I32Bytes(i)
    case I64(i) => I64Bytes(i)
    case Double(bits) => BigEndian(bits, 8)
    case String(s) => StringBytes(s)
    case List(elem, items) => ListHeader(elem, |items|) + EncodeAll(elem, items)
    case Set(elem, items) => ListHeader(elem, |items|) + EncodeAll(elem, items)
    case Map(key, value, pairs) => MapHeader(key, value, |pairs|) + EncodePairs(key, value, pairs)
    case Struct(fields) => EncodeFields(fields)
  }

  function EncodeAll(elem: TType, items: seq<Value>): bytes
    requires AllTyped(elem, items)
    decreases items, 1
  {
    if items == [] then [] else Encode(items[0]) + EncodeAll(elem, items[1..])
  }

  function EncodePair(key: TType, value: TType, p: Pair): bytes
    requires PairTyped(key, value, p)
    decreases p, 1
  {
    Encode(p.k) + Encode(p.v)
  }

  function EncodePairs(key: TType, value: TType, pairs: seq<Pair>): bytes
    requires PairsTyped(key, value, pairs)
    decreases pairs, 2
  {
    if pairs == [] then [] else EncodePair(key, value, pairs[0]) + EncodePairs(key, value, pairs[1..])
  }

  function EncodeField(f: Field): bytes
    requires FieldTyped(f)
    decreases f, 1
  {
    FieldHeader(TypeOf(f.value), f.id) + Encode(f.value)
  }

  function EncodeFields(fields: seq<Field>): bytes
    requires FieldsTyped(fields)
    decreases fields, 2
  {
    if fields == [] then [TYPE_STOP] else EncodeField(fields[0]) + EncodeFields(fields[1..])
  }

  // ----- reading -----

  function ReadByte(buf: bytes, pos: nat): (o: Outcome<byte>)
    requires pos <= |buf|
    ensures pos <= o.next <= |buf| && (o.result.Ok? ==> o.next == pos + 1)
  {
    if pos >= |buf| then Outcome(Err(Underflow), pos) else Outcome(Ok(buf[pos]), pos + 1)
  }

  function ReadI16(buf: bytes, pos: nat): (o: Outcome<int16>)
    requires pos <= |buf|
    ensures pos <= o.next <= |buf| && (o.result.Ok? ==> o.next == pos + 2)
  {
    if pos + 2 > |buf| then Outcome(Err(Underflow), pos)
    else Outcome(Ok(ToInt16(FromBigEndian(buf[pos..pos + 2]))), pos + 2)
  }

  function ReadI32(buf: bytes, pos: nat): (o: Outcome<int32>)
    requires pos <= |buf|
    ensures pos <= o.next <= |buf| && (o.result.Ok? ==> o.next == pos + 4)
  {
    if pos + 4 > |buf| then Outcome(Err(Underflow), pos)
    else Outcome(Ok(ToInt32(FromBigEndian(buf[pos..pos + 4]) % TWO_64)), pos + 4)
  }

  /** Also a double, as its bit pattern. */
  function ReadU64(buf: bytes, pos: nat): (o: Outcome<uint64>)
    requires pos <= |buf|
    ensures pos <= o.next <= |buf| && (o.result.Ok? ==> o.next == pos + 8)
  {
    if pos + 8 > |buf| then Outcome(Err(Underflow), pos)
    else Outcome(Ok(FromBigEndian(buf[pos..pos + 8]) % TWO_64), pos + 8)
  }

  function ReadI64(buf: bytes, pos: nat): (o: Outcome<int64>)
    requires pos <= |buf|
    ensures pos <= o.next <= |buf| && (o.result.Ok? ==> o.next == pos + 8)
  {
    var o := ReadU64(buf, pos);
    if o.result.Err? then Outcome(Err(o.result.error), o.next) else Outcome(Ok(AsInt64(o.result.value)), o.next)
  }

  /** A failed read has still moved past the length. */
  function ReadString(buf: bytes, pos: nat): (o: Outcome<bytes>)
    requires pos <= |buf|
    ensures pos <= o.next <= |buf| && (o.result.Ok? ==> o.next >= pos + 4)
  {
    var length := ReadI32(buf, pos);
    if length.result.Err? then Outcome(Err(length.result.error), length.next)
    else
      var p, n := length.next, length.result.value;
      if p + n > |buf| then Outcome(Err(Underflow), p)
      else if n < 0 then Outcome(Err(Panic), p)
      else Outcome(Ok(buf[p..p + n]), p + n)
  }

  /** Type and id; a failed read reports the stop type. */
  function ReadFieldBegin(buf: bytes, pos: nat): (o: Outcome<(TType, int16)>)
    requires pos <= |buf|
    ensures pos <= o.next <= |buf|
    ensures o.result.Ok? ==> o.next == if o.result.value.0 == TYPE_STOP then pos + 1 else pos + 3
  {
    var t := ReadByte(buf, pos);
    if t.result.Err? then Outcome(Err(t.result.error), t.next)
    else if t.result.value == TYPE_STOP then Outcome(Ok((TYPE_STOP, 0)), t.next)
    else
      var id := ReadI16(buf, t.next);
      if id.result.Err? then Outcome(Err(id.result.error), id.next)
      else Outcome(Ok((t.result.value, id.result.value)), id.next)
  }

  function ReadListBegin(buf: bytes, pos: nat): (o: Outcome<(TType, int32)>)
    requires pos <= |buf|
    ensures pos <= o.next <= |buf| && (o.result.Ok? ==> o.next == pos + 5)
  {
    var t := ReadByte(buf, pos);
    if t.result.Err? then Outcome(Err(t.result.error), t.next)
    else
      var size := ReadI32(buf, t.next);
      if size.result.Err? then Outcome(Err(size.result.error), size.next)
      else Outcome(Ok((t.result.value, size.result.value)), size.next)
  }

  function ReadMapBegin(buf: bytes, pos: nat): (o: Outcome<(TType, TType, int32)>)
    requires pos <= |buf|
    ensures pos <= o.next <= |buf| && (o.result.Ok? ==> o.next == pos + 6)
  {
    var k := ReadByte(buf, pos);
    if k.result.Err? then Outcome(Err(k.result.error), k.next)
    else
      var v := ReadByte(buf, k.next);
      if v.result.Err? then Outcome(Err(v.result.error), v.next)
      else
        var size := ReadI32(buf, v.next);
        if size.result.Err? then Outcome(Err(size.result.error), size.next)
        else Outcome(Ok((k.result.value, v.result.value, size.result.value)), size.next)
  }

  // ----- skipping -----

  /** Where skipThriftField leaves the cursor, on arbitrary bytes. Its reads ignore
      their errors; only a panic gets out. The measure, unread bytes, shows that
      it ends: a nested value lies behind a header that was read. */
  function Skip(t: TType, buf: bytes, pos: nat): (r: Result<nat, Error>)
    requires pos <= |buf|
    ensures if r.Ok? then pos <= r.value <= |buf| else r.error == Panic
    decreases |buf| - pos, 1, 0
  {
    if t == TYPE_BOOL || t == TYPE_BYTE then Ok(ReadByte(buf, pos).next)
    else if t == TYPE_I16 then Ok(ReadI16(buf, pos).next)
    else if t == TYPE_I32 then Ok(ReadI32(buf, pos).next)
    else if t == TYPE_I64 || t == TYPE_DOUBLE then Ok(ReadU64(buf, pos).next)
    else if t == TYPE_STRING then
      var s := ReadString(buf, pos);
      if s.result == Err(Panic) then Err(Panic) else Ok(s.next)
    else if t == TYPE_LIST || t == TYPE_SET then
      var h := ReadListBegin(buf, pos);
      if h.result.Err? then Ok(h.next) else SkipItems(h.result.value.0, h.result.value.1, buf, h.next)
    else if t == TYPE_MAP then
      var h := ReadMapBegin(buf, pos);
      if h.result.Err? then Ok(h.next) else SkipPairs(h.result.value.0, h.result.value.1, h.result.value.2, buf, h.next)
    else if t == TYPE_STRUCT then SkipFields(buf, pos)
    else Ok(pos)
  }

  function SkipItems(elem: TType, n: int, buf: bytes, pos: nat): (r: Result<nat, Error>)
    requires pos <= |buf|
    ensures if r.Ok? then pos <= r.value <= |buf| else r.error == Panic
    decreases |buf| - pos, 2, n
  {
    if n <= 0 then Ok(pos)
    else
      var next :- Skip(elem, buf, pos);
      SkipItems(elem, n - 1, buf, next)
  }

  function SkipPair(key: TType, value: TType, buf: bytes, pos: nat): (r: Result<nat, Error>)
    requires pos <= |buf|
    ensures if r.Ok? then pos <= r.value <= |buf| else r.error == Panic
    decreases |buf| - pos, 2, 0
  {
    var next :- Skip(key, buf, pos);
    Skip(value, buf, next)
  }

  function SkipPairs(key: TType, value: TType, n: int, buf: bytes, pos: nat): (r: Result<nat, Error>)
    requires pos <= |buf|
    ensures if r.Ok? then pos <= r.value <= |buf| else r.error == Panic
    decreases |buf| - pos, 3, n
  {
    if n <= 0 then Ok(pos)
    else
      var next :- SkipPair(key, value, buf, pos);
      SkipPairs(key, value, n - 1, buf, next)
  }

  function SkipFields(buf: bytes, pos: nat): (r: Result<nat, Error>)
    requires pos <= |buf|
    ensures if r.Ok? then pos <= r.value <= |buf| else r.error == Panic
    decreases |buf| - pos, 0, 0
  {
    var h := ReadFieldBegin(buf, pos);
    if h.result.Err? || h.result.value.0 == TYPE_STOP then Ok(h.next)
    else
      var next :- Skip(h.result.value.0, buf, h.next);
      SkipFields(buf, next)
  }

  // ----- reads undo writes -----

  /** Every string is shorter than its 32-bit length can say. */
  predicate Sized(v: Value) {
    match v
    case String(s) => |s| < 0x8000_0000
    case List(_, items) => forall i :: 0 <= i < |items| ==> Sized(items[i])
    case Set(_, items) => forall i :: 0 <= i < |items| ==> Sized(items[i])
    case Map(_, _, pairs) => forall i :: 0 <= i < |pairs| ==> Sized(pairs[i].k) && Sized(pairs[i].v)
    case Struct(fields) => forall i :: 0 <= i < |fields| ==> Sized(fields[i].value)
    case _ => true
  }

  predicate FieldsSized(fields: seq<Field>) {
    forall i :: 0 <= i < |fields| ==> Sized(fields[i].value)
  }

  lemma {:induction false} ByteReadsBack(buf: bytes, pos: nat, b: byte, rest: bytes)
    requires At(buf, pos, [b] + rest)
    ensures ReadByte(buf, pos) == Outcome(Ok(b), pos + 1) && At(buf, pos + 1, rest)
  {
    AtSplit(buf, pos, [b], rest);
    assert buf[pos..pos + 1][0] == b;
  }

  lemma {:induction false} I16ReadsBack(buf: bytes, pos: nat, i: int16)
    requires At(buf, pos, I16Bytes(i))
    ensures ReadI16(buf, pos) == Outcome(Ok(i), pos + 2)
  {
    assert Range(2) == TWO_16;
    BigEndianInverse(i % TWO_16, 2);
  }

  lemma {:induction false} I32ReadsBack(buf: bytes, pos: nat, i: int32)
    requires At(buf, pos, I32Bytes(i))
    ensures ReadI32(buf, pos) == Outcome(Ok(i), pos + 4)
  {
    assert Range(4) == TWO_32;
    BigEndianInverse(i % TWO_32, 4);
  }

  lemma {:induction false} U64ReadsBack(buf: bytes, pos: nat, u: uint64)
    requires At(buf, pos, BigEndian(u, 8))
    ensures ReadU64(buf, pos) == Outcome(Ok(u), pos + 8)
  {
    assert Range(8) == TWO_64;
    BigEndianInverse(u, 8);
  }

  lemma {:induction false} I64ReadsBack(buf: bytes, pos: nat, i: int64)
    requires At(buf, pos, I64Bytes(i))
    ensures ReadI64(buf, pos) == Outcome(Ok(i), pos + 8)
  {
    U64ReadsBack(buf, pos, AsUint64(i));
  }

  lemma {:induction false} StringReadsBack(buf: bytes, pos: nat, s: bytes)
    requires |s| < 0x8000_0000 && At(buf, pos, StringBytes(s))
    ensures ReadString(buf, pos) == Outcome(Ok(s), pos + |StringBytes(s)|)
  {
    hide I32Bytes, ReadI32;
    LengthOfI32(|s|);
    AtSplit(buf, pos, I32Bytes(|s|), s);
    I32ReadsBack(buf, pos, |s|);
  }

  lemma {:induction false} FieldHeaderReadsBack(buf: bytes, pos: nat, t: TType, id: int16)
    requires t != TYPE_STOP && At(buf, pos, FieldHeader(t, id))
    ensures ReadFieldBegin(buf, pos) == Outcome(Ok((t, id)), pos + 3)
  {
    ByteReadsBack(buf, pos, t, I16Bytes(id));
    I16ReadsBack(buf, pos + 1, id);
  }

  lemma {:induction false} StopReadsBack(buf: bytes, pos: nat)
    requires At(buf, pos, [TYPE_STOP])
    ensures ReadFieldBegin(buf, pos) == Outcome(Ok((TYPE_STOP, 0)), pos + 1)
  {
    assert [TYPE_STOP] == [TYPE_STOP] + [];
    ByteReadsBack(buf, pos, TYPE_STOP, []);
  }

  lemma {:induction false} ListHeaderReadsBack(buf: bytes, pos: nat, elem: TType, size: int32)
    requires At(buf, pos, ListHeader(elem, size))
    ensures ReadListBegin(buf, pos) == Outcome(Ok((elem, size)), pos + 5)
  {
    ByteReadsBack(buf, pos, elem, I32Bytes(size));
    I32ReadsBack(buf, pos + 1, size);
  }

  lemma {:induction false} MapHeaderReadsBack(buf: bytes, pos: nat, key: TType, value: TType, size: int32)
    requires At(buf, pos, MapHeader(key, value, size))
    ensures ReadMapBegin(buf, pos) == Outcome(Ok((key, value, size)), pos + 6)
  {
    assert MapHeader(key, value, size) == [key] + ([value] + I32Bytes(size));
    ByteReadsBack(buf, pos, key, [value] + I32Bytes(size));
    ByteReadsBack(buf, pos + 1, value, I32Bytes(size));
    I32ReadsBack(buf, pos + 2, size);
  }

  // ----- skipping a value stops exactly at its end -----

  lemma {:induction false} SkipsExactly(v: Value, buf: bytes, pos: nat)
    requires Typed(v) && Sized(v) && At(buf, pos, Encode(v))
    ensures Skip(TypeOf(v), buf, pos) == Ok(pos + |Encode(v)|)
    decreases v, 0
  {
    hide ReadByte, ReadI16, ReadI32, ReadU64, ReadString, ReadListBegin, ReadMapBegin, I16Bytes, I32Bytes, I64Bytes,
      BigEndian, StringBytes, ListHeader, MapHeader, EncodeAll, EncodePairs, EncodeFields, SkipItems, SkipPairs,
          SkipFields;
    match v
    case Bool(b) =>
      assert Encode(v) == [if b then 1 else 0] + [];
      ByteReadsBack(buf, pos, if b then 1 else 0, []);
    case I8(b) =>
      assert Encode(v) == [b] + [];
      ByteReadsBack(buf, pos, b, []);
    case I16(i) => I16ReadsBack(buf, pos, i); LengthOfI16(i);
    case I32(i) => I32ReadsBack(buf, pos, i); LengthOfI32(i);
    case I64(i) => LengthOfI64(i); U64ReadsBack(buf, pos, AsUint64(i));
    case Double(bits) => U64ReadsBack(buf, pos, bits);
    case String(s) => StringReadsBack(buf, pos, s);
    case List(elem, items) => SkipsList(elem, items, buf, pos);
    case Set(elem, items) => SkipsList(elem, items, buf, pos);
    case Map(key, value, pairs) => SkipsMap(key, value, pairs, buf, pos);
    case Struct(fields) => SkipsFields(fields, buf, pos);
  }

  lemma {:induction false} LengthOfI16(i: int16)
    ensures |I16Bytes(i)| == 2
  {
  }

  lemma {:induction false} LengthOfI32(i: int32)
    ensures |I32Bytes(i)| == 4
  {
  }

  lemma {:induction false} LengthOfI64(i: int64)
    ensures |I64Bytes(i)| == 8 && I64Bytes(i) == BigEndian(AsUint64(i), 8)
  {
  }

  lemma {:induction false} HeaderLengths(key: TType, value: TType, size: int32)
    ensures |ListHeader(key, size)| == 5 && |MapHeader(key, value, size)| == 6
  {
  }

  lemma {:induction false} FieldHeaderLength(t: TType, id: int16)
    ensures |FieldHeader(t, id)| == 3
  {
  }

  lemma {:induction false} SkipsList(elem: TType, items: seq<Value>, buf: bytes, pos: nat)
    requires |items| < 0x8000_0000 && AllTyped(elem, items) && (forall i :: 0 <= i < |items| ==> Sized(items[i]))
    requires At(buf, pos, ListHeader(elem, |items|) + EncodeAll(elem, items))
    ensures ReadListBegin(buf, pos) == Outcome(Ok((elem, |items|)), pos + 5)
    ensures pos + 5 <= |buf| &&
            SkipItems(elem, |items|, buf, pos + 5) == Ok(pos + |ListHeader(elem, |items|) + EncodeAll(elem, items)|)
    decreases items, 2
  {
    hide ListHeader, EncodeAll, ReadListBegin, SkipItems, Sized, AllTyped;
    HeaderLengths(elem, 0, |items|);
    AtSplit(buf, pos, ListHeader(elem, |items|), EncodeAll(elem, items));
    ListHeaderReadsBack(buf, pos, elem, |items|);
    SkipsItems(elem, items, buf, pos + 5);
  }

  lemma {:induction false} SkipsItems(elem: TType, items: seq<Value>, buf: bytes, pos: nat)
    requires AllTyped(elem, items) && (forall i :: 0 <= i < |items| ==> Sized(items[i]))
    requires At(buf, pos, EncodeAll(elem, items))
    ensures SkipItems(elem, |items|, buf, pos) == Ok(pos + |EncodeAll(elem, items)|)
    decreases items, 1
  {
    hide Encode, Skip, Sized, Typed, TypeOf;
    if items != [] {
      AtSplit(buf, pos, Encode(items[0]), EncodeAll(elem, items[1..]));
      SkipsExactly(items[0], buf, pos);
      SkipsItems(elem, items[1..], buf, pos + |Encode(items[0])|);
    }
  }

  lemma {:induction false} SkipsMap(key: TType, value: TType, pairs: seq<Pair>, buf: bytes, pos: nat)
    requires |pairs| < 0x8000_0000 && PairsTyped(key, value, pairs)
    requires forall i :: 0 <= i < |pairs| ==> Sized(pairs[i].k) && Sized(pairs[i].v)
    requires At(buf, pos, MapHeader(key, value, |pairs|) + EncodePairs(key, value, pairs))
    ensures ReadMapBegin(buf, pos) == Outcome(Ok((key, value, |pairs|)), pos + 6)
    ensures pos + 6 <= |buf| &&
            SkipPairs(key, value, |pairs|, buf, pos + 6) ==
            Ok(pos + |MapHeader(key, value, |pairs|) + EncodePairs(key, value, pairs)|)
    decreases pairs, 3
  {
    hide MapHeader, EncodePairs, ReadMapBegin, SkipPairs, Sized, PairsTyped;
    HeaderLengths(key, value, |pairs|);
    AtSplit(buf, pos, MapHeader(key, value, |pairs|), EncodePairs(key, value, pairs));
    MapHeaderReadsBack(buf, pos, key, value, |pairs|);
    SkipsPairs(key, value, pairs, buf, pos + 6);
  }

  lemma {:induction false} SkipsPair(key: TType, value: TType, p: Pair, buf: bytes, pos: nat)
    requires PairTyped(key, value, p) && Sized(p.k) && Sized(p.v)
    requires At(buf, pos, EncodePair(key, value, p))
    ensures SkipPair(key, value, buf, pos) == Ok(pos + |EncodePair(key, value, p)|)
    decreases p, 1
  {
    hide Encode, Skip, Sized, Typed, TypeOf;
    AtSplit(buf, pos, Encode(p.k), Encode(p.v));
    SkipsExactly(p.k, buf, pos);
    SkipsExactly(p.v, buf, pos + |Encode(p.k)|);
  }

  lemma {:induction false} SkipsPairs(key: TType, value: TType, pairs: seq<Pair>, buf: bytes, pos: nat)
    requires PairsTyped(key, value, pairs)
    requires forall i :: 0 <= i < |pairs| ==> Sized(pairs[i].k) && Sized(pairs[i].v)
    requires At(buf, pos, EncodePairs(key, value, pairs))
    ensures SkipPairs(key, value, |pairs|, buf, pos) == Ok(pos + |EncodePairs(key, value, pairs)|)
    decreases pairs, 2
  {
    hide EncodePair, SkipPair, Sized, PairTyped;
    if pairs != [] {
      AtSplit(buf, pos, EncodePair(key, value, pairs[0]), EncodePairs(key, value, pairs[1..]));
      SkipsPair(key, value, pairs[0], buf, pos);
      SkipsPairs(key, value, pairs[1..], buf, pos + |EncodePair(key, value, pairs[0])|);
    }
  }

  lemma {:induction false} SkipsField(f: Field, buf: bytes, pos: nat)
    requires FieldTyped(f) && Sized(f.value)
    requires At(buf, pos, EncodeField(f))
    ensures pos + 3 <= |buf| && TypeOf(f.value) != TYPE_STOP &&
            ReadFieldBegin(buf, pos) == Outcome(Ok((TypeOf(f.value), f.id)), pos + 3) &&
            Skip(TypeOf(f.value), buf, pos + 3) == Ok(pos + |EncodeField(f)|)
    decreases f, 1
  {
    hide Encode, Skip, Sized, Typed, FieldHeader, ReadFieldBegin;
    FieldHeaderLength(TypeOf(f.value), f.id);
    AtSplit(buf, pos, FieldHeader(TypeOf(f.value), f.id), Encode(f.value));
    FieldHeaderReadsBack(buf, pos, TypeOf(f.value), f.id);
    SkipsExactly(f.value, buf, pos + 3);
  }

  lemma {:induction false} SkipsFields(fields: seq<Field>, buf: bytes, pos: nat)
    requires FieldsTyped(fields) && FieldsSized(fields)
    requires At(buf, pos, EncodeFields(fields))
    ensures SkipFields(buf, pos) == Ok(pos + |EncodeFields(fields)|)
    decreases fields, 2
  {
    hide EncodeField, ReadFieldBegin, Skip, Sized, FieldTyped, TypeOf;
    if fields == [] {
      StopReadsBack(buf, pos);
    } else {
      AtSplit(buf, pos, EncodeField(fields[0]), EncodeFields(fields[1..]));
      SkipsField(fields[0], buf, pos);
      SkipsFields(fields[1..], buf, pos + |EncodeField(fields[0])|);
    }
  }
}
