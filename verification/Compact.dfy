/** The compact encoder and decoder objects with their stack of last field ids and
    the decoder's pending bool, and a client that walks a value tree with them. */
module Compact {
  import opened Bytes
  import opened Results
  import opened ThriftTypes
  import opened Wire
  import opened CompactWire
  import P = Protobuf

  function Below(stack: seq<int16>): seq<int16>
    requires stack != []
  {
    stack[..|stack| - 1]
  }

  function Top(stack: seq<int16>): int16
    requires stack != []
  {
    stack[|stack| - 1]
  }

  lemma {:induction false} LowNibble(size: int)
    ensures size * 16 % 0x100 == size % 16 * 16
  {
  }

  class Encoder {
    var buf: bytes
    var lastField: seq<int16>

    constructor ()
      ensures buf == [] && lastField == [0]
    {
      buf := [];
      lastField := [0];
    }

    method Reset()
      requires lastField != []
      modifies this
      ensures buf == [] && lastField == [0]
    {
      buf := [];
      lastField := lastField[..1][0 := 0];
    }

    method WriteBool(v: bool)
      modifies `buf
      ensures buf == old(buf) + Encode(Bool(v))
    {
      if v {
        buf := buf + [1];
      } else {
        buf := buf + [0];
      }
    }

    method WriteI8(v: byte)
      modifies `buf
      ensures buf == old(buf) + [v]
    {
      buf := buf + [v];
    }

    method WriteI16(v: int16)
      modifies `buf
      ensures buf == old(buf) + VarintBytes(Zigzag(v))
    {
      WriteZigzag(v);
    }

    method WriteI32(v: int32)
      modifies `buf
      ensures buf == old(buf) + VarintBytes(Zigzag(v))
    {
      WriteZigzag(v);
    }

    method WriteI64(v: int64)
      modifies `buf
      ensures buf == old(buf) + VarintBytes(Zigzag(v))
    {
      WriteZigzag(v);
    }

    method WriteDouble(v: uint64)
      modifies `buf
      ensures buf == old(buf) + LittleEndian(v, 8)
    {
      var v4 := v / 0x1_0000_0000;
      buf := buf + [v % 0x100, v / 0x100 % 0x100, v / 0x1_0000 % 0x100, v / 0x100_0000 % 0x100,
                    v4 % 0x100, v4 / 0x100 % 0x100, v4 / 0x1_0000 % 0x100, v4 / 0x100_0000 % 0x100];
      LittleFourMore(v, 4);
      LittleFourMore(v4, 0);
    }

    /** Also WriteBytes. */
    method WriteString(v: bytes)
      modifies `buf
      ensures buf == old(buf) + Delimited(v)
    {
      WriteVarint(|v|);
      buf := buf + v;
    }

    method WriteFieldBegin(fieldType: TType, fieldID: int16)
      requires lastField != []
      modifies this
      ensures buf == old(buf) + FieldHeader(old(Top(lastField)), ToCompact(fieldType), fieldID)
      ensures lastField == old(Below(lastField)) + [fieldID]
    {
      WriteHeader(ToCompact(fieldType), fieldID);
    }

    method WriteFieldBeginBool(fieldID: int16, v: bool)
      requires lastField != []
      modifies this
      ensures buf == old(buf) + FieldHeader(old(Top(lastField)), FieldType(Bool(v)), fieldID)
      ensures lastField == old(Below(lastField)) + [fieldID]
    {
      var ct := COMPACT_FALSE;
      if v {
        ct := COMPACT_TRUE;
      }
      WriteHeader(ct, fieldID);
    }

    /** The part that WriteFieldBegin and WriteFieldBeginBool have in common. */
    method WriteHeader(ct: byte, fieldID: int16)
      requires lastField != [] && ct <= 12
      modifies this
      ensures buf == old(buf) + FieldHeader(old(Top(lastField)), ct, fieldID)
      ensures lastField == old(Below(lastField)) + [fieldID]
    {
      hide ToInt16, VarintBytes, Zigzag;
      var delta := ToInt16(fieldID - lastField[|lastField| - 1]);
      Assoc(buf, [ct], VarintBytes(Zigzag(fieldID)));
      if delta > 0 && delta <= 15 {
        buf := buf + [delta * 16 + ct];
      } else {
        buf := buf + [ct];
        WriteI16(fieldID);
      }
      lastField := lastField[|lastField| - 1 := fieldID];
    }

    method WriteFieldStop()
      modifies `buf
      ensures buf == old(buf) + [0]
    {
      buf := buf + [0];
    }

    method WriteListBegin(elemType: TType, size: int32)
      modifies `buf
      ensures buf == old(buf) + ListHeader(elemType, size)
    {
      hide ToCompact, VarintBytes;
      var ct := ToCompact(elemType);
      if size <= 14 {
        LowNibble(size);
        buf := buf + [size * 16 % 0x100 + ct];
      } else {
        buf := buf + [0xf0 + ct];
        WriteVarint(size);
      }
    }

    method WriteMapBegin(keyType: TType, valueType: TType, size: int32)
      modifies `buf
      ensures buf == old(buf) + MapHeader(keyType, valueType, size)
    {
      if size == 0 {
        buf := buf + [0];
        return;
      }
      WriteVarint(AsUint64(size));
      buf := buf + [ToCompact(keyType) * 16 + ToCompact(valueType)];
    }

    method WriteStructBegin()
      modifies `lastField
      ensures lastField == old(lastField) + [0]
    {
      lastField := lastField + [0];
    }

    method WriteStructEnd()
      requires lastField != []
      modifies `lastField
      ensures lastField == old(Below(lastField))
    {
      lastField := lastField[..|lastField| - 1];
    }

    /** Values are 64-bit; a length is that of a buffer in memory. */
    method WriteVarint(v: nat)
      modifies `buf
      ensures buf == old(buf) + VarintBytes(v)
    {
      var rest := v;
      while rest >= 0x80
        invariant 0 <= rest
        invariant buf + VarintBytes(rest) == old(buf) + VarintBytes(v)
      {
        ghost var before := buf;
        var low: byte := rest % 0x80 + 0x80;
        buf := buf + [low];
        assert before + VarintBytes(rest) == buf + VarintBytes(rest / 0x80);
        rest := rest / 0x80;
      }
      var last: byte := rest;
      buf := buf + [last];
    }

    method WriteZigzag(v: int64)
      modifies `buf
      ensures buf == old(buf) + VarintBytes(Zigzag(v))
    {
      WriteVarint(Zigzag(v));
    }
  }

  // ----- a client that writes value trees -----

  /** Whatever the tree and however deep its structs, the stack is back where it was. */
  method WriteValue(e: Encoder, v: Value)
    requires Typed(v) && e.lastField != []
    modifies e
    ensures e.buf == old(e.buf) + Encode(v)
    ensures e.lastField == old(e.lastField)
    decreases v, 0
  {
    ghost var start := e.buf;
    match v {
      case Bool(b) => e.WriteBool(b);
      case I8(b) => e.WriteI8(b);
      case I16(i) => e.WriteI16(i);
      case I32(i) => e.WriteI32(i);
      case I64(i) => e.WriteI64(i);
      case Double(bits) => e.WriteDouble(bits);
      case String(s) => e.WriteString(s);
      case List(elem, items) =>
        e.WriteListBegin(elem, |items|);
        WriteItems(e, elem, items);
        Assoc(start, ListHeader(elem, |items|), EncodeAll(elem, items));
      case Set(elem, items) =>
        e.WriteListBegin(elem, |items|);
        WriteItems(e, elem, items);
        Assoc(start, ListHeader(elem, |items|), EncodeAll(elem, items));
      case Map(key, value, pairs) =>
        e.WriteMapBegin(key, value, |pairs|);
        WritePairs(e, key, value, pairs);
        Assoc(start, MapHeader(key, value, |pairs|), EncodePairs(key, value, pairs));
      case Struct(fields) =>
        e.WriteStructBegin();
        WriteFields(e, fields);
        e.WriteStructEnd();
    }
  }

  method WriteItems(e: Encoder, elem: TType, items: seq<Value>)
    requires AllTyped(elem, items) && e.lastField != []
    modifies e
    ensures e.buf == old(e.buf) + EncodeAll(elem, items)
    ensures e.lastField == old(e.lastField)
    decreases items, 1
  {
    if items != [] {
      ghost var start := e.buf;
      WriteValue(e, items[0]);
      WriteItems(e, elem, items[1..]);
      Assoc(start, Encode(items[0]), EncodeAll(elem, items[1..]));
    }
  }

  method WritePair(e: Encoder, key: TType, value: TType, p: Pair)
    requires PairTyped(key, value, p) && e.lastField != []
    modifies e
    ensures e.buf == old(e.buf) + EncodePair(key, value, p)
    ensures e.lastField == old(e.lastField)
    decreases p, 1
  {
    ghost var start := e.buf;
    WriteValue(e, p.k);
    WriteValue(e, p.v);
    Assoc(start, Encode(p.k), Encode(p.v));
  }

  method WritePairs(e: Encoder, key: TType, value: TType, pairs: seq<Pair>)
    requires PairsTyped(key, value, pairs) && e.lastField != []
    modifies e
    ensures e.buf == old(e.buf) + EncodePairs(key, value, pairs)
    ensures e.lastField == old(e.lastField)
    decreases pairs, 2
  {
    if pairs != [] {
      ghost var start := e.buf;
      WritePair(e, key, value, pairs[0]);
      WritePairs(e, key, value, pairs[1..]);
      Assoc(start, EncodePair(key, value, pairs[0]), EncodePairs(key, value, pairs[1..]));
    }
  }

  method WriteField(e: Encoder, f: Field)
    requires FieldTyped(f) && e.lastField != []
    modifies e
    ensures e.buf == old(e.buf) + EncodeField(old(Top(e.lastField)), f)
    ensures e.lastField == old(Below(e.lastField)) + [f.id]
    decreases f, 1
  {
    ghost var start := e.buf;
    ghost var header := FieldHeader(Top(e.lastField), FieldType(f.value), f.id);
    if f.value.Bool? {
      e.WriteFieldBeginBool(f.id, f.value.b);
      Assoc(start, header, []);
    } else {
      e.WriteFieldBegin(TypeOf(f.value), f.id);
      WriteValue(e, f.value);
      Assoc(start, header, Encode(f.value));
    }
  }

  method WriteFields(e: Encoder, fields: seq<Field>)
    requires FieldsTyped(fields) && e.lastField != []
    modifies e
    ensures e.buf == old(e.buf) + EncodeFields(old(Top(e.lastField)), fields)
    ensures e.lastField != [] && Below(e.lastField) == old(Below(e.lastField))
    decreases fields, 2
  {
    if fields == [] {
      e.WriteFieldStop();
    } else {
      ghost var start := e.buf;
      ghost var last := Top(e.lastField);
      WriteField(e, fields[0]);
      WriteFields(e, fields[1..]);
      Assoc(start, EncodeField(last, fields[0]), EncodeFields(fields[0].id, fields[1..]));
    }
  }

  class Decoder {
    const buf: bytes
    var pos: nat
    var lastField: seq<int16>
    /** -1: no pending bool, 0: false, 1: true */
    var boolValue: int

    constructor (buf: bytes)
      ensures this.buf == buf && pos == 0 && lastField == [0] && boolValue == -1
    {
      this.buf := buf;
      pos := 0;
      lastField := [0];
      boolValue := -1;
    }

    method ReadBool() returns (r: Result<bool, Error>)
      modifies this
      ensures lastField == old(lastField) && boolValue == if old(boolValue) >= 0 then -1 else old(boolValue)
      ensures old(boolValue) >= 0 ==> r == Ok(old(boolValue) == 1) && pos == old(pos)
      ensures old(boolValue) < 0 ==>
                match CompactWire.ReadByte(buf, old(pos))
                case Got(b, next) => r == Ok(b != 0) && pos == next
                case Bad(e) => r == Err(e)
    {
      if boolValue >= 0 {
        var v := boolValue == 1;
        boolValue := -1;
        return Ok(v);
      }
      if pos >= |buf| {
        return Err(Underflow);
      }
      var v := buf[pos] != 0;
      pos := pos + 1;
      return Ok(v);
    }

    method ReadByte() returns (r: Result<byte, Error>)
      modifies `pos
      ensures P.Reads(CompactWire.ReadByte(buf, old(pos)), r, pos)
    {
      if pos >= |buf| {
        return Err(Underflow);
      }
      var v := buf[pos];
      pos := pos + 1;
      return Ok(v);
    }

    method ReadI16() returns (r: Result<int16, Error>)
      modifies `pos
      ensures match CompactWire.ReadZigzag(buf, old(pos))
              case Got(v, next) => r == Ok(ToInt16(v)) && pos == next
              case Bad(e) => r == Err(e)
    {
      var v :- ReadZigzag();
      return Ok(ToInt16(v));
    }

    method ReadI32() returns (r: Result<int32, Error>)
      modifies `pos
      ensures match CompactWire.ReadZigzag(buf, old(pos))
              case Got(v, next) => r == Ok(ToInt32(AsUint64(v))) && pos == next
              case Bad(e) => r == Err(e)
    {
      var v :- ReadZigzag();
      return Ok(ToInt32(AsUint64(v)));
    }

    /** Also ReadI64. */
    method ReadZigzag() returns (r: Result<int64, Error>)
      modifies `pos
      ensures P.Reads(CompactWire.ReadZigzag(buf, old(pos)), r, pos)
    {
      var v :- ReadVarint();
      return Ok(Unzigzag(v));
    }

    method ReadDouble() returns (r: Result<uint64, Error>)
      modifies `pos
      ensures P.Reads(Wire.ReadFixed64(buf, old(pos)), r, pos)
    {
      if pos + 8 > |buf| {
        return Err(Underflow);
      }
      var bits := (buf[pos] as int) +
                  (buf[pos + 1] as int) * 0x100 +
                  (buf[pos + 2] as int) * 0x1_0000 +
                  (buf[pos + 3] as int) * 0x100_0000 +
                  (buf[pos + 4] as int) * 0x1_0000_0000 +
                  (buf[pos + 5] as int) * 0x100_0000_0000 +
                  (buf[pos + 6] as int) * 0x1_0000_0000_0000 +
                  (buf[pos + 7] as int) * 0x100_0000_0000_0000;
      assert bits == FromLittleEndian(buf[pos..pos + 8]) by {
        P.FourBytes(buf, pos, pos + 8);
        P.FourBytes(buf, pos + 4, pos + 8);
        assert FromLittleEndian(buf[pos + 8..pos + 8]) == 0;
      }
      pos := pos + 8;
      return Ok(bits);
    }

    /** Also ReadBytes. */
    method ReadString() returns (r: Result<bytes, Error>)
      modifies `pos
      ensures P.Reads(ReadBinary(buf, old(pos)), r, pos)
    {
      var length :- ReadVarint();
      if length >= TWO_63 - pos {
        return Err(Oversized);
      }
      if pos + length > |buf| {
        return Err(Underflow);
      }
      var s := buf[pos..pos + length];
      pos := pos + length;
      return Ok(s);
    }

    method ReadFieldBegin() returns (r: Result<(TType, int16), Error>)
      requires lastField != []
      modifies this
      ensures match ReadHeader(old(Top(lastField)), buf, old(pos))
              case Bad(e) => r == Err(e) && lastField == old(lastField) && boolValue == old(boolValue)
              case Got(h, next) =>
                r == Ok((FromCompact(h.0), h.1)) && pos == next &&
                lastField == old(Below(lastField)) + [if buf[old(pos)] == 0 then old(Top(lastField)) else h.1] &&
                boolValue == if h.0 == COMPACT_TRUE then 1 else if h.0 == COMPACT_FALSE then 0 else old(boolValue)
    {
      var typeByte :- ReadByte();
      if typeByte == 0 {
        return Ok((TYPE_STOP, 0));
      }
      var compactType: byte := typeByte % 16;
      var delta := typeByte / 16;
      var fieldID: int16;
      if delta != 0 {
        fieldID := ToInt16(lastField[|lastField| - 1] + delta);
      } else {
        fieldID :- ReadI16();
      }
      lastField := lastField[|lastField| - 1 := fieldID];
      if compactType == COMPACT_TRUE {
        boolValue := 1;
      } else if compactType == COMPACT_FALSE {
        boolValue := 0;
      }
      return Ok((FromCompact(compactType), fieldID));
    }

    method ReadListBegin() returns (r: Result<(TType, int32), Error>)
      modifies `pos
      ensures P.Reads(ReadListHeader(buf, old(pos)), r, pos)
    {
      var header :- ReadByte();
      var size: int32 := header / 16;
      if size == 15 {
        var v :- ReadVarint();
        size := ToInt32(v);
      }
      return Ok((FromCompact(header % 16), size));
    }

    method ReadMapBegin() returns (r: Result<(TType, TType, int32), Error>)
      modifies `pos
      ensures P.Reads(ReadMapHeader(buf, old(pos)), r, pos)
    {
      var v :- ReadVarint();
      var size := ToInt32(v);
      if size == 0 {
        return Ok((TYPE_STOP, TYPE_STOP, 0));
      }
      var types :- ReadByte();
      return Ok((FromCompact(types / 16), FromCompact(types % 16), size));
    }

    method ReadStructBegin()
      modifies `lastField
      ensures lastField == old(lastField) + [0]
    {
      lastField := lastField + [0];
    }

    method ReadStructEnd()
      requires lastField != []
      modifies `lastField
      ensures lastField == old(Below(lastField))
    {
      lastField := lastField[..|lastField| - 1];
    }

    method ReadVarint() returns (r: Result<uint64, Error>)
      modifies `pos
      ensures P.Reads(ReadUvarint(buf, old(pos)), r, pos)
    {
      var val: uint64 := 0;
      ghost var sum: nat := 0;
      var weight: nat := 1;
      var i := 0;
      while i < 10
        invariant 0 <= i <= 10
        invariant val == sum % TWO_64
        invariant P.Progress(buf, old(pos), 10, pos, i, sum, weight)
      {
        if pos >= |buf| {
          return Err(Underflow);
        }
        var b := buf[pos];
        P.VarintStep(buf, old(pos), 10, pos, i, sum, weight);
        pos := pos + 1;
        P.AddGroup(sum, b % 0x80 * weight);
        val := (val + b % 0x80 * weight) % TWO_64;
        sum := sum + b % 0x80 * weight;
        if b < 0x80 {
          return Ok(val);
        }
        weight := weight * 0x80;
        i := i + 1;
      }
      return Err(Underflow);
    }
  }

  // ----- a client that reads value trees -----

  /** What the client keeps between two calls: no bool is pending, and the
      stack is as given. */
  ghost predicate Settled(d: Decoder, stack: seq<int16>)
    reads d
  {
    d.boolValue == -1 && d.lastField == stack && d.pos <= |d.buf|
  }

  method ReadPlain(d: Decoder, t: TType) returns (r: Result<Value, Error>)
    requires d.boolValue == -1
    modifies d
    ensures P.Reads(ReadScalar(t, d.buf, old(d.pos)), r, d.pos)
    ensures r.Ok? ==> d.boolValue == -1 && d.lastField == old(d.lastField)
  {
    if t == TYPE_BOOL {
      var b :- d.ReadBool();
      return Ok(Bool(b));
    } else if t == TYPE_BYTE {
      var b :- d.ReadByte();
      return Ok(I8(b));
    } else if t == TYPE_I16 {
      var i :- d.ReadI16();
      return Ok(I16(i));
    } else if t == TYPE_I32 {
      var i :- d.ReadI32();
      return Ok(I32(i));
    } else if t == TYPE_I64 {
      var i :- d.ReadZigzag();
      return Ok(I64(i));
    } else if t == TYPE_DOUBLE {
      var bits :- d.ReadDouble();
      return Ok(Double(bits));
    } else if t == TYPE_STRING {
      var s :- d.ReadString();
      return Ok(String(s));
    }
    return Err(InvalidWireType);
  }

  method ReadValue(d: Decoder, t: TType) returns (r: Result<Value, Error>)
    requires d.boolValue == -1 && d.lastField != [] && d.pos <= |d.buf|
    modifies d
    ensures P.Reads(Decode(t, d.buf, old(d.pos)), r, d.pos)
    ensures r.Ok? ==> Settled(d, old(d.lastField))
    decreases |d.buf| - d.pos, 1, 0
  {
    if t == TYPE_LIST || t == TYPE_SET {
      var h :- d.ReadListBegin();
      var items :- ReadItems(d, h.0, h.1);
      return Ok(if t == TYPE_LIST then List(h.0, items) else Set(h.0, items));
    } else if t == TYPE_MAP {
      var h :- d.ReadMapBegin();
      var pairs :- ReadPairs(d, h.0, h.1, h.2);
      return Ok(Map(h.0, h.1, pairs));
    } else if t == TYPE_STRUCT {
      d.ReadStructBegin();
      var fields :- ReadFields(d);
      d.ReadStructEnd();
      return Ok(Struct(fields));
    }
    r := ReadPlain(d, t);
  }

  method ReadItems(d: Decoder, elem: TType, n: int32) returns (r: Result<seq<Value>, Error>)
    requires d.boolValue == -1 && d.lastField != [] && d.pos <= |d.buf|
    modifies d
    ensures P.Reads(DecodeAll(elem, n, d.buf, old(d.pos)), r, d.pos)
    ensures r.Ok? ==> Settled(d, old(d.lastField))
    decreases |d.buf| - d.pos, 2, 0
  {
    ghost var start := d.pos;
    var items := [];
    BeforeNothing(DecodeAll(elem, n, d.buf, start));
    var i := 0;
    while i < n
      invariant 0 <= i && start <= d.pos && Settled(d, old(d.lastField))
      invariant Before(items, DecodeAll(elem, n - i, d.buf, d.pos)) == DecodeAll(elem, n, d.buf, start)
    {
      var v :- ReadValue(d, elem);
      BeforeTwice(items, [v], DecodeAll(elem, n - i - 1, d.buf, d.pos));
      items := items + [v];
      i := i + 1;
    }
    assert items + [] == items;
    return Ok(items);
  }

  method ReadPair(d: Decoder, key: TType, value: TType) returns (r: Result<Pair, Error>)
    requires d.boolValue == -1 && d.lastField != [] && d.pos <= |d.buf|
    modifies d
    ensures P.Reads(DecodePair(key, value, d.buf, old(d.pos)), r, d.pos)
    ensures r.Ok? ==> Settled(d, old(d.lastField))
    decreases |d.buf| - d.pos, 2, 0
  {
    var k :- ReadValue(d, key);
    var v :- ReadValue(d, value);
    return Ok(Pair(k, v));
  }

  method ReadPairs(d: Decoder, key: TType, value: TType, n: int32) returns (r: Result<seq<Pair>, Error>)
    requires d.boolValue == -1 && d.lastField != [] && d.pos <= |d.buf|
    modifies d
    ensures P.Reads(DecodePairs(key, value, n, d.buf, old(d.pos)), r, d.pos)
    ensures r.Ok? ==> Settled(d, old(d.lastField))
    decreases |d.buf| - d.pos, 3, 0
  {
    ghost var start := d.pos;
    var pairs := [];
    BeforeNothing(DecodePairs(key, value, n, d.buf, start));
    var i := 0;
    while i < n
      invariant 0 <= i && start <= d.pos && Settled(d, old(d.lastField))
      invariant Before(pairs, DecodePairs(key, value, n - i, d.buf, d.pos)) == DecodePairs(key, value, n, d.buf, start)
    {
      var p :- ReadPair(d, key, value);
      BeforeTwice(pairs, [p], DecodePairs(key, value, n - i - 1, d.buf, d.pos));
      pairs := pairs + [p];
      i := i + 1;
    }
    assert pairs + [] == pairs;
    return Ok(pairs);
  }

  /** Called behind the header of a field of type t; the only place where a bool may be pending. */
  method ReadFieldValue(d: Decoder, t: TType, ghost ct: byte) returns (r: Result<Value, Error>)
    requires t == FromCompact(ct) && d.lastField != [] && d.pos <= |d.buf|
    requires d.boolValue == if ct == COMPACT_TRUE then 1 else if ct == COMPACT_FALSE then 0 else -1
    modifies d
    ensures P.Reads(DecodeFieldValue(ct, d.buf, old(d.pos)), r, d.pos)
    ensures r.Ok? ==> Settled(d, old(d.lastField))
    decreases |d.buf| - d.pos, 2, 0
  {
    if t == TYPE_BOOL {
      var b :- d.ReadBool();
      return Ok(Bool(b));
    }
    r := ReadValue(d, t);
  }

  method ReadFields(d: Decoder) returns (r: Result<seq<Field>, Error>)
    requires d.boolValue == -1 && d.lastField != [] && d.pos <= |d.buf|
    modifies d
    ensures P.Reads(DecodeFields(old(Top(d.lastField)), d.buf, old(d.pos)), r, d.pos)
    ensures r.Ok? ==> d.lastField != [] && Below(d.lastField) == old(Below(d.lastField)) && Settled(d, d.lastField)
    decreases |d.buf| - d.pos, 0, 0
  {
    ghost var start := d.pos;
    var fields := [];
    BeforeNothing(DecodeFields(Top(d.lastField), d.buf, start));
    while true
      invariant start <= d.pos && Settled(d, d.lastField)
      invariant d.lastField != [] && Below(d.lastField) == old(Below(d.lastField))
      invariant Before(fields, DecodeFields(Top(d.lastField), d.buf, d.pos)) ==
                DecodeFields(old(Top(d.lastField)), d.buf, start)
      decreases |d.buf| - d.pos
    {
      ghost var header := ReadHeader(Top(d.lastField), d.buf, d.pos);
      var h :- d.ReadFieldBegin();
      if h.0 == TYPE_STOP {
        assert fields + [] == fields;
        return Ok(fields);
      }
      var v :- ReadFieldValue(d, h.0, header.value.0);
      BeforeTwice(fields, [Field(h.1, v)], DecodeFields(h.1, d.buf, d.pos));
      fields := fields + [Field(h.1, v)];
    }
  }

  // ----- the two clients together -----

  /** What the encoder wrote for a tree, a decoder reads back; it consumes exactly
      those bytes, its stack matches, and no bool is left pending. */
  method RoundTrip(v: Value) returns (r: Result<Value, Error>)
    requires Typed(v) && |Encode(v)| < TWO_63
    ensures r == Ok(Canon(v))
  {
    var e := new Encoder();
    WriteValue(e, v);
    assert e.lastField == [0];
    assert e.buf == Encode(v);
    assert e.buf[0..|e.buf|] == e.buf;
    ValueReadsBack(v, e.buf, 0);
    var d := new Decoder(e.buf);
    r := ReadValue(d, TypeOf(v));
    assert d.lastField == [0] && d.boolValue == -1 && d.pos == |d.buf|;
  }
}
