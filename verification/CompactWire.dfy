/** The Thrift compact protocol, internal/codec/thrift/compact.go and types.go:
    what the calls for a value write, what the calls for a type read, and that
    the second undo the first. */
module CompactWire {
  import opened Bytes
  import opened ThriftTypes
  import opened Wire

  const COMPACT_TRUE: byte := 1
  const COMPACT_FALSE: byte := 2

  function ToCompact(t: TType): (ct: byte)
    ensures ct <= 12
  {
    if t == TYPE_BOOL then COMPACT_TRUE
    else if t == TYPE_BYTE then 3
    else if t == TYPE_I16 then 4
    else if t == TYPE_I32 then 5
    else if t == TYPE_I64 then 6
    else if t == TYPE_DOUBLE then 7
    else if t == TYPE_STRING then 8
    else if t == TYPE_LIST then 9
    else if t == TYPE_SET then 10
    else if t == TYPE_MAP then 11
    else if t == TYPE_STRUCT then 12
    else 0
  }

  function FromCompact(ct: byte): TType {
    if ct == COMPACT_TRUE || ct == COMPACT_FALSE then TYPE_BOOL
    else if ct == 3 then TYPE_BYTE
    else if ct == 4 then TYPE_I16
    else if ct == 5 then TYPE_I32
    else if ct == 6 then TYPE_I64
    else if ct == 7 then TYPE_DOUBLE
    else if ct == 8 then TYPE_STRING
    else if ct == 9 then TYPE_LIST
    else if ct == 10 then TYPE_SET
    else if ct == 11 then TYPE_MAP
    else if ct == 12 then TYPE_STRUCT
    else TYPE_STOP
  }

  lemma {:induction false} TypesInverse(t: TType)
    ensures FromCompact(ToCompact(t)) == if IsType(t) then t else TYPE_STOP
  {
  }

  // ----- writing -----

  /** The header of a field whose predecessor has id `last`: the difference of the
      ids if it fits four bits (computed in int16, so it may wrap), else the id. */
  function FieldHeader(last: int16, ct: byte, id: int16): bytes
    requires ct <= 12
  {
    var delta := ToInt16(id - last);
    if 0 < delta <= 15 then [delta * 16 + ct] else [ct] + VarintBytes(Zigzag(id))
  }

  /** The short form keeps the low four bits of the size, whatever its sign. */
  function ListHeader(elem: TType, size: int32): bytes {
    if size <= 14 then [size % 16 * 16 + ToCompact(elem)] else [0xf0 + ToCompact(elem)] + VarintBytes(size)
  }

  function MapHeader(key: TType, value: TType, size: int32): bytes {
    if size == 0 then [0] else VarintBytes(AsUint64(size)) + [ToCompact(key) * 16 + ToCompact(value)]
  }

  function Encode(v: Value): bytes
    requires Typed(v)
    decreases v, 0
  {
    match v
    case Bool(b) => [if b then 1 else 0]
    case I8(b) => [b]
    case I16(i) => VarintBytes(Zigzag(i))
    case I32(i) => VarintBytes(Zigzag(i))
    case I64(i) => VarintBytes(Zigzag(i))
    case Double(bits) => LittleEndian(bits, 8)
    case String(s) => Delimited(s)
    case List(elem, items) => ListHeader(elem, |items|) + EncodeAll(elem, items)
    case Set(elem, items) => ListHeader(elem, |items|) + EncodeAll(elem, items)
    case Map(key, value, pairs) => MapHeader(key, value, |pairs|) + EncodePairs(key, value, pairs)
    case Struct(fields) => EncodeFields(0, fields)
  }

  function EncodeAll(elem: TType, items: seq<Value>): bytes
    requires AllTyped(elem, items)
    decreases items, 1
  {
    if items == [] then [] else Encode(items[0]) + EncodeAll(elem, items[1..])
  }

  function EncodePair(key: TType, value: TType, p: Pair): bytes
    requires PairTyped(key, value, p)
    decreases p, 1
  {
    Encode(p.k) + Encode(p.v)
  }

  function EncodePairs(key: TType, value: TType, pairs: seq<Pair>): bytes
    requires PairsTyped(key, value, pairs)
    decreases pairs, 2
  {
    if pairs == [] then [] else EncodePair(key, value, pairs[0]) + EncodePairs(key, value, pairs[1..])
  }

  /** The compact type in a field's header; for a bool it is also the value. */
  function FieldType(v: Value): (ct: byte)
    ensures 1 <= ct <= 12 && FromCompact(ct) == TypeOf(v)
  {
    if v.Bool? then (if v.b then COMPACT_TRUE else COMPACT_FALSE) else ToCompact(TypeOf(v))
  }

  function EncodeField(last: int16, f: Field): bytes
    requires FieldTyped(f)
    decreases f, 1
  {
    FieldHeader(last, FieldType(f.value), f.id) + if f.value.Bool? then [] else Encode(f.value)
  }

  /** The fields after one with id `last`, and the stop marker. */
  function EncodeFields(last: int16, fields: seq<Field>): bytes
    requires FieldsTyped(fields)
    decreases fields, 2
  {
    if fields == [] then [0] else EncodeField(last, fields[0]) + EncodeFields(fields[0].id, fields[1..])
  }

  // ----- reading -----

  /** Unlike in protobuf, an overlong varint is an underflow too. */
  function ReadUvarint(buf: bytes, pos: nat): (r: Read<uint64>)
    ensures r.Got? ==> pos < r.next <= |buf|
  {
    match ReadVarint(buf, pos)
    case Bad(_) => Bad(Underflow)
    case Got(u, next) => Got(u, next)
  }

  function ReadBinary(buf: bytes, pos: nat): (r: Read<bytes>)
    ensures r.Got? ==> pos < r.next <= |buf|
  {
    match ReadUvarint(buf, pos)
    case Bad(e) => Bad(e)
    case Got(length, p) =>
      if length >= TWO_63 - p then Bad(Oversized)
      else if p + length > |buf| then Bad(Underflow)
      else Got(buf[p..p + length], p + length)
  }

  function ReadByte(buf: bytes, pos: nat): (r: Read<byte>)
    ensures r.Got? ==> r.next == pos + 1 <= |buf|
  {
    if pos >= |buf| then Bad(Underflow) else Got(buf[pos], pos + 1)
  }

  function ReadZigzag(buf: bytes, pos: nat): (r: Read<int64>)
    ensures r.Got? ==> pos < r.next <= |buf|
  {
    match ReadUvarint(buf, pos)
    case Bad(e) => Bad(e)
    case Got(u, next) => Got(Unzigzag(u), next)
  }

  /** The compact type and the id of a field, or (0, 0) for the stop marker. */
  function ReadHeader(last: int16, buf: bytes, pos: nat): (r: Read<(byte, int16)>)
    ensures r.Got? ==> pos < r.next <= |buf|
  {
    match ReadByte(buf, pos)
    case Bad(e) => Bad(e)
    case Got(b, p) =>
      if b == 0 then Got((0, 0), p)
      else if b / 16 != 0 then Got((b % 16, ToInt16(last + b / 16)), p)
      else
        match ReadZigzag(buf, p)
        case Bad(e) => Bad(e)
        case Got(id, next) => Got((b % 16, ToInt16(id)), next)
  }

  function ReadListHeader(buf: bytes, pos: nat): (r: Read<(TType, int32)>)
    ensures r.Got? ==> pos < r.next <= |buf|
  {
    match ReadByte(buf, pos)
    case Bad(e) => Bad(e)
    case Got(h, p) =>
      if h / 16 != 15 then Got((FromCompact(h % 16), h / 16), p)
      else
        match ReadUvarint(buf, p)
        case Bad(e) => Bad(e)
        case Got(u, next) => Got((FromCompact(h % 16), ToInt32(u)), next)
  }

  function ReadMapHeader(buf: bytes, pos: nat): (r: Read<(TType, TType, int32)>)
    ensures r.Got? ==> pos < r.next <= |buf|
  {
    match ReadUvarint(buf, pos)
    case Bad(e) => Bad(e)
    case Got(u, p) =>
      if ToInt32(u) == 0 then Got((TYPE_STOP, TYPE_STOP, 0), p)
      else
        match ReadByte(buf, p)
        case Bad(e) => Bad(e)
        case Got(types, next) => Got((FromCompact(types / 16), FromCompact(types % 16), ToInt32(u)), next)
  }

  /** A value that is not a list, set, map or struct. */
  function ReadScalar(t: TType, buf: bytes, pos: nat): (r: Read<Value>)
    ensures r.Got? ==> pos < r.next <= |buf|
  {
    if t == TYPE_BOOL then
      match ReadByte(buf, pos)
      case Bad(e) => Bad(e)
      case Got(b, next) => Got(Bool(b != 0), next)
    else if t == TYPE_BYTE then
      match ReadByte(buf, pos)
      case Bad(e) => Bad(e)
      case Got(b, next) => Got(I8(b), next)
    else if t == TYPE_I16 then
      match ReadZigzag(buf, pos)
      case Bad(e) => Bad(e)
      case Got(i, next) => Got(I16(ToInt16(i)), next)
    else if t == TYPE_I32 then
      match ReadZigzag(buf, pos)
      case Bad(e) => Bad(e)
      case Got(i, next) => Got(I32(ToInt32(AsUint64(i))), next)
    else if t == TYPE_I64 then
      match ReadZigzag(buf, pos)
      case Bad(e) => Bad(e)
      case Got(i, next) => Got(I64(i), next)
    else if t == TYPE_DOUBLE then
      match ReadFixed64(buf, pos)
      case Bad(e) => Bad(e)
      case Got(bits, next) => Got(Double(bits), next)
    else if t == TYPE_STRING then
      match ReadBinary(buf, pos)
      case Bad(e) => Bad(e)
      case Got(s, next) => Got(String(s), next)
    else Bad(InvalidWireType)
  }

  /** Reads a value of a type. A type that has no values is an error. */
  function Decode(t: TType, buf: bytes, pos: nat): (r: Read<Value>)
    ensures r.Got? ==> pos < r.next <= |buf|
    decreases |buf| - pos, 1, 0
  {
    if t == TYPE_LIST || t == TYPE_SET then
      match ReadListHeader(buf, pos)
      case Bad(e) => Bad(e)
      case Got(h, p) => (
        match DecodeAll(h.0, h.1, buf, p)
        case Bad(e) => Bad(e)
        case Got(items, next) => Got(if t == TYPE_LIST then List(h.0, items) else Set(h.0, items), next))
    else if t == TYPE_MAP then
      match ReadMapHeader(buf, pos)
      case Bad(e) => Bad(e)
      case Got(h, p) => (
        match DecodePairs(h.0, h.1, h.2, buf, p)
        case Bad(e) => Bad(e)
        case Got(pairs, next) => Got(Map(h.0, h.1, pairs), next))
    else if t == TYPE_STRUCT then
      match DecodeFields(0, buf, pos)
      case Bad(e) => Bad(e)
      case Got(fields, next) => Got(Struct(fields), next)
    else ReadScalar(t, buf, pos)
  }

  function DecodeAll(elem: TType, n: int, buf: bytes, pos: nat): (r: Read<seq<Value>>)
    requires pos <= |buf|
    ensures r.Got? ==> pos <= r.next <= |buf|
    decreases |buf| - pos, 2, n
  {
    if n <= 0 then Got([], pos)
    else
      match Decode(elem, buf, pos)
      case Bad(e) => Bad(e)
      case Got(v, p) => Before([v], DecodeAll(elem, n - 1, buf, p))
  }

  function DecodePair(key: TType, value: TType, buf: bytes, pos: nat): (r: Read<Pair>)
    ensures r.Got? ==> pos < r.next <= |buf|
    decreases |buf| - pos, 2, 0
  {
    match Decode(key, buf, pos)
    case Bad(e) => Bad(e)
    case Got(k, p) =>
      match Decode(value, buf, p)
      case Bad(e) => Bad(e)
      case Got(v, next) => Got(Pair(k, v), next)
  }

  function DecodePairs(key: TType, value: TType, n: int, buf: bytes, pos: nat): (r: Read<seq<Pair>>)
    requires pos <= |buf|
    ensures r.Got? ==> pos <= r.next <= |buf|
    decreases |buf| - pos, 3, n
  {
    if n <= 0 then Got([], pos)
    else
      match DecodePair(key, value, buf, pos)
      case Bad(e) => Bad(e)
      case Got(pair, p) => Before([pair], DecodePairs(key, value, n - 1, buf, p))
  }

  /** The value of a field: of a bool, what the header left pending. */
  function DecodeFieldValue(ct: byte, buf: bytes, pos: nat): (r: Read<Value>)
    requires pos <= |buf|
    ensures r.Got? ==> pos <= r.next <= |buf|
    decreases |buf| - pos, 2, 0
  {
    if ct == COMPACT_TRUE then Got(Bool(true), pos)
    else if ct == COMPACT_FALSE then Got(Bool(false), pos)
    else Decode(FromCompact(ct), buf, pos)
  }

  /** The fields after one with id `last`, up to the stop marker. */
  function DecodeFields(last: int16, buf: bytes, pos: nat): (r: Read<seq<Field>>)
    ensures r.Got? ==> pos < r.next <= |buf|
    decreases |buf| - pos, 0, 0
  {
    match ReadHeader(last, buf, pos)
    case Bad(e) => Bad(e)
    case Got(h, p) =>
      if FromCompact(h.0) == TYPE_STOP then Got([], p)
      else
        match DecodeFieldValue(h.0, buf, p)
        case Bad(e) => Bad(e)
        case Got(v, q) => Before([Field(h.1, v)], DecodeFields(h.1, buf, q))
  }

  // ----- headers read back -----

  lemma {:induction false} UvarintReadsBack(buf: bytes, pos: nat, u: uint64)
    requires At(buf, pos, VarintBytes(u))
    ensures ReadUvarint(buf, pos) == Got(u, pos + |VarintBytes(u)|)
  {
    VarintReadsBack(buf, pos, u);
  }

  lemma {:induction false} ZigzagReadsBack(buf: bytes, pos: nat, i: int64)
    requires At(buf, pos, VarintBytes(Zigzag(i)))
    ensures ReadZigzag(buf, pos) == Got(i, pos + |VarintBytes(Zigzag(i))|)
  {
    UvarintReadsBack(buf, pos, Zigzag(i));
    ZigzagInverse(i);
  }

  lemma {:induction false} ByteReadsBack(buf: bytes, pos: nat, b: byte, rest: bytes)
    requires At(buf, pos, [b] + rest)
    ensures ReadByte(buf, pos) == Got(b, pos + 1) && At(buf, pos + 1, rest)
  {
    AtSplit(buf, pos, [b], rest);
    assert buf[pos..pos + 1][0] == b;
  }

  /** For every pair of ids, however far apart and in whichever order. */
  lemma {:induction false} HeaderReadsBack(last: int16, ct: byte, id: int16, buf: bytes, pos: nat)
    requires 1 <= ct <= 12
    requires At(buf, pos, FieldHeader(last, ct, id))
    ensures ReadHeader(last, buf, pos) == Got((ct, id), pos + |FieldHeader(last, ct, id)|)
  {
    hide ToInt16, VarintBytes, Zigzag, ReadZigzag, ReadByte;
    var delta := ToInt16(id - last);
    ShortInverse(id);
    if 0 < delta <= 15 {
      var b: byte := delta * 16 + ct;
      assert [b] == [b] + [];
      ByteReadsBack(buf, pos, b, []);
      NibblesInverse(delta, ct);
      DeltaInverse(last, id);
    } else {
      ByteReadsBack(buf, pos, ct, VarintBytes(Zigzag(id)));
      ZigzagReadsBack(buf, pos + 1, id);
    }
  }

  lemma {:induction false} DeltaInverse(last: int16, id: int16)
    ensures ToInt16(last + ToInt16(id - last)) == id
  {
  }

  lemma {:induction false} ListHeaderReadsBack(elem: TType, size: int32, buf: bytes, pos: nat)
    requires IsType(elem) && size >= 0
    requires At(buf, pos, ListHeader(elem, size))
    ensures ReadListHeader(buf, pos) == Got((elem, size), pos + |ListHeader(elem, size)|)
  {
    hide ToCompact, FromCompact, IsType, VarintBytes, ReadUvarint;
    TypesInverse(elem);
    var ct := ToCompact(elem);
    NibblesInverse(if size <= 14 then size else 15, ct);
    if size <= 14 {
      assert ListHeader(elem, size) == [size % 16 * 16 + ct] + [];
      ByteReadsBack(buf, pos, size % 16 * 16 + ct, []);
    } else {
      ByteReadsBack(buf, pos, 0xf0 + ct, VarintBytes(size));
      UvarintReadsBack(buf, pos + 1, size);
    }
  }

  /** A negative list size never reads back. */
  lemma {:induction false} NegativeListHeader(elem: TType, size: int32, buf: bytes, pos: nat)
    requires IsType(elem) && size < 0
    requires At(buf, pos, ListHeader(elem, size))
    ensures ReadListHeader(buf, pos) != Got((elem, size), pos + |ListHeader(elem, size)|)
  {
    var h: byte := size % 16 * 16 + ToCompact(elem);
    assert ListHeader(elem, size) == [h] + [];
    ByteReadsBack(buf, pos, h, []);
  }

  lemma {:induction false} SizeInverse(size: int32)
    ensures ToInt32(AsUint64(size)) == size
  {
  }

  lemma {:induction false} ShortInverse(i: int16)
    ensures ToInt16(i) == i
  {
  }

  lemma {:induction false} NibblesInverse(high: byte, low: byte)
    requires high < 16 && low < 16
    ensures (high * 16 + low) / 16 == high && (high * 16 + low) % 16 == low
  {
  }

  /** A map header keeps any size but, when it is 0, not the types. */
  lemma {:induction false} MapHeaderReadsBack(key: TType, value: TType, size: int32, buf: bytes, pos: nat)
    requires IsType(key) && IsType(value)
    requires At(buf, pos, MapHeader(key, value, size))
    ensures ReadMapHeader(buf, pos) ==
            Got(if size == 0 then (TYPE_STOP, TYPE_STOP, 0) else (key, value, size), pos + |MapHeader(key, value, size)|)
  {
    hide VarintBytes, ToCompact, FromCompact, ToInt32, AsUint64, IsType, ReadUvarint;
    SizeInverse(size);
    if size == 0 {
      ZeroVarint();
      UvarintReadsBack(buf, pos, 0);
    } else {
      var u := AsUint64(size);
      var types: byte := ToCompact(key) * 16 + ToCompact(value);
      AtSplit(buf, pos, VarintBytes(u), [types]);
      UvarintReadsBack(buf, pos, u);
      assert [types] == [types] + [];
      ByteReadsBack(buf, pos + |VarintBytes(u)|, types, []);
      NibblesInverse(ToCompact(key), ToCompact(value));
      TypesInverse(key);
      TypesInverse(value);
    }
  }

  lemma {:induction false} ZeroVarint()
    ensures VarintBytes(0) == [0] && ToInt32(0) == 0
  {
  }

  // ----- values read back -----

  /** What reading makes of a value: an empty map forgets its types. */
  function Canon(v: Value): Value
    decreases v, 0
  {
    match v
    case List(elem, items) => List(elem, CanonAll(items))
    case Set(elem, items) => Set(elem, CanonAll(items))
    case Map(key, value, pairs) => if pairs == [] then Map(TYPE_STOP, TYPE_STOP, []) else Map(key, value,
        CanonPairs(pairs))
    case Struct(fields) => Struct(CanonFields(fields))
    case _ => v
  }

  function CanonAll(items: seq<Value>): seq<Value>
    decreases items, 1
  {
    if items == [] then [] else [Canon(items[0])] + CanonAll(items[1..])
  }

  function CanonPair(p: Pair): Pair
    decreases p, 1
  {
    Pair(Canon(p.k), Canon(p.v))
  }

  function CanonPairs(pairs: seq<Pair>): seq<Pair>
    decreases pairs, 2
  {
    if pairs == [] then [] else [CanonPair(pairs[0])] + CanonPairs(pairs[1..])
  }

  function CanonField(f: Field): Field
    decreases f, 1
  {
    Field(f.id, Canon(f.value))
  }

  function CanonFields(fields: seq<Field>): seq<Field>
    decreases fields, 2
  {
    if fields == [] then [] else [CanonField(fields[0])] + CanonFields(fields[1..])
  }

  lemma {:induction false} BinaryReadsBack(buf: bytes, pos: nat, s: bytes)
    requires |buf| < TWO_63
    requires At(buf, pos, Delimited(s))
    ensures ReadBinary(buf, pos) == Got(s, pos + |Delimited(s)|)
  {
    DelimitedReadsBack(buf, pos, s);
  }

  lemma {:induction false} ScalarReadsBack(v: Value, buf: bytes, pos: nat)
    requires !v.List? && !v.Set? && !v.Map? && !v.Struct?
    requires |buf| < TWO_63
    requires At(buf, pos, Encode(v))
    ensures ReadScalar(TypeOf(v), buf, pos) == Got(v, pos + |Encode(v)|)
  {
    hide ReadByte, ReadZigzag, ReadBinary, ReadFixed64, Zigzag, VarintBytes, LittleEndian, Delimited, AllTyped,
        PairsTyped,
      FieldsTyped, EncodeAll, EncodePairs, EncodeFields, ToInt16, ToInt32, AsUint64;
    match v
    case Bool(b) =>
      assert Encode(v) == [if b then 1 else 0] + [];
      ByteReadsBack(buf, pos, if b then 1 else 0, []);
    case I8(b) =>
      assert Encode(v) == [b] + [];
      ByteReadsBack(buf, pos, b, []);
    case I16(i) =>
      ZigzagReadsBack(buf, pos, i);
      ShortInverse(i);
    case I32(i) =>
      ZigzagReadsBack(buf, pos, i);
      SizeInverse(i);
    case I64(i) => ZigzagReadsBack(buf, pos, i);
    case Double(bits) => Fixed64ReadsBack(buf, pos, bits);
    case String(s) => BinaryReadsBack(buf, pos, s);
  }

  /** Every value tree reads back, up to the types of its empty maps, and the
      reader stops exactly behind it. */
  lemma {:induction false} ValueReadsBack(v: Value, buf: bytes, pos: nat)
    requires Typed(v) && |buf| < TWO_63
    requires At(buf, pos, Encode(v))
    ensures Decode(TypeOf(v), buf, pos) == Got(Canon(v), pos + |Encode(v)|)
    decreases v, 0
  {
    hide ListHeader, MapHeader, ReadListHeader, ReadMapHeader, ReadScalar, EncodeAll, EncodePairs, EncodeFields,
      DecodeAll, DecodePairs, DecodeFields, VarintBytes, LittleEndian, Zigzag, CanonAll, CanonPairs, CanonFields;
    match v
    case List(elem, items) =>
      ListReadsBack(elem, items, buf, pos);
    case Set(elem, items) =>
      ListReadsBack(elem, items, buf, pos);
    case Map(key, value, pairs) =>
      var header := MapHeader(key, value, |pairs|);
      AtSplit(buf, pos, header, EncodePairs(key, value, pairs));
      MapHeaderReadsBack(key, value, |pairs|, buf, pos);
      PairsReadBack(key, value, pairs, buf, pos + |header|);
      NoPairs(key, value, buf, pos + |header|);
    case Struct(fields) =>
      FieldsReadBack(0, fields, buf, pos);
    case Bool(_) | I8(_) | I16(_) | I32(_) | I64(_) | Double(_) | String(_) =>
      ScalarReadsBack(v, buf, pos);
  }

  lemma {:induction false} NoPairs(key: TType, value: TType, buf: bytes, pos: nat)
    requires pos <= |buf|
    ensures EncodePairs(key, value, []) == [] && DecodePairs(TYPE_STOP, TYPE_STOP, 0, buf, pos) == Got([], pos)
  {
  }

  lemma {:induction false} ListReadsBack(elem: TType, items: seq<Value>, buf: bytes, pos: nat)
    requires IsType(elem) && |items| < 0x8000_0000 && AllTyped(elem, items) && |buf| < TWO_63
    requires At(buf, pos, ListHeader(elem, |items|) + EncodeAll(elem, items))
    ensures ReadListHeader(buf, pos) == Got((elem, |items|), pos + |ListHeader(elem, |items|)|)
    ensures DecodeAll(elem, |items|, buf, pos + |ListHeader(elem, |items|)|) ==
            Got(CanonAll(items), pos + |ListHeader(elem, |items|) + EncodeAll(elem, items)|)
    decreases items, 2
  {
    hide ListHeader, ReadListHeader, EncodeAll, DecodeAll, CanonAll, AllTyped, IsType;
    var header := ListHeader(elem, |items|);
    AtSplit(buf, pos, header, EncodeAll(elem, items));
    ListHeaderReadsBack(elem, |items|, buf, pos);
    ItemsReadBack(elem, items, buf, pos + |header|);
  }

  lemma {:induction false} ItemsReadBack(elem: TType, items: seq<Value>, buf: bytes, pos: nat)
    requires AllTyped(elem, items) && |buf| < TWO_63
    requires At(buf, pos, EncodeAll(elem, items))
    ensures DecodeAll(elem, |items|, buf, pos) == Got(CanonAll(items), pos + |EncodeAll(elem, items)|)
    decreases items, 1
  {
    hide Encode, Decode, Typed, Canon, TypeOf;
    if items != [] {
      AtSplit(buf, pos, Encode(items[0]), EncodeAll(elem, items[1..]));
      ValueReadsBack(items[0], buf, pos);
      ItemsReadBack(elem, items[1..], buf, pos + |Encode(items[0])|);
    }
  }

  lemma {:induction false} PairReadsBack(key: TType, value: TType, p: Pair, buf: bytes, pos: nat)
    requires PairTyped(key, value, p) && |buf| < TWO_63
    requires At(buf, pos, EncodePair(key, value, p))
    ensures DecodePair(key, value, buf, pos) == Got(CanonPair(p), pos + |EncodePair(key, value, p)|)
    decreases p, 1
  {
    hide Encode, Decode, Typed, Canon, TypeOf;
    AtSplit(buf, pos, Encode(p.k), Encode(p.v));
    ValueReadsBack(p.k, buf, pos);
    ValueReadsBack(p.v, buf, pos + |Encode(p.k)|);
  }

  lemma {:induction false} PairsReadBack(key: TType, value: TType, pairs: seq<Pair>, buf: bytes, pos: nat)
    requires PairsTyped(key, value, pairs) && |buf| < TWO_63
    requires At(buf, pos, EncodePairs(key, value, pairs))
    ensures DecodePairs(key, value, |pairs|, buf, pos) == Got(CanonPairs(pairs), pos + |EncodePairs(key, value, pairs)|)
    decreases pairs, 2
  {
    hide EncodePair, DecodePair, PairTyped, CanonPair;
    if pairs != [] {
      AtSplit(buf, pos, EncodePair(key, value, pairs[0]), EncodePairs(key, value, pairs[1..]));
      PairReadsBack(key, value, pairs[0], buf, pos);
      PairsReadBack(key, value, pairs[1..], buf, pos + |EncodePair(key, value, pairs[0])|);
    }
  }

  lemma {:induction false} FieldReadsBack(last: int16, f: Field, buf: bytes, pos: nat)
    requires FieldTyped(f) && |buf| < TWO_63
    requires At(buf, pos, EncodeField(last, f))
    ensures var p := pos + |FieldHeader(last, FieldType(f.value), f.id)|;
            p <= |buf| && CanonField(f) == Field(f.id, Canon(f.value)) &&
            ReadHeader(last, buf, pos) == Got((FieldType(f.value), f.id), p) &&
            DecodeFieldValue(FieldType(f.value), buf, p) == Got(Canon(f.value), pos + |EncodeField(last, f)|)
    decreases f, 1
  {
    hide FieldHeader, ReadHeader, Decode, Typed;
    var header := FieldHeader(last, FieldType(f.value), f.id);
    AtSplit(buf, pos, header, if f.value.Bool? then [] else Encode(f.value));
    HeaderReadsBack(last, FieldType(f.value), f.id, buf, pos);
    if !f.value.Bool? {
      ValueReadsBack(f.value, buf, pos + |header|);
    }
  }

  lemma {:induction false} FieldsReadBack(last: int16, fields: seq<Field>, buf: bytes, pos: nat)
    requires FieldsTyped(fields) && |buf| < TWO_63
    requires At(buf, pos, EncodeFields(last, fields))
    ensures DecodeFields(last, buf, pos) == Got(CanonFields(fields), pos + |EncodeFields(last, fields)|)
    decreases fields, 2
  {
    hide EncodeField, FieldHeader, ReadHeader, DecodeFieldValue, FieldTyped, CanonField, FieldType;
    if fields == [] {
      StopReadsBack(last, buf, pos, []);
    } else {
      var f := fields[0];
      AtSplit(buf, pos, EncodeField(last, f), EncodeFields(f.id, fields[1..]));
      FieldReadsBack(last, f, buf, pos);
      FieldsReadBack(f.id, fields[1..], buf, pos + |EncodeField(last, f)|);
    }
  }

  lemma {:induction false} StopReadsBack(last: int16, buf: bytes, pos: nat, rest: bytes)
    requires At(buf, pos, [0] + rest)
    ensures DecodeFields(last, buf, pos) == Got([], pos + 1)
  {
    ByteReadsBack(buf, pos, 0, rest);
  }

  // ----- when nothing is lost -----

  predicate NoEmptyMap(v: Value)
    decreases v, 0
  {
    match v
    case List(_, items) => NoneEmpty(items)
    case Set(_, items) => NoneEmpty(items)
    case Map(_, _, pairs) => pairs != [] && PairsNotEmpty(pairs)
    case Struct(fields) => FieldsNotEmpty(fields)
    case _ => true
  }

  predicate NoneEmpty(items: seq<Value>)
    decreases items, 1
  {
    items == [] || (NoEmptyMap(items[0]) && NoneEmpty(items[1..]))
  }

  predicate PairNotEmpty(p: Pair)
    decreases p, 1
  {
    NoEmptyMap(p.k) && NoEmptyMap(p.v)
  }

  predicate PairsNotEmpty(pairs: seq<Pair>)
    decreases pairs, 2
  {
    pairs == [] || (PairNotEmpty(pairs[0]) && PairsNotEmpty(pairs[1..]))
  }

  predicate FieldNotEmpty(f: Field)
    decreases f, 1
  {
    NoEmptyMap(f.value)
  }

  predicate FieldsNotEmpty(fields: seq<Field>)
    decreases fields, 2
  {
    fields == [] || (FieldNotEmpty(fields[0]) && FieldsNotEmpty(fields[1..]))
  }

  lemma {:induction false} CanonExact(v: Value)
    requires Typed(v)
    ensures Canon(v) == v <==> NoEmptyMap(v)
    decreases v, 0
  {
    match v
    case List(elem, items) => CanonAllExact(elem, items);
    case Set(elem, items) => CanonAllExact(elem, items);
    case Map(key, value, pairs) => CanonPairsExact(key, value, pairs);
    case Struct(fields) => CanonFieldsExact(fields);
    case _ =>
  }

  lemma {:induction false} CanonAllExact(elem: TType, items: seq<Value>)
    requires AllTyped(elem, items)
    ensures CanonAll(items) == items <==> NoneEmpty(items)
    decreases items, 1
  {
    if items != [] {
      CanonExact(items[0]);
      CanonAllExact(elem, items[1..]);
      assert items == [items[0]] + items[1..];
    }
  }

  lemma {:induction false} CanonPairExact(key: TType, value: TType, p: Pair)
    requires PairTyped(key, value, p)
    ensures CanonPair(p) == p <==> PairNotEmpty(p)
    decreases p, 1
  {
    CanonExact(p.k);
    CanonExact(p.v);
  }

  lemma {:induction false} CanonPairsExact(key: TType, value: TType, pairs: seq<Pair>)
    requires PairsTyped(key, value, pairs)
    ensures CanonPairs(pairs) == pairs <==> PairsNotEmpty(pairs)
    decreases pairs, 2
  {
    if pairs != [] {
      CanonPairExact(key, value, pairs[0]);
      CanonPairsExact(key, value, pairs[1..]);
      assert pairs == [pairs[0]] + pairs[1..];
    }
  }

  lemma {:induction false} CanonFieldsExact(fields: seq<Field>)
    requires FieldsTyped(fields)
    ensures CanonFields(fields) == fields <==> FieldsNotEmpty(fields)
    decreases fields, 2
  {
    if fields != [] {
      CanonFieldExact(fields[0]);
      CanonFieldsExact(fields[1..]);
      assert fields == [fields[0]] + fields[1..];
    }
  }

  lemma {:induction false} CanonFieldExact(f: Field)
    requires FieldTyped(f)
    ensures CanonField(f) == f <==> FieldNotEmpty(f)
    decreases f, 1
  {
    CanonExact(f.value);
  }

  /** A tree comes back unchanged exactly if it holds no empty map: an empty map is
      written without its key and value types. */
  lemma {:induction false} ValueReadsBackExactly(v: Value)
    requires Typed(v) && |Encode(v)| < TWO_63
    ensures Decode(TypeOf(v), Encode(v), 0) == Got(v, |Encode(v)|) <==> NoEmptyMap(v)
  {
    assert Encode(v)[0..|Encode(v)|] == Encode(v);
    ValueReadsBack(v, Encode(v), 0);
    CanonExact(v);
  }
}
