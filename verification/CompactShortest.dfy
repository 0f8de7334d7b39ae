/** What the compact encoder writes is as short as can be: bytes that decode to
    the same tree are never fewer, also in forms that the encoder does not use. */
module CompactShortest {
  import opened Bytes
  import opened ThriftTypes
  import opened Wire
  import opened CompactWire

  // ----- varints -----

  lemma {:induction false} LongerVarint(a: nat, b: nat)
    requires a <= b
    ensures |VarintBytes(a)| <= |VarintBytes(b)|
  {
    if a >= 0x80 {
      LongerVarint(a / 0x80, b / 0x80);
    }
  }

  lemma {:induction false} RawShortest(buf: bytes, pos: nat, left: nat)
    requires ReadRaw(buf, pos, left).Got?
    ensures var r := ReadRaw(buf, pos, left); r.next - pos >= |VarintBytes(r.value)|
    decreases left
  {
    if buf[pos] >= 0x80 {
      RawShortest(buf, pos + 1, left - 1);
      var rest := ReadRaw(buf, pos + 1, left - 1).value;
      var v := buf[pos] - 0x80 + 0x80 * rest;
      assert v / 0x80 == rest;
    }
  }

  lemma {:induction false} UvarintShortest(buf: bytes, pos: nat)
    requires ReadUvarint(buf, pos).Got?
    ensures var r := ReadUvarint(buf, pos); r.next - pos >= |VarintBytes(r.value)|
  {
    hide VarintBytes, ReadRaw;
    var ten := 10;
    RawShortest(buf, pos, ten);
    var v := ReadRaw(buf, pos, 10).value;
    LongerVarint(v % TWO_64, v);
  }

  lemma {:induction false} ZigzagShortest(buf: bytes, pos: nat)
    requires ReadZigzag(buf, pos).Got?
    ensures var r := ReadZigzag(buf, pos); r.next - pos >= |VarintBytes(Zigzag(r.value))|
  {
    hide VarintBytes, ReadUvarint;
    UvarintShortest(buf, pos);
  }

  /** A number that was cut to 16 bits is written no longer than it was read. */
  lemma {:induction false} CutTo16(i: int64)
    ensures |VarintBytes(Zigzag(ToInt16(i)))| <= |VarintBytes(Zigzag(i))|
  {
    hide VarintBytes;
    LongerVarint(Zigzag(ToInt16(i)), Zigzag(i));
  }

  lemma {:induction false} CutTo32(i: int64)
    ensures |VarintBytes(Zigzag(ToInt32(AsUint64(i))))| <= |VarintBytes(Zigzag(i))|
  {
    hide VarintBytes;
    LongerVarint(Zigzag(ToInt32(AsUint64(i))), Zigzag(i));
  }

  // ----- headers -----

  lemma {:induction false} HeaderShortest(last: int16, buf: bytes, pos: nat)
    requires var r := ReadHeader(last, buf, pos); r.Got? && 1 <= r.value.0 <= 12
    ensures var r := ReadHeader(last, buf, pos); r.next - pos >= |FieldHeader(last, r.value.0, r.value.1)|
  {
    hide VarintBytes, Zigzag, ReadZigzag;
    var b := buf[pos];
    if b / 16 != 0 {
      DeltaBack(last, b / 16);
    } else {
      ZigzagShortest(buf, pos + 1);
      CutTo16(ReadZigzag(buf, pos + 1).value);
    }
  }

  lemma {:induction false} DeltaBack(last: int16, delta: nat)
    requires 0 < delta <= 15
    ensures ToInt16(ToInt16(last + delta) - last) == delta
  {
  }

  /** The header of a list, for the number of elements that is read then. */
  lemma {:induction false} ListHeaderShortest(elem: TType, size: nat, buf: bytes, pos: nat)
    requires size < 0x8000_0000 && ReadListHeader(buf, pos).Got?
    requires var n := ReadListHeader(buf, pos).value.1; size == if n < 0 then 0 else n
    ensures ReadListHeader(buf, pos).next - pos >= |ListHeader(elem, size)|
  {
    hide VarintBytes, ReadUvarint;
    if buf[pos] / 16 == 15 && size > 14 {
      UvarintShortest(buf, pos + 1);
      LongerVarint(size, ReadUvarint(buf, pos + 1).value);
    }
  }

  lemma {:induction false} MapHeaderShortest(key: TType, value: TType, size: nat, buf: bytes, pos: nat)
    requires size < 0x8000_0000 && ReadMapHeader(buf, pos).Got?
    requires var n := ReadMapHeader(buf, pos).value.2; size == if n < 0 then 0 else n
    ensures ReadMapHeader(buf, pos).next - pos >= |MapHeader(key, value, size)|
  {
    hide VarintBytes, ReadUvarint;
    if size > 0 {
      UvarintShortest(buf, pos);
      LongerVarint(size, ReadUvarint(buf, pos).value);
    }
  }

  // ----- values -----

  lemma {:induction false} DecodedType(t: TType, buf: bytes, pos: nat)
    requires Decode(t, buf, pos).Got?
    ensures TypeOf(Decode(t, buf, pos).value) == t
  {
    hide ReadByte, ReadZigzag, ReadFixed64, ReadBinary, ReadListHeader, ReadMapHeader, DecodeAll, DecodePairs,
      DecodeFields;
  }

  lemma {:induction false} ScalarShortest(v: Value, buf: bytes, pos: nat)
    requires !v.List? && !v.Set? && !v.Map? && !v.Struct?
    requires ReadScalar(TypeOf(v), buf, pos).Got? && ReadScalar(TypeOf(v), buf, pos).value == v
    ensures ReadScalar(TypeOf(v), buf, pos).next - pos >= |Encode(v)|
  {
    hide VarintBytes, Zigzag, ReadUvarint, ReadZigzag, ReadFixed64, LittleEndian, ToInt16, ToInt32, AsUint64, AllTyped,
      PairsTyped, FieldsTyped, EncodeAll, EncodePairs, EncodeFields;
    match v
    case I16(i) =>
      ZigzagShortest(buf, pos);
      CutTo16(ReadZigzag(buf, pos).value);
    case I32(i) =>
      ZigzagShortest(buf, pos);
      CutTo32(ReadZigzag(buf, pos).value);
    case I64(i) =>
      ZigzagShortest(buf, pos);
    case Double(bits) =>
      FixedShortest(buf, pos);
    case String(s) =>
      UvarintShortest(buf, pos);
    case Bool(_) | I8(_) =>
  }

  lemma {:induction false} FixedShortest(buf: bytes, pos: nat)
    requires ReadFixed64(buf, pos).Got?
    ensures ReadFixed64(buf, pos).next == pos + 8
  {
  }

  /** Whatever bytes decode to a tree, the encoder writes it in as few or fewer. */
  lemma {:induction false} ValueShortest(v: Value, buf: bytes, pos: nat)
    requires Typed(v) && Decode(TypeOf(v), buf, pos).Got? && Decode(TypeOf(v), buf, pos).value == Canon(v)
    ensures Decode(TypeOf(v), buf, pos).next - pos >= |Encode(v)|
    decreases v, 0
  {
    hide ListHeader, MapHeader, ReadListHeader, ReadMapHeader, ReadScalar, EncodeAll, EncodePairs, EncodeFields,
      DecodeAll, DecodePairs, DecodeFields, CanonAll, CanonPairs, CanonFields;
    match v
    case List(elem, items) => ItemsOfList(elem, items, buf, pos);
    case Set(elem, items) => ItemsOfList(elem, items, buf, pos);
    case Map(key, value, pairs) => PairsOfMap(key, value, pairs, buf, pos);
    case Struct(fields) => FieldsShortest(0, fields, buf, pos);
    case Bool(_) | I8(_) | I16(_) | I32(_) | I64(_) | Double(_) | String(_) => ScalarShortest(v, buf, pos);
  }

  lemma {:induction false} ItemsOfList(elem: TType, items: seq<Value>, buf: bytes, pos: nat)
    requires |items| < 0x8000_0000 && AllTyped(elem, items) && ReadListHeader(buf, pos).Got?
    requires var h := ReadListHeader(buf, pos);
             h.value.0 == elem && DecodeAll(elem, h.value.1, buf, h.next).Got? &&
             DecodeAll(elem, h.value.1, buf, h.next).value == CanonAll(items)
    ensures var h := ReadListHeader(buf, pos);
            DecodeAll(elem, h.value.1, buf, h.next).next - pos >= |ListHeader(elem, |items|) + EncodeAll(elem, items)|
    decreases items, 2
  {
    hide ListHeader, ReadListHeader, EncodeAll;
    var h := ReadListHeader(buf, pos);
    ItemsShortest(elem, items, h.value.1, buf, h.next);
    ListHeaderShortest(elem, |items|, buf, pos);
  }

  lemma {:induction false} ItemsShortest(elem: TType, items: seq<Value>, n: int, buf: bytes, pos: nat)
    requires pos <= |buf| && AllTyped(elem, items) && DecodeAll(elem, n, buf, pos).Got?
    requires DecodeAll(elem, n, buf, pos).value == CanonAll(items)
    ensures |items| == if n < 0 then 0 else n
    ensures DecodeAll(elem, n, buf, pos).next - pos >= |EncodeAll(elem, items)|
    decreases items, 1
  {
    hide Encode, Decode, Typed, Canon, TypeOf;
    if n > 0 {
      var first := Decode(elem, buf, pos);
      var rest := DecodeAll(elem, n - 1, buf, first.next);
      assert CanonAll(items) == [first.value] + rest.value;
      assert CanonAll(items)[1..] == rest.value;
      assert [Canon(items[0])] + CanonAll(items[1..]) == CanonAll(items);
      assert CanonAll(items)[1..] == CanonAll(items[1..]);
      ValueShortest(items[0], buf, pos);
      ItemsShortest(elem, items[1..], n - 1, buf, first.next);
    }
  }

  lemma {:induction false} PairsOfMap(key: TType, value: TType, pairs: seq<Pair>, buf: bytes, pos: nat)
    requires Typed(Map(key, value, pairs)) && Decode(TYPE_MAP, buf, pos).Got?
    requires Decode(TYPE_MAP, buf, pos).value == Canon(Map(key, value, pairs))
    ensures Decode(TYPE_MAP, buf, pos).next - pos >= |Encode(Map(key, value, pairs))|
    decreases pairs, 4
  {
    hide MapHeader, ReadMapHeader, EncodePairs, CanonPairs, DecodePairs;
    var h := ReadMapHeader(buf, pos);
    NoPairsCanon(pairs);
    MapCount(h.value.0, h.value.1, key, value, pairs, h.value.2, buf, h.next);
    MapHeaderShortest(key, value, |pairs|, buf, pos);
  }

  lemma {:induction false} NoPairsCanon(pairs: seq<Pair>)
    ensures CanonPairs(pairs) == [] <==> pairs == []
  {
  }

  /** With no pairs the types that were read are not those that were written. */
  lemma {:induction false} MapCount(k: TType, v: TType, key: TType, value: TType, pairs: seq<Pair>, n: int,
          buf: bytes, pos: nat)
    requires pos <= |buf| && PairsTyped(key, value, pairs) && DecodePairs(k, v, n, buf, pos).Got?
    requires DecodePairs(k, v, n, buf, pos).value == CanonPairs(pairs) && (pairs != [] ==> k == key && v == value)
    ensures |pairs| == if n < 0 then 0 else n
    ensures DecodePairs(k, v, n, buf, pos).next - pos >= |EncodePairs(key, value, pairs)|
    decreases pairs, 3
  {
    hide DecodePair, EncodePair, PairTyped, CanonPair;
    if pairs != [] {
      PairsShortest(key, value, pairs, n, buf, pos);
    }
  }

  lemma {:induction false} PairsShortest(key: TType, value: TType, pairs: seq<Pair>, n: int, buf: bytes, pos: nat)
    requires pos <= |buf| && PairsTyped(key, value, pairs) && DecodePairs(key, value, n, buf, pos).Got?
    requires DecodePairs(key, value, n, buf, pos).value == CanonPairs(pairs)
    ensures |pairs| == if n < 0 then 0 else n
    ensures DecodePairs(key, value, n, buf, pos).next - pos >= |EncodePairs(key, value, pairs)|
    decreases pairs, 2
  {
    hide EncodePair, DecodePair, PairTyped, CanonPair;
    if n > 0 {
      var first := DecodePair(key, value, buf, pos);
      var rest := DecodePairs(key, value, n - 1, buf, first.next);
      assert CanonPairs(pairs) == [first.value] + rest.value;
      assert CanonPairs(pairs)[1..] == rest.value;
      assert [CanonPair(pairs[0])] + CanonPairs(pairs[1..]) == CanonPairs(pairs);
      assert CanonPairs(pairs)[1..] == CanonPairs(pairs[1..]);
      PairShortest(key, value, pairs[0], buf, pos);
      PairsShortest(key, value, pairs[1..], n - 1, buf, first.next);
    }
  }

  lemma {:induction false} PairShortest(key: TType, value: TType, p: Pair, buf: bytes, pos: nat)
    requires PairTyped(key, value, p) && DecodePair(key, value, buf, pos).Got?
    requires DecodePair(key, value, buf, pos).value == CanonPair(p)
    ensures DecodePair(key, value, buf, pos).next - pos >= |EncodePair(key, value, p)|
    decreases p, 1
  {
    hide Encode, Decode, Typed, Canon, TypeOf;
    ValueShortest(p.k, buf, pos);
    ValueShortest(p.v, buf, Decode(key, buf, pos).next);
  }

  lemma {:induction false} FieldsShortest(last: int16, fields: seq<Field>, buf: bytes, pos: nat)
    requires FieldsTyped(fields) && DecodeFields(last, buf, pos).Got?
    requires DecodeFields(last, buf, pos).value == CanonFields(fields)
    ensures DecodeFields(last, buf, pos).next - pos >= |EncodeFields(last, fields)|
    decreases fields, 2
  {
    hide ReadHeader, DecodeFieldValue, EncodeField, FieldTyped, CanonField, FromCompact;
    var h := ReadHeader(last, buf, pos);
    if FromCompact(h.value.0) != TYPE_STOP {
      var v := DecodeFieldValue(h.value.0, buf, h.next);
      var rest := DecodeFields(h.value.1, buf, v.next);
      assert CanonFields(fields) == [Field(h.value.1, v.value)] + rest.value;
      assert CanonFields(fields)[1..] == rest.value;
      assert [CanonField(fields[0])] + CanonFields(fields[1..]) == CanonFields(fields);
      assert CanonFields(fields)[1..] == CanonFields(fields[1..]);
      FieldShortest(last, fields[0], buf, pos);
      CanonId(fields[0]);
      FieldsShortest(h.value.1, fields[1..], buf, v.next);
    }
  }

  lemma {:induction false} CanonId(f: Field)
    ensures CanonField(f).id == f.id
  {
  }

  lemma {:induction false} FieldShortest(last: int16, f: Field, buf: bytes, pos: nat)
    requires FieldTyped(f) && ReadHeader(last, buf, pos).Got?
    requires var h := ReadHeader(last, buf, pos);
             FromCompact(h.value.0) != TYPE_STOP && DecodeFieldValue(h.value.0, buf, h.next).Got? &&
             Field(h.value.1, DecodeFieldValue(h.value.0, buf, h.next).value) == CanonField(f)
    ensures var h := ReadHeader(last, buf, pos);
            DecodeFieldValue(h.value.0, buf, h.next).next - pos >= |EncodeField(last, f)|
    decreases f, 1
  {
    hide ReadHeader, Decode, Encode, Typed, FieldHeader;
    var h := ReadHeader(last, buf, pos);
    CanonType(f.value);
    if h.value.0 != COMPACT_TRUE && h.value.0 != COMPACT_FALSE {
      DecodedType(FromCompact(h.value.0), buf, h.next);
      ValueShortest(f.value, buf, h.next);
    }
    assert h.value.0 == FieldType(f.value);
    HeaderShortest(last, buf, pos);
  }

  lemma {:induction false} CanonType(v: Value)
    ensures TypeOf(Canon(v)) == TypeOf(v) && (v.Bool? <==> Canon(v).Bool?) && (v.Bool? ==> Canon(v) == v)
  {
  }
}
