/** Both Thrift protocols by their bytes: every kind of value with the literal
    codes and headers it has on the wire. */
module ThriftBytes {
  import opened Bytes
  import opened ThriftTypes
  import opened Wire
  import C = CompactWire
  import B = BinaryWire
  import opened Results

  // ----- type codes -----

  /** The code of a value's type in the binary protocol. */
  function Code(v: Value): byte {
    match v
    case Bool(_) => 2
    case I8(_) => 3
    case Double(_) => 4
    case I16(_) => 6
    case I32(_) => 8
    case I64(_) => 10
    case String(_) => 11
    case Struct(_) => 12
    case Map(_, _, _) => 13
    case Set(_, _) => 14
    case List(_, _) => 15
  }

  lemma {:induction false} CodesAre(v: Value)
    ensures TypeOf(v) == Code(v) && IsType(Code(v))
  {
  }

  lemma {:induction false} TypesAre(t: TType)
    ensures IsType(t) <==> t in {2, 3, 4, 6, 8, 10, 11, 12, 13, 14, 15}
  {
  }

  const COMPACT_CODES: map<TType, byte> :=
    map[2 := 1, 3 := 3, 6 := 4, 8 := 5, 10 := 6, 4 := 7, 11 := 8, 15 := 9, 14 := 10, 13 := 11, 12 := 12]

  /** The compact protocol numbers the types anew; the code of false is read as
      that of true, and any other code as the stop. */
  lemma {:induction false} CompactCodes(t: TType, ct: byte)
    ensures C.ToCompact(t) == if t in COMPACT_CODES then COMPACT_CODES[t] else 0
    ensures C.FromCompact(ct) ==
            if ct == 1 || ct == 2 then 2
            else if ct == 3 then 3
            else if ct == 4 then 6
            else if ct == 5 then 8
            else if ct == 6 then 10
            else if ct == 7 then 4
            else if ct == 8 then 11
            else if ct == 9 then 15
            else if ct == 10 then 14
            else if ct == 11 then 13
            else if ct == 12 then 12
            else 0
  {
  }

  // ----- the binary protocol -----

  function BinaryText(v: Value): bytes
    decreases v, 0
  {
    match v
    case Bool(b) => [if b then 1 else 0]
    case I8(b) => [b]
    case I16(i) => Two(i % 0x1_0000)
    case I32(i) => Four(i % 0x1_0000_0000)
    case I64(i) => Eight(i % 0x1_0000_0000_0000_0000)
    case Double(bits) => Eight(bits)
    case String(s) => Four(|s|) + s
    case List(elem, items) => [elem] + Four(|items|) + BinaryTexts(items)
    case Set(elem, items) => [elem] + Four(|items|) + BinaryTexts(items)
    case Map(key, value, pairs) => [key, value] + Four(|pairs|) + BinaryPairTexts(pairs)
    case Struct(fields) => BinaryFieldTexts(fields)
  }

  function BinaryTexts(items: seq<Value>): bytes
    decreases items, 1
  {
    if items == [] then [] else BinaryText(items[0]) + BinaryTexts(items[1..])
  }

  function BinaryPairText(p: Pair): bytes
    decreases p, 1
  {
    BinaryText(p.k) + BinaryText(p.v)
  }

  function BinaryPairTexts(pairs: seq<Pair>): bytes
    decreases pairs, 2
  {
    if pairs == [] then [] else BinaryPairText(pairs[0]) + BinaryPairTexts(pairs[1..])
  }

  function BinaryFieldText(f: Field): bytes
    decreases f, 1
  {
    [Code(f.value)] + Two(f.id % 0x1_0000) + BinaryText(f.value)
  }

  function BinaryFieldTexts(fields: seq<Field>): bytes
    decreases fields, 2
  {
    if fields == [] then [0] else BinaryFieldText(fields[0]) + BinaryFieldTexts(fields[1..])
  }

  lemma {:induction false} IntegersAre(a: int16, b: int32, c: int64)
    ensures B.I16Bytes(a) == Two(a % 0x1_0000) && B.I32Bytes(b) == Four(b % 0x1_0000_0000)
    ensures B.I64Bytes(c) == Eight(c % 0x1_0000_0000_0000_0000)
  {
    hide BigEndian, Two, Four, Eight;
    NumbersAre(a % 0x1_0000);
    NumbersAre(b % 0x1_0000_0000);
    NumbersAre(c % 0x1_0000_0000_0000_0000);
    PatternOf(c);
  }

  lemma {:induction false} LengthIs(n: nat)
    requires n < 0x8000_0000
    ensures B.I32Bytes(n) == Four(n) && ToInt32(n % TWO_64) == n
  {
    hide Four, BigEndian;
    IntegersAre(0, n, 0);
  }

  lemma {:induction false} BinaryIs(v: Value)
    requires Typed(v) && B.Sized(v)
    ensures B.Encode(v) == BinaryText(v)
    decreases v, 0
  {
    hide BigEndian, Two, Four, Eight, B.I16Bytes, B.I32Bytes, B.I64Bytes, B.EncodeAll, B.EncodePairs, B.EncodeFields,
      BinaryTexts, BinaryPairTexts, BinaryFieldTexts, AllTyped, PairsTyped, FieldsTyped;
    match v
    case Bool(_) =>
    case I8(_) =>
    case I16(i) => IntegersAre(i, 0, 0);
    case I32(i) => IntegersAre(0, i, 0);
    case I64(i) => IntegersAre(0, 0, i);
    case Double(bits) => NumbersAre(bits);
    case String(s) => LengthIs(|s|);
    case List(elem, items) => LengthIs(|items|); BinaryAll(elem, items);
    case Set(elem, items) => LengthIs(|items|); BinaryAll(elem, items);
    case Map(key, value, pairs) => LengthIs(|pairs|); BinaryPairs(key, value, pairs);
    case Struct(fields) => BinaryFields(fields);
  }

  lemma {:induction false} BinaryAll(elem: TType, items: seq<Value>)
    requires AllTyped(elem, items) && forall i :: 0 <= i < |items| ==> B.Sized(items[i])
    ensures B.EncodeAll(elem, items) == BinaryTexts(items)
    decreases items, 1
  {
    hide B.Encode, BinaryText, Typed, B.Sized;
    if items != [] {
      BinaryIs(items[0]);
      BinaryAll(elem, items[1..]);
    }
  }

  lemma {:induction false} BinaryPair(key: TType, value: TType, p: Pair)
    requires PairTyped(key, value, p) && B.Sized(p.k) && B.Sized(p.v)
    ensures B.EncodePair(key, value, p) == BinaryPairText(p)
    decreases p, 1
  {
    hide B.Encode, BinaryText, Typed, B.Sized;
    BinaryIs(p.k);
    BinaryIs(p.v);
  }

  lemma {:induction false} BinaryPairs(key: TType, value: TType, pairs: seq<Pair>)
    requires PairsTyped(key, value, pairs)
    requires forall i :: 0 <= i < |pairs| ==> B.Sized(pairs[i].k) && B.Sized(pairs[i].v)
    ensures B.EncodePairs(key, value, pairs) == BinaryPairTexts(pairs)
    decreases pairs, 2
  {
    hide B.EncodePair, BinaryPairText, PairTyped, B.Sized;
    if pairs != [] {
      BinaryPair(key, value, pairs[0]);
      BinaryPairs(key, value, pairs[1..]);
    }
  }

  lemma {:induction false} BinaryField(f: Field)
    requires FieldTyped(f) && B.Sized(f.value)
    ensures B.EncodeField(f) == BinaryFieldText(f)
    decreases f, 1
  {
    hide B.Encode, BinaryText, Typed, B.Sized, Two, Code, TypeOf, B.I16Bytes;
    CodesAre(f.value);
    IntegersAre(f.id, 0, 0);
    BinaryIs(f.value);
  }

  /** A struct in the binary protocol, a message or an argument list. */
  lemma {:induction false} BinaryFields(fields: seq<Field>)
    requires FieldsTyped(fields) && B.FieldsSized(fields)
    ensures B.EncodeFields(fields) == BinaryFieldTexts(fields)
    decreases fields, 2
  {
    hide B.EncodeField, BinaryFieldText, FieldTyped, B.Sized;
    if fields != [] {
      BinaryField(fields[0]);
      BinaryFields(fields[1..]);
    }
  }

  // ----- the compact protocol -----

  function ZigzagText(i: int64): bytes {
    VarintBytes(if i < 0 then -2 * i - 1 else 2 * i)
  }

  /** Ids that rise by 1 to 15, modulo 16 bits, share a byte with the type. */
  function ShortText(last: int16, ct: byte, id: int16): bytes
    requires ct <= 12
  {
    var rise := (id - last) % 0x1_0000;
    if 1 <= rise <= 15 then [16 * rise + ct] else [ct] + ZigzagText(id)
  }

  function SizeText(elem: TType, n: nat): bytes
    requires elem in COMPACT_CODES
  {
    if n < 15 then [16 * n + COMPACT_CODES[elem]] else [240 + COMPACT_CODES[elem]] + VarintBytes(n)
  }

  function CompactText(v: Value): bytes
    requires Typed(v)
    decreases v, 0
  {
    match v
    case Bool(b) => [if b then 1 else 0]
    case I8(b) => [b]
    case I16(i) => ZigzagText(i)
    case I32(i) => ZigzagText(i)
    case I64(i) => ZigzagText(i)
    case Double(bits) =>
      [bits % 256, bits / 256 % 256, bits / 65536 % 256, bits / 16777216 % 256, bits / 4294967296 % 256,
       bits / 1099511627776 % 256, bits / 281474976710656 % 256, bits / 72057594037927936 % 256]
    case String(s) => VarintBytes(|s|) + s
    case List(elem, items) => SizeText(elem, |items|) + CompactTexts(elem, items)
    case Set(elem, items) => SizeText(elem, |items|) + CompactTexts(elem, items)
    case Map(key, value, pairs) =>
      if pairs == [] then [0]
      else VarintBytes(|pairs|) + [16 * COMPACT_CODES[key] + COMPACT_CODES[value]] + CompactPairTexts(key, value, pairs)
    case Struct(fields) => CompactFieldTexts(0, fields)
  }

  function CompactTexts(elem: TType, items: seq<Value>): bytes
    requires AllTyped(elem, items)
    decreases items, 1
  {
    if items == [] then [] else CompactText(items[0]) + CompactTexts(elem, items[1..])
  }

  function CompactPairText(key: TType, value: TType, p: Pair): bytes
    requires PairTyped(key, value, p)
    decreases p, 1
  {
    CompactText(p.k) + CompactText(p.v)
  }

  function CompactPairTexts(key: TType, value: TType, pairs: seq<Pair>): bytes
    requires PairsTyped(key, value, pairs)
    decreases pairs, 2
  {
    if pairs == [] then [] else CompactPairText(key, value, pairs[0]) + CompactPairTexts(key, value, pairs[1..])
  }

  /** A bool is in the header of its field. */
  function CompactFieldText(last: int16, f: Field): bytes
    requires FieldTyped(f)
    decreases f, 1
  {
    if f.value.Bool? then ShortText(last, if f.value.b then 1 else 2, f.id)
    else ShortText(last, COMPACT_CODES[Code(f.value)], f.id) + CompactText(f.value)
  }

  function CompactFieldTexts(last: int16, fields: seq<Field>): bytes
    requires FieldsTyped(fields)
    decreases fields, 2
  {
    if fields == [] then [0] else CompactFieldText(last, fields[0]) + CompactFieldTexts(fields[0].id, fields[1..])
  }

  lemma {:induction false} ZigzagTextIs(i: int64)
    ensures VarintBytes(Zigzag(i)) == ZigzagText(i)
  {
    hide VarintBytes;
  }

  lemma {:induction false} HeaderIs(last: int16, ct: byte, id: int16)
    requires ct <= 12
    ensures C.FieldHeader(last, ct, id) == ShortText(last, ct, id)
  {
    hide VarintBytes, Zigzag, ZigzagText;
    ZigzagTextIs(id);
    Rise(last, id);
  }

  lemma {:induction false} Rise(last: int16, id: int16)
    ensures var rise := (id - last) % 0x1_0000;
            ToInt16(id - last) == if rise < 0x8000 then rise else rise - 0x1_0000
  {
  }

  lemma {:induction false} SizeIs(elem: TType, n: nat)
    requires IsType(elem) && n < 0x8000_0000
    ensures C.ListHeader(elem, n) == SizeText(elem, n)
  {
    hide VarintBytes;
    CompactCodes(elem, 0);
    TypesAre(elem);
  }

  lemma {:induction false} PairHeaderIs(key: TType, value: TType, n: nat)
    requires IsType(key) && IsType(value) && 0 < n < 0x8000_0000
    ensures C.MapHeader(key, value, n) == VarintBytes(n) + [16 * COMPACT_CODES[key] + COMPACT_CODES[value]]
  {
    hide VarintBytes;
    CompactCodes(key, 0);
    CompactCodes(value, 0);
  }

  lemma {:induction false} CompactIs(v: Value)
    requires Typed(v)
    ensures C.Encode(v) == CompactText(v)
    decreases v, 0
  {
    hide VarintBytes, Zigzag, ZigzagText, SizeText, LittleEndian, C.EncodeAll, C.EncodePairs, C.EncodeFields,
      C.ListHeader, C.MapHeader, CompactTexts, CompactPairTexts, CompactFieldTexts, AllTyped, PairsTyped, FieldsTyped;
    match v
    case Bool(_) =>
    case I8(_) =>
    case I16(i) => ZigzagTextIs(i);
    case I32(i) => ZigzagTextIs(i);
    case I64(i) => ZigzagTextIs(i);
    case Double(bits) => LittleEight(bits);
    case String(_) =>
    case List(elem, items) => SizeIs(elem, |items|); CompactAll(elem, items);
    case Set(elem, items) => SizeIs(elem, |items|); CompactAll(elem, items);
    case Map(key, value, pairs) => CompactMap(key, value, pairs);
    case Struct(fields) => CompactFields(0, fields);
  }

  lemma {:induction false} CompactMap(key: TType, value: TType, pairs: seq<Pair>)
    requires Typed(Map(key, value, pairs))
    ensures C.Encode(Map(key, value, pairs)) == CompactText(Map(key, value, pairs))
    decreases pairs, 3
  {
    hide VarintBytes, C.MapHeader, PairTyped;
    CompactPairs(key, value, pairs);
    if pairs == [] {
      NoPairs(key, value);
    } else {
      PairHeaderIs(key, value, |pairs|);
    }
  }

  lemma {:induction false} NoPairs(key: TType, value: TType)
    ensures C.MapHeader(key, value, 0) == [0] && [0] + C.EncodePairs(key, value, []) == [0]
  {
  }

  lemma {:induction false} CompactAll(elem: TType, items: seq<Value>)
    requires AllTyped(elem, items)
    ensures C.EncodeAll(elem, items) == CompactTexts(elem, items)
    decreases items, 1
  {
    hide C.Encode, CompactText, Typed;
    if items != [] {
      CompactIs(items[0]);
      CompactAll(elem, items[1..]);
    }
  }

  lemma {:induction false} CompactPair(key: TType, value: TType, p: Pair)
    requires PairTyped(key, value, p)
    ensures C.EncodePair(key, value, p) == CompactPairText(key, value, p)
    decreases p, 1
  {
    hide C.Encode, CompactText, Typed;
    CompactIs(p.k);
    CompactIs(p.v);
  }

  lemma {:induction false} CompactPairs(key: TType, value: TType, pairs: seq<Pair>)
    requires PairsTyped(key, value, pairs)
    ensures C.EncodePairs(key, value, pairs) == CompactPairTexts(key, value, pairs)
    decreases pairs, 2
  {
    hide C.EncodePair, CompactPairText, PairTyped;
    if pairs != [] {
      CompactPair(key, value, pairs[0]);
      CompactPairs(key, value, pairs[1..]);
    }
  }

  lemma {:induction false} CompactField(last: int16, f: Field)
    requires FieldTyped(f)
    ensures C.EncodeField(last, f) == CompactFieldText(last, f)
    decreases f, 1
  {
    hide C.Encode, CompactText, Typed, ShortText, C.FieldHeader, Code, TypeOf, IsType;
    HeaderIs(last, C.FieldType(f.value), f.id);
    CodesAre(f.value);
    CompactCodes(Code(f.value), 0);
    CodeListed(f.value);
    CompactIs(f.value);
    assert C.FieldHeader(last, C.FieldType(f.value), f.id) + [] == C.FieldHeader(last, C.FieldType(f.value), f.id);
  }

  lemma {:induction false} CodeListed(v: Value)
    ensures Code(v) in COMPACT_CODES
  {
  }

  lemma {:induction false} CompactFields(last: int16, fields: seq<Field>)
    requires FieldsTyped(fields)
    ensures C.EncodeFields(last, fields) == CompactFieldTexts(last, fields)
    decreases fields, 2
  {
    hide C.EncodeField, CompactFieldText, FieldTyped;
    if fields != [] {
      CompactField(last, fields[0]);
      CompactFields(fields[0].id, fields[1..]);
    }
  }

  // ----- headers that other encoders may write -----

  /** The long forms are read whenever they are written, needed or not. */
  lemma {:induction false} LongFormsRead(last: int16, id: int16, ct: byte, elem: TType, n: nat, buf: bytes, pos: nat)
    requires 1 <= ct <= 15 && elem in COMPACT_CODES && n < 0x8000_0000
    ensures At(buf, pos, [ct] + ZigzagText(id)) ==>
              C.ReadHeader(last, buf, pos) == Got((ct, id), pos + 1 + |ZigzagText(id)|)
    ensures At(buf, pos, [240 + COMPACT_CODES[elem]] + VarintBytes(n)) ==>
              C.ReadListHeader(buf, pos) == Got((elem, n), pos + 1 + |VarintBytes(n)|)
  {
    hide VarintBytes, Zigzag, ZigzagText;
    ZigzagTextIs(id);
    if At(buf, pos, [ct] + ZigzagText(id)) {
      C.ByteReadsBack(buf, pos, ct, ZigzagText(id));
      C.ZigzagReadsBack(buf, pos + 1, id);
      C.ShortInverse(id);
    }
    if At(buf, pos, [240 + COMPACT_CODES[elem]] + VarintBytes(n)) {
      C.ByteReadsBack(buf, pos, 240 + COMPACT_CODES[elem], VarintBytes(n));
      C.UvarintReadsBack(buf, pos + 1, n);
      CompactCodes(elem, COMPACT_CODES[elem]);
      CodesBack(elem);
    }
  }

  lemma {:induction false} CodesBack(elem: TType)
    requires elem in COMPACT_CODES
    ensures C.FromCompact(COMPACT_CODES[elem]) == elem && (240 + COMPACT_CODES[elem]) / 16 == 15 &&
            (240 + COMPACT_CODES[elem]) % 16 == COMPACT_CODES[elem]
  {
  }

  /** A string of the compact protocol: an overlong or cut length is an underflow,
      and one whose end wraps around panics. */
  lemma {:induction false} CompactStringRead(buf: bytes, pos: nat)
    ensures var n := ReadVarint(buf, pos);
            C.ReadBinary(buf, pos) ==
            if n.Bad? then Bad(Underflow)
            else if n.next + n.value >= 0x8000_0000_0000_0000 then Bad(Oversized)
            else if n.next + n.value > |buf| then Bad(Underflow)
            else Got(buf[n.next..n.next + n.value], n.next + n.value)
  {
    hide ReadVarint;
  }

  // ----- numbers read from any bytes -----

  /** The first byte weighs most; what does not fit is not read, and the cursor
      stays. */
  lemma {:induction false} NumbersRead(buf: bytes, pos: nat)
    requires pos <= |buf|
    ensures var r := B.ReadI16(buf, pos);
            if pos + 2 > |buf| then r == B.Outcome(Err(B.Underflow), pos)
            else r.result.Ok? && r.next == pos + 2 && Two(r.result.value % 0x1_0000) == buf[pos..pos + 2]
    ensures var r := B.ReadI32(buf, pos);
            if pos + 4 > |buf| then r == B.Outcome(Err(B.Underflow), pos)
            else r.result.Ok? && r.next == pos + 4 && Four(r.result.value % 0x1_0000_0000) == buf[pos..pos + 4]
    ensures var r := B.ReadI64(buf, pos);
            if pos + 8 > |buf| then r == B.Outcome(Err(B.Underflow), pos)
            else
              r.result.Ok? && r.next == pos + 8 &&
              Eight(r.result.value % 0x1_0000_0000_0000_0000) == buf[pos..pos + 8]
    ensures var r := B.ReadU64(buf, pos);
            if pos + 8 > |buf| then r == B.Outcome(Err(B.Underflow), pos)
            else r.result.Ok? && r.next == pos + 8 && Eight(r.result.value) == buf[pos..pos + 8]
  {
    hide BigEndian, FromBigEndian, Two, Four, Eight;
    if pos + 2 <= |buf| {
      NumberAt(buf[pos..pos + 2], 2);
    }
    if pos + 4 <= |buf| {
      NumberAt(buf[pos..pos + 4], 4);
    }
    if pos + 8 <= |buf| {
      NumberAt(buf[pos..pos + 8], 8);
    }
  }

  lemma {:induction false} NumberAt(s: bytes, n: nat)
    requires |s| == n
    ensures n == 2 ==> FromBigEndian(s) < 0x1_0000 && Two(FromBigEndian(s)) == s
    ensures n == 4 ==> FromBigEndian(s) < 0x1_0000_0000 && Four(FromBigEndian(s)) == s
    ensures n == 8 ==> FromBigEndian(s) < 0x1_0000_0000_0000_0000 && Eight(FromBigEndian(s)) == s
  {
    hide BigEndian, FromBigEndian, Two, Four, Eight;
    assert Range(2) == 0x1_0000 && Range(4) == 0x1_0000_0000 && Range(8) == 0x1_0000_0000_0000_0000;
    FromBigEndianInverse(s);
    NumbersAre(FromBigEndian(s));
  }

  /** A string: its length, which may be negative or too much for the buffer. */
  lemma {:induction false} StringRead(buf: bytes, pos: nat)
    requires pos <= |buf|
    ensures var (n, r) := (B.ReadI32(buf, pos).result, B.ReadString(buf, pos));
            if n.Err? then r == B.Outcome(Err(B.Underflow), pos)
            else if pos + 4 + n.value > |buf| then r == B.Outcome(Err(B.Underflow), pos + 4)
            else if n.value < 0 then r == B.Outcome(Err(B.Panic), pos + 4)
            else r == B.Outcome(Ok(buf[pos + 4..pos + 4 + n.value]), pos + 4 + n.value)
  {
    hide FromBigEndian;
  }
}
