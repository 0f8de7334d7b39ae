/** Thrift types and the values that both protocols carry. */
module ThriftTypes {
  import opened Bytes

  type TType = byte

  const TYPE_STOP: TType := 0
  const TYPE_BOOL: TType := 2
  const TYPE_BYTE: TType := 3
  const TYPE_DOUBLE: TType := 4
  const TYPE_I16: TType := 6
  const TYPE_I32: TType := 8
  const TYPE_I64: TType := 10
  const TYPE_STRING: TType := 11
  const TYPE_STRUCT: TType := 12
  const TYPE_MAP: TType := 13
  const TYPE_SET: TType := 14
  const TYPE_LIST: TType := 15

  /** The types that have values. */
  predicate IsType(t: TType) {
    t == TYPE_BOOL || t == TYPE_BYTE || t == TYPE_DOUBLE || t == TYPE_I16 || t == TYPE_I32 || t == TYPE_I64 ||
    t == TYPE_STRING || t == TYPE_STRUCT || t == TYPE_MAP || t == TYPE_SET || t == TYPE_LIST
  }

  datatype Value =
    | Bool(b: bool) | I8(byte: byte) | I16(i16: int16) | I32(i32: int32) | I64(i64: int64)
    | Double(bits: uint64) | String(s: bytes)
    | List(elem: TType, items: seq<Value>) | Set(elem: TType, items: seq<Value>)
    | Map(key: TType, value: TType, pairs: seq<Pair>)
    | Struct(fields: seq<Field>)

  datatype Pair = Pair(k: Value, v: Value)

  datatype Field = Field(id: int16, value: Value)

  function TypeOf(v: Value): TType {
    match v
    case Bool(_) => TYPE_BOOL
    case I8(_) => TYPE_BYTE
    case I16(_) => TYPE_I16
    case I32(_) => TYPE_I32
    case I64(_) => TYPE_I64
    case Double(_) => TYPE_DOUBLE
    case String(_) => TYPE_STRING
    case List(_, _) => TYPE_LIST
    case Set(_, _) => TYPE_SET
    case Map(_, _, _) => TYPE_MAP
    case Struct(_) => TYPE_STRUCT
  }

  /** Elements have the declared type, and sizes are int32. */
  predicate Typed(v: Value)
    decreases v, 0
  {
    match v
    case List(elem, items) => IsType(elem) && |items| < 0x8000_0000 && AllTyped(elem, items)
    case Set(elem, items) => IsType(elem) && |items| < 0x8000_0000 && AllTyped(elem, items)
    case Map(key, value, pairs) => IsType(key) && IsType(value) && |pairs| < 0x8000_0000 && PairsTyped(key, value, pairs)
    case Struct(fields) => FieldsTyped(fields)
    case _ => true
  }

  predicate AllTyped(elem: TType, items: seq<Value>)
    decreases items, 1
  {
    items == [] || (TypeOf(items[0]) == elem && Typed(items[0]) && AllTyped(elem, items[1..]))
  }

  predicate PairTyped(key: TType, value: TType, p: Pair)
    decreases p, 1
  {
    TypeOf(p.k) == key && TypeOf(p.v) == value && Typed(p.k) && Typed(p.v)
  }

  predicate PairsTyped(key: TType, value: TType, pairs: seq<Pair>)
    decreases pairs, 2
  {
    pairs == [] || (PairTyped(key, value, pairs[0]) && PairsTyped(key, value, pairs[1..]))
  }

  predicate FieldTyped(f: Field)
    decreases f, 1
  {
    Typed(f.value)
  }

  predicate FieldsTyped(fields: seq<Field>)
    decreases fields, 2
  {
    fields == [] || (FieldTyped(fields[0]) && FieldsTyped(fields[1..]))
  }
}
