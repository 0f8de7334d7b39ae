/** The binary encoder and decoder objects, with the receiver's skipThriftField. */
module Binary {
  import opened Bytes
  import opened Results
  import opened ThriftTypes
  import opened BinaryWire

  class Encoder {
    var buf: bytes

    constructor ()
      ensures buf == []
    {
      buf := [];
    }

    method WriteBool(v: bool)
      modifies this
      ensures buf == old(buf) + Encode(Bool(v))
    {
      if v {
        buf := buf + [1];
      } else {
        buf := buf + [0];
      }
    }

    method WriteI8(v: byte)
      modifies this
      ensures buf == old(buf) + [v]
    {
      buf := buf + [v];
    }

    method WriteI16(v: int16)
      modifies this
      ensures buf == old(buf) + I16Bytes(v)
    {
      BigTwo(v % TWO_16);
      TwoDigitsSigned(v);
      buf := buf + [v / 0x100 % 0x100, v % 0x100];
    }

    method WriteI32(v: int32)
      modifies this
      ensures buf == old(buf) + I32Bytes(v)
    {
      BigFour(v % TWO_32);
      FourDigitsSigned(v);
      buf := buf + [v / 0x100_0000 % 0x100, v / 0x1_0000 % 0x100, v / 0x100 % 0x100, v % 0x100];
    }

    /** PutUint64 is a library call. Also WriteDouble, of the bit pattern. */
    method WriteU64(v: uint64)
      modifies this
      ensures buf == old(buf) + BigEndian(v, 8)
    {
      buf := buf + BigEndian(v, 8);
    }

    method WriteI64(v: int64)
      modifies this
      ensures buf == old(buf) + I64Bytes(v)
    {
      WriteU64(AsUint64(v));
    }

    /** Also WriteBytes. */
    method WriteString(v: bytes)
      modifies this
      ensures buf == old(buf) + StringBytes(v)
    {
      ghost var start := buf;
      WriteI32(ToInt32(|v| % TWO_64));
      buf := buf + v;
      Assoc(start, I32Bytes(ToInt32(|v| % TWO_64)), v);
    }

    method WriteFieldBegin(fieldType: TType, fieldID: int16)
      modifies this
      ensures buf == old(buf) + FieldHeader(fieldType, fieldID)
    {
      WriteI8(fieldType);
      WriteI16(fieldID);
    }

    method WriteFieldStop()
      modifies this
      ensures buf == old(buf) + [TYPE_STOP]
    {
      WriteI8(TYPE_STOP);
    }

    method WriteListBegin(elemType: TType, size: int32)
      modifies this
      ensures buf == old(buf) + ListHeader(elemType, size)
    {
      WriteI8(elemType);
      WriteI32(size);
    }

    method WriteMapBegin(keyType: TType, valueType: TType, size: int32)
      modifies this
      ensures buf == old(buf) + MapHeader(keyType, valueType, size)
    {
      WriteI8(keyType);
      WriteI8(valueType);
      WriteI32(size);
    }
  }

  /** The shifts of a negative number are those of its 32-bit pattern. */
  lemma {:induction false} TwoDigitsSigned(v: int16)
    ensures v % TWO_16 / 0x100 == v / 0x100 % 0x100
    ensures v % TWO_16 % 0x100 == v % 0x100
  {
    if v < 0 {
      assert v % TWO_16 == v + TWO_16;
      assert (v + TWO_16) / 0x100 == v / 0x100 + 0x100;
      AddedTurns(v / 0x100, 1);
      AddedTurns(v, 0x100);
    }
  }

  lemma {:induction false} FourDigitsSigned(v: int32)
    ensures v % TWO_32 / 0x100_0000 % 0x100 == v / 0x100_0000 % 0x100
    ensures v % TWO_32 / 0x1_0000 % 0x100 == v / 0x1_0000 % 0x100
    ensures v % TWO_32 / 0x100 % 0x100 == v / 0x100 % 0x100
    ensures v % TWO_32 % 0x100 == v % 0x100
  {
    if v < 0 {
      assert v % TWO_32 == v + TWO_32;
      assert (v + TWO_32) / 0x100_0000 == v / 0x100_0000 + 0x100;
      assert (v + TWO_32) / 0x1_0000 == v / 0x1_0000 + 0x100 * 0x100;
      assert (v + TWO_32) / 0x100 == v / 0x100 + 0x100 * 0x1_0000;
      AddedTurns(v / 0x100_0000, 1);
      AddedTurns(v / 0x1_0000, 0x100);
      AddedTurns(v / 0x100, 0x1_0000);
      AddedTurns(v, 0x100_0000);
    }
  }

  lemma {:induction false} AddedTurns(x: int, turns: nat)
    ensures (x + 0x100 * turns) % 0x100 == x % 0x100
  {
  }

  lemma {:induction false} TwoBytes(s: bytes)
    requires |s| == 2
    ensures FromBigEndian(s) == 0x100 * (s[0] as int) + s[1]
  {
    assert FromBigEndian(s[..1]) == s[0];
  }

  lemma {:induction false} FourBytes(s: bytes)
    requires |s| == 4
    ensures FromBigEndian(s) == 0x100_0000 * (s[0] as int) + 0x1_0000 * (s[1] as int) + 0x100 * (s[2] as int) + s[3]
  {
    TwoBytes(s[..3][..2]);
    assert FromBigEndian(s[..3]) == 0x100 * FromBigEndian(s[..3][..2]) + s[2];
  }

  /** Every read ends with the result and at the cursor of its specification. */
  ghost predicate Reads<T>(o: Outcome<T>, r: Result<T, Error>, pos: nat) {
    r == o.result && pos == o.next
  }

  class Decoder {
    const buf: bytes
    var pos: nat

    ghost predicate Valid()
      reads this
    {
      pos <= |buf|
    }

    constructor (buf: bytes)
      ensures this.buf == buf && pos == 0
    {
      this.buf := buf;
      pos := 0;
    }

    method ReadByte() returns (r: Result<byte, Error>)
      requires Valid()
      modifies this
      ensures Valid() && Reads(BinaryWire.ReadByte(buf, old(pos)), r, pos)
    {
      if pos >= |buf| {
        return Err(Underflow);
      }
      var v := buf[pos];
      pos := pos + 1;
      return Ok(v);
    }

    method ReadI16() returns (r: Result<int16, Error>)
      requires Valid()
      modifies this
      ensures Valid() && Reads(BinaryWire.ReadI16(buf, old(pos)), r, pos)
    {
      if pos + 2 > |buf| {
        return Err(Underflow);
      }
      TwoBytes(buf[pos..pos + 2]);
      var v := ToInt16(0x100 * (buf[pos] as int) + buf[pos + 1]);
      pos := pos + 2;
      return Ok(v);
    }

    method ReadI32() returns (r: Result<int32, Error>)
      requires Valid()
      modifies this
      ensures Valid() && Reads(BinaryWire.ReadI32(buf, old(pos)), r, pos)
    {
      if pos + 4 > |buf| {
        return Err(Underflow);
      }
      FourBytes(buf[pos..pos + 4]);
      var v := ToInt32(0x100_0000 * (buf[pos] as int) + 0x1_0000 * (buf[pos + 1] as int) +
                       0x100 * (buf[pos + 2] as int) + buf[pos + 3]);
      pos := pos + 4;
      return Ok(v);
    }

    /** BigEndian.Uint64 is a library call. Also ReadDouble. */
    method ReadU64() returns (r: Result<uint64, Error>)
      requires Valid()
      modifies this
      ensures Valid() && Reads(BinaryWire.ReadU64(buf, old(pos)), r, pos)
    {
      if pos + 8 > |buf| {
        return Err(Underflow);
      }
      var v := FromBigEndian(buf[pos..pos + 8]) % TWO_64;
      pos := pos + 8;
      return Ok(v);
    }

    method ReadI64() returns (r: Result<int64, Error>)
      requires Valid()
      modifies this
      ensures Valid() && Reads(BinaryWire.ReadI64(buf, old(pos)), r, pos)
    {
      var v :- ReadU64();
      return Ok(AsInt64(v));
    }

    method ReadString() returns (r: Result<bytes, Error>)
      requires Valid()
      modifies this
      ensures Valid() && Reads(BinaryWire.ReadString(buf, old(pos)), r, pos)
    {
      var length :- ReadI32();
      if pos + length > |buf| {
        return Err(Underflow);
      }
      if length < 0 {
        return Err(Panic);
      }
      var s := buf[pos..pos + length];
      pos := pos + length;
      return Ok(s);
    }

    method ReadFieldBegin() returns (r: Result<(TType, int16), Error>)
      requires Valid()
      modifies this
      ensures Valid() && Reads(BinaryWire.ReadFieldBegin(buf, old(pos)), r, pos)
    {
      var fieldType :- ReadByte();
      if fieldType == TYPE_STOP {
        return Ok((TYPE_STOP, 0));
      }
      var fieldID :- ReadI16();
      return Ok((fieldType, fieldID));
    }

    method ReadListBegin() returns (r: Result<(TType, int32), Error>)
      requires Valid()
      modifies this
      ensures Valid() && Reads(BinaryWire.ReadListBegin(buf, old(pos)), r, pos)
    {
      var elemType :- ReadByte();
      var size :- ReadI32();
      return Ok((elemType, size));
    }

    method ReadMapBegin() returns (r: Result<(TType, TType, int32), Error>)
      requires Valid()
      modifies this
      ensures Valid() && Reads(BinaryWire.ReadMapBegin(buf, old(pos)), r, pos)
    {
      var kt :- ReadByte();
      var vt :- ReadByte();
      var size :- ReadI32();
      return Ok((kt, vt, size));
    }
  }

  /** The cursor is where the specification says, or both have panicked. */
  ghost predicate Skips(spec: Result<nat, Error>, r: Result<(), Error>, pos: nat) {
    match spec
    case Ok(next) => r == Ok(()) && pos == next
    case Err(e) => r == Err(e)
  }

  /** Ends on all bytes and every type; the errors of its reads are dropped. */
  method SkipThriftField(dec: Decoder, ft: TType) returns (r: Result<(), Error>)
    requires dec.Valid()
    modifies dec
    ensures Skips(Skip(ft, dec.buf, old(dec.pos)), r, dec.pos)
    ensures r.Ok? ==> dec.Valid()
    decreases |dec.buf| - dec.pos, 1
  {
    if ft == TYPE_BOOL || ft == TYPE_BYTE {
      var _ := dec.ReadByte();
    } else if ft == TYPE_I16 {
      var _ := dec.ReadI16();
    } else if ft == TYPE_I32 {
      var _ := dec.ReadI32();
    } else if ft == TYPE_I64 || ft == TYPE_DOUBLE {
      var _ := dec.ReadU64();
    } else if ft == TYPE_STRING {
      var s := dec.ReadString();
      if s == Err(Panic) {
        return Err(Panic);
      }
    } else if ft == TYPE_LIST || ft == TYPE_SET {
      var h := dec.ReadListBegin();
      if h.Ok? {
        r := SkipEach(dec, h.value.0, h.value.1);
        return;
      }
    } else if ft == TYPE_MAP {
      var h := dec.ReadMapBegin();
      if h.Ok? {
        r := SkipEachPair(dec, h.value.0, h.value.1, h.value.2);
        return;
      }
    } else if ft == TYPE_STRUCT {
      r := SkipStruct(dec);
      return;
    }
    return Ok(());
  }

  /** The loop over the elements of a list or set. */
  method SkipEach(dec: Decoder, elemType: TType, size: int32) returns (r: Result<(), Error>)
    requires dec.Valid()
    modifies dec
    ensures Skips(SkipItems(elemType, size, dec.buf, old(dec.pos)), r, dec.pos)
    ensures r.Ok? ==> dec.Valid()
    decreases |dec.buf| - dec.pos, 2
  {
    ghost var start := dec.pos;
    var i := 0;
    while i < size
      invariant 0 <= i && dec.Valid() && start <= dec.pos
      invariant SkipItems(elemType, size - i, dec.buf, dec.pos) == SkipItems(elemType, size, dec.buf, start)
    {
      var _ :- SkipThriftField(dec, elemType);
      i := i + 1;
    }
    return Ok(());
  }

  /** The loop over the pairs of a map. */
  method SkipEachPair(dec: Decoder, kt: TType, vt: TType, size: int32) returns (r: Result<(), Error>)
    requires dec.Valid()
    modifies dec
    ensures Skips(SkipPairs(kt, vt, size, dec.buf, old(dec.pos)), r, dec.pos)
    ensures r.Ok? ==> dec.Valid()
    decreases |dec.buf| - dec.pos, 2
  {
    ghost var start := dec.pos;
    var i := 0;
    while i < size
      invariant 0 <= i && dec.Valid() && start <= dec.pos
      invariant SkipPairs(kt, vt, size - i, dec.buf, dec.pos) == SkipPairs(kt, vt, size, dec.buf, start)
    {
      var _ :- SkipThriftField(dec, kt);
      var _ :- SkipThriftField(dec, vt);
      i := i + 1;
    }
    return Ok(());
  }

  /** The loop over the fields of a struct. */
  method SkipStruct(dec: Decoder) returns (r: Result<(), Error>)
    requires dec.Valid()
    modifies dec
    ensures Skips(SkipFields(dec.buf, old(dec.pos)), r, dec.pos)
    ensures r.Ok? ==> dec.Valid()
    decreases |dec.buf| - dec.pos, 0
  {
    ghost var start := dec.pos;
    while true
      invariant dec.Valid() && start <= dec.pos
      invariant SkipFields(dec.buf, dec.pos) == SkipFields(dec.buf, start)
      decreases |dec.buf| - dec.pos
    {
      var h := dec.ReadFieldBegin();
      if h.Err? || h.value.0 == TYPE_STOP {
        return Ok(());
      }
      var _ :- SkipThriftField(dec, h.value.0);
    }
  }
}
