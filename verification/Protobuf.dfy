/** The protobuf encoder and decoder objects: methods that append to a buffer
    and methods that advance a position, specified by the functions of Wire. */
module Protobuf {
  import opened Bytes
  import opened Results
  import opened Wire
  import opened Messages
  import opened Packed

  class Encoder {
    var buf: bytes

    constructor ()
      ensures buf == []
    {
      buf := [];
    }

    /** Values are 64-bit; a length is that of a buffer in memory. */
    method WriteVarint(v: nat)
      modifies this
      ensures buf == old(buf) + VarintBytes(v)
    {
      var rest := v;
      while rest >= 0x80
        invariant 0 <= rest
        invariant buf + VarintBytes(rest) == old(buf) + VarintBytes(v)
      {
        ghost var before := buf;
        var low: byte := rest % 0x80 + 0x80;
        buf := buf + [low];
        assert before + VarintBytes(rest) == buf + VarintBytes(rest / 0x80);
        rest := rest / 0x80;
      }
      var last: byte := rest;
      buf := buf + [last];
    }

    method WriteSignedVarint(v: int64)
      modifies this
      ensures buf == old(buf) + VarintBytes(AsUint64(v))
    {
      WriteVarint(AsUint64(v));
    }

    method WriteZigzag(v: int64)
      modifies this
      ensures buf == old(buf) + VarintBytes(Zigzag(v))
    {
      WriteVarint(Zigzag(v));
    }

    /** Also WriteFloat: a float is its 32-bit pattern. */
    method WriteFixed32(v: uint32)
      modifies this
      ensures buf == old(buf) + LittleEndian(v, 4)
    {
      buf := buf + [v % 0x100, v / 0x100 % 0x100, v / 0x1_0000 % 0x100, v / 0x100_0000 % 0x100];
      LittleFourMore(v, 0);
      assert LittleEndian(v / 0x1_0000_0000, 0) == [];
    }

    method WriteFixed64(v: uint64)
      modifies this
      ensures buf == old(buf) + LittleEndian(v, 8)
    {
      var v4 := v / 0x1_0000_0000;
      buf := buf + [v % 0x100, v / 0x100 % 0x100, v / 0x1_0000 % 0x100, v / 0x100_0000 % 0x100,
                    v4 % 0x100, v4 / 0x100 % 0x100, v4 / 0x1_0000 % 0x100, v4 / 0x100_0000 % 0x100];
      LittleFourMore(v, 4);
      LittleFourMore(v4, 0);
    }

    /** Also WriteString: strings are bytes. */
    method WriteBytes(b: bytes)
      modifies this
      ensures buf == old(buf) + Delimited(b)
    {
      WriteVarint(|b|);
      buf := buf + b;
    }

    method WriteTag(fieldNumber: uint32, wireType: WireType)
      modifies this
      ensures buf == old(buf) + TagBytes(fieldNumber, wireType)
    {
      WriteVarint(MakeTag(fieldNumber, wireType));
    }

    method WriteTagVarint(fieldNumber: uint32, v: uint64)
      modifies this
      ensures buf == old(buf) + EncodeField(VarintField(fieldNumber, v))
    {
      WriteTag(fieldNumber, WIRE_VARINT);
      WriteVarint(v);
    }

    method WriteTagSignedVarint(fieldNumber: uint32, v: int64)
      modifies this
      ensures buf == old(buf) + EncodeField(VarintField(fieldNumber, AsUint64(v)))
    {
      WriteTag(fieldNumber, WIRE_VARINT);
      WriteSignedVarint(v);
    }

    /** Also WriteTagDouble: a double is its 64-bit pattern. */
    method WriteTagFixed64(fieldNumber: uint32, v: uint64)
      modifies this
      ensures buf == old(buf) + EncodeField(Fixed64Field(fieldNumber, v))
    {
      WriteTag(fieldNumber, WIRE_64BIT);
      WriteFixed64(v);
    }

    /** Also WriteTagString. */
    method WriteTagBytes(fieldNumber: uint32, b: bytes)
      modifies this
      ensures buf == old(buf) + EncodeField(BytesField(fieldNumber, b))
    {
      WriteTag(fieldNumber, WIRE_BYTES);
      WriteBytes(b);
    }

    /** The second half of EncodeMessage: the first fills the inner encoder. */
    method EncodeMessage(fieldNumber: uint32, inner: Encoder, ghost fields: seq<Field>)
      requires inner != this && inner.buf == Encode(fields)
      modifies this
      ensures buf == old(buf) + EncodeField(MessageField(fieldNumber, fields))
    {
      WriteTagBytes(fieldNumber, inner.buf);
    }

    /** EncodePackedVarints, EncodePackedFixed32 and EncodePackedFixed64 differ in
        the call that their loops make. */
    method EncodePacked(fieldNumber: uint32, k: Packing, values: seq<nat>)
      requires AllFit(k, values)
      modifies this
      ensures buf == old(buf) + if values == [] then [] else EncodeField(BytesField(fieldNumber, PackedBytes(k, values)))
    {
      hide EncodeField, PackedBytes, VarintBytes, LittleEndian;
      if |values| == 0 {
        return;
      }
      var inner := new Encoder();
      var i := 0;
      assert values[..0] == [];
      NoNumbers(k);
      while i < |values|
        invariant 0 <= i <= |values| && fresh(inner) && buf == old(buf)
        invariant inner.buf == PackedBytes(k, values[..i])
      {
        assert FitsPacking(k, values[i]);
        match k {
          case Varints => inner.WriteVarint(values[i]);
          case Fixed32s => inner.WriteFixed32(values[i]);
          case Fixed64s => inner.WriteFixed64(values[i]);
        }
        OneMoreNumber(k, values, i);
        i := i + 1;
      }
      assert values[..|values|] == values;
      WriteTagBytes(fieldNumber, inner.buf);
    }

    method WriteTagBool(fieldNumber: uint32, v: bool)
      modifies this
      ensures buf == old(buf) + EncodeField(VarintField(fieldNumber, if v then 1 else 0))
    {
      var val: uint64 := 0;
      if v {
        val := 1;
      }
      WriteTagVarint(fieldNumber, val);
    }
  }

  /** The relation every read method keeps: on success its result and the new
      position are those of the specification; on failure the error is. */
  ghost predicate Reads<T>(spec: Read<T>, r: Result<T, Error>, pos: nat) {
    match spec
    case Got(v, next) => r == Ok(v) && pos == next
    case Bad(e) => r == Err(e)
  }

  class Decoder {
    const buf: bytes
    var pos: nat

    constructor (buf: bytes)
      ensures this.buf == buf && pos == 0
    {
      this.buf := buf;
      pos := 0;
    }

    predicate Done()
      reads this
    {
      pos >= |buf|
    }

    method ReadVarint() returns (r: Result<uint64, Error>)
      modifies this
      ensures Reads(Wire.ReadVarint(buf, old(pos)), r, pos)
    {
      var val: uint64 := 0;
      ghost var sum: nat := 0;
      var weight: nat := 1;
      var i := 0;
      while i < 10
        invariant 0 <= i <= 10
        invariant val == sum % TWO_64
        invariant Progress(buf, old(pos), 10, pos, i, sum, weight)
      {
        if pos >= |buf| {
          return Err(Underflow);
        }
        var b := buf[pos];
        VarintStep(buf, old(pos), 10, pos, i, sum, weight);
        pos := pos + 1;
        AddGroup(sum, b % 0x80 * weight);
        val := (val + b % 0x80 * weight) % TWO_64;
        sum := sum + b % 0x80 * weight;
        if b < 0x80 {
          return Ok(val);
        }
        weight := weight * 0x80;
        i := i + 1;
      }
      return Err(VarintOverflow);
    }

    method ReadSignedVarint() returns (r: Result<int64, Error>)
      modifies this
      ensures match Wire.ReadVarint(buf, old(pos))
              case Got(v, next) => r == Ok(AsInt64(v)) && pos == next
              case Bad(e) => r == Err(e)
    {
      var v :- ReadVarint();
      return Ok(AsInt64(v));
    }

    method ReadBool() returns (r: Result<bool, Error>)
      modifies this
      ensures match Wire.ReadVarint(buf, old(pos))
              case Got(v, next) => r == Ok(v != 0) && pos == next
              case Bad(e) => r == Err(e)
    {
      var v :- ReadVarint();
      return Ok(v != 0);
    }

    method ReadZigzag() returns (r: Result<int64, Error>)
      modifies this
      ensures match Wire.ReadVarint(buf, old(pos))
              case Got(v, next) => r == Ok(Unzigzag(v)) && pos == next
              case Bad(e) => r == Err(e)
    {
      var v :- ReadVarint();
      return Ok(Unzigzag(v));
    }

    /** Also ReadFloat: a float is its 32-bit pattern. */
    method ReadFixed32() returns (r: Result<uint32, Error>)
      modifies this
      ensures Reads(Wire.ReadFixed32(buf, old(pos)), r, pos)
    {
      if pos + 4 > |buf| {
        return Err(Underflow);
      }
      var v := (buf[pos] as int) + (buf[pos + 1] as int) * 0x100 + (buf[pos + 2] as int) * 0x1_0000 +
               (buf[pos + 3] as int) * 0x100_0000;
      assert v == FromLittleEndian(buf[pos..pos + 4]) by {
        FourBytes(buf, pos, pos + 4);
        assert FromLittleEndian(buf[pos + 4..pos + 4]) == 0;
      }
      pos := pos + 4;
      return Ok(v);
    }

    /** Also ReadDouble: a double is its 64-bit pattern. */
    method ReadFixed64() returns (r: Result<uint64, Error>)
      modifies this
      ensures Reads(Wire.ReadFixed64(buf, old(pos)), r, pos)
    {
      if pos + 8 > |buf| {
        return Err(Underflow);
      }
      var v := (buf[pos] as int) +
               (buf[pos + 1] as int) * 0x100 +
               (buf[pos + 2] as int) * 0x1_0000 +
               (buf[pos + 3] as int) * 0x100_0000 +
               (buf[pos + 4] as int) * 0x1_0000_0000 +
               (buf[pos + 5] as int) * 0x100_0000_0000 +
               (buf[pos + 6] as int) * 0x1_0000_0000_0000 +
               (buf[pos + 7] as int) * 0x100_0000_0000_0000;
      assert v == FromLittleEndian(buf[pos..pos + 8]) by {
        FourBytes(buf, pos, pos + 8);
        FourBytes(buf, pos + 4, pos + 8);
        assert FromLittleEndian(buf[pos + 8..pos + 8]) == 0;
      }
      pos := pos + 8;
      return Ok(v);
    }

    /** Also ReadString, and the first half of ReadMessage. */
    method ReadBytes() returns (r: Result<bytes, Error>)
      modifies this
      ensures Reads(Wire.ReadBytes(buf, old(pos)), r, pos)
    {
      var length :- ReadVarint();
      if length >= TWO_63 - pos {
        return Err(Oversized);
      }
      if pos + length > |buf| {
        return Err(Underflow);
      }
      var b := buf[pos..pos + length];
      pos := pos + length;
      return Ok(b);
    }

    /** ReadPackedVarints, ReadPackedFixed32 and ReadPackedFixed64 differ in the
        call that their loops make. */
    method ReadPacked(k: Packing) returns (r: Result<seq<nat>, Error>)
      modifies this
      ensures Reads(Packed.ReadPacked(k, buf, old(pos)), r, pos)
    {
      hide Wire.ReadVarint, Wire.ReadFixed32, Wire.ReadFixed64, FitsPacking;
      var b :- ReadBytes();
      var sub := new Decoder(b);
      var values := [];
      BeforeNothing(ReadNumbers(k, b, 0));
      var done := sub.Done();
      while !done
        invariant fresh(sub) && sub.buf == b && done == (sub.pos >= |b|)
        invariant pos == Wire.ReadBytes(buf, old(pos)).next
        invariant Before(values, ReadNumbers(k, b, sub.pos)) == ReadNumbers(k, b, 0)
        decreases |b| - sub.pos
      {
        var v: nat;
        match k {
          case Varints => v :- sub.ReadVarint();
          case Fixed32s => v :- sub.ReadFixed32();
          case Fixed64s => v :- sub.ReadFixed64();
        }
        BeforeTwice(values, [v], ReadNumbers(k, b, sub.pos));
        values := values + [v];
        done := sub.Done();
      }
      assert values + [] == values;
      return Ok(values);
    }

    method ReadField() returns (r: Result<(uint32, WireType), Error>)
      modifies this
      ensures Reads(ReadTag(buf, old(pos)), r, pos)
    {
      var tag :- ReadVarint();
      return Ok(ParseTag(tag));
    }

    method SkipField(wireType: WireType) returns (r: Result<(), Error>)
      modifies this
      ensures Reads(Skip(wireType, buf, old(pos)), r, pos)
    {
      if wireType == WIRE_VARINT {
        var _ :- ReadVarint();
        return Ok(());
      } else if wireType == WIRE_64BIT {
        if pos + 8 > |buf| {
          return Err(Underflow);
        }
        pos := pos + 8;
        return Ok(());
      } else if wireType == WIRE_BYTES {
        var length :- ReadVarint();
        if length >= TWO_63 - pos {
          return Err(Oversized);
        }
        if pos + length > |buf| {
          return Err(Underflow);
        }
        pos := pos + length;
        return Ok(());
      } else if wireType == WIRE_32BIT {
        if pos + 4 > |buf| {
          return Err(Underflow);
        }
        pos := pos + 4;
        return Ok(());
      } else {
        return Err(InvalidWireType);
      }
    }
  }

  lemma {:induction false} FourBytes(buf: bytes, i: nat, end: nat)
    requires i + 4 <= end <= |buf|
    ensures FromLittleEndian(buf[i..end]) ==
            (buf[i] as int) + (buf[i + 1] as int) * 0x100 + (buf[i + 2] as int) * 0x1_0000 +
            (buf[i + 3] as int) * 0x100_0000 + 0x1_0000_0000 * FromLittleEndian(buf[i + 4..end])
  {
    OneByte(buf, i, end);
    OneByte(buf, i + 1, end);
    OneByte(buf, i + 2, end);
    OneByte(buf, i + 3, end);
  }

  lemma {:induction false} OneByte(buf: bytes, i: nat, end: nat)
    requires i < end <= |buf|
    ensures FromLittleEndian(buf[i..end]) == (buf[i] as int) + 0x100 * FromLittleEndian(buf[i + 1..end])
  {
    assert buf[i..end][1..] == buf[i + 1..end];
  }

  /** After i of at most n groups, which add up to sum, the varint that starts
      at `start` is decided by the one that starts at pos. */
  ghost predicate Progress(buf: bytes, start: nat, n: nat, pos: nat, i: nat, sum: nat, weight: nat) {
    i <= n &&
    match ReadRaw(buf, pos, n - i)
    case Got(v, next) => ReadRaw(buf, start, n) == Got(sum + weight * v, next)
    case Bad(e) => ReadRaw(buf, start, n) == Bad(e)
  }

  lemma {:induction false} VarintStep(buf: bytes, start: nat, n: nat, pos: nat, i: nat, sum: nat, weight: nat)
    requires i < n && pos < |buf|
    requires Progress(buf, start, n, pos, i, sum, weight)
    ensures buf[pos] < 0x80 ==> ReadRaw(buf, start, n) == Got(sum + buf[pos] % 0x80 * weight, pos + 1)
    ensures buf[pos] >= 0x80 ==>
              Progress(buf, start, n, pos + 1, i + 1, sum + buf[pos] % 0x80 * weight, weight * 0x80)
  {
    hide ReadRaw;
    RawUnfold(buf, pos, n - i);
    var group := buf[pos] % 0x80;
    Commutes(weight, group);
    if buf[pos] >= 0x80 {
      var rest := ReadRaw(buf, pos + 1, n - i - 1);
      if rest.Got? {
        Regroup(weight, group, rest.value);
      }
    }
  }

  lemma {:induction false} RawUnfold(buf: bytes, pos: nat, left: nat)
    requires left > 0 && pos < |buf|
    ensures buf[pos] < 0x80 ==> buf[pos] == buf[pos] % 0x80 && ReadRaw(buf, pos, left) == Got(buf[pos] % 0x80, pos + 1)
    ensures buf[pos] >= 0x80 ==>
              match ReadRaw(buf, pos + 1, left - 1)
              case Got(v, next) => ReadRaw(buf, pos, left) == Got(buf[pos] % 0x80 + 0x80 * v, next)
              case Bad(e) => ReadRaw(buf, pos, left) == Bad(e)
  {
  }

  lemma {:induction false} Commutes(a: nat, b: nat)
    ensures a * b == b * a
  {
  }

  lemma {:induction false} Regroup(weight: nat, group: nat, v: nat)
    ensures weight * (group + 0x80 * v) == group * weight + weight * 0x80 * v
  {
  }

  lemma {:induction false} AddGroup(sum: nat, more: nat)
    ensures (sum % TWO_64 + more) % TWO_64 == (sum + more) % TWO_64
  {
  }
}
