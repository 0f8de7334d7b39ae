/** The protobuf wire format: what each primitive writes, what each primitive
    reads at a position of a buffer, and that the two agree. */
module Wire {
  import opened Bytes

  type WireType = w: int | 0 <= w < 8

  const WIRE_VARINT: WireType := 0
  const WIRE_64BIT: WireType := 1
  const WIRE_BYTES: WireType := 2
  const WIRE_32BIT: WireType := 5

  /** Oversized stands for a length prefix so large that the source's signed
      sum pos+int(length) wraps around: its bounds check then passes, and reading
      panics on the slice, while skipping moves the cursor backwards. */
  datatype Error = Underflow | VarintOverflow | InvalidWireType | Oversized

  /** What a read at a position yields: a value and the position after it. */
  datatype Read<+T> = Got(value: T, next: nat) | Bad(error: Error)

  /** A list that goes on after what is done already. */
  function Before<T>(done: seq<T>, r: Read<seq<T>>): Read<seq<T>> {
    match r
    case Bad(e) => Bad(e)
    case Got(rest, next) => Got(done + rest, next)
  }

  lemma {:induction false} BeforeNothing<T>(r: Read<seq<T>>)
    ensures Before([], r) == r
  {
    if r.Got? {
      assert [] + r.value == r.value;
    }
  }

  lemma {:induction false} BeforeTwice<T>(a: seq<T>, b: seq<T>, r: Read<seq<T>>)
    ensures Before(a, Before(b, r)) == Before(a + b, r)
  {
    if r.Got? {
      Assoc(a, b, r.value);
    }
  }

  // ----- tags -----

  function MakeTag(fieldNumber: uint32, wireType: WireType): uint64 {
    fieldNumber * 8 + wireType
  }

  function ParseTag(tag: uint64): (uint32, WireType) {
    (tag / 8 % TWO_32, tag % 8)
  }

  // ----- zigzag -----

  function Zigzag(v: int64): uint64 {
    if v >= 0 then 2 * v else -2 * v - 1
  }

  function Unzigzag(u: uint64): int64 {
    if u % 2 == 0 then u / 2 else -(u / 2) - 1
  }

  lemma {:induction false} ZigzagInverse(v: int64)
    ensures Unzigzag(Zigzag(v)) == v
  {
  }

  // ----- what the encoder writes -----

  function VarintBytes(v: nat): (s: bytes)
    ensures s != []
  {
    if v < 0x80 then [v] else [v % 0x80 + 0x80] + VarintBytes(v / 0x80)
  }

  function TagBytes(fieldNumber: uint32, wireType: WireType): bytes {
    VarintBytes(MakeTag(fieldNumber, wireType))
  }

  /** A length prefix followed by the bytes it counts. */
  function Delimited(b: bytes): bytes {
    VarintBytes(|b|) + b
  }

  // ----- what the decoder reads -----

  /** A varint of at most `left` bytes, before the wrap to 64 bits. */
  function ReadRaw(buf: bytes, pos: nat, left: nat): (r: Read<nat>)
    ensures r.Got? ==> pos < r.next <= |buf|
    decreases |buf| - pos
  {
    if left == 0 then Bad(VarintOverflow)
    else if pos >= |buf| then Bad(Underflow)
    else if buf[pos] < 0x80 then Got(buf[pos], pos + 1)
    else
      match ReadRaw(buf, pos + 1, left - 1)
      case Got(v, next) => Got(buf[pos] - 0x80 + 0x80 * v, next)
      case Bad(e) => Bad(e)
  }

  function ReadVarint(buf: bytes, pos: nat): (r: Read<uint64>)
    ensures r.Got? ==> pos < r.next <= |buf|
  {
    match ReadRaw(buf, pos, 10)
    case Got(v, next) => Got(v % TWO_64, next)
    case Bad(e) => Bad(e)
  }

  function ReadFixed64(buf: bytes, pos: nat): (r: Read<uint64>)
    ensures r.Got? ==> pos < r.next <= |buf|
  {
    if pos + 8 > |buf| then Bad(Underflow)
    else
      FromLittleEndianBound(buf[pos..pos + 8]);
      assert Range(8) == TWO_64;
      Got(FromLittleEndian(buf[pos..pos + 8]), pos + 8)
  }

  function ReadFixed32(buf: bytes, pos: nat): (r: Read<uint32>)
    ensures r.Got? ==> pos < r.next <= |buf|
  {
    if pos + 4 > |buf| then Bad(Underflow)
    else
      FromLittleEndianBound(buf[pos..pos + 4]);
      assert Range(4) == TWO_32;
      Got(FromLittleEndian(buf[pos..pos + 4]), pos + 4)
  }

  function ReadBytes(buf: bytes, pos: nat): (r: Read<bytes>)
    ensures r.Got? ==> pos < r.next <= |buf| && |r.value| < r.next - pos
  {
    match ReadVarint(buf, pos)
    case Bad(e) => Bad(e)
    case Got(length, p) =>
      if length >= TWO_63 - p then Bad(Oversized)
      else if p + length > |buf| then Bad(Underflow)
      else Got(buf[p..p + length], p + length)
  }

  function ReadTag(buf: bytes, pos: nat): (r: Read<(uint32, WireType)>)
    ensures r.Got? ==> pos < r.next <= |buf|
  {
    match ReadVarint(buf, pos)
    case Bad(e) => Bad(e)
    case Got(tag, p) => Got(ParseTag(tag), p)
  }

  function Skip(wireType: WireType, buf: bytes, pos: nat): (r: Read<()>)
    ensures r.Got? ==> pos < r.next <= |buf|
  {
    if wireType == WIRE_VARINT then
      match ReadVarint(buf, pos)
      case Bad(e) => Bad(e)
      case Got(_, p) => Got((), p)
    else if wireType == WIRE_64BIT then
      if pos + 8 > |buf| then Bad(Underflow) else Got((), pos + 8)
    else if wireType == WIRE_BYTES then
      match ReadBytes(buf, pos)
      case Bad(e) => Bad(e)
      case Got(_, p) => Got((), p)
    else if wireType == WIRE_32BIT then
      if pos + 4 > |buf| then Bad(Underflow) else Got((), pos + 4)
    else Bad(InvalidWireType)
  }

  // ----- reads undo writes -----

  lemma {:induction false} TagRoundTrip(fieldNumber: uint32, wireType: WireType)
    ensures ParseTag(MakeTag(fieldNumber, wireType)) == (fieldNumber, wireType)
  {
  }

  /** The number of values a varint of n bytes can take. */
  function VarintRange(n: nat): (r: nat)
    ensures r > 0
  {
    if n == 0 then 1 else 0x80 * VarintRange(n - 1)
  }

  lemma {:induction false} RawReadsBack(buf: bytes, pos: nat, v: nat, left: nat)
    requires v < VarintRange(left) && left > 0
    requires At(buf, pos, VarintBytes(v))
    ensures ReadRaw(buf, pos, left) == Got(v, pos + |VarintBytes(v)|)
    decreases left
  {
    assert buf[pos] == buf[pos..pos + |VarintBytes(v)|][0];
    if v >= 0x80 {
      AtSplit(buf, pos, [v % 0x80 + 0x80], VarintBytes(v / 0x80));
      RawReadsBack(buf, pos + 1, v / 0x80, left - 1);
    }
  }

  lemma {:induction false} VarintReadsBack(buf: bytes, pos: nat, v: uint64)
    requires At(buf, pos, VarintBytes(v))
    ensures ReadVarint(buf, pos) == Got(v, pos + |VarintBytes(v)|)
  {
    assert VarintRange(10) >= TWO_64;
    RawReadsBack(buf, pos, v, 10);
  }

  lemma {:induction false} TagReadsBack(buf: bytes, pos: nat, fieldNumber: uint32, wireType: WireType)
    requires At(buf, pos, TagBytes(fieldNumber, wireType))
    ensures ReadTag(buf, pos) == Got((fieldNumber, wireType), pos + |TagBytes(fieldNumber, wireType)|)
  {
    TagRoundTrip(fieldNumber, wireType);
    VarintReadsBack(buf, pos, MakeTag(fieldNumber, wireType));
  }

  lemma {:induction false} Fixed64ReadsBack(buf: bytes, pos: nat, v: uint64)
    requires At(buf, pos, LittleEndian(v, 8))
    ensures ReadFixed64(buf, pos) == Got(v, pos + 8)
  {
    assert Range(8) == TWO_64;
    LittleEndianInverse(v, 8);
  }

  lemma {:induction false} Fixed32ReadsBack(buf: bytes, pos: nat, v: uint32)
    requires At(buf, pos, LittleEndian(v, 4))
    ensures ReadFixed32(buf, pos) == Got(v, pos + 4)
  {
    assert Range(4) == TWO_32;
    LittleEndianInverse(v, 4);
  }

  lemma {:induction false} DelimitedReadsBack(buf: bytes, pos: nat, b: bytes)
    requires |buf| < TWO_63
    requires At(buf, pos, Delimited(b))
    ensures ReadBytes(buf, pos) == Got(b, pos + |Delimited(b)|)
  {
    AtSplit(buf, pos, VarintBytes(|b|), b);
    VarintReadsBack(buf, pos, |b|);
  }

  // ----- a successful read depends only on the bytes it consumes -----

  /** The bytes a[i..n] also stand in b from position j on. */
  ghost predicate Same(a: bytes, i: nat, n: nat, b: bytes, j: nat) {
    i <= n <= |a| && j + n - i <= |b| && forall k :: i <= k < n ==> a[k] == b[j + k - i]
  }

  lemma {:induction false} RawMoves(a: bytes, i: nat, b: bytes, j: nat, left: nat)
    requires ReadRaw(a, i, left).Got?
    requires Same(a, i, ReadRaw(a, i, left).next, b, j)
    ensures var r := ReadRaw(a, i, left); ReadRaw(b, j, left) == Got(r.value, j + r.next - i)
    decreases left
  {
    if a[i] >= 0x80 {
      RawMoves(a, i + 1, b, j + 1, left - 1);
    }
  }

  lemma {:induction false} VarintMoves(a: bytes, i: nat, b: bytes, j: nat)
    requires ReadVarint(a, i).Got?
    requires Same(a, i, ReadVarint(a, i).next, b, j)
    ensures var r := ReadVarint(a, i); ReadVarint(b, j) == Got(r.value, j + r.next - i)
  {
    RawMoves(a, i, b, j, 10);
  }

  lemma {:induction false} BytesMove(a: bytes, i: nat, b: bytes, j: nat)
    requires |b| < TWO_63
    requires ReadBytes(a, i).Got?
    requires Same(a, i, ReadBytes(a, i).next, b, j)
    ensures var r := ReadBytes(a, i); ReadBytes(b, j) == Got(r.value, j + r.next - i)
  {
    var n := ReadBytes(a, i).next;
    var p := ReadVarint(a, i).next;
    VarintMoves(a, i, b, j);
    var q := j + p - i;
    assert a[p..n] == b[q..q + n - p];
  }

  lemma {:induction false} SkipMoves(wireType: WireType, a: bytes, i: nat, b: bytes, j: nat)
    requires |b| < TWO_63
    requires Skip(wireType, a, i).Got?
    requires Same(a, i, Skip(wireType, a, i).next, b, j)
    ensures Skip(wireType, b, j) == Got((), j + Skip(wireType, a, i).next - i)
  {
    if wireType == WIRE_VARINT {
      VarintMoves(a, i, b, j);
    } else if wireType == WIRE_BYTES {
      BytesMove(a, i, b, j);
    }
  }

  // ----- the bit operations behind the arithmetic above -----

  /** Oring a shifted group into bits that are still clear adds it; so the
      decoder's `val |= x << shift` is the sum computed by ReadRaw. */
  lemma {:induction false} OrIsSum(val: bv64, x: bv64, shift: bv64)
    requires shift < 64 && val & (0xFFFF_FFFF_FFFF_FFFF << shift) == 0
    ensures val | (x << shift) == val + (x << shift)
  {
  }
}
