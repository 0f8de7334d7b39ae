/** Bytes, fixed-width integers and the wrap-around conversions between them. */
module Bytes {
  type byte = x: int | 0 <= x < 0x100
  type bytes = seq<byte>

  const TWO_16 := 0x1_0000
  const TWO_32 := 0x1_0000_0000
  const TWO_63 := 0x8000_0000_0000_0000
  const TWO_64 := 0x1_0000_0000_0000_0000

  type uint32 = x: int | 0 <= x < TWO_32
  type uint64 = x: int | 0 <= x < TWO_64
  type int16 = x: int | -0x8000 <= x < 0x8000
  type int32 = x: int | -0x8000_0000 <= x < 0x8000_0000
  type int64 = x: int | -TWO_63 <= x < TWO_63

  // ----- the ids of traces and spans -----

  const ZERO_SPAN_ID: bytes := [0, 0, 0, 0, 0, 0, 0, 0]
  const ZERO_TRACE_ID: bytes := [0, 0, 0, 0, 0, 0, 0, 0, 0, 0, 0, 0, 0, 0, 0, 0]

  type TraceID = s: bytes | |s| == 16 witness ZERO_TRACE_ID
  type SpanID = s: bytes | |s| == 8 witness ZERO_SPAN_ID

  // ----- two's complement -----

  function AsUint64(i: int64): uint64 {
    if i >= 0 then i else i + TWO_64
  }

  function AsInt64(u: uint64): int64 {
    if u < TWO_63 then u else u - TWO_64
  }

  function ToUint32(u: uint64): uint32 {
    u % TWO_32
  }

  function ToInt32(u: uint64): int32 {
    var w := u % TWO_32;
    if w < 0x8000_0000 then w else w - TWO_32
  }

  function ToInt16(i: int): int16 {
    var w := i % TWO_16;
    if w < 0x8000 then w else w - TWO_16
  }

  // ----- little- and big-endian numbers -----

  function LittleEndian(v: nat, n: nat): (s: bytes)
    ensures |s| == n
  {
    if n == 0 then [] else [v % 0x100] + LittleEndian(v / 0x100, n - 1)
  }

  function FromLittleEndian(s: bytes): nat {
    if s == [] then 0 else s[0] + 0x100 * FromLittleEndian(s[1..])
  }

  /** The number of values an n-byte number can take. */
  function Range(n: nat): (r: nat)
    ensures r > 0
  {
    if n == 0 then 1 else 0x100 * Range(n - 1)
  }

  lemma {:induction false} LittleEndianInverse(v: nat, n: nat)
    requires v < Range(n)
    ensures FromLittleEndian(LittleEndian(v, n)) == v
  {
    if n > 0 {
      LittleEndianInverse(v / 0x100, n - 1);
      assert LittleEndian(v, n)[1..] == LittleEndian(v / 0x100, n - 1);
    }
  }

  lemma {:induction false} FromLittleEndianBound(s: bytes)
    ensures FromLittleEndian(s) < Range(|s|)
  {
    if s != [] {
      FromLittleEndianBound(s[1..]);
    }
  }

  function BigEndian(v: nat, n: nat): (s: bytes)
    ensures |s| == n
  {
    if n == 0 then [] else BigEndian(v / 0x100, n - 1) + [v % 0x100]
  }

  function FromBigEndian(s: bytes): nat {
    if s == [] then 0 else 0x100 * FromBigEndian(s[..|s| - 1]) + s[|s| - 1]
  }

  lemma {:induction false} BigEndianInverse(v: nat, n: nat)
    requires v < Range(n)
    ensures FromBigEndian(BigEndian(v, n)) == v
  {
    if n > 0 {
      BigEndianInverse(v / 0x100, n - 1);
      assert BigEndian(v, n)[..n - 1] == BigEndian(v / 0x100, n - 1);
    }
  }

  lemma {:induction false} FromBigEndianInverse(s: bytes)
    ensures FromBigEndian(s) < Range(|s|) && BigEndian(FromBigEndian(s), |s|) == s
  {
    if s != [] {
      FromBigEndianInverse(s[..|s| - 1]);
      assert s == s[..|s| - 1] + [s[|s| - 1]];
    }
  }

  // ----- numbers by their bytes -----

  function Two(v: nat): bytes {
    [v / 256 % 256, v % 256]
  }

  function Four(v: nat): bytes {
    [v / 16777216 % 256, v / 65536 % 256, v / 256 % 256, v % 256]
  }

  function Eight(v: nat): bytes {
    [v / 72057594037927936 % 256, v / 281474976710656 % 256, v / 1099511627776 % 256, v / 4294967296 % 256,
     v / 16777216 % 256, v / 65536 % 256, v / 256 % 256, v % 256]
  }

  lemma {:induction false} NumbersAre(v: nat)
    ensures BigEndian(v, 2) == Two(v) && BigEndian(v, 4) == Four(v) && BigEndian(v, 8) == Eight(v)
    ensures |Two(v)| == 2 && |Four(v)| == 4 && |Eight(v)| == 8
  {
    hide BigEndian;
    BigTwo(v);
    BigFour(v);
    BigEight(v);
  }

  lemma {:induction false} BigTwo(v: nat)
    ensures BigEndian(v, 2) == Two(v)
  {
    assert BigEndian(v / 256, 1) == [v / 256 % 256];
  }

  lemma {:induction false} BigFour(v: nat)
    ensures BigEndian(v, 4) == Four(v)
  {
    BigTwo(v / 256 / 256);
    assert v / 256 / 256 == v / 65536 && v / 65536 / 256 == v / 16777216;
    assert BigEndian(v / 256, 3) == BigEndian(v / 256 / 256, 2) + [v / 256 % 256];
  }

  lemma {:induction false} BigEight(v: nat)
    ensures BigEndian(v, 8) == Eight(v)
  {
    hide BigEndian;
    var w := v / 4294967296;
    BigFour(w);
    BigFourMore(v, 4);
    assert w / 256 == v / 1099511627776;
    assert w / 65536 == v / 281474976710656;
    assert w / 16777216 == v / 72057594037927936;
  }

  lemma {:induction false} BigFourMore(v: nat, n: nat)
    ensures BigEndian(v, n + 4) ==
            BigEndian(v / 4294967296, n) + [v / 16777216 % 256, v / 65536 % 256, v / 256 % 256, v % 256]
  {
    hide BigEndian;
    assert v / 256 / 256 == v / 65536 && v / 65536 / 256 == v / 16777216 && v / 16777216 / 256 == v / 4294967296;
    BigOne(v, n + 3);
    BigOne(v / 256, n + 2);
    BigOne(v / 65536, n + 1);
    BigOne(v / 16777216, n);
  }

  lemma {:induction false} BigOne(v: nat, n: nat)
    ensures BigEndian(v, n + 1) == BigEndian(v / 256, n) + [v % 256]
  {
  }

  lemma {:induction false} LittleFourMore(v: nat, n: nat)
    ensures LittleEndian(v, n + 4) ==
            [v % 256, v / 256 % 256, v / 65536 % 256, v / 16777216 % 256] + LittleEndian(v / 4294967296, n)
  {
    hide LittleEndian;
    assert v / 256 / 256 == v / 65536 && v / 65536 / 256 == v / 16777216 && v / 16777216 / 256 == v / 4294967296;
    LittleOne(v, n + 3);
    LittleOne(v / 256, n + 2);
    LittleOne(v / 65536, n + 1);
    LittleOne(v / 16777216, n);
  }

  lemma {:induction false} LittleOne(v: nat, n: nat)
    ensures LittleEndian(v, n + 1) == [v % 256] + LittleEndian(v / 256, n)
  {
  }

  lemma {:induction false} LittleFour(v: nat)
    ensures LittleEndian(v, 4) == [v % 256, v / 256 % 256, v / 65536 % 256, v / 16777216 % 256]
  {
    LittleFourMore(v, 0);
  }

  lemma {:induction false} LittleEight(v: nat)
    ensures LittleEndian(v, 8) ==
            [v % 256, v / 256 % 256, v / 65536 % 256, v / 16777216 % 256, v / 4294967296 % 256,
             v / 1099511627776 % 256, v / 281474976710656 % 256, v / 72057594037927936 % 256]
  {
    hide LittleEndian;
    var w := v / 4294967296;
    LittleFourMore(v, 4);
    LittleFour(w);
    assert w / 256 == v / 1099511627776;
    assert w / 65536 == v / 281474976710656;
    assert w / 16777216 == v / 72057594037927936;
  }

  // ----- signed numbers by their patterns -----

  /** A signed number and its pattern of bits. */
  lemma {:induction false} PatternOf(i: int64)
    ensures AsUint64(i) == i % 0x1_0000_0000_0000_0000
    ensures AsInt64(AsUint64(i)) == i
  {
  }

  lemma {:induction false} NumberOf(u: uint64)
    ensures AsInt64(u) == if u < 0x8000_0000_0000_0000 then u else u - 0x1_0000_0000_0000_0000
    ensures ToUint32(u) == u % 0x1_0000_0000
    ensures ToInt32(u) % 0x1_0000_0000 == u % 0x1_0000_0000
  {
  }

  lemma {:induction false} LowBits(i: int)
    ensures ToInt16(i) % 0x1_0000 == i % 0x1_0000
  {
  }

  // ----- slices of a buffer -----

  lemma {:induction false} Assoc<T>(a: seq<T>, b: seq<T>, c: seq<T>)
    ensures a + b + c == a + (b + c)
  {
  }

  /** The bytes s stand in buf from position pos on. */
  predicate At(buf: bytes, pos: nat, s: bytes) {
    pos + |s| <= |buf| && buf[pos..pos + |s|] == s
  }

  lemma {:induction false} AtSplit(buf: bytes, pos: nat, a: bytes, b: bytes)
    requires At(buf, pos, a + b)
    ensures At(buf, pos, a) && At(buf, pos + |a|, b)
  {
    assert buf[pos..pos + |a + b|][..|a|] == a;
    assert buf[pos..pos + |a + b|][|a|..] == b;
  }
}
