/** Numbers on the protobuf wire by their digits: groups of seven bits, zigzag, and
    what every read makes of any bytes. */
module WireDigits {
  import opened Bytes
  import opened Wire

  // ----- zigzag -----

  /** 0, -1, 1, -2, 2 and so on are 0, 1, 2, 3, 4 and so on. */
  lemma {:induction false} ZigzagIs(v: int64)
    ensures Zigzag(v) == if v < 0 then -2 * v - 1 else 2 * v
    ensures forall u: uint64 :: Unzigzag(u) == v <==> u == Zigzag(v)
  {
  }

  // ----- varints -----

  /** Groups of seven bits, the lowest first. */
  type Groups = gs: seq<nat> | gs != [] && forall g :: g in gs ==> g < 128 witness [0]

  function GroupBytes(gs: Groups): (s: bytes)
    ensures |s| == |gs|
  {
    if |gs| == 1 then [gs[0]] else [128 + gs[0]] + GroupBytes(gs[1..])
  }

  function GroupValue(gs: Groups): nat {
    if |gs| == 1 then gs[0] else gs[0] + 128 * GroupValue(gs[1..])
  }

  /** A number is written in as few groups as it needs. */
  lemma {:induction false} VarintWritten(gs: Groups)
    requires |gs| == 1 || gs[|gs| - 1] != 0
    ensures VarintBytes(GroupValue(gs)) == GroupBytes(gs)
    ensures GroupValue(gs) == 0 <==> gs == [0]
  {
    if |gs| > 1 {
      VarintWritten(gs[1..]);
      assert GroupValue(gs) / 128 == GroupValue(gs[1..]) && GroupValue(gs) % 128 == gs[0];
    }
  }

  /** Up to ten groups are read, more than needed or not, and cut to 64 bits. */
  lemma {:induction false} VarintRead(gs: Groups, buf: bytes, pos: nat)
    requires |gs| <= 10 && At(buf, pos, GroupBytes(gs))
    ensures ReadVarint(buf, pos) == Got(GroupValue(gs) % 0x1_0000_0000_0000_0000, pos + |gs|)
  {
    GroupsRead(gs, buf, pos, 10);
  }

  lemma {:induction false} GroupsRead(gs: Groups, buf: bytes, pos: nat, left: nat)
    requires |gs| <= left && At(buf, pos, GroupBytes(gs))
    ensures ReadRaw(buf, pos, left) == Got(GroupValue(gs), pos + |gs|)
    decreases left
  {
    hide GroupBytes, GroupValue;
    FirstGroup(gs);
    assert buf[pos] == buf[pos..pos + |gs|][0];
    if |gs| > 1 {
      AtSplit(buf, pos, [128 + gs[0]], GroupBytes(gs[1..]));
      GroupsRead(gs[1..], buf, pos + 1, left - 1);
    }
  }

  lemma {:induction false} FirstGroup(gs: Groups)
    ensures GroupBytes(gs) == if |gs| == 1 then [gs[0]] else [128 + gs[0]] + GroupBytes(gs[1..])
    ensures GroupValue(gs) == gs[0] + if |gs| == 1 then 0 else 128 * GroupValue(gs[1..])
  {
  }

  /** A read fails exactly if no byte below 128 comes within ten, or before the end. */
  lemma {:induction false} VarintFails(buf: bytes, pos: nat)
    requires pos <= |buf|
    ensures ReadVarint(buf, pos) == Bad(VarintOverflow) <==>
            pos + 10 <= |buf| && forall i :: pos <= i < pos + 10 ==> buf[i] >= 128
    ensures ReadVarint(buf, pos) == Bad(Underflow) <==>
            pos + 10 > |buf| && forall i :: pos <= i < |buf| ==> buf[i] >= 128
    ensures ReadVarint(buf, pos).Bad? ==> ReadVarint(buf, pos).error in {VarintOverflow, Underflow}
  {
    RawFails(buf, pos, 10);
  }

  lemma {:induction false} RawFails(buf: bytes, pos: nat, left: nat)
    requires pos <= |buf|
    ensures ReadRaw(buf, pos, left) == Bad(VarintOverflow) <==>
            pos + left <= |buf| && forall i :: pos <= i < pos + left ==> buf[i] >= 128
    ensures ReadRaw(buf, pos, left) == Bad(Underflow) <==>
            pos + left > |buf| && forall i :: pos <= i < |buf| ==> buf[i] >= 128
    ensures ReadRaw(buf, pos, left).Bad? ==> ReadRaw(buf, pos, left).error in {VarintOverflow, Underflow}
    decreases left
  {
    if left > 0 && pos < |buf| && buf[pos] >= 128 {
      RawFails(buf, pos + 1, left - 1);
    }
  }

  // ----- fields that are read or passed over -----

  lemma {:induction false} TagIs(number: uint32, wireType: WireType, tag: uint64)
    ensures MakeTag(number, wireType) == 8 * number + wireType
    ensures ParseTag(tag).0 == tag / 8 % 0x1_0000_0000 && ParseTag(tag).1 == tag % 8
  {
  }

  /** Four bytes, the lowest first. */
  function Weigh(a: nat, b: nat, c: nat, d: nat): nat {
    a + 256 * b + 65536 * c + 16777216 * d
  }

  lemma {:induction false} FromFour(s: bytes)
    requires |s| >= 4
    ensures FromLittleEndian(s) == Weigh(s[0], s[1], s[2], s[3]) + 4294967296 * FromLittleEndian(s[4..])
  {
    hide FromLittleEndian;
    assert s[1..][1..] == s[2..] && s[2..][1..] == s[3..] && s[3..][1..] == s[4..];
    FromOne(s);
    FromOne(s[1..]);
    FromOne(s[2..]);
    FromOne(s[3..]);
  }

  lemma {:induction false} FromOne(s: bytes)
    requires s != []
    ensures FromLittleEndian(s) == s[0] + 256 * FromLittleEndian(s[1..])
  {
  }

  /** Fixed numbers read with these weights, or not at all. */
  lemma {:induction false} FixedRead(buf: bytes, pos: nat)
    ensures ReadFixed64(buf, pos) ==
            if pos + 8 > |buf| then Bad(Underflow)
            else
              Got(Weigh(buf[pos], buf[pos + 1], buf[pos + 2], buf[pos + 3]) +
                  4294967296 * Weigh(buf[pos + 4], buf[pos + 5], buf[pos + 6], buf[pos + 7]), pos + 8)
    ensures ReadFixed32(buf, pos) ==
            if pos + 4 > |buf| then Bad(Underflow)
            else Got(Weigh(buf[pos], buf[pos + 1], buf[pos + 2], buf[pos + 3]), pos + 4)
  {
    hide FromLittleEndian, Weigh;
    NothingLeft();
    if pos + 8 <= |buf| {
      var s := buf[pos..pos + 8];
      FromFour(s);
      FromFour(s[4..]);
      assert s[4..][4..] == [];
    }
    if pos + 4 <= |buf| {
      FromFour(buf[pos..pos + 4]);
      assert buf[pos..pos + 4][4..] == [];
    }
  }

  lemma {:induction false} NothingLeft()
    ensures FromLittleEndian([]) == 0
  {
  }

  /** A counted text: its length, unless that does not fit the buffer, or is so
      large that the end wraps around. */
  lemma {:induction false} CountedRead(buf: bytes, pos: nat)
    requires ReadVarint(buf, pos).Got?
    ensures var r := ReadVarint(buf, pos);
            ReadBytes(buf, pos) ==
            if r.next + r.value >= 0x8000_0000_0000_0000 then Bad(Oversized)
            else if r.next + r.value > |buf| then Bad(Underflow)
            else Got(buf[r.next..r.next + r.value], r.next + r.value)
  {
    hide ReadVarint;
  }

  /** What is passed over, by wire type. */
  lemma {:induction false} SkipIs(buf: bytes, pos: nat)
    ensures Skip(0, buf, pos) == (if ReadVarint(buf, pos).Got? then Got((), ReadVarint(buf, pos).next)
                                  else Bad(ReadVarint(buf, pos).error))
    ensures Skip(1, buf, pos) == if pos + 8 > |buf| then Bad(Underflow) else Got((), pos + 8)
    ensures Skip(2, buf, pos) == (if ReadBytes(buf, pos).Got? then Got((), ReadBytes(buf, pos).next)
                                  else Bad(ReadBytes(buf, pos).error))
    ensures Skip(5, buf, pos) == if pos + 4 > |buf| then Bad(Underflow) else Got((), pos + 4)
    ensures forall w: WireType :: w !in {0, 1, 2, 5} ==> Skip(w, buf, pos) == Bad(InvalidWireType)
  {
    hide ReadVarint, ReadBytes;
  }
}
