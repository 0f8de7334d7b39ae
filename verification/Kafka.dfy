/** The Kafka exporter's buffers, filled in place, and the loops of its fetch
    parser. Every index they use is in bounds, whatever the bytes. */
module Kafka {
  import opened Bytes
  import opened Results
  import opened KafkaWire
  import Binary

  // ----- buffers filled in place -----

  function Put(s: bytes, off: nat, x: bytes): (r: bytes)
    requires off + |x| <= |s|
    ensures |r| == |s|
  {
    s[..off] + x + s[off + |x|..]
  }

  method PutUint32(a: array<byte>, off: nat, v: uint32)
    requires off + 4 <= a.Length
    modifies a
    ensures a[..] == Put(old(a[..]), off, BigEndian(v, 4))
  {
    BigFour(v);
    a[off] := v / 0x100_0000 % 0x100;
    a[off + 1] := v / 0x1_0000 % 0x100;
    a[off + 2] := v / 0x100 % 0x100;
    a[off + 3] := v % 0x100;
  }

  method PutUint64(a: array<byte>, off: nat, v: uint64)
    requires off + 8 <= a.Length
    modifies a
    ensures a[..] == Put(old(a[..]), off, BigEndian(v, 8))
  {
    hide Put, BigEndian;
    PutTwice(a[..], off, BigEndian(v / TWO_32, 4), BigEndian(v % TWO_32, 4));
    EightDigits(v);
    PutUint32(a, off, v / TWO_32);
    PutUint32(a, off + 4, v % TWO_32);
  }

  lemma {:induction false} PutTwice(s: bytes, off: nat, x: bytes, y: bytes)
    requires off + |x| + |y| <= |s|
    ensures Put(Put(s, off, x), off + |x|, y) == Put(s, off, x + y)
  {
  }

  lemma {:induction false} EightDigits(v: uint64)
    ensures BigEndian(v, 8) == BigEndian(v / TWO_32, 4) + BigEndian(v % TWO_32, 4)
  {
    hide BigEndian;
    BigFourMore(v, 4);
    BigFour(v % TWO_32);
    LowDigits(v);
  }

  lemma {:induction false} LowDigits(v: uint64)
    ensures v % TWO_32 / 0x100_0000 % 0x100 == v / 0x100_0000 % 0x100
    ensures v % TWO_32 / 0x1_0000 % 0x100 == v / 0x1_0000 % 0x100
    ensures v % TWO_32 / 0x100 % 0x100 == v / 0x100 % 0x100
    ensures v % TWO_32 % 0x100 == v % 0x100
  {
    var q, w := v / TWO_32, v % TWO_32;
    assert v == q * TWO_32 + w;
    assert v / 0x100_0000 == q * 0x100 + w / 0x100_0000;
    assert v / 0x1_0000 == q * 0x1_0000 + w / 0x1_0000;
    assert v / 0x100 == q * 0x100_0000 + w / 0x100;
    Turns(w / 0x100_0000, q);
    Turns(w / 0x1_0000, q * 0x100);
    Turns(w / 0x100, q * 0x1_0000);
    Turns(w, q * 0x100_0000);
  }

  lemma {:induction false} Turns(x: nat, turns: nat)
    ensures (turns * 0x100 + x) % 0x100 == x % 0x100
  {
  }

  method CopyInto(a: array<byte>, off: nat, src: bytes)
    requires off + |src| <= a.Length
    modifies a
    ensures a[..] == Put(old(a[..]), off, src)
  {
    var i := 0;
    while i < |src|
      invariant 0 <= i <= |src|
      invariant a[..] == Put(old(a[..]), off, src[..i])
    {
      ghost var before := a[..];
      a[off + i] := src[i];
      assert a[..] == before[off + i := src[i]];
      assert src[..i + 1] == src[..i] + [src[i]];
      i := i + 1;
    }
    assert src[..|src|] == src;
  }

  /** The message without its offset and size; crc is the checksum function. */
  method BuildInner(value: bytes, crc: bytes -> uint32) returns (inner: array<byte>)
    requires |value| + 14 < TWO_32
    ensures fresh(inner) && inner[..] == BigEndian(crc(Payload(value)), 4) + Payload(value)
  {
    hide BigEndian, Put;
    inner := new byte[14 + |value|](i => 0);
    inner[4] := 0;
    inner[5] := 0;
    ghost var blank := inner[..];
    PutUint32(inner, 6, 0xFFFF_FFFF);
    PutUint32(inner, 10, |value|);
    CopyInto(inner, 14, value);
    PayloadFilled(blank, BigEndian(0xFFFF_FFFF, 4), BigEndian(|value|, 4), value);
    ghost var filled := inner[..];
    var covered := inner[4..];
    assert covered == filled[4..] == Payload(value);
    PutUint32(inner, 0, crc(covered));
    FrontFilled(filled, BigEndian(crc(covered), 4));
  }

  method BuildKafkaMessage(value: bytes, crc: bytes -> uint32) returns (record: array<byte>)
    requires |value| + 14 < TWO_32
    ensures fresh(record) && record[..] == Record(crc, 0, value)
  {
    hide BigEndian, Put;
    var inner := BuildInner(value, crc);
    record := new byte[12 + inner.Length](i => 0);
    ghost var blank := record[..];
    PutUint64(record, 0, 0);
    PutUint32(record, 8, inner.Length);
    CopyInto(record, 12, inner[..]);
    RecordFilled(blank, BigEndian(0, 8), BigEndian(inner.Length, 4), inner[..]);
  }

  lemma {:induction false} PayloadFilled(s: bytes, a: bytes, b: bytes, v: bytes)
    requires |s| == 14 + |v| && |a| == |b| == 4 && s[4] == 0 && s[5] == 0
    ensures Put(Put(Put(s, 6, a), 10, b), 14, v)[4..] == [0, 0] + (a + (b + v))
  {
    var r := Put(Put(s, 6, a), 10, b);
    assert r[..14] == s[..6] + a + b;
    assert s[4..6] == [0, 0];
  }

  lemma {:induction false} FrontFilled(s: bytes, a: bytes)
    requires |s| >= 4 == |a|
    ensures Put(s, 0, a) == a + s[4..]
  {
  }

  lemma {:induction false} RecordFilled(s: bytes, a: bytes, b: bytes, v: bytes)
    requires |s| == 12 + |v| && |a| == 8 && |b| == 4
    ensures Put(Put(Put(s, 0, a), 8, b), 12, v) == a + (b + v)
  {
    assert Put(Put(s, 0, a), 8, b)[..12] == a + b;
  }

  // ----- the fetch parser -----

  method ParseFetchResponse(input: bytes) returns (r: Result<Fetched, Error>)
    ensures r == ParseFetch(input)
  {
    hide Topics, U32;
    if |input| < 4 {
      return Err(NoLength);
    }
    var respLen := U32(input, 0);
    if respLen > MAX_RESPONSE {
      return Err(TooLarge);
    }
    if |input| - 4 < respLen {
      return Err(NoBody);
    }
    var respBuf := input[4..4 + respLen];
    if |respBuf| < 8 {
      return Err(TooShort);
    }
    var topicCount := U32(respBuf, 4);
    var acc := ParseTopics(respBuf, 8, topicCount);
    return Ok(acc);
  }

  /** The loop over the topics. */
  method ParseTopics(respBuf: bytes, start: nat, topicCount: nat) returns (acc: Fetched)
    ensures acc == Topics(respBuf, start, topicCount, Fetched([], 0))
  {
    hide Partitions, U32, U16;
    var off: nat := start;
    acc := Fetched([], 0);
    var t := 0;
    while t < topicCount && off < |respBuf|
      invariant 0 <= t <= topicCount
      invariant Topics(respBuf, off, topicCount - t, acc) == Topics(respBuf, start, topicCount, Fetched([], 0))
      decreases topicCount - t
    {
      if off + 2 > |respBuf| {
        break;
      }
      var topicNameLen := U16(respBuf, off);
      off := off + 2;
      off := off + topicNameLen;
      if off + 4 > |respBuf| {
        break;
      }
      var partCount := U32(respBuf, off);
      off := off + 4;
      off, acc := ParsePartitions(respBuf, off, partCount, acc);
      t := t + 1;
    }
  }

  /** The loop over the partitions of a topic. */
  method ParsePartitions(respBuf: bytes, start: nat, partCount: nat, before: Fetched) returns (off: nat, acc: Fetched)
    ensures (off, acc) == Partitions(respBuf, start, partCount, before)
  {
    off, acc := start, before;
    var p := 0;
    while p < partCount && off < |respBuf|
      invariant 0 <= p <= partCount
      invariant Partitions(respBuf, off, partCount - p, acc) == Partitions(respBuf, start, partCount, before)
      decreases partCount - p
    {
      if off + 18 > |respBuf| {
        break;
      }
      off := off + 4;
      off := off + 2;
      off := off + 8;
      var msgSetSize := U32(respBuf, off);
      off := off + 4;
      var msgSetEnd := off + msgSetSize;
      if msgSetEnd > |respBuf| {
        msgSetEnd := |respBuf|;
      }
      acc := ParseMessageSet(respBuf, off, msgSetEnd, acc);
      off := msgSetEnd;
      p := p + 1;
    }
  }

  /** The loop over the messages of a set. */
  method ParseMessageSet(respBuf: bytes, start: nat, msgSetEnd: nat, before: Fetched) returns (acc: Fetched)
    requires msgSetEnd <= |respBuf|
    ensures acc == MessageSet(respBuf, start, msgSetEnd, before)
  {
    hide Message, I64, U32;
    acc := before;
    var off := start;
    while off + 12 < msgSetEnd
      invariant MessageSet(respBuf, off, msgSetEnd, acc) == MessageSet(respBuf, start, msgSetEnd, before)
      decreases msgSetEnd - off
    {
      var msgOffset := I64(respBuf, off);
      var msgSize := U32(respBuf, off + 8);
      var msgStart := off + 12;
      if msgStart + msgSize > msgSetEnd || msgSize < 14 {
        break;
      }
      MessageSetStep(respBuf, off, msgSetEnd, acc);
      acc := ParseMessage(respBuf, msgStart, msgSize, msgOffset, acc);
      off := msgStart + msgSize;
    }
  }

  lemma {:induction false} MessageSetStep(buf: bytes, off: nat, end: nat, acc: Fetched)
    requires end <= |buf| && off + 12 < end
    ensures var size, start := U32(buf, off + 8), off + 12;
            MessageSet(buf, off, end, acc) ==
            if start + size > end || size < 14 then acc
            else MessageSet(buf, start + size, end, Message(buf, start, size, I64(buf, off), acc))
  {
    hide U32, I64, Message;
  }

  /** The body of the message loop: every way through it ends behind the message. */
  method ParseMessage(respBuf: bytes, msgStart: nat, msgSize: nat, msgOffset: int64, before: Fetched)
          returns (acc: Fetched)
    requires msgSize >= 14 && msgStart + msgSize <= |respBuf|
    ensures acc == Message(respBuf, msgStart, msgSize, msgOffset, before)
  {
    hide I32;
    var off := msgStart;
    off := off + 4;
    off := off + 1;
    off := off + 1;
    var keyLen := I32(respBuf, off);
    off := off + 4;
    if keyLen > 0 {
      off := off + keyLen;
    }
    if off + 4 > msgStart + msgSize {
      return before;
    }
    var valLen := I32(respBuf, off);
    off := off + 4;
    var messages, nextOffset := before.messages, before.next;
    if valLen > 0 && off + valLen <= msgStart + msgSize {
      messages := messages + [respBuf[off..off + valLen]];
    }
    if Succ(msgOffset) > nextOffset {
      nextOffset := Succ(msgOffset);
    }
    return Fetched(messages, nextOffset);
  }
}
