/** Kafka v0 framing: the records that are produced, the fetch responses that hold
    them, and what the response parser takes from any bytes. */
module KafkaWire {
  import opened Bytes
  import opened Results

  datatype Error = NoLength | TooLarge | NoBody | TooShort

  const MAX_RESPONSE := 16 * 1024 * 1024

  // ----- writing -----

  /** The part of a message that its checksum covers: magic 0, no attributes, no key. */
  function Payload(value: bytes): bytes
    requires |value| < TWO_32
  {
    [0, 0] + (BigEndian(0xFFFF_FFFF, 4) + (BigEndian(|value|, 4) + value))
  }

  /** A message with its offset; crc is the checksum function. */
  function Record(crc: bytes -> uint32, offset: int64, value: bytes): bytes
    requires |value| + 14 < TWO_32
  {
    BigEndian(AsUint64(offset), 8) + (BigEndian(14 + |value|, 4) + (BigEndian(crc(Payload(value)), 4) + Payload(value)))
  }

  // ----- reading -----

  function U16(buf: bytes, off: nat): nat
    requires off + 2 <= |buf|
  {
    FromBigEndian(buf[off..off + 2])
  }

  function U32(buf: bytes, off: nat): nat
    requires off + 4 <= |buf|
  {
    FromBigEndian(buf[off..off + 4])
  }

  function I32(buf: bytes, off: nat): int32
    requires off + 4 <= |buf|
  {
    ToInt32(U32(buf, off) % TWO_64)
  }

  function I64(buf: bytes, off: nat): int64
    requires off + 8 <= |buf|
  {
    AsInt64(FromBigEndian(buf[off..off + 8]) % TWO_64)
  }

  /** One more, in 64 bits. */
  function Succ(i: int64): int64 {
    if i == TWO_63 - 1 then -TWO_63 else i + 1
  }

  datatype Fetched = Fetched(messages: seq<bytes>, next: int64)

  function Later(next: int64, offset: int64): int64 {
    if Succ(offset) > next then Succ(offset) else next
  }

  /** What a message of the given size adds. */
  function Message(buf: bytes, start: nat, size: nat, offset: int64, acc: Fetched): Fetched
    requires size >= 14 && start + size <= |buf|
  {
    var keyLen := I32(buf, start + 6);
    var p := start + 10 + if keyLen > 0 then keyLen else 0;
    if p + 4 > start + size then acc
    else
      var valLen, q := I32(buf, p), p + 4;
      Fetched(if valLen > 0 && q + valLen <= start + size then acc.messages + [buf[q..q + valLen]] else acc.messages,
              Later(acc.next, offset))
  }

  /** The messages between off and end, up to the first that is not whole. */
  function MessageSet(buf: bytes, off: nat, end: nat, acc: Fetched): Fetched
    requires end <= |buf|
    decreases end - off
  {
    if off + 12 >= end then acc
    else
      var size, start := U32(buf, off + 8), off + 12;
      if start + size > end || size < 14 then acc
      else MessageSet(buf, start + size, end, Message(buf, start, size, I64(buf, off), acc))
  }

  function Partitions(buf: bytes, off: nat, n: nat, acc: Fetched): (r: (nat, Fetched))
    ensures r.0 >= off
    decreases n
  {
    if n == 0 || off >= |buf| || off + 18 > |buf| then (off, acc)
    else
      var size, start := U32(buf, off + 14), off + 18;
      var end := if start + size > |buf| then |buf| else start + size;
      Partitions(buf, end, n - 1, MessageSet(buf, start, end, acc))
  }

  function Topics(buf: bytes, off: nat, n: nat, acc: Fetched): Fetched
    decreases n
  {
    if n == 0 || off >= |buf| || off + 2 > |buf| then acc
    else
      var p := off + 2 + U16(buf, off);
      if p + 4 > |buf| then acc
      else
        var r := Partitions(buf, p + 4, U32(buf, p), acc);
        Topics(buf, r.0, n - 1, r.1)
  }

  function ParseBody(body: bytes): Result<Fetched, Error> {
    if |body| < 8 then Err(TooShort) else Ok(Topics(body, 8, U32(body, 4), Fetched([], 0)))
  }

  function ParseFetch(input: bytes): Result<Fetched, Error> {
    if |input| < 4 then Err(NoLength)
    else if U32(input, 0) > MAX_RESPONSE then Err(TooLarge)
    else if |input| - 4 < U32(input, 0) then Err(NoBody)
    else ParseBody(input[4..4 + U32(input, 0)])
  }

  // ----- responses that hold records -----

  datatype Rec = Rec(offset: int64, value: bytes)

  predicate Small(recs: seq<Rec>) {
    forall i :: 0 <= i < |recs| ==> |recs[i].value| < MAX_RESPONSE
  }

  function RecordOf(crc: bytes -> uint32, r: Rec): (s: bytes)
    requires |r.value| < MAX_RESPONSE
    ensures |s| == 26 + |r.value|
  {
    Record(crc, r.offset, r.value)
  }

  function RecordSet(crc: bytes -> uint32, recs: seq<Rec>): bytes
    requires Small(recs)
  {
    if recs == [] then [] else RecordOf(crc, recs[0]) + RecordSet(crc, recs[1..])
  }

  /** The body of a response with one topic and one partition; declared is the
      size that the response gives for the message set. */
  function Body(correlation: uint32, topic: bytes, partition: uint32, code: nat, watermark: uint64,
          declared: uint32, set_: bytes): bytes
    requires |topic| < TWO_16 && code < TWO_16
  {
    BigEndian(correlation, 4) + (BigEndian(1, 4) + (BigEndian(|topic|, 2) + (topic + (BigEndian(1, 4) +
      (BigEndian(partition, 4) + (BigEndian(code, 2) + (BigEndian(watermark, 8) + (BigEndian(declared, 4) + set_))))))))
  }

  function Response(body: bytes): bytes {
    BigEndian(|body|, 4) + body
  }

  /** The values that a list of records stands for: an empty one is not delivered. */
  function Taken(acc: Fetched, recs: seq<Rec>): Fetched
    decreases recs
  {
    if recs == [] then acc
    else
      var r := recs[0];
      Taken(Fetched(if r.value == [] then acc.messages else acc.messages + [r.value], Later(acc.next, r.offset)),
          recs[1..])
  }

  /** The number of records that are whole in the first k bytes of their set. */
  function Whole(recs: seq<Rec>, k: nat): (m: nat)
    ensures m <= |recs|
  {
    if recs == [] || k < 26 + |recs[0].value| then 0 else 1 + Whole(recs[1..], k - 26 - |recs[0].value|)
  }

  // ----- numbers read back -----

  lemma {:induction false} U32Reads(buf: bytes, off: nat, v: uint32)
    requires At(buf, off, BigEndian(v, 4))
    ensures U32(buf, off) == v
  {
    assert Range(4) == TWO_32;
    BigEndianInverse(v, 4);
  }

  lemma {:induction false} U16Reads(buf: bytes, off: nat, v: nat)
    requires v < TWO_16 && At(buf, off, BigEndian(v, 2))
    ensures U16(buf, off) == v
  {
    assert Range(2) == TWO_16;
    BigEndianInverse(v, 2);
  }

  lemma {:induction false} I64Reads(buf: bytes, off: nat, v: int64)
    requires At(buf, off, BigEndian(AsUint64(v), 8))
    ensures I64(buf, off) == v
  {
    assert Range(8) == TWO_64;
    BigEndianInverse(AsUint64(v), 8);
  }

  lemma {:induction false} I32Reads(buf: bytes, off: nat, v: nat)
    requires v < 0x8000_0000 && At(buf, off, BigEndian(v, 4))
    ensures I32(buf, off) == v
  {
    U32Reads(buf, off, v);
  }

  lemma {:induction false} NoKeyReads(buf: bytes, off: nat)
    requires At(buf, off, BigEndian(0xFFFF_FFFF, 4))
    ensures I32(buf, off) == -1
  {
    U32Reads(buf, off, 0xFFFF_FFFF);
  }

  // ----- a record reads back -----

  /** A prefix of what stands somewhere also stands there. */
  lemma {:induction false} AtPrefix(buf: bytes, pos: nat, s: bytes, k: nat)
    requires At(buf, pos, s) && k <= |s|
    ensures At(buf, pos, s[..k])
  {
    assert s == s[..k] + s[k..];
    AtSplit(buf, pos, s[..k], s[k..]);
  }

  /** The first k bytes of a record: its offset and size can be read from 12. */
  lemma {:induction false} HeaderReads(crc: bytes -> uint32, r: Rec, buf: bytes, off: nat, k: nat)
    requires |r.value| < MAX_RESPONSE && 12 <= k <= |RecordOf(crc, r)| && At(buf, off, RecordOf(crc, r)[..k])
    ensures I64(buf, off) == r.offset && U32(buf, off + 8) == 14 + |r.value|
  {
    var offset, size := BigEndian(AsUint64(r.offset), 8), BigEndian(14 + |r.value|, 4);
    AtPrefix(buf, off, RecordOf(crc, r)[..k], 12);
    assert RecordOf(crc, r)[..k][..12] == offset + size;
    AtSplit(buf, off, offset, size);
    I64Reads(buf, off, r.offset);
    U32Reads(buf, off + 8, 14 + |r.value|);
  }

  lemma {:induction false} PayloadReads(value: bytes, buf: bytes, off: nat)
    requires |value| < MAX_RESPONSE && At(buf, off, Payload(value))
    ensures off + 10 + |value| <= |buf| && I32(buf, off + 2) == -1 && I32(buf, off + 6) == |value| &&
            buf[off + 10..off + 10 + |value|] == value
  {
    hide BigEndian;
    var none, size := BigEndian(0xFFFF_FFFF, 4), BigEndian(|value|, 4);
    AtSplit(buf, off, [0, 0], none + (size + value));
    AtSplit(buf, off + 2, none, size + value);
    AtSplit(buf, off + 6, size, value);
    NoKeyReads(buf, off + 2);
    I32Reads(buf, off + 6, |value|);
  }

  lemma {:induction false} RecordReads(crc: bytes -> uint32, r: Rec, buf: bytes, off: nat, end: nat, acc: Fetched)
    requires |r.value| < MAX_RESPONSE && At(buf, off, RecordOf(crc, r)) && off + |RecordOf(crc, r)| <= end <= |buf|
    ensures MessageSet(buf, off, end, acc) == MessageSet(buf, off + |RecordOf(crc, r)|, end, Taken(acc, [r]))
  {
    hide BigEndian, Payload, I32, I64, U32, Later;
    var start, size := off + 12, 14 + |r.value|;
    var head := BigEndian(AsUint64(r.offset), 8);
    var sum := BigEndian(crc(Payload(r.value)), 4);
    assert RecordOf(crc, r)[..|RecordOf(crc, r)|] == RecordOf(crc, r);
    HeaderReads(crc, r, buf, off, |RecordOf(crc, r)|);
    AtSplit(buf, off, head, BigEndian(size, 4) + (sum + Payload(r.value)));
    AtSplit(buf, off + 8, BigEndian(size, 4), sum + Payload(r.value));
    AtSplit(buf, off + 12, sum, Payload(r.value));
    PayloadReads(r.value, buf, off + 16);
    assert Message(buf, start, size, r.offset, acc) == Taken(acc, [r]) by {
      TakenOne(acc, r);
    }
  }

  lemma {:induction false} TakenOne(acc: Fetched, r: Rec)
    ensures Taken(acc, [r]) ==
            Fetched(if r.value == [] then acc.messages else acc.messages + [r.value], Later(acc.next, r.offset))
  {
    assert [r][1..] == [];
  }

  // ----- a message set cut anywhere gives the whole records before the cut -----

  lemma {:induction false} CutRecordIgnored(crc: bytes -> uint32, r: Rec, buf: bytes, off: nat, k: nat, acc: Fetched)
    requires |r.value| < MAX_RESPONSE && k < |RecordOf(crc, r)| && At(buf, off, RecordOf(crc, r)[..k])
    ensures MessageSet(buf, off, off + k, acc) == acc
  {
    hide BigEndian, Message, I64, U32;
    if k > 12 {
      HeaderReads(crc, r, buf, off, k);
    }
  }

  lemma {:induction false} CutSetReads(crc: bytes -> uint32, recs: seq<Rec>, k: nat, buf: bytes, off: nat, acc: Fetched)
    requires Small(recs) && k <= |RecordSet(crc, recs)| && At(buf, off, RecordSet(crc, recs)[..k])
    ensures MessageSet(buf, off, off + k, acc) == Taken(acc, recs[..Whole(recs, k)])
    decreases recs
  {
    hide RecordOf, MessageSet;
    if recs == [] {
      NothingRead(buf, off, acc);
    } else {
      var first := RecordOf(crc, recs[0]);
      var all := RecordSet(crc, recs);
      if k < |first| {
        assert all[..k] == first[..k];
        CutRecordIgnored(crc, recs[0], buf, off, k, acc);
      } else {
        var rest := k - |first|;
        assert all[..k] == first + RecordSet(crc, recs[1..])[..rest];
        AtSplit(buf, off, first, RecordSet(crc, recs[1..])[..rest]);
        RecordReads(crc, recs[0], buf, off, off + k, acc);
        CutSetReads(crc, recs[1..], rest, buf, off + |first|, Taken(acc, [recs[0]]));
        TakenOne(acc, recs[0]);
        var m := Whole(recs[1..], rest);
        assert recs[..1 + m][1..] == recs[1..][..m];
      }
    }
  }

  lemma {:induction false} NothingRead(buf: bytes, off: nat, acc: Fetched)
    requires off <= |buf|
    ensures MessageSet(buf, off, off, acc) == acc
  {
  }

  lemma {:induction false} WholeSet(crc: bytes -> uint32, recs: seq<Rec>)
    requires Small(recs)
    ensures Whole(recs, |RecordSet(crc, recs)|) == |recs|
  {
    hide RecordOf;
    if recs != [] {
      WholeSet(crc, recs[1..]);
    }
  }

  // ----- responses -----

  /** Where the message set of a response stands, and that all of it is read. */
  lemma {:induction false} BodyReads(correlation: uint32, topic: bytes, partition: uint32, code: nat, watermark: uint64,
                                     declared: uint32, set_: bytes)
    requires |topic| < TWO_16 && code < TWO_16 && |set_| <= declared
    ensures var body := Body(correlation, topic, partition, code, watermark, declared, set_);
            var off := 32 + |topic|;
            |body| == off + |set_| && At(body, off, set_) &&
            ParseBody(body) == Ok(MessageSet(body, off, off + |set_|, Fetched([], 0)))
  {
    hide BigEndian, MessageSet, U16, U32;
    var body := Body(correlation, topic, partition, code, watermark, declared, set_);
    var e := BigEndian(declared, 4) + set_;
    var d := BigEndian(partition, 4) + (BigEndian(code, 2) + (BigEndian(watermark, 8) + e));
    var c := BigEndian(1, 4) + d;
    var b := BigEndian(|topic|, 2) + (topic + c);
    var n := |topic|;
    assert At(body, 0, body);
    AtSplit(body, 0, BigEndian(correlation, 4), BigEndian(1, 4) + b);
    AtSplit(body, 4, BigEndian(1, 4), b);
    AtSplit(body, 8, BigEndian(n, 2), topic + c);
    AtSplit(body, 10, topic, c);
    AtSplit(body, 10 + n, BigEndian(1, 4), d);
    AtSplit(body, 14 + n, BigEndian(partition, 4), BigEndian(code, 2) + (BigEndian(watermark, 8) + e));
    AtSplit(body, 18 + n, BigEndian(code, 2), BigEndian(watermark, 8) + e);
    AtSplit(body, 20 + n, BigEndian(watermark, 8), e);
    AtSplit(body, 28 + n, BigEndian(declared, 4), set_);
    U32Reads(body, 4, 1);
    U16Reads(body, 8, n);
    U32Reads(body, 10 + n, 1);
    U32Reads(body, 28 + n, declared);
    OnePartition(body, n, declared, Fetched([], 0));
  }

  lemma {:induction false} OnePartition(body: bytes, n: nat, declared: nat, acc: Fetched)
    requires |body| >= 32 + n && |body| <= 32 + n + declared
    requires U32(body, 4) == 1 && U16(body, 8) == n && U32(body, 10 + n) == 1 && U32(body, 28 + n) == declared
    ensures Topics(body, 8, 1, acc) == MessageSet(body, 32 + n, |body|, acc)
  {
    hide U16, U32, MessageSet;
    var r := MessageSet(body, 32 + n, |body|, acc);
    NoPartitions(body, |body|, r);
    OneMorePartition(body, 14 + n, 1, acc);
    NoTopics(body, |body|, r);
  }

  lemma {:induction false} OneMorePartition(buf: bytes, off: nat, n: nat, acc: Fetched)
    requires n > 0 && off + 18 <= |buf|
    ensures var start, size := off + 18, U32(buf, off + 14);
            var end := if start + size > |buf| then |buf| else start + size;
            Partitions(buf, off, n, acc) == Partitions(buf, end, n - 1, MessageSet(buf, start, end, acc))
  {
  }

  lemma {:induction false} NoPartitions(buf: bytes, off: nat, acc: Fetched)
    ensures Partitions(buf, off, 0, acc) == (off, acc)
  {
  }

  lemma {:induction false} NoTopics(buf: bytes, off: nat, acc: Fetched)
    ensures Topics(buf, off, 0, acc) == acc
  {
  }

  /** For every list of records, cut anywhere in its message set: the parser
      returns the values of the whole records before the cut, in order. */
  lemma {:induction false} CutResponseReads(crc: bytes -> uint32, recs: seq<Rec>, k: nat, correlation: uint32,
          topic: bytes,
                                            partition: uint32, code: nat, watermark: uint64, declared: uint32)
    requires Small(recs) && k <= |RecordSet(crc, recs)| && |topic| < TWO_16 && code < TWO_16 && k <= declared
    requires 32 + |topic| + k <= MAX_RESPONSE
    ensures var set_ := RecordSet(crc, recs)[..k];
            ParseFetch(Response(Body(correlation, topic, partition, code, watermark, declared, set_))) ==
            Ok(Taken(Fetched([], 0), recs[..Whole(recs, k)]))
  {
    hide Body, RecordSet, MessageSet, ParseBody, Taken, BigEndian, U32;
    var set_ := RecordSet(crc, recs)[..k];
    var body := Body(correlation, topic, partition, code, watermark, declared, set_);
    BodyReads(correlation, topic, partition, code, watermark, declared, set_);
    CutSetReads(crc, recs, k, body, 32 + |topic|, Fetched([], 0));
    var input := Response(body);
    assert At(input, 0, BigEndian(|body|, 4));
    U32Reads(input, 0, |body|);
    assert input[4..4 + |body|] == body;
  }

  /** Uncut, all of them. */
  lemma {:induction false} ResponseReads(crc: bytes -> uint32, recs: seq<Rec>, correlation: uint32, topic: bytes,
          partition: uint32,
                                         code: nat, watermark: uint64)
    requires Small(recs) && |topic| < TWO_16 && code < TWO_16 && 32 + |topic| + |RecordSet(crc, recs)| <= MAX_RESPONSE
    ensures var set_ := RecordSet(crc, recs);
            ParseFetch(Response(Body(correlation, topic, partition, code, watermark, |set_|, set_))) ==
            Ok(Taken(Fetched([], 0), recs))
  {
    hide Body, RecordSet, ParseFetch, Taken;
    var set_ := RecordSet(crc, recs);
    CutResponseReads(crc, recs, |set_|, correlation, topic, partition, code, watermark, |set_|);
    WholeSet(crc, recs);
    assert set_[..|set_|] == set_ && recs[..|recs|] == recs;
  }

  // ----- what is taken -----

  /** Of non-empty values, all are delivered, in order. */
  lemma {:induction false} AllDelivered(acc: Fetched, recs: seq<Rec>)
    requires forall i :: 0 <= i < |recs| ==> recs[i].value != []
    ensures var r := Taken(acc, recs);
            |r.messages| == |acc.messages| + |recs| && r.messages[..|acc.messages|] == acc.messages &&
            forall i :: 0 <= i < |recs| ==> r.messages[|acc.messages| + i] == recs[i].value
    decreases recs
  {
    hide Later;
    if recs != [] {
      var next := Fetched(acc.messages + [recs[0].value], Later(acc.next, recs[0].offset));
      AllDelivered(next, recs[1..]);
      var r := Taken(acc, recs);
      assert r.messages[..|acc.messages|] == r.messages[..|next.messages|][..|acc.messages|];
      assert r.messages[|acc.messages|] == r.messages[..|next.messages|][|acc.messages|];
      forall i | 0 < i < |recs| ensures r.messages[|acc.messages| + i] == recs[i].value {
        assert recs[1..][i - 1] == recs[i];
      }
    }
  }

  /** As many values are delivered as there are records exactly if none is empty. */
  lemma {:induction false} AllDeliveredExactly(acc: Fetched, recs: seq<Rec>)
    ensures |Taken(acc, recs).messages| <= |acc.messages| + |recs|
    ensures |Taken(acc, recs).messages| == |acc.messages| + |recs| <==>
            forall i :: 0 <= i < |recs| ==> recs[i].value != []
    decreases recs
  {
    hide Later;
    if recs != [] {
      var r := recs[0];
      AllDeliveredExactly(Fetched(if r.value == [] then acc.messages else acc.messages + [r.value],
                                  Later(acc.next, r.offset)), recs[1..]);
      assert forall i :: 0 < i < |recs| ==> recs[i] == recs[1..][i - 1];
    }
  }

  /** The next offset is one more than the largest, and not before the start. */
  lemma {:induction false} NextIsLargest(acc: Fetched, recs: seq<Rec>)
    requires forall i :: 0 <= i < |recs| ==> recs[i].offset < TWO_63 - 1
    ensures var next := Taken(acc, recs).next;
            next >= acc.next && (forall i :: 0 <= i < |recs| ==> next > recs[i].offset) &&
            (next == acc.next || exists i :: 0 <= i < |recs| && next == recs[i].offset + 1)
    decreases recs
  {
    if recs != [] {
      var r := recs[0];
      var acc' := Fetched(if r.value == [] then acc.messages else acc.messages + [r.value], Later(acc.next, r.offset));
      NextIsLargest(acc', recs[1..]);
      var next := Taken(acc, recs).next;
      forall i | 0 <= i < |recs| ensures next > recs[i].offset {
        if i > 0 {
          assert recs[1..][i - 1] == recs[i];
        }
      }
      if next != acc'.next {
        var i :| 0 <= i < |recs[1..]| && next == recs[1..][i].offset + 1;
        assert recs[i + 1] == recs[1..][i];
      } else if next != acc.next {
        assert next == recs[0].offset + 1;
      }
    }
  }
}
