/** Fetch responses by their bytes: any topics, partitions and messages, with keys
    or without, and what the parser takes from them. */
module KafkaBytes {
  import opened Bytes
  import opened Results
  import opened KafkaWire

  // ----- the bytes -----

  datatype Text = Null | Given(b: bytes)

  datatype Sent = Sent(offset: uint64, crc: uint32, magic: byte, attributes: byte, key: Text, value: Text)

  datatype Partition = Partition(index: uint32, code: nat, watermark: uint64, sent: seq<Sent>)

  datatype Topic = Topic(name: bytes, partitions: seq<Partition>)

  /** A length and the bytes; all ones for none. */
  function TextBytes(t: Text): bytes {
    match t
    case Null => [255, 255, 255, 255]
    case Given(b) => Four(|b|) + b
  }

  function SentBody(m: Sent): bytes {
    Four(m.crc) + ([m.magic, m.attributes] + (TextBytes(m.key) + TextBytes(m.value)))
  }

  function SentBytes(m: Sent): bytes {
    Eight(m.offset) + (Four(|SentBody(m)|) + SentBody(m))
  }

  function AllSent(ms: seq<Sent>): bytes {
    if ms == [] then [] else SentBytes(ms[0]) + AllSent(ms[1..])
  }

  function PartitionBytes(p: Partition): bytes {
    Four(p.index) + (Two(p.code) + (Eight(p.watermark) + (Four(|AllSent(p.sent)|) + AllSent(p.sent))))
  }

  function AllPartitions(ps: seq<Partition>): bytes {
    if ps == [] then [] else PartitionBytes(ps[0]) + AllPartitions(ps[1..])
  }

  function TopicBytes(t: Topic): bytes {
    Two(|t.name|) + (t.name + (Four(|t.partitions|) + AllPartitions(t.partitions)))
  }

  function AllTopics(ts: seq<Topic>): bytes {
    if ts == [] then [] else TopicBytes(ts[0]) + AllTopics(ts[1..])
  }

  function BodyBytes(correlation: uint32, ts: seq<Topic>): bytes {
    Four(correlation) + (Four(|ts|) + AllTopics(ts))
  }

  function ResponseBytes(correlation: uint32, ts: seq<Topic>): bytes {
    Four(|BodyBytes(correlation, ts)|) + BodyBytes(correlation, ts)
  }

  // ----- what they mean -----

  /** A value that is not null or empty is delivered. */
  function ValuesOf(ms: seq<Sent>): seq<bytes> {
    if ms == [] then []
    else (if ms[0].value.Given? && ms[0].value.b != [] then [ms[0].value.b] else []) + ValuesOf(ms[1..])
  }

  /** The offset behind a message, in 64 signed bits. */
  function Behind(m: Sent): int64 {
    if m.offset < 0x7FFF_FFFF_FFFF_FFFF then m.offset + 1
    else m.offset + 1 - 0x1_0000_0000_0000_0000
  }

  function NextOf(next: int64, ms: seq<Sent>): int64
    decreases ms
  {
    if ms == [] then next else NextOf(if Behind(ms[0]) > next then Behind(ms[0]) else next, ms[1..])
  }

  function AllMessages(ts: seq<Topic>): seq<Sent> {
    if ts == [] then [] else PartitionMessages(ts[0].partitions) + AllMessages(ts[1..])
  }

  function PartitionMessages(ps: seq<Partition>): seq<Sent> {
    if ps == [] then [] else ps[0].sent + PartitionMessages(ps[1..])
  }

  /** All values of all messages, in order, and the offset to go on with: the
      highest behind any of them, or 0. */
  function Delivered(ms: seq<Sent>): Fetched {
    Fetched(ValuesOf(ms), NextOf(0, ms))
  }

  predicate SmallText(t: Text) {
    t.Given? ==> |t.b| < 0x100_0000
  }

  predicate SmallSent(ms: seq<Sent>) {
    forall i :: 0 <= i < |ms| ==> SmallText(ms[i].key) && SmallText(ms[i].value)
  }

  predicate PartitionOk(p: Partition) {
    p.code < 0x1_0000 && SmallSent(p.sent) && |AllSent(p.sent)| < 0x1_0000_0000
  }

  predicate TopicOk(t: Topic) {
    |t.name| < 0x1_0000 && |t.partitions| < 0x1_0000_0000 &&
    forall i :: 0 <= i < |t.partitions| ==> PartitionOk(t.partitions[i])
  }

  predicate TopicsOk(ts: seq<Topic>) {
    |ts| < 0x1_0000_0000 && forall i :: 0 <= i < |ts| ==> TopicOk(ts[i])
  }

  // ----- numbers -----

  lemma {:induction false} NumbersRead(buf: bytes, off: nat, v: nat)
    ensures At(buf, off, Four(v)) && v < TWO_32 ==> U32(buf, off) == v
    ensures At(buf, off, Two(v)) && v < TWO_16 ==> U16(buf, off) == v
  {
    hide Two, Four, Eight, BigEndian, U32, U16;
    NumbersAre(v);
    if At(buf, off, Four(v)) && v < TWO_32 {
      U32Reads(buf, off, v);
    }
    if At(buf, off, Two(v)) && v < TWO_16 {
      U16Reads(buf, off, v);
    }
  }

  lemma {:induction false} OffsetReads(buf: bytes, off: nat, v: uint64)
    requires At(buf, off, Eight(v))
    ensures I64(buf, off) == if v < 0x8000_0000_0000_0000 then v else v - 0x1_0000_0000_0000_0000
  {
    hide Eight, BigEndian, I64;
    NumbersAre(v);
    assert AsUint64(AsInt64(v)) == v;
    I64Reads(buf, off, AsInt64(v));
  }

  lemma {:induction false} Ones()
    ensures Four(0xFFFF_FFFF) == [255, 255, 255, 255]
  {
  }

  // ----- a message -----

  lemma {:induction false} TextReads(t: Text, buf: bytes, off: nat)
    requires SmallText(t) && At(buf, off, TextBytes(t))
    ensures |TextBytes(t)| == 4 + if t.Given? then |t.b| else 0
    ensures off + |TextBytes(t)| <= |buf| && I32(buf, off) == if t.Given? then |t.b| else -1
    ensures t.Given? ==> At(buf, off + 4, t.b)
  {
    hide BigEndian, Four, I32;
    match t
    case Null =>
      Ones();
      NumbersAre(0xFFFF_FFFF);
      NoKeyReads(buf, off);
    case Given(b) =>
      NumbersAre(|b|);
      AtSplit(buf, off, Four(|b|), b);
      I32Reads(buf, off, |b|);
  }

  lemma {:induction false} MessageReads(m: Sent, buf: bytes, start: nat, offset: int64, acc: Fetched)
    requires SmallText(m.key) && SmallText(m.value) && At(buf, start, SentBody(m))
    ensures |SentBody(m)| >= 14 && start + |SentBody(m)| <= |buf|
    ensures Message(buf, start, |SentBody(m)|, offset, acc) ==
            Fetched(acc.messages + ValuesOf([m]), Later(acc.next, offset))
  {
    hide I32, Later, Four, TextBytes, ValuesOf;
    var k, v := TextBytes(m.key), TextBytes(m.value);
    NumbersAre(m.crc);
    AtSplit(buf, start, Four(m.crc), [m.magic, m.attributes] + (k + v));
    AtSplit(buf, start + 4, [m.magic, m.attributes], k + v);
    AtSplit(buf, start + 6, k, v);
    TextReads(m.key, buf, start + 6);
    TextReads(m.value, buf, start + 6 + |k|);
    OneValue(m);
    assert acc.messages + [] == acc.messages;
  }

  lemma {:induction false} OneValue(m: Sent)
    ensures ValuesOf([m]) == if m.value.Given? && m.value.b != [] then [m.value.b] else []
  {
    assert [m][1..] == [];
    assert ValuesOf([]) == [];
  }

  lemma {:induction false} OneSentReads(m: Sent, buf: bytes, off: nat, end: nat, acc: Fetched)
    requires SmallText(m.key) && SmallText(m.value)
    requires At(buf, off, SentBytes(m)) && off + |SentBytes(m)| <= end <= |buf|
    ensures MessageSet(buf, off, end, acc) ==
            MessageSet(buf, off + |SentBytes(m)|, end,
                       Fetched(acc.messages + ValuesOf([m]), NextOf(acc.next, [m])))
  {
    hide SentBody, I64, U32, Message, Later, ValuesOf, NextOf, Eight, Four, Two;
    var body := SentBody(m);
    NumbersAre(m.offset);
    NumbersAre(|body|);
    AtSplit(buf, off, Eight(m.offset), Four(|body|) + body);
    AtSplit(buf, off + 8, Four(|body|), body);
    BodySize(m);
    NumbersRead(buf, off + 8, |body|);
    OffsetReads(buf, off, m.offset);
    MessageReads(m, buf, off + 12, I64(buf, off), acc);
    OneNext(m, acc.next, I64(buf, off));
    MessageStep(buf, off, end, acc);
  }

  lemma {:induction false} BodySize(m: Sent)
    requires SmallText(m.key) && SmallText(m.value)
    ensures 14 <= |SentBody(m)| < TWO_32 && |SentBytes(m)| == 12 + |SentBody(m)|
  {
  }

  lemma {:induction false} OneNext(m: Sent, next: int64, offset: int64)
    requires offset == if m.offset < 0x8000_0000_0000_0000 then m.offset else m.offset - 0x1_0000_0000_0000_0000
    ensures NextOf(next, [m]) == Later(next, offset)
  {
    assert [m][1..] == [];
  }

  lemma {:induction false} MessageStep(buf: bytes, off: nat, end: nat, acc: Fetched)
    requires end <= |buf| && off + 12 < end
    requires 14 <= U32(buf, off + 8) && off + 12 + U32(buf, off + 8) <= end
    ensures MessageSet(buf, off, end, acc) ==
            MessageSet(buf, off + 12 + U32(buf, off + 8), end,
                       Message(buf, off + 12, U32(buf, off + 8), I64(buf, off), acc))
  {
    hide U32, I64, Message;
  }

  // ----- message sets, partitions, topics -----

  function More(acc: Fetched, ms: seq<Sent>): Fetched {
    Fetched(acc.messages + ValuesOf(ms), NextOf(acc.next, ms))
  }

  lemma {:induction false} ValuesConcat(a: seq<Sent>, b: seq<Sent>)
    ensures ValuesOf(a + b) == ValuesOf(a) + ValuesOf(b)
  {
    if a == [] {
      assert a + b == b;
    } else {
      assert (a + b)[1..] == a[1..] + b;
      ValuesConcat(a[1..], b);
    }
  }

  lemma {:induction false} NextConcat(next: int64, a: seq<Sent>, b: seq<Sent>)
    ensures NextOf(next, a + b) == NextOf(NextOf(next, a), b)
    decreases a
  {
    if a == [] {
      assert a + b == b;
    } else {
      assert (a + b)[1..] == a[1..] + b;
      NextConcat(if Behind(a[0]) > next then Behind(a[0]) else next, a[1..], b);
    }
  }

  lemma {:induction false} MoreTwice(acc: Fetched, a: seq<Sent>, b: seq<Sent>)
    ensures More(More(acc, a), b) == More(acc, a + b)
  {
    hide ValuesOf, NextOf;
    ValuesConcat(a, b);
    NextConcat(acc.next, a, b);
    Assoc(acc.messages, ValuesOf(a), ValuesOf(b));
  }

  lemma {:induction false} MoreNothing(acc: Fetched)
    ensures More(acc, []) == acc
  {
  }

  lemma {:induction false} SetReads(ms: seq<Sent>, buf: bytes, off: nat, acc: Fetched)
    requires SmallSent(ms) && At(buf, off, AllSent(ms))
    ensures MessageSet(buf, off, off + |AllSent(ms)|, acc) == More(acc, ms)
    decreases ms
  {
    SetReadsTo(ms, buf, off, off + |AllSent(ms)|, acc);
  }

  lemma {:induction false} SetReadsTo(ms: seq<Sent>, buf: bytes, off: nat, end: nat, acc: Fetched)
    requires SmallSent(ms) && At(buf, off, AllSent(ms)) && end == off + |AllSent(ms)|
    ensures MessageSet(buf, off, end, acc) == More(acc, ms)
    decreases ms
  {
    hide SentBytes, MessageSet, More;
    if ms == [] {
      NothingRead(buf, off, acc);
      MoreNothing(acc);
    } else {
      AtSplit(buf, off, SentBytes(ms[0]), AllSent(ms[1..]));
      OneSentReads(ms[0], buf, off, end, acc);
      MoreIs(acc, [ms[0]]);
      SetReadsTo(ms[1..], buf, off + |SentBytes(ms[0])|, end, More(acc, [ms[0]]));
      MoreTwice(acc, [ms[0]], ms[1..]);
      assert [ms[0]] + ms[1..] == ms;
    }
  }

  lemma {:induction false} MoreIs(acc: Fetched, ms: seq<Sent>)
    ensures More(acc, ms) == Fetched(acc.messages + ValuesOf(ms), NextOf(acc.next, ms))
  {
  }

  lemma {:induction false} PartitionReads(p: Partition, buf: bytes, off: nat, n: nat, acc: Fetched)
    requires PartitionOk(p) && n > 0 && At(buf, off, PartitionBytes(p))
    ensures Partitions(buf, off, n, acc) == Partitions(buf, off + |PartitionBytes(p)|, n - 1, More(acc, p.sent))
  {
    hide AllSent, MessageSet, More, U32, Partitions, Eight, Four, Two;
    var s := AllSent(p.sent);
    NumbersAre(p.index);
    NumbersAre(p.code);
    NumbersAre(p.watermark);
    NumbersAre(|s|);
    AtSplit(buf, off, Four(p.index), Two(p.code) + (Eight(p.watermark) + (Four(|s|) + s)));
    AtSplit(buf, off + 4, Two(p.code), Eight(p.watermark) + (Four(|s|) + s));
    AtSplit(buf, off + 6, Eight(p.watermark), Four(|s|) + s);
    AtSplit(buf, off + 14, Four(|s|), s);
    NumbersRead(buf, off + 14, |s|);
    OneMorePartition(buf, off, n, acc);
    SetReads(p.sent, buf, off + 18, acc);
  }

  lemma {:induction false} PartitionsRead(ps: seq<Partition>, buf: bytes, off: nat, acc: Fetched)
    requires (forall i :: 0 <= i < |ps| ==> PartitionOk(ps[i])) && At(buf, off, AllPartitions(ps))
    ensures Partitions(buf, off, |ps|, acc) == (off + |AllPartitions(ps)|, More(acc, PartitionMessages(ps)))
    decreases ps
  {
    hide PartitionBytes, PartitionOk, Partitions, More;
    if ps == [] {
      NoPartitions(buf, off, acc);
      MoreNothing(acc);
    } else {
      AtSplit(buf, off, PartitionBytes(ps[0]), AllPartitions(ps[1..]));
      PartitionReads(ps[0], buf, off, |ps|, acc);
      PartitionsRead(ps[1..], buf, off + |PartitionBytes(ps[0])|, More(acc, ps[0].sent));
      MoreTwice(acc, ps[0].sent, PartitionMessages(ps[1..]));
    }
  }

  lemma {:induction false} TopicReads(t: Topic, buf: bytes, off: nat, n: nat, acc: Fetched)
    requires TopicOk(t) && n > 0 && At(buf, off, TopicBytes(t))
    ensures Topics(buf, off, n, acc) ==
            Topics(buf, off + |TopicBytes(t)|, n - 1, More(acc, PartitionMessages(t.partitions)))
  {
    hide AllPartitions, PartitionMessages, PartitionOk, More, U32, U16, Partitions, Four, Two, Topics;
    var ps := AllPartitions(t.partitions);
    var name := |t.name|;
    NumbersAre(|t.partitions|);
    NumbersAre(name);
    AtSplit(buf, off, Two(name), t.name + (Four(|t.partitions|) + ps));
    AtSplit(buf, off + 2, t.name, Four(|t.partitions|) + ps);
    AtSplit(buf, off + 2 + name, Four(|t.partitions|), ps);
    NumbersRead(buf, off, name);
    NumbersRead(buf, off + 2 + name, |t.partitions|);
    PartitionsRead(t.partitions, buf, off + 6 + name, acc);
    TopicStep(buf, off, n, acc);
  }

  lemma {:induction false} TopicStep(buf: bytes, off: nat, n: nat, acc: Fetched)
    requires n > 0 && off + 2 <= |buf| && off + 2 + U16(buf, off) + 4 <= |buf|
    ensures var p := off + 2 + U16(buf, off);
            var r := Partitions(buf, p + 4, U32(buf, p), acc);
            Topics(buf, off, n, acc) == Topics(buf, r.0, n - 1, r.1)
  {
    hide U16, U32, Partitions;
  }

  lemma {:induction false} TopicsRead(ts: seq<Topic>, buf: bytes, off: nat, acc: Fetched)
    requires (forall i :: 0 <= i < |ts| ==> TopicOk(ts[i])) && At(buf, off, AllTopics(ts))
    ensures Topics(buf, off, |ts|, acc) == More(acc, AllMessages(ts))
    decreases ts
  {
    hide TopicBytes, TopicOk, Topics, More, PartitionMessages;
    if ts == [] {
      NoTopics(buf, off, acc);
      MoreNothing(acc);
    } else {
      AtSplit(buf, off, TopicBytes(ts[0]), AllTopics(ts[1..]));
      TopicReads(ts[0], buf, off, |ts|, acc);
      var now := More(acc, PartitionMessages(ts[0].partitions));
      TopicsRead(ts[1..], buf, off + |TopicBytes(ts[0])|, now);
      MoreTwice(acc, PartitionMessages(ts[0].partitions), AllMessages(ts[1..]));
    }
  }

  // ----- whole responses -----

  /** A response up to 16 megabytes, with any number of topics, partitions and
      messages: every value is delivered once, in order, whatever keys,
      checksums, codes and watermarks it is sent with. */
  lemma {:induction false} ResponseReadsBytes(correlation: uint32, ts: seq<Topic>)
    requires TopicsOk(ts) && |BodyBytes(correlation, ts)| <= 16777216
    ensures ParseFetch(ResponseBytes(correlation, ts)) == Ok(Delivered(AllMessages(ts)))
  {
    hide AllTopics, AllMessages, ValuesOf, NextOf, TopicOk, U32, Topics, Four;
    var body, input := BodyBytes(correlation, ts), ResponseBytes(correlation, ts);
    NumbersAre(correlation);
    NumbersAre(|ts|);
    NumbersAre(|body|);
    assert At(input, 0, Four(|body|));
    NumbersRead(input, 0, |body|);
    assert input[4..4 + |body|] == body;
    assert At(body, 0, body);
    AtSplit(body, 0, Four(correlation), Four(|ts|) + AllTopics(ts));
    AtSplit(body, 4, Four(|ts|), AllTopics(ts));
    NumbersRead(body, 4, |ts|);
    TopicsRead(ts, body, 8, Fetched([], 0));
    assert [] + ValuesOf(AllMessages(ts)) == ValuesOf(AllMessages(ts));
  }

  /** Too little, too much, or not there. */
  lemma {:induction false} ResponseErrors(input: bytes)
    ensures |input| < 4 ==> ParseFetch(input) == Err(NoLength)
    ensures |input| >= 4 ==>
              var n := FromBigEndian(input[..4]);
              (n > 16777216 ==> ParseFetch(input) == Err(TooLarge)) &&
              (|input| - 4 < n <= 16777216 ==> ParseFetch(input) == Err(NoBody)) &&
              (n < 8 && n <= |input| - 4 ==> ParseFetch(input) == Err(TooShort)) &&
              (8 <= n <= 16777216 && n <= |input| - 4 ==> ParseFetch(input).Ok?)
  {
    hide FromBigEndian, Topics;
    assert |input| >= 4 ==> input[0..0 + 4] == input[..4];
  }

  /** The record that is produced: without key, magic 0, no attributes, the
      checksum over what follows it. */
  lemma {:induction false} RecordIs(crc: bytes -> uint32, value: bytes)
    requires |value| < 0x100_0000
    ensures var covered := [0, 0] + ([255, 255, 255, 255] + (Four(|value|) + value));
            Record(crc, 0, value) == SentBytes(Sent(0, crc(covered), 0, 0, Null, Given(value)))
  {
    hide BigEndian, Two, Four, Eight;
    Ones();
    NumbersAre(0xFFFF_FFFF);
    NumbersAre(|value|);
    NumbersAre(14 + |value|);
    NumbersAre(0);
    var covered := [0, 0] + ([255, 255, 255, 255] + (Four(|value|) + value));
    assert Payload(value) == covered;
    NumbersAre(crc(covered));
  }
}
