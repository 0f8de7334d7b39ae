/** Messages that no encoder writes: cut off anywhere, or with wire types that are
    not those of their fields. */
module Malformed {
  import opened Bytes
  import opened Results
  import opened Wire
  import opened WireDigits
  import opened Messages
  import opened OtlpTypes
  import opened OtlpFields
  import opened OtlpRoundTrip
  import opened OtlpTheorems

  /** The buffer ends with the first k bytes of s, from pos on. */
  predicate EndsWith(buf: bytes, pos: nat, s: bytes, k: nat) {
    k <= |s| && |buf| == pos + k && buf[pos..] == s[..k]
  }

  lemma {:induction false} EndsBehind(buf: bytes, pos: nat, a: bytes, b: bytes, k: nat)
    requires EndsWith(buf, pos, a + b, k) && k >= |a|
    ensures At(buf, pos, a) && EndsWith(buf, pos + |a|, b, k - |a|)
  {
    assert buf[pos..pos + |a|] == buf[pos..][..|a|];
    assert (a + b)[..k][..|a|] == a && (a + b)[..k][|a|..] == b[..k - |a|];
    assert buf[pos + |a|..] == buf[pos..][|a|..];
  }

  lemma {:induction false} EndsInside(buf: bytes, pos: nat, a: bytes, b: bytes, k: nat)
    requires EndsWith(buf, pos, a + b, k) && k <= |a|
    ensures EndsWith(buf, pos, a, k)
  {
    assert (a + b)[..k] == a[..k];
  }

  // ----- values -----

  lemma {:induction false} VarintShort(v: nat, n: nat)
    requires n > 0 && v < VarintRange(n)
    ensures |VarintBytes(v)| <= n
    decreases n
  {
    if v >= 0x80 {
      VarintShort(v / 0x80, n - 1);
    }
  }

  lemma {:induction false} HighUntilLast(v: nat)
    ensures forall i :: 0 <= i < |VarintBytes(v)| - 1 ==> VarintBytes(v)[i] >= 128
  {
    if v >= 0x80 {
      HighUntilLast(v / 0x80);
    }
  }

  lemma {:induction false} CutVarint(buf: bytes, pos: nat, v: uint64, k: nat)
    requires EndsWith(buf, pos, VarintBytes(v), k) && k < |VarintBytes(v)|
    ensures ReadVarint(buf, pos) == Bad(Underflow)
  {
    hide ReadVarint, VarintBytes;
    assert VarintRange(10) >= TWO_64;
    VarintShort(v, 10);
    HighUntilLast(v);
    VarintFails(buf, pos);
    forall i | pos <= i < |buf| ensures buf[i] >= 128 {
      assert buf[i] == buf[pos..][i - pos];
    }
  }

  lemma {:induction false} CutDelimited(buf: bytes, pos: nat, b: bytes, k: nat)
    requires EndsWith(buf, pos, Delimited(b), k) && k < |Delimited(b)| && pos + |Delimited(b)| < TWO_63
    ensures ReadBytes(buf, pos) == Bad(Underflow)
  {
    hide ReadVarint, VarintBytes;
    var size := VarintBytes(|b|);
    if k < |size| {
      EndsInside(buf, pos, size, b, k);
      CutVarint(buf, pos, |b|, k);
    } else {
      EndsBehind(buf, pos, size, b, k);
      VarintReadsBack(buf, pos, |b|);
    }
  }

  // ----- fields -----

  lemma {:induction false} CutTag(buf: bytes, pos: nat, num: uint32, w: WireType, rest: bytes, k: nat)
    requires EndsWith(buf, pos, TagBytes(num, w) + rest, k)
    ensures k < |TagBytes(num, w)| ==> ReadTag(buf, pos) == Bad(Underflow)
    ensures k >= |TagBytes(num, w)| ==>
              ReadTag(buf, pos) == Got((num, w), pos + |TagBytes(num, w)|) &&
              EndsWith(buf, pos + |TagBytes(num, w)|, rest, k - |TagBytes(num, w)|)
  {
    hide ReadVarint, VarintBytes;
    if k < |TagBytes(num, w)| {
      EndsInside(buf, pos, TagBytes(num, w), rest, k);
      CutVarint(buf, pos, MakeTag(num, w), k);
    } else {
      EndsBehind(buf, pos, TagBytes(num, w), rest, k);
      TagReadsBack(buf, pos, num, w);
    }
  }

  /** A field that is cut anywhere is an underflow. */
  lemma {:induction false} CutFieldFails(s: Schema, t: nat, f: Field, buf: bytes, pos: nat, k: nat)
    requires !f.Alien? && FieldFits(s, t, f) && pos + |EncodeField(f)| < TWO_63
    requires EndsWith(buf, pos, EncodeField(f), k) && k < |EncodeField(f)|
    ensures ReadOne(s, t, buf, pos) == Bad(Underflow)
  {
    hide ReadTag, TagBytes, VarintBytes, LittleEndian, Delimited, ReadVarint, ReadBytes, Encode, Decode, Fits,
      EndsWith;
    match f
    case VarintField(num, v) =>
      CutTag(buf, pos, num, WIRE_VARINT, VarintBytes(v), k);
      if k >= |TagBytes(num, WIRE_VARINT)| {
        CutVarint(buf, pos + |TagBytes(num, WIRE_VARINT)|, v, k - |TagBytes(num, WIRE_VARINT)|);
      }
    case Fixed64Field(num, v) =>
      CutTag(buf, pos, num, WIRE_64BIT, LittleEndian(v, 8), k);
      if k >= |TagBytes(num, WIRE_64BIT)| {
        EndIs(buf, pos + |TagBytes(num, WIRE_64BIT)|, LittleEndian(v, 8), k - |TagBytes(num, WIRE_64BIT)|);
      }
    case BytesField(num, b) =>
      CutTag(buf, pos, num, WIRE_BYTES, Delimited(b), k);
      if k >= |TagBytes(num, WIRE_BYTES)| {
        CutDelimited(buf, pos + |TagBytes(num, WIRE_BYTES)|, b, k - |TagBytes(num, WIRE_BYTES)|);
      }
    case MessageField(num, fields) =>
      CutTag(buf, pos, num, WIRE_BYTES, Delimited(Encode(fields)), k);
      if k >= |TagBytes(num, WIRE_BYTES)| {
        CutDelimited(buf, pos + |TagBytes(num, WIRE_BYTES)|, Encode(fields), k - |TagBytes(num, WIRE_BYTES)|);
      }
  }

  lemma {:induction false} EndIs(buf: bytes, pos: nat, s: bytes, k: nat)
    requires EndsWith(buf, pos, s, k)
    ensures |buf| == pos + k && k <= |s|
  {
  }

  /** The number of fields that are whole in the first k bytes of a message. */
  function WholeFields(fields: seq<Field>, k: nat): (m: nat)
    ensures m <= |fields|
    decreases fields
  {
    if fields == [] || k < |EncodeField(fields[0])| then 0
    else 1 + WholeFields(fields[1..], k - |EncodeField(fields[0])|)
  }

  /** A message that is cut between two fields gives those before; one that is cut
      anywhere else is an underflow. */
  lemma {:induction false} CutMessage(s: Schema, t: nat, fields: seq<Field>, buf: bytes, pos: nat, k: nat)
    requires Fits(s, t, fields) && (forall f :: f in fields ==> !f.Alien?) && pos + |Encode(fields)| < TWO_63
    requires EndsWith(buf, pos, Encode(fields), k)
    ensures var m := WholeFields(fields, k);
            |Encode(fields[..m])| <= k &&
            Decode(s, t, buf, pos) ==
            if k == |Encode(fields[..m])| then Ok(Strip(fields[..m])) else Err(Underflow)
    decreases fields
  {
    hide EncodeField, ReadOne, FieldFits, StripField, EndsWith;
    EndIs(buf, pos, Encode(fields), k);
    if fields == [] {
      assert fields[..0] == [];
      NothingLeftOver();
    } else {
      var first := EncodeField(fields[0]);
      assert fields[0] in fields;
      if k < |first| {
        assert fields[..0] == [];
        NothingLeftOver();
        if k > 0 {
          EndsInside(buf, pos, first, Encode(fields[1..]), k);
          CutFieldFails(s, t, fields[0], buf, pos, k);
        }
      } else {
        EndsBehind(buf, pos, first, Encode(fields[1..]), k);
        FieldNotEmpty(fields[0]);
        FieldReadsBack(s, t, buf, pos, fields[0]);
        CutMessage(s, t, fields[1..], buf, pos + |first|, k - |first|);
        var m := WholeFields(fields[1..], k - |first|);
        assert fields[..1 + m][1..] == fields[1..][..m];
      }
    }
  }

  lemma {:induction false} NothingLeftOver()
    ensures Encode([]) == [] && Strip([]) == []
  {
  }

  lemma {:induction false} FieldNotEmpty(f: Field)
    requires !f.Alien?
    ensures EncodeField(f) != []
  {
    hide VarintBytes;
  }

  // ----- wire types -----

  /** A field that the message type knows is read by its number alone, whatever
      wire type its tag has. */
  lemma {:induction false} WireTypeIgnored(s: Schema, t: nat, num: uint32, w: WireType, buf: bytes, pos: nat,
          v: uint64, b: bytes)
    requires |buf| < TWO_63
    ensures s(t, num).VarintKind? && At(buf, pos, TagBytes(num, w) + VarintBytes(v)) ==>
              ReadOne(s, t, buf, pos) == Got([VarintField(num, v)], pos + |TagBytes(num, w)| + |VarintBytes(v)|)
    ensures s(t, num).Fixed64Kind? && At(buf, pos, TagBytes(num, w) + LittleEndian(v, 8)) ==>
              ReadOne(s, t, buf, pos) == Got([Fixed64Field(num, v)], pos + |TagBytes(num, w)| + 8)
    ensures s(t, num).BytesKind? && At(buf, pos, TagBytes(num, w) + Delimited(b)) ==>
              ReadOne(s, t, buf, pos) == Got([BytesField(num, b)], pos + |TagBytes(num, w)| + |Delimited(b)|)
  {
    hide ReadTag, TagBytes, VarintBytes, LittleEndian, Delimited, ReadVarint, ReadBytes, ReadFixed64;
    if At(buf, pos, TagBytes(num, w) + VarintBytes(v)) {
      AtSplit(buf, pos, TagBytes(num, w), VarintBytes(v));
      TagReadsBack(buf, pos, num, w);
      VarintReadsBack(buf, pos + |TagBytes(num, w)|, v);
    }
    if At(buf, pos, TagBytes(num, w) + LittleEndian(v, 8)) {
      AtSplit(buf, pos, TagBytes(num, w), LittleEndian(v, 8));
      TagReadsBack(buf, pos, num, w);
      Fixed64ReadsBack(buf, pos + |TagBytes(num, w)|, v);
    }
    if At(buf, pos, TagBytes(num, w) + Delimited(b)) {
      AtSplit(buf, pos, TagBytes(num, w), Delimited(b));
      TagReadsBack(buf, pos, num, w);
      DelimitedReadsBack(buf, pos + |TagBytes(num, w)|, b);
    }
  }

  // ----- batches of traces -----

  /** The number of resources that are whole in the first k bytes of a batch. */
  function WholeResources(td: TracesData, k: nat): nat {
    WholeFields(TracesFields(td), k)
  }

  lemma {:induction false} SomeResources(rss: seq<ResourceSpans>, m: nat)
    requires m <= |rss|
    ensures |Repeated(TRACES_RESOURCE_SPANS, ResourceSpansFields, rss)| == |rss|
    ensures Repeated(TRACES_RESOURCE_SPANS, ResourceSpansFields, rss)[..m] ==
            Repeated(TRACES_RESOURCE_SPANS, ResourceSpansFields, rss[..m])
    ensures forall f :: f in Repeated(TRACES_RESOURCE_SPANS, ResourceSpansFields, rss) ==> !f.Alien?
    decreases rss
  {
    hide ResourceSpansFields;
    if rss != [] {
      SomeResources(rss[1..], if m > 0 then m - 1 else 0);
      if m > 0 {
        assert rss[..m][1..] == rss[1..][..m - 1];
      }
    }
  }

  /** The output of Marshal, cut anywhere: it decodes if and only if it is cut
      between two resources, and then to those before; else it is rejected. */
  lemma {:induction false} CutBatch(td: TracesData, k: nat)
    requires k <= |Marshaled(td)| < TWO_63
    ensures var m := WholeResources(td, k);
            m <= |td.resourceSpans| &&
            var before := TracesData(td.resourceSpans[..m]);
            Unmarshaled(Marshaled(td)[..k]) ==
            if k == |Marshaled(before)| then Ok(Norm(before)) else Err(Underflow)
  {
    hide Encode, Decode, Fits, Strip, WholeFields, Norm, Repeated, Fold;
    var fields := TracesFields(td);
    SomeResources(td.resourceSpans, 0);
    var m := WholeFields(fields, k);
    SomeResources(td.resourceSpans, m);
    var before := TracesData(td.resourceSpans[..m]);
    TracesGood(td);
    assert EndsWith(Marshaled(td)[..k], 0, Encode(fields), k);
    CutMessage(Otlp, TRACES_DATA, fields, Marshaled(td)[..k], 0, k);
    TracesGood(before);
    assert TracesFields(before) == fields[..m];
    RoundTrip(before);
    TreeReadsBack(Otlp, TRACES_DATA, TracesFields(before));
  }
}
