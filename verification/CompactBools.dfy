/** A bool field whose value is written with a call of its own: when the struct
    it stands in reads back. */
module CompactBools {
  import opened Bytes
  import opened ThriftTypes
  import opened Wire
  import opened CompactWire
  import opened CompactShortest

  /** What WriteFieldBegin(TypeBool, id) and WriteBool(b) write. */
  function SeparateBool(last: int16, id: int16, b: bool): bytes {
    FieldHeader(last, ToCompact(TYPE_BOOL), id) + Encode(Bool(b))
  }

  /** Such a field reads as true, and its value byte is taken for what follows: a
      false ends the struct, whatever fields come after it, and a true is taken
      for the header of another bool field. */
  lemma {:induction false} SeparateBoolMisread(last: int16, id: int16, b: bool, buf: bytes, pos: nat)
    requires At(buf, pos, SeparateBool(last, id, b))
    ensures var p := pos + |FieldHeader(last, ToCompact(TYPE_BOOL), id)|;
            DecodeFields(last, buf, pos) == Before([Field(id, Bool(true))], DecodeFields(id, buf, p)) &&
            if b then ReadByte(buf, p) == Got(COMPACT_TRUE, p + 1)
            else DecodeFields(last, buf, pos) == Got([Field(id, Bool(true))], pos + |SeparateBool(last, id, b)|)
  {
    hide FieldHeader, ReadHeader, DecodeFieldValue, DecodeFields;
    var header := FieldHeader(last, COMPACT_TRUE, id);
    var value := Encode(Bool(b));
    AtSplit(buf, pos, header, value);
    HeaderReadsBack(last, COMPACT_TRUE, id, buf, pos);
    TrueField(last, id, buf, pos);
    if b {
      assert value == [COMPACT_TRUE] + [];
      ByteReadsBack(buf, pos + |header|, COMPACT_TRUE, []);
    } else {
      assert value == [0] + [];
      StopReadsBack(id, buf, pos + |header|, []);
      assert [Field(id, Bool(true))] + [] == [Field(id, Bool(true))];
    }
  }

  lemma {:induction false} TrueField(last: int16, id: int16, buf: bytes, pos: nat)
    requires ReadHeader(last, buf, pos).Got? && ReadHeader(last, buf, pos).value == (COMPACT_TRUE, id)
    ensures DecodeFields(last, buf, pos) ==
            Before([Field(id, Bool(true))], DecodeFields(id, buf, ReadHeader(last, buf, pos).next))
  {
  }

  // ----- what is read after a true -----

  /** The value byte and what follows it are read as the long header of one more
      true bool, whose id is the zigzag varint behind the value byte. */
  lemma {:induction false} TrueReads(id: int16, buf: bytes, p: nat, rest: bytes)
    requires At(buf, p, [COMPACT_TRUE] + rest)
    ensures DecodeFields(id, buf, p) ==
            match ReadZigzag(buf, p + 1)
            case Bad(e) => Bad(e)
            case Got(i, q) => Before([Field(ToInt16(i), Bool(true))], DecodeFields(ToInt16(i), buf, q))
  {
    hide DecodeFields, ReadByte, ReadZigzag, ToInt16;
    ByteReadsBack(buf, p, COMPACT_TRUE, rest);
    var h := ReadHeader(id, buf, p);
    if h.Got? {
      TrueField(id, h.value.1, buf, p);
    } else {
      NoField(id, buf, p);
    }
  }

  lemma {:induction false} NoField(last: int16, buf: bytes, pos: nat)
    requires ReadHeader(last, buf, pos).Bad?
    ensures DecodeFields(last, buf, pos) == Bad(ReadHeader(last, buf, pos).error)
  {
  }

  // ----- when the struct reads back -----

  /** The next field is a true bool in the short form, with a header that is also
      the zigzag varint of its id: of seven pairs of ids. */
  predicate ReadsAsNext(id: int16, rest: seq<Field>) {
    rest != [] && rest[0].value == Bool(true) &&
    var delta := rest[0].id - id; 1 <= delta <= 7 && rest[0].id == -(8 * delta + 1)
  }

  ghost predicate ReadsBack(id: int16, rest: seq<Field>, buf: bytes, p: nat, end: nat) {
    DecodeFields(id, buf, p) == Got(CanonFields(rest), end)
  }

  /** A list of fields that begins with a true bool. */
  lemma {:induction false} FirstTrue(id: int16, r: Read<seq<Field>>, rest: seq<Field>, end: nat)
    ensures Before([Field(id, Bool(true))], r) == Got(CanonFields(rest), end) <==>
            rest != [] && rest[0] == Field(id, Bool(true)) && r == Got(CanonFields(rest[1..]), end)
  {
    if rest != [] {
      var first := CanonField(rest[0]);
      CanonIsBool(rest[0], Field(id, Bool(true)));
      assert CanonFields(rest) == [first] + CanonFields(rest[1..]);
      if r.Got? {
        SameParts(Field(id, Bool(true)), r.value, first, CanonFields(rest[1..]));
      }
    }
  }

  lemma {:induction false} CanonIsBool(f: Field, g: Field)
    requires g.value.Bool?
    ensures CanonField(f) == g <==> f == g
  {
  }

  lemma {:induction false} SameParts<T>(x: T, xs: seq<T>, y: T, ys: seq<T>)
    ensures [x] + xs == [y] + ys <==> x == y && xs == ys
  {
    if [x] + xs == [y] + ys {
      assert ([x] + xs)[0] == ([y] + ys)[0];
      assert ([x] + xs)[1..] == ([y] + ys)[1..];
      assert ([x] + xs)[1..] == xs && ([y] + ys)[1..] == ys;
    }
  }

  lemma {:induction false} SmallZigzag(buf: bytes, pos: nat, b: byte, rest: bytes)
    requires b < 0x80 && At(buf, pos, [b] + rest)
    ensures ReadZigzag(buf, pos) == Got(Unzigzag(b), pos + 1) && At(buf, pos + 1, rest)
  {
    AtSplit(buf, pos, [b], rest);
    assert VarintBytes(b) == [b];
    UvarintReadsBack(buf, pos, b);
  }

  lemma {:induction false} LargeZigzag(buf: bytes, pos: nat, b: byte, rest: bytes)
    requires b >= 0x80 && At(buf, pos, [b] + rest)
    ensures ReadZigzag(buf, pos).Got? ==> ReadZigzag(buf, pos).next >= pos + 2
  {
    hide Unzigzag;
    AtSplit(buf, pos, [b], rest);
    assert buf[pos..pos + 1][0] == b;
  }

  /** A true written separately and then the other fields, as their calls write
      them: the rest of the struct reads back exactly before a field whose header
      says the same as a long one does. */
  lemma {:induction false} AfterTrueExactly(id: int16, rest: seq<Field>, buf: bytes, p: nat)
    requires FieldsTyped(rest) && |buf| < TWO_63
    requires At(buf, p, [COMPACT_TRUE] + EncodeFields(id, rest))
    ensures ReadsBack(id, rest, buf, p, p + 1 + |EncodeFields(id, rest)|) <==> ReadsAsNext(id, rest)
    decreases |rest|
  {
    hide DecodeFields, EncodeField, CanonFields, ReadZigzag, VarintBytes, Encode, FieldTyped;
    TrueReads(id, buf, p, EncodeFields(id, rest));
    AtSplit(buf, p, [COMPACT_TRUE], EncodeFields(id, rest));
    if rest == [] {
      SmallZigzag(buf, p + 1, 0, []);
      FirstTrue(0, DecodeFields(0, buf, p + 2), rest, p + 2);
    } else {
      var delta := ToInt16(rest[0].id - id);
      if 0 < delta <= 7 {
        ShortHeader(id, rest, buf, p);
      } else if 0 < delta <= 15 {
        WideHeader(id, rest, buf, p);
      } else {
        LongHeader(id, rest, buf, p);
      }
    }
  }

  lemma {:induction false} FirstField(id: int16, rest: seq<Field>)
    requires FieldsTyped(rest) && rest != [] && FieldTyped(rest[0])
    ensures var r := rest[0];
            EncodeFields(id, rest) ==
            FieldHeader(id, FieldType(r.value), r.id) +
            ((if r.value.Bool? then [] else Encode(r.value)) + EncodeFields(r.id, rest[1..]))
  {
    hide Encode, FieldHeader;
    var r := rest[0];
    Assoc(FieldHeader(id, FieldType(r.value), r.id), if r.value.Bool? then [] else Encode(r.value),
        EncodeFields(r.id, rest[1..]));
  }

  lemma {:induction false} ShortHeader(id: int16, rest: seq<Field>, buf: bytes, p: nat)
    requires FieldsTyped(rest) && |buf| < TWO_63 && rest != [] && 0 < ToInt16(rest[0].id - id) <= 7
    requires At(buf, p + 1, EncodeFields(id, rest)) && At(buf, p, [COMPACT_TRUE] + EncodeFields(id, rest))
    ensures ReadsBack(id, rest, buf, p, p + 1 + |EncodeFields(id, rest)|) <==> ReadsAsNext(id, rest)
  {
    hide DecodeFields, EncodeFields, CanonFields, ReadZigzag, Encode;
    var r, delta := rest[0], ToInt16(rest[0].id - id);
    var b: byte := delta * 16 + FieldType(r.value);
    var behind := (if r.value.Bool? then [] else Encode(r.value)) + EncodeFields(r.id, rest[1..]);
    FirstField(id, rest);
    TrueReads(id, buf, p, EncodeFields(id, rest));
    SmallZigzag(buf, p + 1, b, behind);
    var next := ToInt16(Unzigzag(b));
    var end := p + 1 + |EncodeFields(id, rest)|;
    FirstTrue(next, DecodeFields(next, buf, p + 2), rest, end);
    if r.value == Bool(true) {
      assert [] + EncodeFields(r.id, rest[1..]) == EncodeFields(r.id, rest[1..]);
      TailTyped(rest);
      FieldsReadBack(r.id, rest[1..], buf, p + 2);
      OddUnzigzag(delta);
    }
  }

  lemma {:induction false} OddUnzigzag(delta: nat)
    requires 0 < delta <= 7
    ensures ToInt16(Unzigzag(delta * 16 + 1)) == -(8 * delta + 1)
  {
  }

  lemma {:induction false} TailTyped(fields: seq<Field>)
    requires FieldsTyped(fields) && fields != []
    ensures FieldsTyped(fields[1..])
  {
  }

  /** The header does not fit one byte of a varint, which then takes at least one
      more; and what is left is too short for the other fields. */
  lemma {:induction false} WideHeader(id: int16, rest: seq<Field>, buf: bytes, p: nat)
    requires FieldsTyped(rest) && |buf| < TWO_63 && rest != [] && 7 < ToInt16(rest[0].id - id) <= 15
    requires At(buf, p + 1, EncodeFields(id, rest)) && At(buf, p, [COMPACT_TRUE] + EncodeFields(id, rest))
    ensures !ReadsBack(id, rest, buf, p, p + 1 + |EncodeFields(id, rest)|) && !ReadsAsNext(id, rest)
  {
    hide DecodeFields, EncodeFields, CanonFields, ReadZigzag, Encode;
    var r, delta := rest[0], ToInt16(rest[0].id - id);
    var b: byte := delta * 16 + FieldType(r.value);
    var behind := (if r.value.Bool? then [] else Encode(r.value)) + EncodeFields(r.id, rest[1..]);
    FirstField(id, rest);
    TrueReads(id, buf, p, EncodeFields(id, rest));
    LargeZigzag(buf, p + 1, b, behind);
    var z, end := ReadZigzag(buf, p + 1), p + 1 + |EncodeFields(id, rest)|;
    if z.Got? && ReadsBack(id, rest, buf, p, end) {
      FirstTrue(ToInt16(z.value), DecodeFields(ToInt16(z.value), buf, z.next), rest, end);
      TailTyped(rest);
      FieldsShortest(r.id, rest[1..], buf, z.next);
    }
  }

  /** The long form begins with a byte that is a varint of its own: that of -1, if
      the field is a true bool; then what follows begins with a 1 again. */
  lemma {:induction false} LongHeader(id: int16, rest: seq<Field>, buf: bytes, p: nat)
    requires FieldsTyped(rest) && |buf| < TWO_63 && rest != [] && !(0 < ToInt16(rest[0].id - id) <= 15)
    requires At(buf, p + 1, EncodeFields(id, rest)) && At(buf, p, [COMPACT_TRUE] + EncodeFields(id, rest))
    ensures !ReadsBack(id, rest, buf, p, p + 1 + |EncodeFields(id, rest)|) && !ReadsAsNext(id, rest)
    decreases |rest|, 0
  {
    hide DecodeFields, EncodeFields, CanonFields, ReadZigzag, Encode;
    var r := rest[0];
    var ct, varint := FieldType(r.value), VarintBytes(Zigzag(r.id));
    var behind := (if r.value.Bool? then [] else Encode(r.value)) + EncodeFields(r.id, rest[1..]);
    FirstField(id, rest);
    Assoc([ct], varint, behind);
    TrueReads(id, buf, p, EncodeFields(id, rest));
    SmallZigzag(buf, p + 1, ct, varint + behind);
    var next, end := ToInt16(Unzigzag(ct)), p + 1 + |EncodeFields(id, rest)|;
    FirstTrue(next, DecodeFields(next, buf, p + 2), rest, end);
    if r == Field(next, Bool(true)) {
      assert r.id == -1 && varint == [COMPACT_TRUE];
      assert [] + EncodeFields(-1, rest[1..]) == EncodeFields(-1, rest[1..]);
      TailTyped(rest);
      AfterTrueExactly(-1, rest[1..], buf, p + 2);
    }
  }

  // ----- anywhere in a struct -----

  /** Fields after one with id `last`, without a stop marker. */
  function EncodeSome(last: int16, fields: seq<Field>): bytes
    requires FieldsTyped(fields)
    decreases fields
  {
    if fields == [] then [] else EncodeField(last, fields[0]) + EncodeSome(fields[0].id, fields[1..])
  }

  function LastId(last: int16, fields: seq<Field>): int16 {
    if fields == [] then last else fields[|fields| - 1].id
  }

  lemma {:induction false} SomeRead(last: int16, fields: seq<Field>, rest: bytes, buf: bytes, pos: nat)
    requires FieldsTyped(fields) && |buf| < TWO_63 && At(buf, pos, EncodeSome(last, fields) + rest)
    ensures var p := pos + |EncodeSome(last, fields)|;
            At(buf, p, rest) && DecodeFields(last, buf, pos) ==
                                Before(CanonFields(fields), DecodeFields(LastId(last, fields), buf, p))
    decreases fields
  {
    hide EncodeField, FieldTyped, CanonField, DecodeFields;
    if fields == [] {
      assert [] + rest == rest;
      BeforeNothing(DecodeFields(last, buf, pos));
    } else {
      var f := fields[0];
      var first, others := EncodeField(last, f), EncodeSome(f.id, fields[1..]);
      Assoc(first, others, rest);
      AtSplit(buf, pos, first, others + rest);
      SomeRead(f.id, fields[1..], rest, buf, pos + |first|);
      OneFieldRead(last, f, buf, pos);
      BeforeTwice([CanonField(f)], CanonFields(fields[1..]),
          DecodeFields(LastId(last, fields), buf, pos + |first| + |others|));
    }
  }

  lemma {:induction false} OneFieldRead(last: int16, f: Field, buf: bytes, pos: nat)
    requires FieldTyped(f) && |buf| < TWO_63 && At(buf, pos, EncodeField(last, f))
    ensures DecodeFields(last, buf, pos) ==
            Before([CanonField(f)], DecodeFields(f.id, buf, pos + |EncodeField(last, f)|))
  {
    hide EncodeField, FieldHeader, ReadHeader, DecodeFieldValue, FieldType, CanonField;
    FieldReadsBack(last, f, buf, pos);
  }

  lemma {:induction false} CanonTwice(a: seq<Field>, b: seq<Field>)
    ensures CanonFields(a + b) == CanonFields(a) + CanonFields(b)
    decreases a
  {
    if a == [] {
      assert a + b == b;
    } else {
      assert (a + b)[1..] == a[1..] + b;
      CanonTwice(a[1..], b);
    }
  }

  lemma {:induction false} SameBehind<T>(done: seq<T>, r: Read<seq<T>>, xs: seq<T>, end: nat)
    ensures Before(done, r) == Got(done + xs, end) <==> r == Got(xs, end)
  {
    if r.Got? && done + r.value == done + xs {
      assert (done + r.value)[|done|..] == r.value;
      assert (done + xs)[|done|..] == xs;
    }
  }

  /** What the calls write for a struct with one bool field whose value has a
      call of its own. */
  function EncodeStruct(before: seq<Field>, id: int16, b: bool, rest: seq<Field>): bytes
    requires FieldsTyped(before) && FieldsTyped(rest)
  {
    EncodeSome(0, before) + (SeparateBool(LastId(0, before), id, b) + EncodeFields(id, rest))
  }

  /** Such a struct reads back exactly if the value is true and the next field is
      a true bool of one of seven pairs of ids. If the value is false, the struct
      ends there, and the value that is read is true. */
  lemma {:induction false} SeparateBoolExactly(before: seq<Field>, id: int16, b: bool, rest: seq<Field>, buf: bytes,
          pos: nat)
    requires FieldsTyped(before) && FieldsTyped(rest) && |buf| < TWO_63
    requires At(buf, pos, EncodeStruct(before, id, b, rest))
    ensures Decode(TYPE_STRUCT, buf, pos) ==
            Got(Struct(CanonFields(before + ([Field(id, Bool(b))] + rest))), pos + |EncodeStruct(before, id, b, rest)|)
            <==> b && ReadsAsNext(id, rest)
    ensures !b ==> Decode(TYPE_STRUCT, buf, pos) ==
                   Got(Struct(CanonFields(before) + [Field(id, Bool(true))]),
                       pos + |EncodeSome(0, before)| + |SeparateBool(LastId(0, before), id, b)|)
  {
    hide EncodeSome, SeparateBool, EncodeFields, DecodeFields, CanonFields, Canon, ReadsAsNext;
    var last, p := LastId(0, before), pos + |EncodeSome(0, before)|;
    var field, others := SeparateBool(last, id, b), EncodeFields(id, rest);
    SomeRead(0, before, field + others, buf, pos);
    AtSplit(buf, p, field, others);
    SeparateBoolMisread(last, id, b, buf, p);
    var end := p + |field| + |others|;
    var fields := [Field(id, Bool(b))] + rest;
    CanonTwice(before, fields);
    SameBehind(CanonFields(before), DecodeFields(last, buf, p), CanonFields(fields), end);
    OneSeparate(last, id, b, rest, buf, p);
    StructIs(buf, pos);
  }

  lemma {:induction false} StructIs(buf: bytes, pos: nat)
    ensures Decode(TYPE_STRUCT, buf, pos) ==
            match DecodeFields(0, buf, pos)
            case Bad(e) => Bad(e)
            case Got(fields, next) => Got(Struct(fields), next)
  {
    hide DecodeFields;
  }

  lemma {:induction false} OneSeparate(last: int16, id: int16, b: bool, rest: seq<Field>, buf: bytes, p: nat)
    requires FieldsTyped(rest) && |buf| < TWO_63
    requires At(buf, p, SeparateBool(last, id, b) + EncodeFields(id, rest))
    ensures DecodeFields(last, buf, p) ==
            Got(CanonFields([Field(id, Bool(b))] + rest),
                p + |SeparateBool(last, id, b)| + |EncodeFields(id, rest)|)
            <==> b && ReadsAsNext(id, rest)
  {
    hide EncodeFields, DecodeFields, CanonFields, ReadsAsNext, FieldHeader;
    var header, others := FieldHeader(last, COMPACT_TRUE, id), EncodeFields(id, rest);
    var fields, value := [Field(id, Bool(b))] + rest, Encode(Bool(b));
    var q, end := p + |header|, p + |SeparateBool(last, id, b)| + |others|;
    assert SeparateBool(last, id, b) == header + value;
    AtSplit(buf, p, SeparateBool(last, id, b), others);
    SeparateBoolMisread(last, id, b, buf, p);
    FirstTrue(id, DecodeFields(id, buf, q), fields, end);
    assert fields[1..] == rest;
    if b {
      Assoc(header, value, others);
      AtSplit(buf, p, header, value + others);
      AfterTrueExactly(id, rest, buf, q);
    }
  }
}
