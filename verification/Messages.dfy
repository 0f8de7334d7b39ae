/** Protobuf messages as trees of fields, for any schema: how a tree is written,
    how bytes are read into a tree, and that the two are inverse. */
module Messages {
  import opened Bytes
  import opened Results
  import opened Wire

  /** How a decoder reads the value of a field, whatever wire type its tag
      carries; the value of a message field is of another message type. */
  datatype Kind = VarintKind | Fixed64Kind | BytesKind | MessageKind(sub: nat) | UnknownKind

  /** For each message type, the kind of each field number. */
  type Schema = (nat, uint32) -> Kind

  /** A field of a message. Alien holds the bytes of a field that the message
      type does not know; decoding never yields one. */
  datatype Field =
    | VarintField(num: uint32, v: uint64)
    | Fixed64Field(num: uint32, v: uint64)
    | BytesField(num: uint32, b: bytes)
    | MessageField(num: uint32, fields: seq<Field>)
    | Alien(raw: bytes)

  // ----- writing -----

  function EncodeField(f: Field): bytes {
    match f
    case VarintField(num, v) => TagBytes(num, WIRE_VARINT) + VarintBytes(v)
    case Fixed64Field(num, v) => TagBytes(num, WIRE_64BIT) + LittleEndian(v, 8)
    case BytesField(num, b) => TagBytes(num, WIRE_BYTES) + Delimited(b)
    case MessageField(num, fields) => TagBytes(num, WIRE_BYTES) + Delimited(Encode(fields))
    case Alien(raw) => raw
  }

  function Encode(fields: seq<Field>): bytes {
    if fields == [] then [] else EncodeField(fields[0]) + Encode(fields[1..])
  }

  // ----- reading -----

  /** Reads one field: none if its number is unknown, else one. */
  function ReadOne(s: Schema, t: nat, buf: bytes, pos: nat): (r: Read<seq<Field>>)
    ensures r.Got? ==> pos < r.next <= |buf|
    decreases |buf| - pos, 1
  {
    match ReadTag(buf, pos)
    case Bad(e) => Bad(e)
    case Got((num, wireType), p) => ReadValue(s, s(t, num), num, wireType, buf, p)
  }

  function ReadValue(s: Schema, kind: Kind, num: uint32, wireType: WireType, buf: bytes, pos: nat): (r: Read<seq<Field>>)
    ensures r.Got? ==> pos < r.next <= |buf|
    decreases |buf| - pos, 0
  {
    match kind
    case VarintKind => (
      match ReadVarint(buf, pos)
      case Bad(e) => Bad(e)
      case Got(v, next) => Got([VarintField(num, v)], next))
    case Fixed64Kind => (
      match ReadFixed64(buf, pos)
      case Bad(e) => Bad(e)
      case Got(v, next) => Got([Fixed64Field(num, v)], next))
    case BytesKind => (
      match ReadBytes(buf, pos)
      case Bad(e) => Bad(e)
      case Got(b, next) => Got([BytesField(num, b)], next))
    case MessageKind(sub) => (
      match ReadBytes(buf, pos)
      case Bad(e) => Bad(e)
      case Got(b, next) => (
        match Decode(s, sub, b, 0)
        case Err(e) => Bad(e)
        case Ok(fields) => Got([MessageField(num, fields)], next)))
    case UnknownKind => (
      match Skip(wireType, buf, pos)
      case Bad(e) => Bad(e)
      case Got(_, next) => Got([], next))
  }

  /** Reads fields from pos to the end of the buffer. */
  function Decode(s: Schema, t: nat, buf: bytes, pos: nat): Result<seq<Field>, Error>
    decreases |buf| - pos, 2
  {
    if pos >= |buf| then Ok([])
    else
      match ReadOne(s, t, buf, pos)
      case Bad(e) => Err(e)
      case Got(fs, next) => Prepend(fs, Decode(s, t, buf, next))
  }

  function Prepend(fs: seq<Field>, r: Result<seq<Field>, Error>): Result<seq<Field>, Error> {
    if r.Ok? then Ok(fs + r.value) else r
  }

  // ----- well-formed trees -----

  /** Bytes that the decoder of t passes over as one unknown field. */
  predicate IsAlien(s: Schema, t: nat, raw: bytes) {
    ReadOne(s, t, raw, 0) == Got([], |raw|)
  }

  predicate FieldFits(s: Schema, t: nat, f: Field)
    decreases f
  {
    match f
    case VarintField(num, _) => s(t, num) == VarintKind
    case Fixed64Field(num, _) => s(t, num) == Fixed64Kind
    case BytesField(num, _) => s(t, num) == BytesKind
    case MessageField(num, fields) => s(t, num).MessageKind? && Fits(s, s(t, num).sub, fields)
    case Alien(raw) => IsAlien(s, t, raw)
  }

  predicate Fits(s: Schema, t: nat, fields: seq<Field>)
    decreases fields
  {
    fields == [] || (FieldFits(s, t, fields[0]) && Fits(s, t, fields[1..]))
  }

  /** The tree without its unknown fields, at every depth. */
  function StripField(f: Field): seq<Field> {
    match f
    case MessageField(num, fields) => [MessageField(num, Strip(fields))]
    case Alien(_) => []
    case _ => [f]
  }

  function Strip(fields: seq<Field>): seq<Field> {
    if fields == [] then [] else StripField(fields[0]) + Strip(fields[1..])
  }

  // ----- every tree reads back, without its unknown fields -----

  lemma {:induction false} PrependTwice(a: seq<Field>, b: seq<Field>, r: Result<seq<Field>, Error>)
    ensures Prepend(a, Prepend(b, r)) == Prepend(a + b, r)
  {
    if r.Ok? {
      assert a + (b + r.value) == a + b + r.value;
    }
  }

  lemma {:induction false} FieldReadsBack(s: Schema, t: nat, buf: bytes, pos: nat, f: Field)
    requires |buf| < TWO_63
    requires FieldFits(s, t, f) && At(buf, pos, EncodeField(f))
    ensures ReadOne(s, t, buf, pos) == Got(StripField(f), pos + |EncodeField(f)|)
    decreases f
  {
    hide Encode, Decode, Delimited, LittleEndian, FromLittleEndian, VarintBytes, ReadRaw, Strip, Fits;
    match f
    case VarintField(num, v) =>
      AtSplit(buf, pos, TagBytes(num, WIRE_VARINT), VarintBytes(v));
      TagReadsBack(buf, pos, num, WIRE_VARINT);
      VarintReadsBack(buf, pos + |TagBytes(num, WIRE_VARINT)|, v);
    case Fixed64Field(num, v) =>
      AtSplit(buf, pos, TagBytes(num, WIRE_64BIT), LittleEndian(v, 8));
      TagReadsBack(buf, pos, num, WIRE_64BIT);
      Fixed64ReadsBack(buf, pos + |TagBytes(num, WIRE_64BIT)|, v);
    case BytesField(num, b) =>
      DelimitedFieldReadsBack(buf, pos, num, b);
    case MessageField(num, fields) =>
      MessageReadsBack(s, t, buf, pos, num, fields);
    case Alien(raw) =>
      AlienMoves(s, t, raw, buf, pos);
  }

  lemma {:induction false} MessageReadsBack(s: Schema, t: nat, buf: bytes, pos: nat, num: uint32, fields: seq<Field>)
    requires |buf| < TWO_63
    requires s(t, num).MessageKind? && Fits(s, s(t, num).sub, fields)
    requires At(buf, pos, EncodeField(MessageField(num, fields)))
    ensures ReadOne(s, t, buf, pos) ==
            Got([MessageField(num, Strip(fields))], pos + |EncodeField(MessageField(num, fields))|)
    decreases fields, 1
  {
    hide Delimited, VarintBytes, ReadRaw, ReadVarint;
    var inner := Encode(fields);
    DelimitedFieldReadsBack(buf, pos, num, inner);
    assert inner[0..0 + |inner|] == inner;
    FieldsReadBack(s, s(t, num).sub, inner, 0, fields);
    assert Strip(fields) + [] == Strip(fields);
  }

  lemma {:induction false} FieldsReadBack(s: Schema, t: nat, buf: bytes, pos: nat, fields: seq<Field>)
    requires |buf| < TWO_63
    requires Fits(s, t, fields) && At(buf, pos, Encode(fields))
    ensures Decode(s, t, buf, pos) == Prepend(Strip(fields), Decode(s, t, buf, pos + |Encode(fields)|))
    decreases fields, 0
  {
    hide EncodeField, StripField, ReadOne, FieldFits;
    if fields == [] {
      var r := Decode(s, t, buf, pos);
      assert r.Ok? ==> [] + r.value == r.value;
    } else {
      AtSplit(buf, pos, EncodeField(fields[0]), Encode(fields[1..]));
      FieldReadsBack(s, t, buf, pos, fields[0]);
      var next := pos + |EncodeField(fields[0])|;
      FieldsReadBack(s, t, buf, next, fields[1..]);
      PrependTwice(StripField(fields[0]), Strip(fields[1..]), Decode(s, t, buf, pos + |Encode(fields)|));
    }
  }

  lemma {:induction false} DelimitedFieldReadsBack(buf: bytes, pos: nat, num: uint32, b: bytes)
    requires |buf| < TWO_63
    requires At(buf, pos, TagBytes(num, WIRE_BYTES) + Delimited(b))
    ensures |b| < |buf|
    ensures ReadTag(buf, pos) == Got((num, WIRE_BYTES), pos + |TagBytes(num, WIRE_BYTES)|)
    ensures ReadBytes(buf, pos + |TagBytes(num, WIRE_BYTES)|) ==
            Got(b, pos + |TagBytes(num, WIRE_BYTES) + Delimited(b)|)
  {
    AtSplit(buf, pos, TagBytes(num, WIRE_BYTES), Delimited(b));
    TagReadsBack(buf, pos, num, WIRE_BYTES);
    DelimitedReadsBack(buf, pos + |TagBytes(num, WIRE_BYTES)|, b);
  }

  lemma {:induction false} AlienMoves(s: Schema, t: nat, raw: bytes, buf: bytes, pos: nat)
    requires |buf| < TWO_63 && IsAlien(s, t, raw) && At(buf, pos, raw)
    ensures ReadOne(s, t, buf, pos) == Got([], pos + |raw|)
  {
    hide ReadOne;
    assert forall k :: 0 <= k < |raw| ==> raw[k] == buf[pos..pos + |raw|][k];
    OneMoves(s, t, raw, 0, buf, pos);
  }

  /** The main result of this layer: whatever unknown fields are put wherever
      in a message, at any depth, decoding yields the tree without them. */
  lemma {:induction false} TreeReadsBack(s: Schema, t: nat, fields: seq<Field>)
    requires Fits(s, t, fields) && |Encode(fields)| < TWO_63
    ensures Decode(s, t, Encode(fields), 0) == Ok(Strip(fields))
  {
    var buf := Encode(fields);
    assert buf[0..0 + |buf|] == buf;
    FieldsReadBack(s, t, buf, 0, fields);
    assert Strip(fields) + [] == Strip(fields);
  }

  // ----- decoding a stretch of fields does not depend on what surrounds it -----

  lemma {:induction false} ValueMoves(s: Schema, kind: Kind, num: uint32, wireType: WireType, a: bytes, i: nat,
          b: bytes, j: nat)
    requires |b| < TWO_63
    requires ReadValue(s, kind, num, wireType, a, i).Got?
    requires Same(a, i, ReadValue(s, kind, num, wireType, a, i).next, b, j)
    ensures var r := ReadValue(s, kind, num, wireType, a, i);
            ReadValue(s, kind, num, wireType, b, j) == Got(r.value, j + r.next - i)
  {
    match kind
    case VarintKind => VarintMoves(a, i, b, j);
    case Fixed64Kind => assert a[i..i + 8] == b[j..j + 8];
    case BytesKind => BytesMove(a, i, b, j);
    case MessageKind(_) => BytesMove(a, i, b, j);
    case UnknownKind => SkipMoves(wireType, a, i, b, j);
  }

  lemma {:induction false} OneMoves(s: Schema, t: nat, a: bytes, i: nat, b: bytes, j: nat)
    requires |b| < TWO_63
    requires ReadOne(s, t, a, i).Got?
    requires Same(a, i, ReadOne(s, t, a, i).next, b, j)
    ensures var r := ReadOne(s, t, a, i); ReadOne(s, t, b, j) == Got(r.value, j + r.next - i)
  {
    var Got((num, wireType), p) := ReadTag(a, i);
    VarintMoves(a, i, b, j);
    ValueMoves(s, s(t, num), num, wireType, a, p, b, j + p - i);
  }

  lemma {:induction false} DecodeMoves(s: Schema, t: nat, a: bytes, i: nat, b: bytes, j: nat)
    requires |b| < TWO_63
    requires i <= |a| && Same(a, i, |a|, b, j)
    requires Decode(s, t, a, i).Ok?
    ensures Decode(s, t, b, j) == Prepend(Decode(s, t, a, i).value, Decode(s, t, b, j + |a| - i))
    decreases |a| - i
  {
    hide ReadOne;
    if i == |a| {
      var r := Decode(s, t, b, j);
      assert r.Ok? ==> [] + r.value == r.value;
    } else {
      OneMoves(s, t, a, i, b, j);
      var Got(fs, next) := ReadOne(s, t, a, i);
      DecodeMoves(s, t, a, next, b, j + next - i);
      PrependTwice(fs, Decode(s, t, a, next).value, Decode(s, t, b, j + |a| - i));
    }
  }

  /** Messages concatenate: the fields of a ++ b are those of a, then those of b. */
  lemma {:induction false} DecodeConcat(s: Schema, t: nat, a: bytes, b: bytes)
    requires |a + b| < TWO_63
    requires Decode(s, t, a, 0).Ok? && Decode(s, t, b, 0).Ok?
    ensures Decode(s, t, a + b, 0) == Ok(Decode(s, t, a, 0).value + Decode(s, t, b, 0).value)
  {
    DecodeMoves(s, t, a, 0, a + b, 0);
    DecodeMoves(s, t, b, 0, a + b, |a|);
    var fb := Decode(s, t, b, 0).value;
    assert fb + [] == fb;
  }

  /** Bytes that decode can be extended by one unknown field, or have it put
      between any two of their fields, without any change to what is decoded. */
  lemma {:induction false} AlienInserted(s: Schema, t: nat, a: bytes, raw: bytes, b: bytes)
    requires |a + raw + b| < TWO_63
    requires Decode(s, t, a, 0).Ok? && IsAlien(s, t, raw) && Decode(s, t, b, 0).Ok?
    ensures Decode(s, t, a + raw + b, 0) == Decode(s, t, a + b, 0)
  {
    var fa := Decode(s, t, a, 0).value;
    var none: seq<Field> := [];
    assert Decode(s, t, raw, 0) == Ok(none) by {
      assert none + none == none;
    }
    DecodeConcat(s, t, a, raw);
    DecodeConcat(s, t, a + raw, b);
    DecodeConcat(s, t, a, b);
    assert fa + none == fa;
  }

  /** Any number that the message type does not know, with any of the four wire
      types, makes an unknown field. */
  lemma {:induction false} UnknownNumberIsAlien(s: Schema, t: nat, num: uint32, v: uint64, b: bytes)
    requires s(t, num) == UnknownKind
    ensures var raw := TagBytes(num, WIRE_VARINT) + VarintBytes(v); |raw| < TWO_63 ==> IsAlien(s, t, raw)
    ensures |b| == 8 ==> IsAlien(s, t, TagBytes(num, WIRE_64BIT) + b)
    ensures var raw := TagBytes(num, WIRE_BYTES) + Delimited(b); |raw| < TWO_63 ==> IsAlien(s, t, raw)
    ensures |b| == 4 ==> IsAlien(s, t, TagBytes(num, WIRE_32BIT) + b)
  {
    AlienTag(s, t, num, WIRE_VARINT, VarintBytes(v));
    VarintReadsBack(TagBytes(num, WIRE_VARINT) + VarintBytes(v), |TagBytes(num, WIRE_VARINT)|, v);
    AlienTag(s, t, num, WIRE_64BIT, b);
    AlienTag(s, t, num, WIRE_BYTES, Delimited(b));
    var raw := TagBytes(num, WIRE_BYTES) + Delimited(b);
    if |raw| < TWO_63 {
      DelimitedReadsBack(raw, |TagBytes(num, WIRE_BYTES)|, b);
    }
    AlienTag(s, t, num, WIRE_32BIT, b);
  }

  lemma {:induction false} AlienTag(s: Schema, t: nat, num: uint32, wireType: WireType, payload: bytes)
    requires s(t, num) == UnknownKind
    ensures var tag := TagBytes(num, wireType);
            At(tag + payload, |tag|, payload) &&
            ReadOne(s, t, tag + payload, 0) == ReadValue(s, UnknownKind, num, wireType, tag + payload, |tag|)
  {
    var tag := TagBytes(num, wireType);
    assert (tag + payload)[0..|tag|] == tag;
    assert (tag + payload)[|tag|..|tag| + |payload|] == payload;
    TagReadsBack(tag + payload, 0, num, wireType);
  }

  // ----- trees and concatenation -----

  lemma {:induction false} EncodeConcat(a: seq<Field>, b: seq<Field>)
    ensures Encode(a + b) == Encode(a) + Encode(b)
  {
    hide EncodeField;
    if a == [] {
      assert a + b == b;
    } else {
      EncodeConcat(a[1..], b);
      assert (a + b)[1..] == a[1..] + b;
      Assoc(EncodeField(a[0]), Encode(a[1..]), Encode(b));
    }
  }

  lemma {:induction false} EncodeOne(f: Field)
    ensures Encode([f]) == EncodeField(f)
  {
    assert Encode([f]) == EncodeField(f) + Encode([]);
  }

  lemma {:induction false} FitsConcat(s: Schema, t: nat, a: seq<Field>, b: seq<Field>)
    ensures Fits(s, t, a + b) <==> Fits(s, t, a) && Fits(s, t, b)
  {
    if a == [] {
      assert a + b == b;
    } else {
      FitsConcat(s, t, a[1..], b);
      assert (a + b)[1..] == a[1..] + b;
    }
  }
}
