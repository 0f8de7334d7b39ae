/** Packed repeated fields: what is written for a list of numbers, what a packed
    reader returns, and that the two agree. */
module Packed {
  import opened Bytes
  import opened Wire

  /** How the numbers of a list are written. */
  datatype Packing = Varints | Fixed32s | Fixed64s

  predicate FitsPacking(k: Packing, v: nat) {
    v < if k == Fixed32s then TWO_32 else TWO_64
  }

  predicate AllFit(k: Packing, values: seq<nat>) {
    forall i :: 0 <= i < |values| ==> FitsPacking(k, values[i])
  }

  function NumberBytes(k: Packing, v: nat): (s: bytes)
    ensures s != []
  {
    match k
    case Varints => VarintBytes(v)
    case Fixed32s => LittleEndian(v, 4)
    case Fixed64s => LittleEndian(v, 8)
  }

  function PackedBytes(k: Packing, values: seq<nat>): bytes {
    if values == [] then [] else NumberBytes(k, values[0]) + PackedBytes(k, values[1..])
  }

  function ReadNumber(k: Packing, buf: bytes, pos: nat): (r: Read<nat>)
    ensures r.Got? ==> pos < r.next <= |buf| && FitsPacking(k, r.value)
  {
    match k
    case Varints => ReadVarint(buf, pos)
    case Fixed32s => ReadFixed32(buf, pos)
    case Fixed64s => ReadFixed64(buf, pos)
  }

  /** Numbers from pos to the end of the buffer. */
  function ReadNumbers(k: Packing, buf: bytes, pos: nat): Read<seq<nat>>
    decreases |buf| - pos
  {
    if pos >= |buf| then Got([], pos)
    else
      match ReadNumber(k, buf, pos)
      case Bad(e) => Bad(e)
      case Got(v, next) => Before([v], ReadNumbers(k, buf, next))
  }

  /** A packed field behind its tag: a delimited record of numbers. */
  function ReadPacked(k: Packing, buf: bytes, pos: nat): Read<seq<nat>> {
    match ReadBytes(buf, pos)
    case Bad(e) => Bad(e)
    case Got(b, next) =>
      match ReadNumbers(k, b, 0)
      case Bad(e) => Bad(e)
      case Got(values, _) => Got(values, next)
  }

  lemma {:induction false} NumberReadsBack(k: Packing, v: nat, buf: bytes, pos: nat)
    requires FitsPacking(k, v) && At(buf, pos, NumberBytes(k, v))
    ensures ReadNumber(k, buf, pos) == Got(v, pos + |NumberBytes(k, v)|)
  {
    hide LittleEndian, VarintBytes, ReadVarint, ReadFixed32, ReadFixed64;
    match k
    case Varints => VarintReadsBack(buf, pos, v);
    case Fixed32s => Fixed32ReadsBack(buf, pos, v);
    case Fixed64s => Fixed64ReadsBack(buf, pos, v);
  }

  lemma {:induction false} NumbersReadBack(k: Packing, values: seq<nat>, buf: bytes, pos: nat)
    requires AllFit(k, values) && At(buf, pos, PackedBytes(k, values)) && pos + |PackedBytes(k, values)| == |buf|
    ensures ReadNumbers(k, buf, pos) == Got(values, |buf|)
    decreases values
  {
    hide NumberBytes, ReadNumber;
    if values != [] {
      AtSplit(buf, pos, NumberBytes(k, values[0]), PackedBytes(k, values[1..]));
      NumberReadsBack(k, values[0], buf, pos);
      NumbersReadBack(k, values[1..], buf, pos + |NumberBytes(k, values[0])|);
      assert [values[0]] + values[1..] == values;
    }
  }

  /** Every list of numbers reads back from its packed field, in each packing. */
  lemma {:induction false} PackedReadsBack(k: Packing, values: seq<nat>, buf: bytes, pos: nat)
    requires |buf| < TWO_63 && AllFit(k, values)
    requires At(buf, pos, Delimited(PackedBytes(k, values)))
    ensures ReadPacked(k, buf, pos) == Got(values, pos + |Delimited(PackedBytes(k, values))|)
  {
    var b := PackedBytes(k, values);
    DelimitedReadsBack(buf, pos, b);
    assert At(b, 0, b);
    NumbersReadBack(k, values, b, 0);
  }

  lemma {:induction false} NoNumbers(k: Packing)
    ensures PackedBytes(k, []) == []
  {
  }

  lemma {:induction false} OneMoreNumber(k: Packing, values: seq<nat>, i: nat)
    requires i < |values|
    ensures PackedBytes(k, values[..i + 1]) == PackedBytes(k, values[..i]) + NumberBytes(k, values[i])
    decreases i
  {
    if i == 0 {
      assert values[..1] == [values[0]] && values[..0] == [];
      assert [values[0]][1..] == [];
    } else {
      OneMoreNumber(k, values[1..], i - 1);
      assert values[..i + 1][1..] == values[1..][..i] && values[..i][1..] == values[1..][..i - 1];
      Assoc(NumberBytes(k, values[0]), PackedBytes(k, values[1..][..i - 1]), NumberBytes(k, values[i]));
    }
  }
}
