/** W3C traceparent: Inject writes a span context into a carrier's headers, and
    Extract reads it back. */
module TraceContext {
  import opened Bytes
  import opened Text
  import TraceState

  datatype SpanContext = SpanContext(traceID: TraceID, spanID: SpanID, flags: byte, state: seq<TraceState.Entry>,
      isRemote: bool)

  const NO_CONTEXT := SpanContext([0, 0, 0, 0, 0, 0, 0, 0, 0, 0, 0, 0, 0, 0, 0, 0], [0, 0, 0, 0, 0, 0, 0, 0], 0,
      [], false)

  predicate NonZero(b: bytes) {
    exists i :: 0 <= i < |b| && b[i] != 0
  }

  predicate IsValid(sc: SpanContext) {
    NonZero(sc.traceID) && NonZero(sc.spanID)
  }

  // ----- hexadecimal text -----

  const HEX_DIGITS := "0123456789abcdef"

  /** Also upper-case digits; -1 for anything else. */
  function HexVal(c: char): (v: int)
    ensures -1 <= v < 16
  {
    if '0' <= c <= '9' then c as int - '0' as int
    else if 'a' <= c <= 'f' then c as int - 'a' as int + 10
    else if 'A' <= c <= 'F' then c as int - 'A' as int + 10
    else -1
  }

  /** The shift is done in eight signed bits: a high digit from 8 on makes it negative. */
  function HexToByte(hi: char, lo: char): int {
    var h, l := HexVal(hi), HexVal(lo);
    if h < 0 || l < 0 then -1 else (if h >= 8 then h * 16 - 256 else h * 16) + l
  }

  function HexEncode(b: bytes): (s: string)
    ensures |s| == 2 * |b|
  {
    if b == [] then "" else [HEX_DIGITS[b[0] / 16], HEX_DIGITS[b[0] % 16]] + HexEncode(b[1..])
  }

  /** hex.Decode of package encoding/hex. */
  function HexDecode(s: string): (r: Option<bytes>)
    ensures r.Some? ==> 2 * |r.value| == |s|
  {
    if s == "" then Some([])
    else if |s| == 1 || HexVal(s[0]) < 0 || HexVal(s[1]) < 0 then None
    else
      match HexDecode(s[2..])
      case None => None
      case Some(rest) => Some([HexVal(s[0]) * 16 + HexVal(s[1])] + rest)
  }

  lemma {:induction false} DigitReads(n: nat)
    requires n < 16
    ensures HexVal(HEX_DIGITS[n]) == n
  {
  }

  lemma {:induction false} HexReads(b: bytes)
    ensures HexDecode(HexEncode(b)) == Some(b)
  {
    hide HexVal, HexEncode, HexDecode;
    if b == [] {
      NoDigits();
    } else {
      HexReads(b[1..]);
      DigitReads(b[0] / 16);
      DigitReads(b[0] % 16);
      FirstTwoDigits(b);
      TwoDigitsRead(HEX_DIGITS[b[0] / 16], HEX_DIGITS[b[0] % 16], HexEncode(b[1..]));
      assert b == [b[0] / 16 * 16 + b[0] % 16] + b[1..];
    }
  }

  lemma {:induction false} NoDigits()
    ensures HexEncode([]) == "" && HexDecode("") == Some([])
  {
  }

  lemma {:induction false} FirstTwoDigits(b: bytes)
    requires b != []
    ensures HexEncode(b) == [HEX_DIGITS[b[0] / 16], HEX_DIGITS[b[0] % 16]] + HexEncode(b[1..])
  {
  }

  lemma {:induction false} TwoDigitsRead(hi: char, lo: char, rest: string)
    requires HexVal(hi) >= 0 && HexVal(lo) >= 0 && HexDecode(rest).Some?
    ensures HexDecode([hi, lo] + rest) == Some([HexVal(hi) * 16 + HexVal(lo)] + HexDecode(rest).value)
  {
    hide HexVal;
    assert ([hi, lo] + rest)[2..] == rest;
  }

  // ----- the traceparent header -----

  function Traceparent(sc: SpanContext): string {
    "00-" + HexEncode(sc.traceID) + "-" + HexEncode(sc.spanID) + "-" + HexEncode([sc.flags])
  }

  function ParseTraceparent(tp: string): SpanContext {
    if |tp| != 55 then NO_CONTEXT
    else if tp[0] != '0' || tp[1] != '0' || tp[2] != '-' || tp[35] != '-' || tp[52] != '-' then NO_CONTEXT
    else
      var traceID, spanID, flags := HexDecode(tp[3..35]), HexDecode(tp[36..52]), HexToByte(tp[53], tp[54]);
      if traceID.None? || spanID.None? || flags < 0 then NO_CONTEXT
      else SpanContext(traceID.value, spanID.value, flags % 256, [], true)
  }

  lemma {:induction false} TraceparentParts(sc: SpanContext)
    ensures var tp := Traceparent(sc);
            |tp| == 55 && tp[0] == '0' && tp[1] == '0' && tp[2] == '-' && tp[35] == '-' && tp[52] == '-' &&
            tp[3..35] == HexEncode(sc.traceID) && tp[36..52] == HexEncode(sc.spanID) &&
            tp[53] == HEX_DIGITS[sc.flags / 16] && tp[54] == HEX_DIGITS[sc.flags % 16]
  {
    hide HexEncode;
    var t, s := HexEncode(sc.traceID), HexEncode(sc.spanID);
    FlagsText(sc.flags);
    var tp := "00-" + t + "-" + s + "-" + HexEncode([sc.flags]);
    assert ("00-" + t + "-")[3..35] == t;
    assert tp[3..35] == t && tp[36..52] == s;
  }

  lemma {:induction false} FlagsText(flags: byte)
    ensures HexEncode([flags]) == [HEX_DIGITS[flags / 16], HEX_DIGITS[flags % 16]]
  {
    assert [flags][1..] == [];
    assert HexEncode([]) == "";
  }

  /** A header reads back exactly if the highest flag bit is clear; otherwise it is
      rejected. */
  lemma {:induction false} TraceparentReads(sc: SpanContext)
    ensures ParseTraceparent(Traceparent(sc)) ==
            if sc.flags < 0x80 then SpanContext(sc.traceID, sc.spanID, sc.flags, [], true) else NO_CONTEXT
  {
    hide Traceparent, HexEncode, HexDecode, HexVal;
    TraceparentParts(sc);
    HexReads(sc.traceID);
    HexReads(sc.spanID);
    DigitReads(sc.flags / 16);
    DigitReads(sc.flags % 16);
  }

  /** The digits of either case, and nothing else. */
  lemma {:induction false} HexDigitsAre(c: char)
    ensures forall n :: 0 <= n < 16 ==> HexVal("0123456789abcdef"[n]) == n && HexVal("0123456789ABCDEF"[n]) == n
    ensures HexVal(c) == -1 <==> c !in "0123456789abcdef" && c !in "0123456789ABCDEF"
  {
    if HexVal(c) >= 0 {
      assert c == "0123456789abcdef"[HexVal(c)] || c == "0123456789ABCDEF"[HexVal(c)];
    }
  }

  predicate AllHex(s: string) {
    forall i :: 0 <= i < |s| ==> HexVal(s[i]) >= 0
  }

  /** Two digits make a byte, the high one first. */
  lemma {:induction false} HexDecodeExactly(s: string)
    ensures HexDecode(s).Some? <==> |s| % 2 == 0 && AllHex(s)
    ensures HexDecode(s).Some? ==>
              forall i :: 0 <= i < |HexDecode(s).value| ==>
                HexDecode(s).value[i] == 16 * HexVal(s[2 * i]) + HexVal(s[2 * i + 1])
    decreases |s|
  {
    hide HexVal;
    if |s| >= 2 {
      HexDecodeExactly(s[2..]);
      AllHexStep(s);
    }
  }

  lemma {:induction false} AllHexStep(s: string)
    requires |s| >= 2
    ensures AllHex(s) <==> HexVal(s[0]) >= 0 && HexVal(s[1]) >= 0 && AllHex(s[2..])
  {
    hide HexVal;
    assert forall i :: 2 <= i < |s| ==> s[i] == s[2..][i - 2];
  }

  /** Of lower-case digits. */
  lemma {:induction false} HexEncodeIs(b: bytes, i: nat)
    requires i < |b|
    ensures HexEncode(b)[2 * i] == "0123456789abcdef"[b[i] / 16]
    ensures HexEncode(b)[2 * i + 1] == "0123456789abcdef"[b[i] % 16]
    decreases i
  {
    if i > 0 {
      HexEncodeIs(b[1..], i - 1);
    }
  }

  /** The header by its characters. */
  lemma {:induction false} TraceparentIs(sc: SpanContext)
    ensures var (tp, digits) := (Traceparent(sc), "0123456789abcdef");
            |tp| == 55 && tp[..3] == "00-" && tp[35] == '-' && tp[52] == '-' &&
            (forall i :: 0 <= i < 16 ==> tp[3 + 2 * i] == digits[sc.traceID[i] / 16] &&
                                         tp[4 + 2 * i] == digits[sc.traceID[i] % 16]) &&
            (forall i :: 0 <= i < 8 ==> tp[36 + 2 * i] == digits[sc.spanID[i] / 16] &&
                                        tp[37 + 2 * i] == digits[sc.spanID[i] % 16]) &&
            tp[53] == digits[sc.flags / 16] && tp[54] == digits[sc.flags % 16]
  {
    hide Traceparent, HexEncode;
    TraceparentParts(sc);
    var tp := Traceparent(sc);
    forall i | 0 <= i < 16
      ensures tp[3 + 2 * i] == tp[3..35][2 * i] && tp[4 + 2 * i] == tp[3..35][2 * i + 1]
    {
    }
    forall i | 0 <= i < 16
      ensures tp[3 + 2 * i] == "0123456789abcdef"[sc.traceID[i] / 16]
      ensures tp[4 + 2 * i] == "0123456789abcdef"[sc.traceID[i] % 16]
    {
      HexEncodeIs(sc.traceID, i);
    }
    forall i | 0 <= i < 8
      ensures tp[36 + 2 * i] == "0123456789abcdef"[sc.spanID[i] / 16]
      ensures tp[37 + 2 * i] == "0123456789abcdef"[sc.spanID[i] % 16]
    {
      HexEncodeIs(sc.spanID, i);
      assert tp[36..52][2 * i] == tp[36 + 2 * i] && tp[36..52][2 * i + 1] == tp[37 + 2 * i];
    }
  }

  /** A header is accepted exactly if it has version 00, digits of either case in
      its three fields, and flags below 80; then these are the ids and flags. */
  lemma {:induction false} TraceparentExactly(tp: string)
    ensures var sc := ParseTraceparent(tp);
            (sc.isRemote <==>
               |tp| == 55 && tp[..3] == "00-" && tp[35] == '-' && tp[52] == '-' && AllHex(tp[3..35]) &&
               AllHex(tp[36..52]) && AllHex(tp[53..]) && tp[53] in "01234567") &&
            (!sc.isRemote ==>
               sc.state == [] && sc.flags == 0 && (forall i :: 0 <= i < 16 ==> sc.traceID[i] == 0) &&
               forall i :: 0 <= i < 8 ==> sc.spanID[i] == 0) &&
            (sc.isRemote ==>
               sc.state == [] && sc.flags == 16 * HexVal(tp[53]) + HexVal(tp[54]) &&
               (forall i :: 0 <= i < 16 ==>
                  sc.traceID[i] == 16 * HexVal(tp[3..35][2 * i]) + HexVal(tp[3..35][2 * i + 1])) &&
               (forall i :: 0 <= i < 8 ==>
                  sc.spanID[i] == 16 * HexVal(tp[36..52][2 * i]) + HexVal(tp[36..52][2 * i + 1])))
  {
    hide HexDecode;
    if |tp| == 55 {
      HexDecodeExactly(tp[3..35]);
      HexDecodeExactly(tp[36..52]);
      FlagDigits(tp[53], tp[54]);
      assert tp[53..] == [tp[53], tp[54]];
      assert tp[..3] == "00-" <==> tp[0] == '0' && tp[1] == '0' && tp[2] == '-' by {
        assert tp[..3] == [tp[0], tp[1], tp[2]];
      }
    }
  }

  lemma {:induction false} FlagDigits(hi: char, lo: char)
    ensures AllHex([hi, lo]) <==> HexVal(hi) >= 0 && HexVal(lo) >= 0
    ensures HexToByte(hi, lo) >= 0 <==> HexVal(lo) >= 0 && hi in "01234567"
    ensures HexToByte(hi, lo) >= 0 ==> HexToByte(hi, lo) == 16 * HexVal(hi) + HexVal(lo) < 128
  {
    assert [hi, lo][0] == hi && [hi, lo][1] == lo;
    if 0 <= HexVal(hi) < 8 {
      assert hi == "01234567"[HexVal(hi)];
    }
  }

  // ----- Inject and Extract -----

  function Header(headers: map<string, string>, key: string): string {
    if key in headers then headers[key] else ""
  }

  function Injected(sc: SpanContext, headers: map<string, string>): map<string, string> {
    if !IsValid(sc) then headers
    else
      var first := headers["traceparent" := Traceparent(sc)];
      if sc.state == [] then first else first["tracestate" := TraceState.Header(sc.state)]
  }

  /** The context after Extract, given the one before. */
  function Extracted(current: SpanContext, headers: map<string, string>): SpanContext {
    var tp := Header(headers, "traceparent");
    if tp == "" || !IsValid(ParseTraceparent(tp)) then current
    else
      var sc := ParseTraceparent(tp);
      var state := Header(headers, "tracestate");
      if state == "" || TraceState.Parse(state).Err? then sc
      else SpanContext(sc.traceID, sc.spanID, sc.flags, TraceState.Parse(state).value, true)
  }

  /** The trace state comes back: from its own header, or, when it is empty and no
      header is written, because the carrier held none that parses to entries. */
  predicate StateSurvives(sc: SpanContext, headers: map<string, string>) {
    if sc.state != [] then
      TraceState.AllClean(sc.state) && |sc.state| <= TraceState.MAX_ENTRIES &&
          TraceState.ByteSize(sc.state) <= TraceState.MAX_BYTES
    else
      var stale := TraceState.Parse(Header(headers, "tracestate"));
      stale.Err? || stale.value == []
  }

  /** For every valid span context and carrier: with flags from 0x80 on, nothing is
      extracted; below, the ids and flags come back, marked remote, and the whole
      context does exactly if its trace state survives. */
  lemma {:induction false} ExtractAfterInject(sc: SpanContext, current: SpanContext, headers: map<string, string>)
    requires IsValid(sc)
    ensures var r := Extracted(current, Injected(sc, headers));
            if sc.flags >= 0x80 then r == current
            else r.(state := sc.state) == sc.(isRemote := true) &&
                 (r == sc.(isRemote := true) <==> StateSurvives(sc, headers))
  {
    hide Traceparent, ParseTraceparent, TraceState.Parse, TraceState.Header, TraceState.AllClean, NonZero;
    TraceparentParts(sc);
    TraceparentReads(sc);
    NoContextInvalid();
    assert "traceparent" != "tracestate" by { assert |"traceparent"| != |"tracestate"|; }
    TraceState.ComesBackExactly(sc.state);
    if sc.state != [] {
      TraceState.HeaderFull(sc.state);
    }
    EmptyHeader();
  }

  /** Two headers are written, one if there is no trace state, and none for a
      context without ids. */
  lemma {:induction false} InjectedExactly(sc: SpanContext, headers: map<string, string>, key: string)
    ensures var valid := (exists i :: 0 <= i < 16 && sc.traceID[i] != 0) && exists i :: 0 <= i < 8 && sc.spanID[i] != 0;
            Header(Injected(sc, headers), key) ==
            if valid && key == "traceparent" then Traceparent(sc)
            else if valid && key == "tracestate" && sc.state != [] then TraceState.Header(sc.state)
            else Header(headers, key)
  {
    hide Traceparent, TraceState.Header;
    assert "traceparent" != "tracestate" by { assert |"traceparent"| != |"tracestate"|; }
  }

  /** What is extracted from any headers: nothing without an accepted traceparent
      that has ids; a trace state that does not parse is dropped. */
  lemma {:induction false} ExtractedExactly(current: SpanContext, headers: map<string, string>)
    ensures var tp := if "traceparent" in headers then headers["traceparent"] else "";
            var ts := if "tracestate" in headers then headers["tracestate"] else "";
            var sc := ParseTraceparent(tp);
            var valid := (exists i :: 0 <= i < 16 && sc.traceID[i] != 0) && exists i :: 0 <= i < 8 && sc.spanID[i] != 0;
            Extracted(current, headers) ==
            if !valid then current
            else SpanContext(sc.traceID, sc.spanID, sc.flags,
                             if TraceState.Parse(ts).Ok? then TraceState.Parse(ts).value else [], true)
  {
    hide TraceState.Parse, HexDecode, HexToByte;
    EmptyHeader();
    TraceparentExactly(Header(headers, "traceparent"));
    NoContextInvalid();
  }

  lemma {:induction false} NoContextInvalid()
    ensures !IsValid(NO_CONTEXT)
  {
  }

  lemma {:induction false} EmptyHeader()
    ensures TraceState.Parse("").Ok? && TraceState.Parse("").value == []
  {
  }

  // ----- the propagator on a carrier -----

  class MapCarrier {
    var headers: map<string, string>

    constructor ()
      ensures headers == map[]
    {
      headers := map[];
    }

    function Get(key: string): string
      reads this
    {
      Header(headers, key)
    }

    method Set(key: string, value: string)
      modifies this
      ensures headers == old(headers)[key := value]
    {
      headers := headers[key := value];
    }
  }

  method IsNonZero(b: bytes) returns (r: bool)
    ensures r <==> NonZero(b)
  {
    var i := 0;
    while i < |b|
      invariant 0 <= i <= |b| && forall j :: 0 <= j < i ==> b[j] == 0
    {
      if b[i] != 0 {
        return true;
      }
      i := i + 1;
    }
    return false;
  }

  method Inject(sc: SpanContext, carrier: MapCarrier)
    modifies carrier
    ensures carrier.headers == Injected(sc, old(carrier.headers))
  {
    hide NonZero, Traceparent, TraceState.Header;
    var trace := IsNonZero(sc.traceID);
    var span := IsNonZero(sc.spanID);
    if !trace || !span {
      return;
    }
    carrier.Set("traceparent", Traceparent(sc));
    if |sc.state| > 0 {
      carrier.Set("tracestate", TraceState.Header(sc.state));
    }
  }

  method Extract(current: SpanContext, carrier: MapCarrier) returns (r: SpanContext)
    ensures r == Extracted(current, carrier.headers)
  {
    hide NonZero, ParseTraceparent, TraceState.Parse;
    var tp := carrier.Get("traceparent");
    if tp == "" {
      return current;
    }
    var sc := ParseTraceparent(tp);
    var trace := IsNonZero(sc.traceID);
    var span := IsNonZero(sc.spanID);
    if !trace || !span {
      return current;
    }
    var tsHeader := carrier.Get("tracestate");
    if tsHeader != "" {
      var ts := TraceState.ParseTraceState(tsHeader);
      if ts.Ok? {
        sc := SpanContext(sc.traceID, sc.spanID, sc.flags, ts.value, true);
      }
    }
    return sc;
  }
}
