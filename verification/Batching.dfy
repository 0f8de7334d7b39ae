/** The batch processor, internal/pipeline/batch.go: the calls that hold its lock,
    in any order, as functions on its state; what every run of them keeps. */
module Batching {
  import opened Bytes
  import opened OtlpTypes

  /** A pass over a batch of traces: headers take effect, spans are added. */
  datatype Event = SetResource(resource: Resource) | SetScope(scope: Scope) | Add(span: Span)

  datatype Export = Export(resource: Resource, scope: Scope, spans: seq<Span>)

  /** What the lock protects, and the exports so far. */
  datatype Batch = Batch(
    max: nat, pending: seq<Span>, resource: Resource, scope: Scope, armed: bool, exports: seq<Export>)

  function ScopeEvents(ss: ScopeSpans): seq<Event> {
    [SetScope(ss.scope)] + SpanEvents(ss.spans)
  }

  function SpanEvents(spans: seq<Span>): seq<Event> {
    if spans == [] then [] else [Add(spans[0])] + SpanEvents(spans[1..])
  }

  function ScopesEvents(scopes: seq<ScopeSpans>): seq<Event> {
    if scopes == [] then [] else ScopeEvents(scopes[0]) + ScopesEvents(scopes[1..])
  }

  function ResourcesEvents(resources: seq<ResourceSpans>): seq<Event> {
    if resources == [] then []
    else [SetResource(resources[0].resource)] + ScopesEvents(resources[0].scopeSpans) + ResourcesEvents(resources[1..])
  }

  function Events(td: TracesData): seq<Event> {
    ResourcesEvents(td.resourceSpans)
  }

  // ----- the operations -----

  function Flushed(b: Batch): Batch {
    if b.pending == [] then b
    else b.(pending := [], armed := false, exports := b.exports + [Export(b.resource, b.scope, b.pending)])
  }

  function Added(b: Batch, span: Span): Batch {
    var c := b.(pending := b.pending + [span]);
    if |c.pending| >= c.max then Flushed(c) else c
  }

  function Handled(b: Batch, e: Event): Batch {
    match e
    case SetResource(r) => b.(resource := r)
    case SetScope(s) => b.(scope := s)
    case Add(span) => Added(b, span)
  }

  function HandledAll(b: Batch, es: seq<Event>): Batch
    decreases es
  {
    if es == [] then b else HandledAll(Handled(b, es[0]), es[1..])
  }

  function Armed(b: Batch): Batch {
    if b.pending != [] && !b.armed then b.(armed := true) else b
  }

  function Processed(b: Batch, td: TracesData): Batch {
    Armed(HandledAll(b, Events(td)))
  }

  /** A timer callback flushes whatever is pending when it gets the lock, even
      if the timer it belongs to was stopped too late; so it may come at any
      moment, armed or not, and does what Flush does. */
  datatype Call = Process(td: TracesData) | Flush | TimerCallback

  function Called(b: Batch, c: Call): Batch {
    if c.Process? then Processed(b, c.td) else Flushed(b)
  }

  function CalledAll(b: Batch, calls: seq<Call>): Batch
    decreases calls
  {
    if calls == [] then b else CalledAll(Called(b, calls[0]), calls[1..])
  }

  /** The source replaces a batch size that is not positive. */
  function Init(maxBatchSize: int): Batch {
    Batch(if maxBatchSize <= 0 then 512 else maxBatchSize, [], EMPTY_RESOURCE, EMPTY_SCOPE, false, [])
  }

  // ----- what every call keeps -----

  function SpansOf(es: seq<Event>): seq<Span> {
    if es == [] then [] else (if es[0].Add? then [es[0].span] else []) + SpansOf(es[1..])
  }

  function Input(calls: seq<Call>): seq<Span> {
    if calls == [] then [] else InputOf(calls[0]) + Input(calls[1..])
  }

  function Exported(exports: seq<Export>): seq<Span> {
    if exports == [] then [] else exports[0].spans + Exported(exports[1..])
  }

  /** All spans that have come in, in order. */
  function Seen(b: Batch): seq<Span> {
    Exported(b.exports) + b.pending
  }

  ghost predicate Sized(b: Batch) {
    b.max > 0 && |b.pending| < b.max &&
    forall i :: 0 <= i < |b.exports| ==> 1 <= |b.exports[i].spans| <= b.max
  }

  /** While the lock is free, a timer is armed exactly when spans are pending. */
  ghost predicate Inv(b: Batch) {
    Sized(b) && (b.armed <==> b.pending != [])
  }

  lemma {:induction false} ExportedAppend(exports: seq<Export>, e: Export)
    ensures Exported(exports + [e]) == Exported(exports) + e.spans
  {
    if exports == [] {
      assert [e][1..] == [];
    } else {
      assert (exports + [e])[1..] == exports[1..] + [e];
      ExportedAppend(exports[1..], e);
    }
  }

  lemma {:induction false} FlushedSeen(b: Batch)
    ensures Seen(Flushed(b)) == Seen(b)
  {
    if b.pending != [] {
      ExportedAppend(b.exports, Export(b.resource, b.scope, b.pending));
    }
  }

  /** From b to c exactly these spans have come in. */
  ghost predicate CameIn(b: Batch, c: Batch, spans: seq<Span>) {
    c.max == b.max && Seen(c) == Seen(b) + spans
  }

  lemma {:induction false} CameInTwice(b: Batch, c: Batch, d: Batch, m: seq<Span>, n: seq<Span>)
    requires CameIn(b, c, m) && CameIn(c, d, n)
    ensures CameIn(b, d, m + n)
  {
    hide Seen;
    Assoc(Seen(b), m, n);
  }

  ghost predicate SizedAndTimed(b: Batch) {
    Sized(b) && (b.armed ==> b.pending != [])
  }

  lemma {:induction false} HandledKeeps(b: Batch, e: Event)
    requires SizedAndTimed(b)
    ensures SizedAndTimed(Handled(b, e)) && CameIn(b, Handled(b, e), if e.Add? then [e.span] else [])
  {
    if e.Add? {
      var c := b.(pending := b.pending + [e.span]);
      FlushedSeen(c);
      assert Seen(c) == Seen(b) + [e.span];
    } else {
      assert Seen(b) + [] == Seen(b);
    }
  }

  lemma {:induction false} HandledAllKeeps(b: Batch, es: seq<Event>)
    requires SizedAndTimed(b)
    ensures SizedAndTimed(HandledAll(b, es)) && CameIn(b, HandledAll(b, es), SpansOf(es))
    decreases es
  {
    if es == [] {
      assert Seen(b) + [] == Seen(b);
    } else {
      hide Handled, SizedAndTimed, CameIn;
      HandledKeeps(b, es[0]);
      var c := Handled(b, es[0]);
      HandledAllKeeps(c, es[1..]);
      CameInTwice(b, c, HandledAll(c, es[1..]), if es[0].Add? then [es[0].span] else [], SpansOf(es[1..]));
    }
  }

  function InputOf(c: Call): seq<Span> {
    if c.Process? then SpansOf(Events(c.td)) else []
  }

  lemma {:induction false} CalledKeeps(b: Batch, c: Call)
    requires Inv(b)
    ensures Inv(Called(b, c)) && CameIn(b, Called(b, c), InputOf(c))
  {
    if c.Process? {
      HandledAllKeeps(b, Events(c.td));
    } else {
      FlushedSeen(b);
      assert Seen(b) + [] == Seen(b);
    }
  }

  /** Every run of calls: nothing is lost, doubled or reordered; every export
      holds between one span and the batch size; less than a batch is pending,
      with a timer armed exactly when something is. */
  lemma {:induction false} RunKeeps(b: Batch, calls: seq<Call>)
    requires Inv(b)
    ensures var c := CalledAll(b, calls);
            Inv(c) && c.max == b.max && Exported(c.exports) + c.pending == Exported(b.exports) + b.pending + Input(calls)
    decreases calls
  {
    RunCameIn(b, calls);
  }

  lemma {:induction false} RunCameIn(b: Batch, calls: seq<Call>)
    requires Inv(b)
    ensures Inv(CalledAll(b, calls)) && CameIn(b, CalledAll(b, calls), Input(calls))
    decreases calls
  {
    if calls == [] {
      assert Seen(b) + [] == Seen(b);
    } else {
      hide Called, Inv, CameIn, InputOf;
      CalledKeeps(b, calls[0]);
      var c := Called(b, calls[0]);
      RunCameIn(c, calls[1..]);
      CameInTwice(b, c, CalledAll(c, calls[1..]), InputOf(calls[0]), Input(calls[1..]));
    }
  }

  /** A call that adds spans exports full batches only. */
  lemma {:induction false} FullBatchesOnly(b: Batch, td: TracesData)
    requires Sized(b)
    ensures var c := Processed(b, td);
            b.exports <= c.exports &&
            forall i :: |b.exports| <= i < |c.exports| ==> |c.exports[i].spans| == b.max
  {
    FullExports(b, Events(td));
  }

  lemma {:induction false} FullExports(b: Batch, es: seq<Event>)
    requires Sized(b)
    ensures var c := HandledAll(b, es);
            b.exports <= c.exports &&
            forall i :: |b.exports| <= i < |c.exports| ==> |c.exports[i].spans| == b.max
    decreases es
  {
    if es != [] {
      var c := Handled(b, es[0]);
      FullExports(c, es[1..]);
      var d := HandledAll(c, es[1..]);
      forall i | |b.exports| <= i < |d.exports| ensures |d.exports[i].spans| == b.max {
        if i < |c.exports| {
          assert d.exports[i] == c.exports[i];
        }
      }
    }
  }

  /** 512 spans, unless the caller asks for another size. */
  lemma {:induction false} SizeIs(maxBatchSize: int)
    ensures Init(maxBatchSize).max == if maxBatchSize > 0 then maxBatchSize else 512
    ensures Init(maxBatchSize).pending == [] && Init(maxBatchSize).exports == [] && !Init(maxBatchSize).armed
  {
  }

  /** The events of a batch are those of its parts, in order. */
  lemma {:induction false} EventsGoOn(a: seq<ResourceSpans>, b: seq<ResourceSpans>)
    ensures ResourcesEvents(a + b) == ResourcesEvents(a) + ResourcesEvents(b)
  {
    if a == [] {
      assert a + b == b;
    } else {
      assert (a + b)[1..] == a[1..] + b;
      EventsGoOn(a[1..], b);
      Assoc([SetResource(a[0].resource)] + ScopesEvents(a[0].scopeSpans), ResourcesEvents(a[1..]), ResourcesEvents(b));
    }
  }

  lemma {:induction false} ScopesGoOn(a: seq<ScopeSpans>, b: seq<ScopeSpans>)
    ensures ScopesEvents(a + b) == ScopesEvents(a) + ScopesEvents(b)
  {
    if a == [] {
      assert a + b == b;
    } else {
      assert (a + b)[1..] == a[1..] + b;
      ScopesGoOn(a[1..], b);
      Assoc(ScopeEvents(a[0]), ScopesEvents(a[1..]), ScopesEvents(b));
    }
  }

  lemma {:induction false} OneResource(r: Resource, scopes: seq<ScopeSpans>)
    ensures ResourcesEvents([ResourceSpans(r, scopes)]) == [SetResource(r)] + ScopesEvents(scopes)
  {
    assert [ResourceSpans(r, scopes)][1..] == [];
  }

  lemma {:induction false} OneScopeEvents(s: Scope, spans: seq<Span>)
    ensures var es := ScopesEvents([ScopeSpans(s, spans)]);
            |es| == |spans| + 1 && es[0] == SetScope(s) && forall i :: 0 <= i < |spans| ==> es[i + 1] == Add(spans[i])
  {
    assert [ScopeSpans(s, spans)][1..] == [];
    SpansAdded(spans);
  }

  lemma {:induction false} SpansAdded(spans: seq<Span>)
    ensures |SpanEvents(spans)| == |spans| && forall i :: 0 <= i < |spans| ==> SpanEvents(spans)[i] == Add(spans[i])
  {
    if spans != [] {
      SpansAdded(spans[1..]);
    }
  }

  /** After Shutdown every span that came in has been exported, in order. */
  lemma {:induction false} ShutdownExportsAll(maxBatchSize: int, calls: seq<Call>)
    ensures var c := Flushed(CalledAll(Init(maxBatchSize), calls));
            Exported(c.exports) == Input(calls) && c.pending == [] && !c.armed
  {
    RunKeeps(Init(maxBatchSize), calls);
    var c := CalledAll(Init(maxBatchSize), calls);
    FlushedSeen(c);
    assert Exported(Flushed(c).exports) + [] == Exported(Flushed(c).exports);
  }

  // ----- under which resource and scope spans are exported -----

  /** Each span with the resource and scope it came under. */
  function Owned(es: seq<Event>, r: Resource, s: Scope): seq<(Span, Resource, Scope)>
    decreases es
  {
    if es == [] then []
    else
      match es[0]
      case SetResource(r') => Owned(es[1..], r', s)
      case SetScope(s') => Owned(es[1..], r, s')
      case Add(span) => [(span, r, s)] + Owned(es[1..], r, s)
  }

  /** Each exported span with the resource and scope it is exported under. */
  function Labelled(e: Export): seq<(Span, Resource, Scope)> {
    seq(|e.spans|, i requires 0 <= i < |e.spans| => (e.spans[i], e.resource, e.scope))
  }

  lemma {:induction false} SmallBatch(b: Batch, es: seq<Event>)
    requires |b.pending| + |SpansOf(es)| < b.max
    ensures var c := HandledAll(b, es);
            c.pending == b.pending + SpansOf(es) && c.exports == b.exports && c.armed == b.armed && c.max == b.max
    decreases es
  {
    if es != [] {
      SmallBatch(Handled(b, es[0]), es[1..]);
    }
  }

  lemma {:induction false} OwnedSpans(es: seq<Event>, r: Resource, s: Scope)
    ensures |Owned(es, r, s)| == |SpansOf(es)|
    ensures forall i :: 0 <= i < |SpansOf(es)| ==> Owned(es, r, s)[i].0 == SpansOf(es)[i]
    decreases es
  {
    if es != [] {
      match es[0]
      case SetResource(r') => OwnedSpans(es[1..], r', s);
      case SetScope(s') => OwnedSpans(es[1..], r, s');
      case Add(_) => OwnedSpans(es[1..], r, s);
    }
  }

  /** One call that does not fill the batch, then a flush: all its spans go out
      under the resource and scope of its last headers; that is their own for all
      of them exactly when none of them came under other headers. */
  lemma {:induction false} AttributionExact(b: Batch, td: TracesData)
    requires b.pending == [] && 0 < |SpansOf(Events(td))| < b.max
    ensures var c := HandledAll(b, Events(td));
            var out := Flushed(Processed(b, td)).exports;
            var owned := Owned(Events(td), b.resource, b.scope);
            out == b.exports + [Export(c.resource, c.scope, SpansOf(Events(td)))] &&
            (Labelled(out[|b.exports|]) == owned <==>
             forall i :: 0 <= i < |owned| ==> owned[i].1 == c.resource && owned[i].2 == c.scope)
  {
    var es := Events(td);
    SmallBatch(b, es);
    OwnedSpans(es, b.resource, b.scope);
    assert [] + SpansOf(es) == SpansOf(es);
    var c := HandledAll(b, es);
    var e := Export(c.resource, c.scope, SpansOf(es));
    var owned := Owned(es, b.resource, b.scope);
    forall i | 0 <= i < |owned|
      ensures Labelled(e)[i] == owned[i] <==> owned[i].1 == c.resource && owned[i].2 == c.scope
    {
    }
  }

  /** So two resources in one call: the spans of the first are exported under
      the second. */
  lemma {:induction false} WrongResource(x: Span, y: Span, r1: Resource, r2: Resource, s: Scope)
    requires r1 != r2
    ensures var td := TracesData([ResourceSpans(r1, [ScopeSpans(s, [x])]), ResourceSpans(r2, [ScopeSpans(s, [y])])]);
            Flushed(Processed(Init(0), td)).exports == [Export(r2, s, [x, y])]
  {
    var td := TracesData([ResourceSpans(r1, [ScopeSpans(s, [x])]), ResourceSpans(r2, [ScopeSpans(s, [y])])]);
    var rest2 := [SetScope(s), Add(y)];
    var rest := [SetResource(r2)] + rest2;
    assert Events(td) == [SetResource(r1)] + [SetScope(s), Add(x)] + rest by {
      OneScope(s, x);
      OneScope(s, y);
      assert td.resourceSpans[1..][1..] == [];
      assert ResourcesEvents(td.resourceSpans[1..]) == rest;
    }
    var b1 := Init(0).(resource := r1, scope := s, pending := [x]);
    ThreeEvents(Init(0), r1, s, x, rest);
    var b2 := b1.(resource := r2, pending := [x, y]);
    assert rest == [SetResource(r2)] + [SetScope(s), Add(y)] + [];
    ThreeEvents(b1, r2, s, y, []);
    assert b1.pending + [y] == [x, y] && Init(0).pending + [x] == [x];
    assert HandledAll(Init(0), Events(td)) == HandledAll(b1, rest);
    assert HandledAll(b1, rest) == HandledAll(b2, []);
    assert Processed(Init(0), td) == b2.(armed := true);
  }

  lemma {:induction false} ThreeEvents(b: Batch, r: Resource, s: Scope, x: Span, rest: seq<Event>)
    ensures HandledAll(b, [SetResource(r)] + [SetScope(s), Add(x)] + rest) ==
            HandledAll(Added(b.(resource := r, scope := s), x), rest)
  {
    var es := [SetResource(r)] + [SetScope(s), Add(x)] + rest;
    assert es[1..][1..] == [Add(x)] + rest;
    assert es[1..][1..][1..] == rest;
    var b1 := b.(resource := r);
    assert HandledAll(b, es) == HandledAll(b1, es[1..]);
    assert HandledAll(b1, es[1..]) == HandledAll(b1.(scope := s), es[1..][1..]);
  }

  lemma {:induction false} OneScope(s: Scope, x: Span)
    ensures ScopesEvents([ScopeSpans(s, [x])]) == [SetScope(s), Add(x)]
  {
    assert [ScopeSpans(s, [x])][1..] == [] && [x][1..] == [];
    assert SpanEvents([x]) == [Add(x)];
  }
}
