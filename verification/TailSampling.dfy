/** The tail-sampling buffer, internal/pipeline/tail_sampling.go: traces are
    buffered whole, then exported or dropped whole. */
module TailSampling {
  import opened Bytes
  import opened OtlpTypes
  import opened ArrivalOrder
  import opened SpanWalk

  datatype Buffered = Buffered(spans: seq<Span>, resource: Resource, scope: Scope, firstSeen: int)

  type Held = Entry<TraceID, Buffered>

  /** An export, and when the trace had been seen first and was decided. */
  datatype Export = Export(id: TraceID, trace: Buffered, at: int)

  type Policy = seq<Span> -> bool

  /** The buffer in arrival order, and what became of the spans received. */
  datatype Sampler = Sampler(
    max: nat, wait: int, policies: seq<Policy>, held: seq<Held>,
    received: seq<Span>, exports: seq<Export>, rejected: seq<Span>, evicted: seq<Span>)

  function Sampled(policies: seq<Policy>, spans: seq<Span>): bool {
    policies == [] || AnyPolicy(policies, spans)
  }

  function AnyPolicy(policies: seq<Policy>, spans: seq<Span>): bool {
    policies != [] && (policies[0](spans) || AnyPolicy(policies[1..], spans))
  }

  /** Every policy is asked. */
  lemma {:induction false} SampledExactly(policies: seq<Policy>, spans: seq<Span>)
    ensures Sampled(policies, spans) <==>
            |policies| == 0 || exists i :: 0 <= i < |policies| && policies[i](spans)
  {
    AnyPolicyExactly(policies, spans);
  }

  lemma {:induction false} AnyPolicyExactly(policies: seq<Policy>, spans: seq<Span>)
    ensures AnyPolicy(policies, spans) <==> exists i :: 0 <= i < |policies| && policies[i](spans)
    decreases policies
  {
    if policies != [] {
      AnyPolicyExactly(policies[1..], spans);
      if AnyPolicy(policies[1..], spans) {
        var i :| 0 <= i < |policies[1..]| && policies[1..][i](spans);
        assert policies[i + 1](spans);
      }
      if i :| 0 < i < |policies| && policies[i](spans) {
        assert policies[1..][i - 1](spans);
      }
    }
  }

  function Joined(span: Span): Buffered -> Buffered {
    (b: Buffered) => b.(spans := b.spans + [span])
  }

  function Evicted(held: seq<Held>, max: nat): seq<Span> {
    if |held| >= max && held != [] then held[0].data.spans else []
  }

  /** One span arrives. */
  function Received(s: Sampler, w: Write, now: int): Sampler {
    var id := w.span.traceID;
    s.(held := Put(s.held, s.max, id, Buffered([w.span], w.resource, w.scope, now), Joined(w.span)),
       evicted := s.evicted + (if id in Keys(s.held) then [] else Evicted(s.held, s.max)),
       received := s.received + [w.span])
  }

  function ReceivedAll(s: Sampler, ws: seq<Write>, clock: nat -> int, i: nat): Sampler
    decreases ws
  {
    if ws == [] then s else ReceivedAll(Received(s, ws[0], clock(i)), ws[1..], clock, i + 1)
  }

  predicate Due(h: Held, wait: int, now: int) {
    now - h.data.firstSeen >= wait
  }

  /** The three ways a held trace can go in a decision pass. */
  function Kept(held: seq<Held>, wait: int, now: int): seq<Held> {
    if held == [] then []
    else (if Due(held[0], wait, now) then [] else [held[0]]) + Kept(held[1..], wait, now)
  }

  function Exported(held: seq<Held>, wait: int, policies: seq<Policy>, now: int): seq<Export> {
    if held == [] then []
    else
      (if Due(held[0], wait, now) && Sampled(policies, held[0].data.spans) then [Export(held[0].key, held[0].data,
          now)] else []) +
      Exported(held[1..], wait, policies, now)
  }

  function Rejected(held: seq<Held>, wait: int, policies: seq<Policy>, now: int): seq<Span> {
    if held == [] then []
    else
      (if Due(held[0], wait, now) && !Sampled(policies, held[0].data.spans) then held[0].data.spans else []) +
      Rejected(held[1..], wait, policies, now)
  }

  function Decided(s: Sampler, now: int): Sampler {
    s.(held := Kept(s.held, s.wait, now),
       exports := s.exports + Exported(s.held, s.wait, s.policies, now),
       rejected := s.rejected + Rejected(s.held, s.wait, s.policies, now))
  }

  // ----- the object -----

  class Processor {
    var traces: map<TraceID, Buffered>
    var order: seq<TraceID>
    var exports: seq<Export>
    const max: nat
    const wait: int
    const policies: seq<Policy>
    ghost var received: seq<Span>
    ghost var rejected: seq<Span>
    ghost var evicted: seq<Span>

    ghost predicate Valid()
      reads this
    {
      max > 0 && Agree(traces, order) && |order| <= max
    }

    ghost function State(): Sampler
      requires Valid()
      reads this
    {
      Sampler(max, wait, policies, Entries(traces, order), received, exports, rejected, evicted)
    }

    constructor (decisionWait: int, maxTraces: int, policies: seq<Policy>)
      ensures Valid() && this.policies == policies
      ensures max == (if maxTraces <= 0 then 10000 else maxTraces)
      ensures wait == (if decisionWait <= 0 then 30_000_000_000 else decisionWait)
      ensures State() == Sampler(max, wait, policies, [], [], [], [], [])
    {
      max := if maxTraces <= 0 then 10000 else maxTraces;
      wait := if decisionWait <= 0 then 30_000_000_000 else decisionWait;
      this.policies := policies;
      traces := map[];
      order := [];
      exports := [];
      received := [];
      rejected := [];
      evicted := [];
    }

    method EvictOldest()
      requires Valid()
      modifies this
      ensures Valid()
      ensures State() == old(State()).(held := if old(State()).held == [] then [] else old(State()).held[1..])
    {
      if |order| == 0 {
        return;
      }
      EvictAgrees(traces, order);
      var oldest := order[0];
      order := order[1..];
      traces := traces - {oldest};
    }

    /** The body of the loops of ProcessTraces. */
    method Receive(r: Resource, sc: Scope, span: Span, now: int)
      requires Valid()
      modifies this
      ensures Valid() && State() == Received(old(State()), Write(r, sc, span), now)
    {
      hide Entries, Keys, Put, Trimmed, Updated, Evicted, Received;
      ghost var start := State();
      EntryKeys(traces, order);
      ReceivedCases(start, Write(r, sc, span), now);
      if span.traceID !in traces {
        Open(r, sc, span, now);
      } else {
        ghost var id := span.traceID;
        UpdateAgrees(traces, order, id, Joined(span));
        traces := traces[span.traceID := traces[span.traceID].(spans := traces[span.traceID].spans + [span])];
        assert evicted + [] == evicted;
      }
      received := received + [span];
    }

    /** The branch for a trace that is not held. */
    method Open(r: Resource, sc: Scope, span: Span, now: int)
      requires Valid() && span.traceID !in traces
      modifies this
      ensures Valid()
      ensures State() == old(State()).(
              held := Trimmed(old(State()).held, max) + [Entry(span.traceID, Buffered([span], r, sc, now))],
              evicted := old(evicted) + Evicted(old(State()).held, max))
    {
      hide Entries, Keys, Put, Trimmed, Updated, Evicted, Received;
      ghost var start := State();
      SameSize(traces, order);
      ghost var gone := Evicted(start.held, max);
      if |traces| >= max {
        EvictOldest();
      }
      TrimmedCases(start.held, max);
      evicted := evicted + gone;
      var entry := Buffered([], r, sc, now);
      entry := entry.(spans := entry.spans + [span]);
      assert entry.spans == [span];
      InsertAgrees(traces, order, span.traceID, entry);
      traces := traces[span.traceID := entry];
      order := order + [span.traceID];
    }

    /** Each new trace reads the clock anew; the readings are given by `clock`. */
    method ProcessTraces(td: TracesData, clock: nat -> int)
      requires Valid()
      modifies this
      ensures Valid() && State() == ReceivedAll(old(State()), Writes(td.resourceSpans), clock, 0)
    {
      hide ResourceWrites;
      ghost var start := State();
      var n := 0;
      assert td.resourceSpans[0..] == td.resourceSpans;
      for i := 0 to |td.resourceSpans|
        invariant Valid()
        invariant ReceivedAll(start, Writes(td.resourceSpans), clock, 0) ==
                  ReceivedAll(State(), Writes(td.resourceSpans[i..]), clock, n)
      {
        assert td.resourceSpans[i..][1..] == td.resourceSpans[i + 1..];
        n := ReceiveScopes(td.resourceSpans[i].resource, td.resourceSpans[i].scopeSpans, clock, n,
            Writes(td.resourceSpans[i + 1..]));
      }
    }

    /** The loop over the scopes of one resource. */
    method ReceiveScopes(r: Resource, scopes: seq<ScopeSpans>, clock: nat -> int, n: nat,
            ghost later: seq<Write>) returns (m: nat)
      requires Valid()
      modifies this
      ensures Valid()
      ensures ReceivedAll(State(), later, clock, m) == ReceivedAll(old(State()), ResourceWrites(r, scopes) + later,
          clock, n)
    {
      hide ScopeWrites;
      ghost var start := State();
      m := n;
      assert scopes[0..] == scopes;
      for j := 0 to |scopes|
        invariant Valid()
        invariant ReceivedAll(start, ResourceWrites(r, scopes) + later, clock, n) ==
                  ReceivedAll(State(), ResourceWrites(r, scopes[j..]) + later, clock, m)
      {
        assert scopes[j..][1..] == scopes[j + 1..];
        ghost var rest := ResourceWrites(r, scopes[j + 1..]) + later;
        Assoc(ScopeWrites(r, scopes[j].scope, scopes[j].spans), ResourceWrites(r, scopes[j + 1..]), later);
        m := ReceiveSpans(r, scopes[j].scope, scopes[j].spans, clock, m, rest);
      }
      assert [] + later == later;
    }

    /** The loop over the spans of one scope. */
    method ReceiveSpans(r: Resource, sc: Scope, spans: seq<Span>, clock: nat -> int, n: nat,
            ghost later: seq<Write>) returns (m: nat)
      requires Valid()
      modifies this
      ensures Valid()
      ensures ReceivedAll(State(), later, clock, m) == ReceivedAll(old(State()), ScopeWrites(r, sc, spans) + later,
          clock, n)
    {
      hide Received;
      ghost var start := State();
      m := n;
      assert spans[0..] == spans;
      for k := 0 to |spans|
        invariant Valid()
        invariant ReceivedAll(start, ScopeWrites(r, sc, spans) + later, clock, n) ==
                  ReceivedAll(State(), ScopeWrites(r, sc, spans[k..]) + later, clock, m)
      {
        NextArrival(State(), r, sc, spans, k, later, clock, m);
        Receive(r, sc, spans[k], clock(m));
        m := m + 1;
      }
      assert [] + later == later;
    }

    /** Any policy suffices; none at all samples everything. */
    method Sample(spans: seq<Span>) returns (sampled: bool)
      ensures sampled <==> |policies| == 0 || exists i :: 0 <= i < |policies| && policies[i](spans)
      ensures sampled == Sampled(policies, spans)
    {
      SampledExactly(policies, spans);
      sampled := |policies| == 0;
      assert policies[0..] == policies;
      for p := 0 to |policies|
        invariant sampled == (policies == []) && AnyPolicy(policies, spans) == AnyPolicy(policies[p..], spans)
      {
        assert policies[p..][1..] == policies[p + 1..];
        if policies[p](spans) {
          sampled := true;
          break;
        }
      }
    }

    /** Walks the order, deletes what is due from the map and keeps the rest. */
    method MakeDecisions(now: int)
      requires Valid()
      modifies this
      ensures Valid() && State() == Decided(old(State()), now)
    {
      hide Kept, Exported, Rejected, Sampled, Progress, Decided, Part, Entries, Agree;
      ghost var all := traces;
      ghost var start := State();
      ghost var held := start.held;
      var remaining: seq<TraceID> := [];
      assert held[0..] == held && order[0..] == order;
      ProgressStarts(start, now);
      PartStarts(all, order);
      for i := 0 to |order|
        invariant order == old(order) && received == old(received) && evicted == old(evicted)
        invariant |remaining| <= i && (forall k | k in remaining :: k in all) && Part(all, traces, remaining, order[i..])
        invariant Progress(start, held[i..], Entries(all, remaining), exports, rejected, now)
      {
        var tid := order[i];
        assert order[i..] == [tid] + order[i + 1..] && held[i..][1..] == held[i + 1..];
        PartHead(all, traces, remaining, tid, order[i + 1..]);
        if now - traces[tid].firstSeen < wait {
          SnocEntries(all, remaining, tid);
          NextKept(start, held[i..], Entries(all, remaining), exports, rejected, now);
          remaining := remaining + [tid];
        } else {
          NextDue(start, held[i..], Entries(all, remaining), exports, rejected, now);
          var sampled := Sample(traces[tid].spans);
          if sampled {
            exports := exports + [Export(tid, traces[tid], now)];
          } else {
            rejected := rejected + traces[tid].spans;
          }
          traces := traces - {tid};
        }
      }
      PartDone(all, traces, remaining);
      ProgressDone(start, Entries(all, remaining), exports, rejected, now);
      order := remaining;
    }
  }

  /** The map still holds the traces kept so far and those not yet visited. */
  ghost predicate Part(all: map<TraceID, Buffered>, m: map<TraceID, Buffered>, kept: seq<TraceID>, rest: seq<TraceID>) {
    Agree(m, kept + rest) && forall k | k in m :: k in all && m[k] == all[k]
  }

  lemma {:induction false} PartStarts(all: map<TraceID, Buffered>, order: seq<TraceID>)
    requires Agree(all, order)
    ensures Part(all, all, [], order)
  {
    assert [] + order == order;
  }

  lemma {:induction false} PartHead(all: map<TraceID, Buffered>, m: map<TraceID, Buffered>, kept: seq<TraceID>,
          id: TraceID, rest: seq<TraceID>)
    requires Part(all, m, kept, [id] + rest)
    ensures id in m && id in all && m[id] == all[id]
    ensures Part(all, m, kept + [id], rest) && Part(all, m - {id}, kept, rest)
  {
    Assoc(kept, [id], rest);
    assert (kept + ([id] + rest))[|kept|] == id;
    RemoveKey(m, kept, id, rest);
  }

  lemma {:induction false} PartDone(all: map<TraceID, Buffered>, m: map<TraceID, Buffered>, kept: seq<TraceID>)
    requires Part(all, m, kept, [])
    ensures Agree(m, kept) && (forall k | k in kept :: k in m && k in all) && |kept| == |m|
    ensures Entries(m, kept) == Entries(all, kept)
  {
    assert kept + [] == kept;
    SameSize(m, kept);
  }

  lemma {:induction false} ReceivedCases(s: Sampler, w: Write, now: int)
    ensures var id := w.span.traceID;
            Received(s, w, now) ==
            if id in Keys(s.held)
            then s.(held := Updated(s.held, id, Joined(w.span)), evicted := s.evicted + [],
                received := s.received + [w.span])
            else s.(held := Trimmed(s.held, s.max) + [Entry(id, Buffered([w.span], w.resource, w.scope, now))],
                    evicted := s.evicted + Evicted(s.held, s.max), received := s.received + [w.span])
  {
  }

  lemma {:induction false} TrimmedCases(held: seq<Held>, max: nat)
    ensures Trimmed(held, max) == if |held| >= max && held != [] then held[1..] else held
  {
  }

  /** A decision pass that has kept, exported and rejected so much and has `rest`
      still before it ends as Decided says. */
  ghost predicate Progress(start: Sampler, rest: seq<Held>, kept: seq<Held>, exports: seq<Export>,
      rejected: seq<Span>, now: int) {
    Kept(start.held, start.wait, now) == kept + Kept(rest, start.wait, now) &&
    start.exports + Exported(start.held, start.wait, start.policies, now) ==
    exports + Exported(rest, start.wait, start.policies, now) &&
    start.rejected + Rejected(start.held, start.wait, start.policies, now) ==
    rejected + Rejected(rest, start.wait, start.policies, now)
  }

  lemma {:induction false} ProgressStarts(start: Sampler, now: int)
    ensures Progress(start, start.held, [], start.exports, start.rejected, now)
  {
    assert [] + Kept(start.held, start.wait, now) == Kept(start.held, start.wait, now);
  }

  lemma {:induction false} NextKept(start: Sampler, rest: seq<Held>, kept: seq<Held>, exports: seq<Export>,
          rejected: seq<Span>, now: int)
    requires rest != [] && !Due(rest[0], start.wait, now)
    requires Progress(start, rest, kept, exports, rejected, now)
    ensures Progress(start, rest[1..], kept + [rest[0]], exports, rejected, now)
  {
    Assoc(kept, [rest[0]], Kept(rest[1..], start.wait, now));
    assert [] + Exported(rest[1..], start.wait, start.policies, now) == Exported(rest[1..], start.wait,
        start.policies, now);
    assert [] + Rejected(rest[1..], start.wait, start.policies, now) == Rejected(rest[1..], start.wait,
        start.policies, now);
  }

  lemma {:induction false} NextDue(start: Sampler, rest: seq<Held>, kept: seq<Held>, exports: seq<Export>,
          rejected: seq<Span>, now: int)
    requires rest != [] && Due(rest[0], start.wait, now)
    requires Progress(start, rest, kept, exports, rejected, now)
    ensures if Sampled(start.policies, rest[0].data.spans)
            then Progress(start, rest[1..], kept, exports + [Export(rest[0].key, rest[0].data, now)], rejected, now)
            else Progress(start, rest[1..], kept, exports, rejected + rest[0].data.spans, now)
  {
    var exported := Exported(rest[1..], start.wait, start.policies, now);
    var refused := Rejected(rest[1..], start.wait, start.policies, now);
    assert [] + Kept(rest[1..], start.wait, now) == Kept(rest[1..], start.wait, now);
    assert [] + exported == exported && [] + refused == refused;
    Assoc(exports, [Export(rest[0].key, rest[0].data, now)], exported);
    Assoc(rejected, rest[0].data.spans, refused);
  }

  lemma {:induction false} ProgressDone(start: Sampler, kept: seq<Held>, exports: seq<Export>, rejected: seq<Span>,
          now: int)
    requires Progress(start, [], kept, exports, rejected, now)
    ensures Decided(start, now) == start.(held := kept, exports := exports, rejected := rejected)
  {
    assert kept + [] == kept && exports + [] == exports && rejected + [] == rejected;
  }

  lemma {:induction false} SnocEntries(m: map<TraceID, Buffered>, order: seq<TraceID>, id: TraceID)
    requires id in m && forall k | k in order :: k in m
    ensures Entries(m, order + [id]) == Entries(m, order) + [Entry(id, m[id])]
  {
  }

  lemma {:induction false} RemoveKey(m: map<TraceID, Buffered>, before: seq<TraceID>, id: TraceID, rest: seq<TraceID>)
    requires Agree(m, before + ([id] + rest))
    ensures Agree(m - {id}, before + rest)
  {
    var order := before + ([id] + rest);
    var i := |before|;
    assert order[i] == id;
    forall k | 0 <= k < |before| ensures before[k] != id {
      assert order[k] == before[k];
    }
    forall k | 0 <= k < |rest| ensures rest[k] != id {
      assert order[i + 1 + k] == rest[k];
    }
    var after := before + rest;
    forall j, k | 0 <= j < k < |after| ensures after[j] != after[k] {
      assert after[j] == order[if j < i then j else j + 1];
      assert after[k] == order[if k < i then k else k + 1];
    }
  }

  lemma {:induction false} NextArrival(s: Sampler, r: Resource, sc: Scope, spans: seq<Span>, k: nat,
          rest: seq<Write>, clock: nat -> int, n: nat)
    requires k < |spans|
    ensures ReceivedAll(s, ScopeWrites(r, sc, spans[k..]) + rest, clock, n) ==
            ReceivedAll(Received(s, Write(r, sc, spans[k]), clock(n)), ScopeWrites(r, sc, spans[k + 1..]) + rest,
                clock, n + 1)
  {
    assert spans[k..][1..] == spans[k + 1..];
    var ws := ScopeWrites(r, sc, spans[k..]) + rest;
    assert ws[1..] == ScopeWrites(r, sc, spans[k + 1..]) + rest;
  }
}
