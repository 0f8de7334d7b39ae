/** What every interleaving of arrivals and decision passes keeps. */
module TailSamplingRuns {
  import opened Bytes
  import opened OtlpTypes
  import opened ArrivalOrder
  import opened SpanWalk
  import opened TailSampling

  datatype Step = Arrive(w: Write, now: int) | Decide(now: int)

  function Stepped(s: Sampler, step: Step): Sampler {
    match step
    case Arrive(w, now) => Received(s, w, now)
    case Decide(now) => Decided(s, now)
  }

  function SteppedAll(s: Sampler, steps: seq<Step>): Sampler
    decreases steps
  {
    if steps == [] then s else SteppedAll(Stepped(s, steps[0]), steps[1..])
  }

  function Init(max: nat, wait: int, policies: seq<Policy>): Sampler {
    Sampler(max, wait, policies, [], [], [], [], [])
  }

  // ----- conservation -----

  function HeldSpans(held: seq<Held>): multiset<Span> {
    if held == [] then multiset{} else multiset(held[0].data.spans) + HeldSpans(held[1..])
  }

  function ExportSpans(exports: seq<Export>): multiset<Span> {
    if exports == [] then multiset{} else multiset(exports[0].trace.spans) + ExportSpans(exports[1..])
  }

  /** Every span received is in exactly one place. */
  ghost predicate Conserved(s: Sampler) {
    multiset(s.received) == HeldSpans(s.held) + ExportSpans(s.exports) + multiset(s.rejected) + multiset(s.evicted)
  }

  lemma {:induction false} HeldAppend(held: seq<Held>, h: Held)
    ensures HeldSpans(held + [h]) == HeldSpans(held) + multiset(h.data.spans)
  {
    if held == [] {
      assert [h][1..] == [];
    } else {
      assert (held + [h])[1..] == held[1..] + [h];
      HeldAppend(held[1..], h);
    }
  }

  lemma {:induction false} ExportsAppend(a: seq<Export>, b: seq<Export>)
    ensures ExportSpans(a + b) == ExportSpans(a) + ExportSpans(b)
  {
    if a == [] {
      assert a + b == b;
    } else {
      assert (a + b)[1..] == a[1..] + b;
      ExportsAppend(a[1..], b);
    }
  }

  lemma {:induction false} OthersUnchanged(held: seq<Held>, span: Span)
    requires span.traceID !in Keys(held)
    ensures Updated(held, span.traceID, Joined(span)) == held
  {
    assert forall i :: 0 <= i < |held| ==> Keys(held)[i] != span.traceID;
  }

  lemma {:induction false} JoinAdds(held: seq<Held>, span: Span)
    requires Distinct(Keys(held)) && span.traceID in Keys(held)
    ensures HeldSpans(Updated(held, span.traceID, Joined(span))) == HeldSpans(held) + multiset{span}
  {
    var after := Updated(held, span.traceID, Joined(span));
    assert Keys(held)[1..] == Keys(held[1..]);
    assert after[1..] == Updated(held[1..], span.traceID, Joined(span));
    if held[0].key == span.traceID {
      TailKeys(Keys(held));
      OthersUnchanged(held[1..], span);
      assert multiset(held[0].data.spans + [span]) == multiset(held[0].data.spans) + multiset{span};
    } else {
      TailKeys(Keys(held));
      assert Keys(held) == [held[0].key] + Keys(held[1..]);
      JoinAdds(held[1..], span);
    }
  }

  ghost predicate Splits(held: seq<Held>, kept: seq<Held>, exports: seq<Export>, rejected: seq<Span>) {
    HeldSpans(held) == HeldSpans(kept) + ExportSpans(exports) + multiset(rejected)
  }

  /** One more trace in front, going one of the three ways. */
  lemma {:induction false} OneSplits(h: Held, held: seq<Held>, kept: seq<Held>, exports: seq<Export>,
          rejected: seq<Span>, now: int)
    requires Splits(held, kept, exports, rejected)
    ensures Splits([h] + held, [h] + kept, exports, rejected)
    ensures Splits([h] + held, kept, [Export(h.key, h.data, now)] + exports, rejected)
    ensures Splits([h] + held, kept, exports, h.data.spans + rejected)
  {
    hide HeldSpans, ExportSpans;
    HeldFirst(h, held);
    HeldFirst(h, kept);
    ExportFirst(Export(h.key, h.data, now), exports);
    assert multiset(h.data.spans + rejected) == multiset(h.data.spans) + multiset(rejected);
  }

  lemma {:induction false} PassSplits(held: seq<Held>, wait: int, policies: seq<Policy>, now: int)
    ensures Splits(held, Kept(held, wait, now), Exported(held, wait, policies, now), Rejected(held, wait, policies, now))
  {
    if held != [] {
      hide Sampled, Due, Splits;
      var h := held[0];
      var k := Kept(held[1..], wait, now);
      var e := Exported(held[1..], wait, policies, now);
      var r := Rejected(held[1..], wait, policies, now);
      PassSplits(held[1..], wait, policies, now);
      OneSplits(h, held[1..], k, e, r, now);
      assert held == [h] + held[1..];
      if !Due(h, wait, now) {
        assert Kept(held, wait, now) == [h] + k;
        assert Exported(held, wait, policies, now) == e;
        assert Rejected(held, wait, policies, now) == r;
      } else {
        assert Kept(held, wait, now) == k;
        if Sampled(policies, h.data.spans) {
          assert Exported(held, wait, policies, now) == [Export(h.key, h.data, now)] + e;
          assert Rejected(held, wait, policies, now) == r;
        } else {
          assert Exported(held, wait, policies, now) == e;
          assert Rejected(held, wait, policies, now) == h.data.spans + r;
        }
      }
    }
  }

  lemma {:induction false} HeldFirst(h: Held, rest: seq<Held>)
    ensures HeldSpans([h] + rest) == multiset(h.data.spans) + HeldSpans(rest)
  {
    assert ([h] + rest)[1..] == rest;
  }

  lemma {:induction false} ExportFirst(e: Export, rest: seq<Export>)
    ensures ExportSpans([e] + rest) == multiset(e.trace.spans) + ExportSpans(rest)
  {
    assert ([e] + rest)[1..] == rest;
  }

  lemma {:induction false} ArriveConserves(s: Sampler, w: Write, now: int)
    requires Conserved(s) && Bounded(s.held, s.max)
    ensures Conserved(Received(s, w, now))
  {
    hide Put, Trimmed, Updated, Keys, HeldSpans, ExportSpans, Received, Evicted;
    ReceivedCases(s, w, now);
    assert multiset(s.received + [w.span]) == multiset(s.received) + multiset{w.span};
    if w.span.traceID in Keys(s.held) {
      JoinAdds(s.held, w.span);
      assert s.evicted + [] == s.evicted;
    } else {
      var h := Entry(w.span.traceID, Buffered([w.span], w.resource, w.scope, now));
      HeldAppend(Trimmed(s.held, s.max), h);
      EvictedSpans(s);
      assert multiset(s.evicted + Evicted(s.held, s.max)) == multiset(s.evicted) + multiset(Evicted(s.held, s.max));
      assert multiset(h.data.spans) == multiset{w.span};
    }
  }

  lemma {:induction false} EvictedSpans(s: Sampler)
    ensures HeldSpans(s.held) == HeldSpans(Trimmed(s.held, s.max)) + multiset(Evicted(s.held, s.max))
  {
  }

  lemma {:induction false} DecideConserves(s: Sampler, now: int)
    requires Conserved(s)
    ensures Conserved(Decided(s, now))
  {
    hide Kept, Exported, Rejected, HeldSpans, ExportSpans;
    PassSplits(s.held, s.wait, s.policies, now);
    ExportsAppend(s.exports, Exported(s.held, s.wait, s.policies, now));
    var refused := Rejected(s.held, s.wait, s.policies, now);
    assert multiset(s.rejected + refused) == multiset(s.rejected) + multiset(refused);
  }

  // ----- traces stay whole -----

  /** The spans of one trace among those received, in order. */
  function OfTrace(spans: seq<Span>, id: TraceID): seq<Span> {
    if spans == [] then []
    else OfTrace(spans[..|spans| - 1], id) + (if spans[|spans| - 1].traceID == id then [spans[|spans| - 1]] else [])
  }

  /** The spans that some steps bring, in order. */
  function Arrived(steps: seq<Step>): seq<Span> {
    if steps == [] then []
    else
      var last := steps[|steps| - 1];
      Arrived(steps[..|steps| - 1]) + (if last.Arrive? then [last.w.span] else [])
  }

  /** The state of a run after so many of its steps. */
  function At(s0: Sampler, steps: seq<Step>, n: nat): Sampler
    requires n <= |steps|
  {
    SteppedAll(s0, steps[..n])
  }

  predicate HeldAt(s0: Sampler, steps: seq<Step>, n: nat, id: TraceID)
    requires n <= |steps|
  {
    id in Keys(At(s0, steps, n).held)
  }

  /** Step n opened the trace: it brought a span of it while it was not held. It
      was held from then on until after m steps. */
  ghost predicate OpenSince(s0: Sampler, steps: seq<Step>, n: nat, m: nat, id: TraceID) {
    n < m <= |steps| && steps[n].Arrive? && steps[n].w.span.traceID == id && !HeldAt(s0, steps, n, id) &&
    forall k :: n < k <= m ==> HeldAt(s0, steps, k, id)
  }

  /** The trace opened by step n as it is after m steps: all its spans that came
      in between, under the headers and with the time of the first. */
  function Collected(steps: seq<Step>, n: nat, m: nat, id: TraceID): Buffered
    requires n < m <= |steps| && steps[n].Arrive?
  {
    Buffered(OfTrace(Arrived(steps[n..m]), id), steps[n].w.resource, steps[n].w.scope, steps[n].now)
  }

  ghost predicate HeldSince(s0: Sampler, steps: seq<Step>, n: nat, h: Held) {
    OpenSince(s0, steps, n, |steps|, h.key) && h.data == Collected(steps, n, |steps|, h.key)
  }

  ghost predicate HeldWhole(s0: Sampler, steps: seq<Step>, h: Held) {
    exists n: nat :: HeldSince(s0, steps, n, h)
  }

  /** Step n opened the trace and step m, a decision pass, took it away: old
      enough, and wanted. */
  ghost predicate ExportedSince(s0: Sampler, steps: seq<Step>, n: nat, m: nat, e: Export) {
    OpenSince(s0, steps, n, m, e.id) && e.trace == Collected(steps, n, m, e.id) &&
    m < |steps| && steps[m] == Decide(e.at) && !HeldAt(s0, steps, m + 1, e.id) &&
    e.at - steps[n].now >= s0.wait &&
    (|s0.policies| == 0 || exists i :: 0 <= i < |s0.policies| && s0.policies[i](e.trace.spans))
  }

  ghost predicate ExportWhole(s0: Sampler, steps: seq<Step>, e: Export) {
    exists n: nat, m: nat :: ExportedSince(s0, steps, n, m, e)
  }

  /** After a run, every held trace has exactly the spans of it that came in
      since the arrival that opened it; every exported one those that came in
      between the arrival that opened it and the pass that decided it. */
  ghost predicate Whole(s0: Sampler, steps: seq<Step>) {
    var s := SteppedAll(s0, steps);
    (forall i :: 0 <= i < |s.held| ==> HeldWhole(s0, steps, s.held[i])) &&
    (forall i :: 0 <= i < |s.exports| ==> ExportWhole(s0, steps, s.exports[i]))
  }

  lemma {:induction false} OneMoreStep(s: Sampler, steps: seq<Step>, x: Step)
    ensures SteppedAll(s, steps + [x]) == Stepped(SteppedAll(s, steps), x)
    decreases steps
  {
    hide Stepped;
    if steps == [] {
      assert steps + [x] == [x] && [x][1..] == [];
    } else {
      assert (steps + [x])[1..] == steps[1..] + [x];
      OneMoreStep(Stepped(s, steps[0]), steps[1..], x);
    }
  }

  /** What a run has received is what its arrivals brought. */
  lemma {:induction false} ReceivedArrived(s: Sampler, steps: seq<Step>)
    ensures SteppedAll(s, steps).received == s.received + Arrived(steps)
  {
    hide Put, Trimmed, Kept, Exported, Rejected, Evicted, SteppedAll;
    if steps == [] {
      NoSteps(s);
    } else {
      var before, last := steps[..|steps| - 1], steps[|steps| - 1];
      ReceivedArrived(s, before);
      OneMoreStep(s, before, last);
      assert before + [last] == steps;
    }
  }

  lemma {:induction false} NoSteps(s: Sampler)
    ensures SteppedAll(s, []) == s
  {
  }

  lemma {:induction false} StepsKeepConfig(s: Sampler, steps: seq<Step>)
    ensures var t := SteppedAll(s, steps); t.max == s.max && t.wait == s.wait && t.policies == s.policies
    decreases steps
  {
    hide Put, Trimmed, Kept, Exported, Rejected, Evicted;
    if steps != [] {
      StepsKeepConfig(Stepped(s, steps[0]), steps[1..]);
    }
  }

  lemma {:induction false} SameBefore(s0: Sampler, steps: seq<Step>, x: Step, n: nat)
    requires n <= |steps|
    ensures At(s0, steps + [x], n) == At(s0, steps, n)
  {
    assert (steps + [x])[..n] == steps[..n];
  }

  lemma {:induction false} OpenStays(s0: Sampler, steps: seq<Step>, x: Step, n: nat, m: nat, id: TraceID)
    requires OpenSince(s0, steps, n, m, id)
    ensures OpenSince(s0, steps + [x], n, m, id)
    ensures Collected(steps + [x], n, m, id) == Collected(steps, n, m, id)
  {
    hide SteppedAll, Keys;
    var longer := steps + [x];
    SameBefore(s0, steps, x, n);
    forall k | n < k <= m ensures HeldAt(s0, longer, k, id) {
      assert HeldAt(s0, steps, k, id);
      SameBefore(s0, steps, x, k);
    }
    assert longer[n..m] == steps[n..m];
  }

  /** A trace that is still held after one more step has been held since. */
  lemma {:induction false} OpenGoesOn(s0: Sampler, steps: seq<Step>, x: Step, n: nat, id: TraceID)
    requires OpenSince(s0, steps, n, |steps|, id)
    requires id in Keys(SteppedAll(s0, steps + [x]).held)
    ensures OpenSince(s0, steps + [x], n, |steps| + 1, id)
  {
    hide SteppedAll, Keys, Collected;
    OpenStays(s0, steps, x, n, |steps|, id);
    assert (steps + [x])[..|steps| + 1] == steps + [x];
  }

  lemma {:induction false} CollectedOne(steps: seq<Step>, x: Step, n: nat, id: TraceID)
    requires n < |steps| && steps[n].Arrive?
    ensures Collected(steps + [x], n, |steps| + 1, id) ==
            if x.Arrive? && x.w.span.traceID == id then Joined(x.w.span)(Collected(steps, n, |steps|, id))
            else Collected(steps, n, |steps|, id)
  {
    hide OfTrace, Arrived;
    var before := steps[n..|steps|];
    assert (steps + [x])[n..|steps| + 1] == before + [x];
    ArrivedOne(before, x, id);
    assert OfTrace(Arrived(before), id) + [] == OfTrace(Arrived(before), id);
  }

  lemma {:induction false} ArrivedOne(steps: seq<Step>, x: Step, id: TraceID)
    ensures OfTrace(Arrived(steps + [x]), id) ==
            OfTrace(Arrived(steps), id) + if x.Arrive? && x.w.span.traceID == id then [x.w.span] else []
  {
    assert (steps + [x])[..|steps|] == steps;
    var before := Arrived(steps);
    if x.Arrive? {
      assert (before + [x.w.span])[..|before|] == before;
    } else {
      assert before + [] == before;
    }
    assert OfTrace(before, id) + [] == OfTrace(before, id);
  }

  lemma {:induction false} ExportStaysWhole(s0: Sampler, steps: seq<Step>, x: Step, e: Export)
    requires ExportWhole(s0, steps, e)
    ensures ExportWhole(s0, steps + [x], e)
  {
    hide SteppedAll, Keys, OpenSince, Collected, Sampled;
    var n: nat, m: nat :| ExportedSince(s0, steps, n, m, e);
    OpenStays(s0, steps, x, n, m, e.id);
    SameBefore(s0, steps, x, m + 1);
    OpenBounds(s0, steps, n, m, e.id);
    assert ExportedSince(s0, steps + [x], n, m, e);
  }

  lemma {:induction false} OpenBounds(s0: Sampler, steps: seq<Step>, n: nat, m: nat, id: TraceID)
    requires OpenSince(s0, steps, n, m, id)
    ensures n < m <= |steps| && steps[n].Arrive?
  {
  }

  /** What a held trace becomes in one more step after which it is held. */
  function Later(h: Held, x: Step): Held {
    if x.Arrive? && x.w.span.traceID == h.key then Entry(h.key, Joined(x.w.span)(h.data)) else h
  }

  lemma {:induction false} HeldStaysWhole(s0: Sampler, steps: seq<Step>, x: Step, h: Held)
    requires HeldWhole(s0, steps, h) && h.key in Keys(SteppedAll(s0, steps + [x]).held)
    ensures HeldWhole(s0, steps + [x], Later(h, x))
  {
    hide SteppedAll, Keys, OpenSince, Collected;
    var n: nat :| HeldSince(s0, steps, n, h);
    OpenBounds(s0, steps, n, |steps|, h.key);
    OpenGoesOn(s0, steps, x, n, h.key);
    CollectedOne(steps, x, n, h.key);
    assert HeldSince(s0, steps + [x], n, Later(h, x));
  }

  lemma {:induction false} NewIsWhole(s0: Sampler, steps: seq<Step>, w: Write, now: int)
    requires var id := w.span.traceID; var x := Arrive(w, now);
             id !in Keys(SteppedAll(s0, steps).held) && id in Keys(SteppedAll(s0, steps + [x]).held)
    ensures HeldWhole(s0, steps + [Arrive(w, now)],
                      Entry(w.span.traceID, Buffered([w.span], w.resource, w.scope, now)))
  {
    hide SteppedAll, Keys;
    var x, id := Arrive(w, now), w.span.traceID;
    var longer, n := steps + [x], |steps|;
    assert longer[..n] == steps && longer[..n + 1] == longer && longer[n..n + 1] == [x];
    ArrivedOne([], x, id);
    assert [] + [x] == [x] && [] + [w.span] == [w.span];
    assert HeldSince(s0, longer, n, Entry(id, Buffered([w.span], w.resource, w.scope, now)));
  }

  lemma {:induction false} KeysHas(held: seq<Held>, i: nat)
    requires i < |held|
    ensures held[i].key in Keys(held)
  {
    assert Keys(held)[i] == held[i].key;
  }

  lemma {:induction false} ArriveKeepsWhole(s0: Sampler, steps: seq<Step>, w: Write, now: int)
    requires Whole(s0, steps)
    ensures Whole(s0, steps + [Arrive(w, now)])
  {
    hide HeldWhole, ExportWhole, SteppedAll, Put, Trimmed, Keys, Evicted, Received;
    var x := Arrive(w, now);
    var s, t := SteppedAll(s0, steps), SteppedAll(s0, steps + [x]);
    OneMoreStep(s0, steps, x);
    ReceivedCases(s, w, now);
    forall i | 0 <= i < |t.exports| ensures ExportWhole(s0, steps + [x], t.exports[i]) {
      ExportStaysWhole(s0, steps, x, s.exports[i]);
    }
    forall i | 0 <= i < |t.held| ensures HeldWhole(s0, steps + [x], t.held[i]) {
      KeysHas(t.held, i);
      if w.span.traceID in Keys(s.held) {
        HeldStaysWhole(s0, steps, x, s.held[i]);
      } else {
        TrimmedCases(s.held, s.max);
        NotHeld(s.held, w.span.traceID);
        var kept := Trimmed(s.held, s.max);
        if i < |kept| {
          HeldStaysWhole(s0, steps, x, s.held[i + |s.held| - |kept|]);
        } else {
          NewIsWhole(s0, steps, w, now);
        }
      }
    }
  }

  lemma {:induction false} NotHeld(held: seq<Held>, id: TraceID)
    requires id !in Keys(held)
    ensures forall i :: 0 <= i < |held| ==> held[i].key != id
  {
    forall i | 0 <= i < |held| ensures held[i].key != id {
      assert Keys(held)[i] == held[i].key;
    }
  }

  lemma {:induction false} KeptFrom(held: seq<Held>, wait: int, now: int)
    ensures forall h :: h in Kept(held, wait, now) ==> h in held && !Due(h, wait, now)
  {
    if held != [] {
      KeptFrom(held[1..], wait, now);
    }
  }

  lemma {:induction false} ExportedFrom(held: seq<Held>, wait: int, policies: seq<Policy>, now: int)
    ensures forall e :: e in Exported(held, wait, policies, now) ==>
                          Entry(e.id, e.trace) in held && e.at == now &&
                          Due(Entry(e.id, e.trace), wait, now) && Sampled(policies, e.trace.spans)
  {
    if held != [] {
      hide Sampled;
      ExportedFrom(held[1..], wait, policies, now);
    }
  }

  lemma {:induction false} SameKey(held: seq<Held>, g: Held, h: Held)
    requires Distinct(Keys(held)) && g in held && h in held && g.key == h.key
    ensures g == h
  {
    hide Keys;
    var j :| 0 <= j < |held| && held[j] == g;
    var k :| 0 <= k < |held| && held[k] == h;
    assert Keys(held)[j] == Keys(held)[k];
  }

  /** A trace that is due is not held any more. */
  lemma {:induction false} DueGoes(held: seq<Held>, wait: int, now: int, h: Held)
    requires Distinct(Keys(held)) && h in held && Due(h, wait, now)
    ensures h.key !in Keys(Kept(held, wait, now))
  {
    hide Kept, Due, Keys;
    var kept := Kept(held, wait, now);
    KeptFrom(held, wait, now);
    if h.key in Keys(kept) {
      var i :| 0 <= i < |kept| && Keys(kept)[i] == h.key;
      assert kept[i] in held;
      SameKey(held, kept[i], h);
    }
  }

  lemma {:induction false} DecidedIsWhole(s0: Sampler, steps: seq<Step>, now: int, e: Export)
    requires var s := SteppedAll(s0, steps);
             Distinct(Keys(s.held)) && Entry(e.id, e.trace) in s.held && HeldWhole(s0, steps, Entry(e.id, e.trace)) &&
             e.at == now && Due(Entry(e.id, e.trace), s0.wait, now) && Sampled(s0.policies, e.trace.spans) &&
             s.wait == s0.wait
    ensures ExportWhole(s0, steps + [Decide(now)], e)
  {
    hide SteppedAll, Keys, OpenSince, Kept, Sampled;
    var s, x := SteppedAll(s0, steps), Decide(now);
    var longer := steps + [x];
    OneMoreStep(s0, steps, x);
    DueGoes(s.held, s.wait, now, Entry(e.id, e.trace));
    assert longer[..|longer|] == longer;
    var n: nat :| HeldSince(s0, steps, n, Entry(e.id, e.trace));
    OpenBounds(s0, steps, n, |steps|, e.id);
    OpenStays(s0, steps, x, n, |steps|, e.id);
    SampledExactly(s0.policies, e.trace.spans);
    assert ExportedSince(s0, longer, n, |steps|, e);
  }

  lemma {:induction false} DecideKeepsWhole(s0: Sampler, steps: seq<Step>, now: int)
    requires Whole(s0, steps) && Distinct(Keys(SteppedAll(s0, steps).held))
    ensures Whole(s0, steps + [Decide(now)])
  {
    hide HeldWhole, ExportWhole, SteppedAll, Kept, Exported, Rejected, Sampled, Keys, Due;
    var x := Decide(now);
    var s, t := SteppedAll(s0, steps), SteppedAll(s0, steps + [x]);
    OneMoreStep(s0, steps, x);
    StepsKeepConfig(s0, steps);
    KeptFrom(s.held, s.wait, now);
    ExportedFrom(s.held, s.wait, s.policies, now);
    forall i | 0 <= i < |t.held| ensures HeldWhole(s0, steps + [x], t.held[i]) {
      assert t.held[i] in s.held;
      KeysHas(t.held, i);
      HeldStaysWhole(s0, steps, x, t.held[i]);
    }
    forall i | 0 <= i < |t.exports| ensures ExportWhole(s0, steps + [x], t.exports[i]) {
      if i < |s.exports| {
        ExportStaysWhole(s0, steps, x, s.exports[i]);
      } else {
        var out := Exported(s.held, s.wait, s.policies, now);
        assert out[i - |s.exports|] in out;
        DecidedIsWhole(s0, steps, now, t.exports[i]);
      }
    }
  }

  // ----- all invariants, over every run -----

  ghost predicate Inv(s: Sampler) {
    s.max > 0 && Bounded(s.held, s.max) && Conserved(s)
  }

  lemma {:induction false} KeptBounded(held: seq<Held>, wait: int, now: int, max: nat)
    requires Bounded(held, max)
    ensures Bounded(Kept(held, wait, now), max)
    ensures |Kept(held, wait, now)| <= |held|
    ensures forall k :: k in Keys(Kept(held, wait, now)) ==> k in Keys(held)
  {
    if held != [] {
      assert Keys(held) == [held[0].key] + Keys(held[1..]);
      TailKeys(Keys(held));
      assert Keys(held)[1..] == Keys(held[1..]);
      KeptBounded(held[1..], wait, now, max);
      if !Due(held[0], wait, now) {
        var rest := Kept(held[1..], wait, now);
        assert ([held[0]] + rest)[1..] == rest;
        assert Keys([held[0]] + rest) == [held[0].key] + Keys(rest);
      }
    }
  }

  lemma {:induction false} StepKeepsInv(s: Sampler, step: Step)
    requires Inv(s)
    ensures Inv(Stepped(s, step))
  {
    hide Conserved, Bounded;
    match step
    case Arrive(w, now) =>
      ArriveConserves(s, w, now);
      PutKeepsBounds(s.held, s.max, w.span.traceID, Buffered([w.span], w.resource, w.scope, now), Joined(w.span));
    case Decide(now) =>
      DecideConserves(s, now);
      KeptBounded(s.held, s.wait, now, s.max);
  }

  lemma {:induction false} RunKeepsInv(s: Sampler, steps: seq<Step>)
    requires Inv(s)
    ensures Inv(SteppedAll(s, steps))
    decreases steps
  {
    if steps != [] {
      hide Inv, Stepped;
      StepKeepsInv(s, steps[0]);
      RunKeepsInv(Stepped(s, steps[0]), steps[1..]);
    }
  }

  lemma {:induction false} RunKeepsWhole(s0: Sampler, steps: seq<Step>)
    requires Inv(s0) && s0.held == [] && s0.exports == []
    ensures Whole(s0, steps)
    decreases |steps|
  {
    hide Inv, Whole, Stepped;
    if steps == [] {
      NothingWhole(s0);
    } else {
      var before, last := steps[..|steps| - 1], steps[|steps| - 1];
      assert steps == before + [last];
      RunKeepsWhole(s0, before);
      RunKeepsInv(s0, before);
      match last
      case Arrive(w, now) => ArriveKeepsWhole(s0, before, w, now);
      case Decide(now) =>
        InvDistinct(SteppedAll(s0, before));
        DecideKeepsWhole(s0, before, now);
    }
  }

  lemma {:induction false} NothingWhole(s0: Sampler)
    requires s0.held == [] && s0.exports == []
    ensures Whole(s0, [])
  {
  }

  lemma {:induction false} InvDistinct(s: Sampler)
    requires Inv(s)
    ensures Distinct(Keys(s.held))
  {
  }

  /** Over any interleaving of arrivals and decision passes: every span received
      is buffered, exported, rejected or evicted; at most max traces are buffered,
      none twice; every buffered trace is whole since it was opened, and every
      export is a trace that was whole when it was decided, wanted, and not early. */
  lemma {:induction false} EveryRun(max: nat, wait: int, policies: seq<Policy>, steps: seq<Step>)
    requires max > 0
    ensures Inv(SteppedAll(Init(max, wait, policies), steps)) && Whole(Init(max, wait, policies), steps)
  {
    RunKeepsInv(Init(max, wait, policies), steps);
    RunKeepsWhole(Init(max, wait, policies), steps);
  }

  /** One call of ProcessTraces is a run of arrivals. */
  lemma {:induction false} CallIsRun(s: Sampler, ws: seq<Write>, clock: nat -> int, i: nat) returns (steps: seq<Step>)
    ensures ReceivedAll(s, ws, clock, i) == SteppedAll(s, steps)
    ensures |steps| == |ws| && forall k :: 0 <= k < |ws| ==> steps[k] == Arrive(ws[k], clock(i + k))
    decreases ws
  {
    hide Received;
    if ws == [] {
      steps := [];
    } else {
      var rest := CallIsRun(Received(s, ws[0], clock(i)), ws[1..], clock, i + 1);
      steps := [Arrive(ws[0], clock(i))] + rest;
      assert steps[1..] == rest;
    }
  }

  // ----- a clock that does not go back -----

  /** Traces are buffered oldest first, none from the future. */
  ghost predicate Aged(s: Sampler, now: int) {
    (forall i :: 0 <= i < |s.held| ==> s.held[i].data.firstSeen <= now) &&
    (forall i, j :: 0 <= i < j < |s.held| ==> s.held[i].data.firstSeen <= s.held[j].data.firstSeen)
  }

  ghost predicate ClockAdvances(steps: seq<Step>, from: int) {
    (forall i :: 0 <= i < |steps| ==> from <= steps[i].now) &&
    (forall i, j :: 0 <= i < j < |steps| ==> steps[i].now <= steps[j].now)
  }

  /** Then a decision pass takes away a prefix of the buffer and nothing else. */
  lemma {:induction false} KeptIsSuffix(held: seq<Held>, wait: int, now: int) returns (n: nat)
    requires forall i, j :: 0 <= i < j < |held| ==> held[i].data.firstSeen <= held[j].data.firstSeen
    ensures n <= |held| && Kept(held, wait, now) == held[n..]
    ensures forall i :: 0 <= i < n ==> Due(held[i], wait, now)
    ensures forall i :: n <= i < |held| ==> !Due(held[i], wait, now)
  {
    hide Kept;
    if held == [] || !Due(held[0], wait, now) {
      NoneDue(held, wait, now);
      n := 0;
    } else {
      var rest := held[1..];
      assert forall i :: 0 <= i < |rest| ==> rest[i] == held[i + 1];
      var m := KeptIsSuffix(rest, wait, now);
      n := m + 1;
      DueFirst(held, wait, now);
      forall i | 0 < i < |held| ensures Due(held[i], wait, now) <==> i < n {
        assert held[i] == rest[i - 1];
      }
    }
  }

  lemma {:induction false} DueFirst(held: seq<Held>, wait: int, now: int)
    requires held != [] && Due(held[0], wait, now)
    ensures Kept(held, wait, now) == Kept(held[1..], wait, now)
  {
    assert [] + Kept(held[1..], wait, now) == Kept(held[1..], wait, now);
  }

  lemma {:induction false} NoneDue(held: seq<Held>, wait: int, now: int)
    requires forall i :: 0 <= i < |held| ==> !Due(held[i], wait, now)
    ensures Kept(held, wait, now) == held
  {
    if held != [] {
      NoneDue(held[1..], wait, now);
    }
  }

  lemma {:induction false} ArriveAges(s: Sampler, w: Write, now: int, last: int)
    requires Aged(s, last) && last <= now
    ensures Aged(Received(s, w, now), now)
  {
    hide Put, Trimmed, Keys, Evicted, Received;
    ReceivedCases(s, w, now);
    if w.span.traceID in Keys(s.held) {
      var held := Updated(s.held, w.span.traceID, Joined(w.span));
      forall i | 0 <= i < |held| ensures held[i].data.firstSeen == s.held[i].data.firstSeen {
      }
    } else {
      TrimmedCases(s.held, s.max);
    }
  }

  lemma {:induction false} RunAges(s: Sampler, steps: seq<Step>, last: int)
    requires Aged(s, last) && ClockAdvances(steps, last)
    ensures var now := if steps == [] then last else steps[|steps| - 1].now; Aged(SteppedAll(s, steps), now)
    decreases steps
  {
    if steps != [] {
      var t := Stepped(s, steps[0]);
      assert Aged(t, steps[0].now) by {
        match steps[0]
        case Arrive(w, now) => ArriveAges(s, w, now, last);
        case Decide(now) =>
          var n := KeptIsSuffix(s.held, s.wait, now);
      }
      assert ClockAdvances(steps[1..], steps[0].now) by {
        assert forall i :: 0 <= i < |steps[1..]| ==> steps[1..][i] == steps[i + 1];
      }
      hide Aged, Stepped, ClockAdvances;
      RunAges(t, steps[1..], steps[0].now);
    }
  }

  /** So in every run with such a clock, a pass decides the oldest traces: those
      first seen at least the wait ago. */
  lemma {:induction false} PassTakesPrefix(max: nat, wait: int, policies: seq<Policy>, steps: seq<Step>,
          start: int, now: int) returns (n: nat)
    requires ClockAdvances(steps, start)
    ensures var s := SteppedAll(Init(max, wait, policies), steps);
            n <= |s.held| && Decided(s, now).held == s.held[n..] &&
            forall i :: 0 <= i < |s.held| ==> (i < n <==> Due(s.held[i], s.wait, now))
  {
    RunAges(Init(max, wait, policies), steps, start);
    var s := SteppedAll(Init(max, wait, policies), steps);
    n := KeptIsSuffix(s.held, s.wait, now);
  }

  // ----- Shutdown -----

  /** The last pass, made by Shutdown, waits no less than any other: it leaves
      nothing behind exactly when every buffered trace is old enough. */
  lemma {:induction false} ShutdownDecidesAll(s: Sampler, now: int)
    ensures Decided(s, now).held == [] <==> forall i :: 0 <= i < |s.held| ==> Due(s.held[i], s.wait, now)
  {
    KeptEmpty(s.held, s.wait, now);
  }

  lemma {:induction false} KeptEmpty(held: seq<Held>, wait: int, now: int)
    ensures Kept(held, wait, now) == [] <==> forall i :: 0 <= i < |held| ==> Due(held[i], wait, now)
  {
    if held != [] {
      KeptEmpty(held[1..], wait, now);
      assert forall i :: 0 < i < |held| ==> held[i] == held[1..][i - 1];
    }
  }

  /** A trace that arrives just before Shutdown is neither exported nor rejected. */
  lemma {:induction false} ShutdownForgetsYoungTraces(w: Write, wait: int, policies: seq<Policy>, now: int)
    requires wait > 0
    ensures var s := Decided(Received(Init(1, wait, policies), w, now), now);
            s.exports == [] && s.rejected == [] && |s.held| == 1
  {
    var s := Received(Init(1, wait, policies), w, now);
    var h := Entry(w.span.traceID, Buffered([w.span], w.resource, w.scope, now));
    ReceivedCases(Init(1, wait, policies), w, now);
    assert s.held == [h] && !Due(h, wait, now);
    assert s.held[1..] == [];
    assert Exported(s.held, wait, policies, now) == [] + Exported([], wait, policies, now);
    assert Rejected(s.held, wait, policies, now) == [] + Rejected([], wait, policies, now);
    assert Kept(s.held, wait, now) == [h] + Kept([], wait, now);
  }
}
