/** Which traces a decision pass exports, rejects and keeps: exactly those, in
    every pass of every run. */
module TailDecisions {
  import Bytes
  import opened OtlpTypes
  import opened ArrivalOrder
  import opened SpanWalk
  import opened TailSampling
  import opened TailSamplingRuns

  /** No policy at all, or one that wants the trace. */
  ghost predicate Wanted(policies: seq<Policy>, spans: seq<Span>) {
    |policies| == 0 || exists i :: 0 <= i < |policies| && policies[i](spans)
  }

  ghost predicate Rising(indices: seq<nat>, n: nat) {
    (forall k :: 0 <= k < |indices| ==> indices[k] < n) &&
    forall j, k :: 0 <= j < k < |indices| ==> indices[j] < indices[k]
  }

  /** The entries at some places, in order. */
  function Chosen(held: seq<Held>, indices: seq<nat>): (r: seq<Held>)
    requires forall k :: 0 <= k < |indices| ==> indices[k] < |held|
    ensures |r| == |indices| && forall k :: 0 <= k < |r| ==> r[k] == held[indices[k]]
  {
    if indices == [] then [] else [held[indices[0]]] + Chosen(held, indices[1..])
  }

  function ExportsOf(held: seq<Held>, now: int): (r: seq<Export>)
    ensures |r| == |held| && forall k :: 0 <= k < |r| ==> r[k] == Export(held[k].key, held[k].data, now)
  {
    if held == [] then [] else [Export(held[0].key, held[0].data, now)] + ExportsOf(held[1..], now)
  }

  function SpansOf(held: seq<Held>): seq<Span> {
    if held == [] then [] else held[0].data.spans + SpansOf(held[1..])
  }

  /** A pass sorts the buffered traces three ways. */
  ghost predicate Sorts(s: Sampler, now: int, kept: seq<nat>, exported: seq<nat>, refused: seq<nat>) {
    Rising(kept, |s.held|) && Rising(exported, |s.held|) && Rising(refused, |s.held|) &&
    forall i :: 0 <= i < |s.held| ==>
      var age, wanted := now - s.held[i].data.firstSeen, Wanted(s.policies, s.held[i].data.spans);
      (i in kept <==> age < s.wait) && (i in exported <==> age >= s.wait && wanted) &&
      (i in refused <==> age >= s.wait && !wanted)
  }

  function Shifted(indices: seq<nat>): (r: seq<nat>)
    ensures |r| == |indices| && forall k :: 0 <= k < |r| ==> r[k] == indices[k] + 1
  {
    if indices == [] then [] else [indices[0] + 1] + Shifted(indices[1..])
  }

  lemma {:induction false} ShiftedIn(indices: seq<nat>, i: nat)
    ensures i + 1 in Shifted(indices) <==> i in indices
    ensures 0 !in Shifted(indices)
  {
    if i in indices {
      var k :| 0 <= k < |indices| && indices[k] == i;
      assert Shifted(indices)[k] == i + 1;
    }
  }

  lemma {:induction false} ChosenShifted(h: Held, held: seq<Held>, indices: seq<nat>)
    requires forall k :: 0 <= k < |indices| ==> indices[k] < |held|
    ensures Chosen([h] + held, Shifted(indices)) == Chosen(held, indices)
    ensures Chosen([h] + held, [0] + Shifted(indices)) == [h] + Chosen(held, indices)
  {
  }

  lemma {:induction false} RisingShifted(indices: seq<nat>, n: nat)
    requires Rising(indices, n)
    ensures Rising(Shifted(indices), n + 1) && Rising([0] + Shifted(indices), n + 1)
  {
  }

  /** A pass keeps what is not old enough, exports what is wanted and rejects the
      rest, each in the order of arrival. */
  lemma {:induction false} PassExactly(s: Sampler, now: int)
    returns (kept: seq<nat>, exported: seq<nat>, refused: seq<nat>)
    ensures Sorts(s, now, kept, exported, refused)
    ensures Decided(s, now) ==
            s.(held := Chosen(s.held, kept), exports := s.exports + ExportsOf(Chosen(s.held, exported), now),
               rejected := s.rejected + SpansOf(Chosen(s.held, refused)))
    decreases |s.held|
  {
    hide Wanted;
    kept, exported, refused := HeldSorted(s.held, s.wait, s.policies, now);
  }

  ghost predicate SortsHeld(held: seq<Held>, wait: int, policies: seq<Policy>, now: int, kept: seq<nat>,
      exported: seq<nat>, refused: seq<nat>) {
    Rising(kept, |held|) && Rising(exported, |held|) && Rising(refused, |held|) &&
    forall i :: 0 <= i < |held| ==>
      var age, wanted := now - held[i].data.firstSeen, Wanted(policies, held[i].data.spans);
      (i in kept <==> age < wait) && (i in exported <==> age >= wait && wanted) &&
      (i in refused <==> age >= wait && !wanted)
  }

  lemma {:induction false} HeldSorted(held: seq<Held>, wait: int, policies: seq<Policy>, now: int)
    returns (kept: seq<nat>, exported: seq<nat>, refused: seq<nat>)
    ensures SortsHeld(held, wait, policies, now, kept, exported, refused)
    ensures Kept(held, wait, now) == Chosen(held, kept)
    ensures Exported(held, wait, policies, now) == ExportsOf(Chosen(held, exported), now)
    ensures Rejected(held, wait, policies, now) == SpansOf(Chosen(held, refused))
  {
    hide Wanted, Sampled, Chosen, Shifted, Rising, SpansOf, ExportsOf, SortsHeld, Kept, Exported, Rejected;
    if held == [] {
      kept, exported, refused := [], [], [];
      NothingSorted(wait, policies, now);
    } else {
      var h, rest := held[0], held[1..];
      var k, e, r := HeldSorted(rest, wait, policies, now);
      assert held == [h] + rest;
      SampledExactly(policies, h.data.spans);
      WantedIs(policies, h.data.spans);
      if now - h.data.firstSeen < wait {
        kept, exported, refused := [0] + Shifted(k), Shifted(e), Shifted(r);
      } else if Sampled(policies, h.data.spans) {
        kept, exported, refused := Shifted(k), [0] + Shifted(e), Shifted(r);
      } else {
        kept, exported, refused := Shifted(k), Shifted(e), [0] + Shifted(r);
      }
      OneMoreSorted(h, rest, wait, policies, now, k, e, r);
      OneMoreGoes(h, rest, wait, policies, now);
      BoundsOf(rest, wait, policies, now, k, e, r);
      ChosenShifted(h, rest, k);
      ChosenShifted(h, rest, e);
      ChosenShifted(h, rest, r);
      ExportsFirst(h, Chosen(rest, e), now);
      SpansFirst(h, Chosen(rest, r));
    }
  }

  lemma {:induction false} NothingSorted(wait: int, policies: seq<Policy>, now: int)
    ensures SortsHeld([], wait, policies, now, [], [], [])
    ensures Kept([], wait, now) == Chosen([], [])
    ensures Exported([], wait, policies, now) == ExportsOf(Chosen([], []), now)
    ensures Rejected([], wait, policies, now) == SpansOf(Chosen([], []))
  {
  }

  lemma {:induction false} BoundsOf(held: seq<Held>, wait: int, policies: seq<Policy>, now: int, kept: seq<nat>,
          exported: seq<nat>, refused: seq<nat>)
    requires SortsHeld(held, wait, policies, now, kept, exported, refused)
    ensures forall k :: 0 <= k < |kept| ==> kept[k] < |held|
    ensures forall k :: 0 <= k < |exported| ==> exported[k] < |held|
    ensures forall k :: 0 <= k < |refused| ==> refused[k] < |held|
  {
    hide Wanted;
  }

  lemma {:induction false} ExportsFirst(h: Held, held: seq<Held>, now: int)
    ensures ExportsOf([h] + held, now) == [Export(h.key, h.data, now)] + ExportsOf(held, now)
  {
  }

  lemma {:induction false} SpansFirst(h: Held, held: seq<Held>)
    ensures SpansOf([h] + held) == h.data.spans + SpansOf(held)
  {
    assert ([h] + held)[1..] == held;
  }

  lemma {:induction false} OneMoreGoes(h: Held, held: seq<Held>, wait: int, policies: seq<Policy>, now: int)
    ensures Kept([h] + held, wait, now) ==
            (if now - h.data.firstSeen < wait then [h] else []) + Kept(held, wait, now)
    ensures Exported([h] + held, wait, policies, now) ==
            (if now - h.data.firstSeen >= wait && Sampled(policies, h.data.spans) then [Export(h.key, h.data, now)]
             else []) + Exported(held, wait, policies, now)
    ensures Rejected([h] + held, wait, policies, now) ==
            (if now - h.data.firstSeen >= wait && !Sampled(policies, h.data.spans) then h.data.spans else []) +
            Rejected(held, wait, policies, now)
  {
    hide Sampled;
    assert ([h] + held)[1..] == held;
  }

  lemma {:induction false} OneMoreSorted(h: Held, held: seq<Held>, wait: int, policies: seq<Policy>, now: int,
          k: seq<nat>, e: seq<nat>, r: seq<nat>)
    requires SortsHeld(held, wait, policies, now, k, e, r)
    ensures var age, wanted := now - h.data.firstSeen, Wanted(policies, h.data.spans);
            SortsHeld([h] + held, wait, policies, now,
                      if age < wait then [0] + Shifted(k) else Shifted(k),
                      if age >= wait && wanted then [0] + Shifted(e) else Shifted(e),
                      if age >= wait && !wanted then [0] + Shifted(r) else Shifted(r))
  {
    hide Wanted, Shifted, Rising;
    RisingShifted(k, |held|);
    RisingShifted(e, |held|);
    RisingShifted(r, |held|);
    forall i | 0 <= i < |held| + 1
      ensures i > 0 ==> ([h] + held)[i] == held[i - 1]
      ensures i > 0 ==> (i in Shifted(k) <==> i - 1 in k) && (i in Shifted(e) <==> i - 1 in e) &&
                        (i in Shifted(r) <==> i - 1 in r)
      ensures 0 !in Shifted(k) && 0 !in Shifted(e) && 0 !in Shifted(r)
    {
      var j := if i > 0 then i - 1 else 0;
      ShiftedIn(k, j);
      ShiftedIn(e, j);
      ShiftedIn(r, j);
    }
  }

  // ----- every trace, over every run -----

  /** A trace is open since one step only. */
  lemma {:induction false} OpenOnce(s0: Sampler, steps: seq<Step>, n: nat, k: nat, m: nat, id: Bytes.TraceID)
    requires OpenSince(s0, steps, n, m, id) && OpenSince(s0, steps, k, m, id)
    ensures n == k
  {
    hide SteppedAll, Keys;
  }

  lemma {:induction false} OpenInPrefix(s0: Sampler, steps: seq<Step>, n: nat, m: nat, id: Bytes.TraceID)
    requires m <= |steps|
    ensures OpenSince(s0, steps, n, m, id) <==> OpenSince(s0, steps[..m], n, m, id)
    ensures n < m && steps[n].Arrive? ==> Collected(steps[..m], n, m, id) == Collected(steps, n, m, id)
  {
    hide SteppedAll, Keys;
    forall k: nat | k <= m ensures HeldAt(s0, steps[..m], k, id) == HeldAt(s0, steps, k, id) {
      assert steps[..m][..k] == steps[..k];
    }
    assert n < m ==> steps[..m][n..m] == steps[n..m] && steps[..m][n] == steps[n];
  }

  /** What the buffer holds of an open trace. */
  lemma {:induction false} HeldEntry(s0: Sampler, steps: seq<Step>, n: nat, m: nat, id: Bytes.TraceID) returns (i: nat)
    requires Inv(s0) && s0.held == [] && s0.exports == [] && OpenSince(s0, steps, n, m, id)
    ensures m <= |steps| && n < m && steps[n].Arrive?
    ensures var held := At(s0, steps, m).held;
            i < |held| && held[i] == Entry(id, Collected(steps, n, m, id)) &&
            forall j :: 0 <= j < |held| && held[j].key == id ==> j == i
  {
    hide SteppedAll, Keys, Inv, Collected, OpenSince, HeldAt;
    OpenBounds(s0, steps, n, m, id);
    OpenIsHeld(s0, steps, n, m, id);
    var before := steps[..m];
    var s := SteppedAll(s0, before);
    RunKeepsWhole(s0, before);
    RunKeepsInv(s0, before);
    InvDistinct(s);
    i :| 0 <= i < |Keys(s.held)| && Keys(s.held)[i] == id;
    assert HeldWhole(s0, before, s.held[i]);
    var k: nat :| HeldSince(s0, before, k, s.held[i]);
    OpenInPrefix(s0, steps, n, m, id);
    OpenOnce(s0, before, n, k, m, id);
    forall j | 0 <= j < |s.held| && s.held[j].key == id ensures j == i {
      assert Keys(s.held)[j] == id;
    }
  }

  lemma {:induction false} OpenIsHeld(s0: Sampler, steps: seq<Step>, n: nat, m: nat, id: Bytes.TraceID)
    requires OpenSince(s0, steps, n, m, id)
    ensures m <= |steps| && id in Keys(At(s0, steps, m).held)
  {
    hide SteppedAll, Keys;
    assert HeldAt(s0, steps, m, id);
  }

  /** In every run, whatever has been received: a pass that meets a trace opened
      at step n exports it, with all spans of it that came since, exactly if it
      is old enough and there is no policy or one of them wants these spans; it
      keeps the trace exactly if it is not old enough; and otherwise it rejects
      exactly these spans. */
  lemma {:induction false} DecidedExactly(max: nat, wait: int, policies: seq<Policy>, steps: seq<Step>, n: nat,
          m: nat, id: Bytes.TraceID)
    requires max > 0 && OpenSince(Init(max, wait, policies), steps, n, m, id) && m < |steps| && steps[m].Decide?
    ensures steps[n].Arrive?
    ensures var (s0, now, trace) := (Init(max, wait, policies), steps[m].now, Collected(steps, n, m, id));
            var (before, after) := (At(s0, steps, m), At(s0, steps, m + 1));
            var wanted := |policies| == 0 || exists i :: 0 <= i < |policies| && policies[i](trace.spans);
            before.exports <= after.exports && before.rejected <= after.rejected &&
            (HeldAt(s0, steps, m + 1, id) <==> now - steps[n].now < wait) &&
            (Export(id, trace, now) in after.exports[|before.exports|..] <==> now - steps[n].now >= wait && wanted) &&
            (forall e :: e in after.exports[|before.exports|..] && e.id == id ==> e == Export(id, trace, now)) &&
            (now - steps[n].now >= wait && !wanted ==>
               Within(trace.spans, after.rejected[|before.rejected|..]))
  {
    hide SteppedAll, Keys, Decided, Collected, OpenSince, Wanted, Chosen, ExportsOf, SpansOf, Inv, Sorts;
    var s0, now := Init(max, wait, policies), steps[m].now;
    OpenBounds(s0, steps, n, m, id);
    InitInv(max, wait, policies);
    var i := HeldEntry(s0, steps, n, m, id);
    var s := At(s0, steps, m);
    StepsKeepConfig(s0, steps[..m]);
    NextStep(s0, steps, m);
    CollectedSince(steps, n, m, id);
    OneDecided(s, now, i);
    assert Wanted(policies, s.held[i].data.spans) <==>
           |policies| == 0 || exists j :: 0 <= j < |policies| && policies[j](s.held[i].data.spans) by {
      WantedIs(policies, s.held[i].data.spans);
    }
  }

  lemma {:induction false} WantedIs(policies: seq<Policy>, spans: seq<Span>)
    ensures Wanted(policies, spans) <==> |policies| == 0 || exists i :: 0 <= i < |policies| && policies[i](spans)
  {
  }

  lemma {:induction false} InitInv(max: nat, wait: int, policies: seq<Policy>)
    requires max > 0
    ensures Inv(Init(max, wait, policies))
  {
  }

  lemma {:induction false} NextStep(s0: Sampler, steps: seq<Step>, m: nat)
    requires m < |steps| && steps[m].Decide?
    ensures At(s0, steps, m + 1) == Decided(At(s0, steps, m), steps[m].now)
  {
    hide SteppedAll, Decided;
    OneMoreStep(s0, steps[..m], steps[m]);
    assert steps[..m] + [steps[m]] == steps[..m + 1];
  }

  lemma {:induction false} CollectedSince(steps: seq<Step>, n: nat, m: nat, id: Bytes.TraceID)
    requires n < m <= |steps| && steps[n].Arrive?
    ensures Collected(steps, n, m, id).firstSeen == steps[n].now
  {
  }

  /** The one text stands in the other. */
  ghost predicate Within(spans: seq<Span>, all: seq<Span>) {
    exists a, b :: all == a + spans + b
  }

  lemma {:induction false} SpansWithin(held: seq<Held>, k: nat)
    requires k < |held|
    ensures Within(held[k].data.spans, SpansOf(held))
  {
    if k == 0 {
      assert SpansOf(held) == [] + held[0].data.spans + SpansOf(held[1..]);
    } else {
      SpansWithin(held[1..], k - 1);
      var a, b :| SpansOf(held[1..]) == a + held[k].data.spans + b;
      assert SpansOf(held) == (held[0].data.spans + a) + held[k].data.spans + b;
    }
  }

  /** What a pass does with one trace of the buffer. */
  lemma {:induction false} OneDecided(s: Sampler, now: int, i: nat)
    requires i < |s.held| && forall j :: 0 <= j < |s.held| && s.held[j].key == s.held[i].key ==> j == i
    ensures var (h, after) := (s.held[i], Decided(s, now));
            var old_ := now - h.data.firstSeen >= s.wait;
            s.exports <= after.exports && s.rejected <= after.rejected &&
            (h.key in Keys(after.held) <==> !old_) &&
            (Export(h.key, h.data, now) in after.exports[|s.exports|..] <==>
             old_ && Wanted(s.policies, h.data.spans)) &&
            (forall e :: e in after.exports[|s.exports|..] && e.id == h.key ==> e == Export(h.key, h.data, now)) &&
            (old_ && !Wanted(s.policies, h.data.spans) ==>
               Within(h.data.spans, after.rejected[|s.rejected|..]))
  {
    hide Wanted, Decided, Chosen, ExportsOf, SpansOf, Keys, Within;
    var kept, exported, refused := PassExactly(s, now);
    var h, after := s.held[i], Decided(s, now);
    var out, gone := ExportsOf(Chosen(s.held, exported), now), SpansOf(Chosen(s.held, refused));
    assert after.exports[|s.exports|..] == out && after.rejected[|s.rejected|..] == gone;
    if i in kept {
      var k :| 0 <= k < |kept| && kept[k] == i;
      assert Keys(after.held)[k] == h.key;
    }
    if h.key in Keys(after.held) {
      var k :| 0 <= k < |kept| && Keys(after.held)[k] == h.key;
      assert s.held[kept[k]].key == h.key;
    }
    if i in exported {
      var k :| 0 <= k < |exported| && exported[k] == i;
      assert out[k] == Export(h.key, h.data, now);
    }
    forall e | e in out && e.id == h.key ensures e == Export(h.key, h.data, now) && i in exported {
      var k :| 0 <= k < |out| && out[k] == e;
      assert s.held[exported[k]].key == h.key;
    }
    if i in refused {
      var k :| 0 <= k < |refused| && refused[k] == i;
      SpansWithin(Chosen(s.held, refused), k);
    }
  }
}
