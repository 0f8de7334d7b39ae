/** Which spans the batch processor exports under the resource and scope they
    came under, over every run of calls, flushes and batches that fill up. */
module BatchAttribution {
  import opened Bytes
  import opened OtlpTypes
  import opened Batching

  /** What happens under the lock, one at a time. A batch that fills up is
      flushed by the Add that fills it. */
  datatype Step = Do(event: Event) | FlushNow

  function Stepped(b: Batch, s: Step): Batch {
    match s
    case Do(e) => Handled(b, e)
    case FlushNow => Flushed(b)
  }

  function Ran(b: Batch, steps: seq<Step>): Batch {
    if steps == [] then b else Stepped(Ran(b, steps[..|steps| - 1]), steps[|steps| - 1])
  }

  function EventSteps(es: seq<Event>): seq<Step> {
    if es == [] then [] else [Do(es[0])] + EventSteps(es[1..])
  }

  function CallSteps(c: Call): seq<Step> {
    if c.Process? then EventSteps(Events(c.td)) else [FlushNow]
  }

  function Steps(calls: seq<Call>): seq<Step> {
    if calls == [] then [] else CallSteps(calls[0]) + Steps(calls[1..])
  }

  // ----- the headers in force, from the input alone -----

  type Label = (Span, Resource, Scope)

  function ResourceAfter(r: Resource, steps: seq<Step>): Resource {
    if steps == [] then r
    else
      match steps[|steps| - 1]
      case Do(SetResource(r')) => r'
      case _ => ResourceAfter(r, steps[..|steps| - 1])
  }

  function ScopeAfter(s: Scope, steps: seq<Step>): Scope {
    if steps == [] then s
    else
      match steps[|steps| - 1]
      case Do(SetScope(s')) => s'
      case _ => ScopeAfter(s, steps[..|steps| - 1])
  }

  function EventsOf(steps: seq<Step>): seq<Event> {
    if steps == [] then []
    else
      var last := steps[|steps| - 1];
      EventsOf(steps[..|steps| - 1]) + if last.Do? then [last.event] else []
  }

  /** Every span that came in, with the headers it came under. */
  function Came(b: Batch, steps: seq<Step>): seq<Label> {
    Owned(EventsOf(steps), b.resource, b.scope)
  }

  /** The headers after some events. */
  function After(es: seq<Event>, r: Resource, s: Scope): (Resource, Scope)
    decreases es
  {
    if es == [] then (r, s)
    else
      match es[0]
      case SetResource(r') => After(es[1..], r', s)
      case SetScope(s') => After(es[1..], r, s')
      case Add(_) => After(es[1..], r, s)
  }

  lemma {:induction false} OwnedOneMore(es: seq<Event>, e: Event, r: Resource, s: Scope)
    ensures var (r', s') := After(es, r, s);
            Owned(es + [e], r, s) == Owned(es, r, s) + (if e.Add? then [(e.span, r', s')] else []) &&
            After(es + [e], r, s) ==
            (if e.SetResource? then e.resource else r', if e.SetScope? then e.scope else s')
    decreases es
  {
    if es == [] {
      assert es + [e] == [e] && [e][1..] == [];
    } else {
      assert (es + [e])[1..] == es[1..] + [e];
      match es[0]
      case SetResource(r') => OwnedOneMore(es[1..], e, r', s);
      case SetScope(s') => OwnedOneMore(es[1..], e, r, s');
      case Add(_) => OwnedOneMore(es[1..], e, r, s);
    }
  }

  lemma {:induction false} AfterIs(b: Batch, steps: seq<Step>)
    ensures After(EventsOf(steps), b.resource, b.scope) ==
            (ResourceAfter(b.resource, steps), ScopeAfter(b.scope, steps))
  {
    hide After;
    if steps == [] {
      NoEvents(b);
    } else {
      var before, last := steps[..|steps| - 1], steps[|steps| - 1];
      AfterIs(b, before);
      if last.Do? {
        OwnedOneMore(EventsOf(before), last.event, b.resource, b.scope);
      } else {
        assert EventsOf(before) + [] == EventsOf(before);
      }
    }
  }

  lemma {:induction false} NoEvents(b: Batch)
    ensures After([], b.resource, b.scope) == (b.resource, b.scope) && Came(b, []) == []
  {
  }

  /** A step brings a span under the headers in force, or nothing. */
  lemma {:induction false} CameOneMore(b: Batch, steps: seq<Step>)
    requires steps != []
    ensures var (before, last) := (steps[..|steps| - 1], steps[|steps| - 1]);
            Came(b, steps) == Came(b, before) +
              if IsAdd(last)
              then [(last.event.span, ResourceAfter(b.resource, before), ScopeAfter(b.scope, before))] else []
  {
    hide After, Owned, ResourceAfter, ScopeAfter;
    var before, last := steps[..|steps| - 1], steps[|steps| - 1];
    AfterIs(b, before);
    if last.Do? {
      OwnedOneMore(EventsOf(before), last.event, b.resource, b.scope);
    } else {
      assert EventsOf(before) + [] == EventsOf(before);
    }
  }

  /** Every exported span, with the headers it is exported under. */
  function Went(exports: seq<Export>): seq<Label> {
    if exports == [] then [] else Went(exports[..|exports| - 1]) + Labelled(exports[|exports| - 1])
  }

  /** How many spans have been exported. */
  function Out(b: Batch, steps: seq<Step>): nat {
    |Went(Ran(b, steps).exports)|
  }

  predicate IsAdd(s: Step) {
    s.Do? && s.event.Add?
  }

  /** The span that step a added left in the export of step t. */
  predicate SentAt(b: Batch, steps: seq<Step>, a: nat, t: nat) {
    a < |steps| && t < |steps| && IsAdd(steps[a]) &&
    Out(b, steps[..t]) <= |Came(b, steps[..a])| < Out(b, steps[..t + 1])
  }

  predicate SameHeaders(b: Batch, steps: seq<Step>, i: nat, j: nat)
    requires i <= |steps| && j <= |steps|
  {
    ResourceAfter(b.resource, steps[..i]) == ResourceAfter(b.resource, steps[..j]) &&
    ScopeAfter(b.scope, steps[..i]) == ScopeAfter(b.scope, steps[..j])
  }

  /** The headers in force when a span was exported are those it came under. */
  ghost predicate SentUnderOwn(b: Batch, steps: seq<Step>) {
    forall a: nat, t: nat :: SentAt(b, steps, a, t) ==> SameHeaders(b, steps, a, t + 1)
  }

  // ----- one step -----

  function Coming(s: Step): seq<Span> {
    if IsAdd(s) then [s.event.span] else []
  }

  /** A step exports nothing, or all there is under the headers it leaves. */
  lemma {:induction false} StepEffect(b: Batch, s: Step)
    ensures var c := Stepped(b, s);
            c.resource == (if s.Do? && s.event.SetResource? then s.event.resource else b.resource) &&
            c.scope == (if s.Do? && s.event.SetScope? then s.event.scope else b.scope) &&
            ((c.exports == b.exports && c.pending == b.pending + Coming(s)) ||
             (c.exports == b.exports + [Export(c.resource, c.scope, b.pending + Coming(s))] && c.pending == []))
  {
    assert b.pending + [] == b.pending;
  }

  lemma {:induction false} WentAppend(exports: seq<Export>, e: Export)
    ensures Went(exports + [e]) == Went(exports) + Labelled(e)
  {
    assert (exports + [e])[..|exports|] == exports;
  }

  /** After every run: the headers are the last ones set; every span that came
      in has been exported or is pending, in order. */
  lemma {:induction false} Follows(b: Batch, steps: seq<Step>)
    requires b.pending == [] && b.exports == []
    ensures var c := Ran(b, steps);
            c.resource == ResourceAfter(b.resource, steps) && c.scope == ScopeAfter(b.scope, steps) &&
            |Came(b, steps)| == |Went(c.exports)| + |c.pending| &&
            (forall k :: 0 <= k < |Went(c.exports)| ==> Went(c.exports)[k].0 == Came(b, steps)[k].0) &&
            (forall i :: 0 <= i < |c.pending| ==> c.pending[i] == Came(b, steps)[|Went(c.exports)| + i].0)
  {
    hide Stepped, Went, Came;
    if steps == [] {
      NothingWent();
      NoEvents(b);
    } else {
      var before, last := steps[..|steps| - 1], steps[|steps| - 1];
      Follows(b, before);
      CameOneMore(b, steps);
      var d := Ran(b, before);
      StepEffect(d, last);
      var c := Stepped(d, last);
      if c.exports != d.exports {
        WentAppend(d.exports, Export(c.resource, c.scope, d.pending + Coming(last)));
      }
    }
  }

  lemma {:induction false} NothingWent()
    ensures Went([]) == []
  {
  }

  // ----- what is exported stays; how it is labelled -----

  lemma {:induction false} WentStays(b: Batch, steps: seq<Step>, n: nat)
    requires n <= |steps|
    ensures Went(Ran(b, steps[..n]).exports) <= Went(Ran(b, steps).exports)
    decreases |steps|
  {
    hide Stepped, Went;
    if n == |steps| {
      assert steps[..n] == steps;
    } else {
      var before, last := steps[..|steps| - 1], steps[|steps| - 1];
      WentStays(b, before, n);
      assert before[..n] == steps[..n];
      var d := Ran(b, before);
      StepEffect(d, last);
      WentAppend(d.exports, Export(Stepped(d, last).resource, Stepped(d, last).scope, d.pending + Coming(last)));
    }
  }

  /** What step t exports carries the headers in force after step t. */
  lemma {:induction false} WentAt(b: Batch, steps: seq<Step>, t: nat, k: nat)
    requires b.pending == [] && b.exports == []
    requires t < |steps| && Out(b, steps[..t]) <= k < Out(b, steps[..t + 1])
    ensures var went := Went(Ran(b, steps).exports);
            k < |went| && went[k].1 == ResourceAfter(b.resource, steps[..t + 1]) &&
            went[k].2 == ScopeAfter(b.scope, steps[..t + 1])
  {
    hide Stepped, Went, Came, ResourceAfter, ScopeAfter;
    var now := steps[..t + 1];
    assert now[..t] == steps[..t];
    WentStays(b, steps, t + 1);
    Follows(b, now);
    var d := Ran(b, steps[..t]);
    StepEffect(d, steps[t]);
    var c := Stepped(d, steps[t]);
    assert Ran(b, now) == c;
    WentAppend(d.exports, Export(c.resource, c.scope, d.pending + Coming(steps[t])));
  }

  /** What step a added carries the headers in force then. */
  lemma {:induction false} CameAt(b: Batch, steps: seq<Step>, a: nat)
    requires a < |steps| && IsAdd(steps[a])
    ensures var k := |Came(b, steps[..a])|;
            k < |Came(b, steps)| && Came(b, steps)[k].1 == ResourceAfter(b.resource, steps[..a]) &&
            Came(b, steps)[k].2 == ScopeAfter(b.scope, steps[..a])
  {
    hide ResourceAfter, ScopeAfter, Came;
    CameOneMore(b, steps);
    if a < |steps| - 1 {
      var before := steps[..|steps| - 1];
      CameAt(b, before, a);
      assert before[..a] == steps[..a];
    }
  }

  lemma {:induction false} AddStep(b: Batch, steps: seq<Step>, k: nat) returns (a: nat)
    requires k < |Came(b, steps)|
    ensures a < |steps| && IsAdd(steps[a]) && |Came(b, steps[..a])| == k
  {
    hide ResourceAfter, ScopeAfter, Came;
    if steps == [] {
      NoEvents(b);
    }
    CameOneMore(b, steps);
    var before := steps[..|steps| - 1];
    if k < |Came(b, before)| {
      a := AddStep(b, before, k);
      assert before[..a] == steps[..a];
    } else {
      a := |steps| - 1;
    }
  }

  lemma {:induction false} ExportStep(b: Batch, steps: seq<Step>, k: nat) returns (t: nat)
    requires b.exports == [] && k < Out(b, steps)
    ensures t < |steps| && Out(b, steps[..t]) <= k < Out(b, steps[..t + 1])
  {
    hide Stepped;
    var before := steps[..|steps| - 1];
    if k < Out(b, before) {
      t := ExportStep(b, before, k);
      assert before[..t] == steps[..t] && before[..t + 1] == steps[..t + 1];
    } else {
      t := |steps| - 1;
      assert steps[..t + 1] == steps;
    }
  }

  // ----- the theorem -----

  /** Over every run, from any moment at which nothing is pending: the exported
      spans carry the headers they came under exactly if, for each of them, the
      headers in force when it was exported are those that it came under. */
  lemma {:induction false} StepsAttribution(b: Batch, steps: seq<Step>)
    requires b.pending == [] && b.exports == []
    ensures Out(b, steps) <= |Came(b, steps)|
    ensures Went(Ran(b, steps).exports) == Came(b, steps)[..Out(b, steps)] <==> SentUnderOwn(b, steps)
  {
    hide Ran, Went, Came, ResourceAfter, ScopeAfter;
    Follows(b, steps);
    var went, came := Went(Ran(b, steps).exports), Came(b, steps);
    if went == came[..|went|] {
      forall a: nat, t: nat | SentAt(b, steps, a, t) ensures SameHeaders(b, steps, a, t + 1) {
        var k := |Came(b, steps[..a])|;
        WentAt(b, steps, t, k);
        CameAt(b, steps, a);
        assert went[k] == came[k];
      }
    }
    if SentUnderOwn(b, steps) {
      forall k | 0 <= k < |went| ensures went[k] == came[k] {
        var a := AddStep(b, steps, k);
        var t := ExportStep(b, steps, k);
        assert SentAt(b, steps, a, t);
        WentAt(b, steps, t, k);
        CameAt(b, steps, a);
      }
      assert went == came[..|went|];
    }
  }

  // ----- calls are runs of such steps -----

  /** Two states that differ in the timer alone. */
  predicate Alike(b: Batch, c: Batch) {
    b.(armed := false) == c.(armed := false)
  }

  lemma {:induction false} RanTwice(b: Batch, s: seq<Step>, t: seq<Step>)
    ensures Ran(b, s + t) == Ran(Ran(b, s), t)
  {
    hide Stepped;
    if t == [] {
      assert s + t == s;
    } else {
      RanTwice(b, s, t[..|t| - 1]);
      assert (s + t)[..|s + t| - 1] == s + t[..|t| - 1];
    }
  }

  lemma {:induction false} RanOne(b: Batch, s: Step)
    ensures Ran(b, [s]) == Stepped(b, s)
  {
    assert [s][..0] == [];
  }

  lemma {:induction false} EventsRun(b: Batch, es: seq<Event>)
    ensures HandledAll(b, es) == Ran(b, EventSteps(es))
    decreases es
  {
    hide Handled, Ran;
    if es == [] {
      RanNothing(b);
    } else {
      EventsRun(Handled(b, es[0]), es[1..]);
      RanTwice(b, [Do(es[0])], EventSteps(es[1..]));
      RanOne(b, Do(es[0]));
    }
  }

  lemma {:induction false} RanNothing(b: Batch)
    ensures Ran(b, []) == b
  {
  }

  lemma {:induction false} StepAlike(b: Batch, c: Batch, s: Step)
    requires Alike(b, c)
    ensures Alike(Stepped(b, s), Stepped(c, s))
  {
  }

  lemma {:induction false} RanAlike(b: Batch, c: Batch, steps: seq<Step>)
    requires Alike(b, c)
    ensures Alike(Ran(b, steps), Ran(c, steps))
  {
    hide Stepped, Alike;
    if steps != [] {
      RanAlike(b, c, steps[..|steps| - 1]);
      StepAlike(Ran(b, steps[..|steps| - 1]), Ran(c, steps[..|steps| - 1]), steps[|steps| - 1]);
    }
  }

  lemma {:induction false} CallAlike(b: Batch, c: Call)
    ensures Alike(Called(b, c), Ran(b, CallSteps(c)))
  {
    hide Events, HandledAll, Ran;
    if c.Process? {
      EventsRun(b, Events(c.td));
    } else {
      RanOne(b, FlushNow);
    }
  }

  lemma {:induction false} CallsAlike(b: Batch, calls: seq<Call>)
    ensures Alike(CalledAll(b, calls), Ran(b, Steps(calls)))
    decreases calls
  {
    hide Called, CallSteps, Ran;
    if calls == [] {
      RanNothing(b);
    } else {
      var c := Called(b, calls[0]);
      CallsAlike(c, calls[1..]);
      CallAlike(b, calls[0]);
      RanTwice(b, CallSteps(calls[0]), Steps(calls[1..]));
      RanAlike(c, Ran(b, CallSteps(calls[0])), Steps(calls[1..]));
    }
  }

  // ----- what a caller can do -----

  /** Headers change only while nothing is pending. */
  ghost predicate QuietHeaders(b: Batch, steps: seq<Step>) {
    forall n :: 0 <= n < |steps| && Ran(b, steps[..n]).pending != [] ==> SameHeaders(b, steps, n, n + 1)
  }

  /** A span stays pending from the step that added it to the one that exports
      it, so its headers stay as well. */
  lemma {:induction false} QuietAttribution(b: Batch, steps: seq<Step>)
    requires b.pending == [] && b.exports == [] && QuietHeaders(b, steps)
    ensures SentUnderOwn(b, steps) && Out(b, steps) <= |Came(b, steps)|
    ensures Went(Ran(b, steps).exports) == Came(b, steps)[..Out(b, steps)]
  {
    hide Ran, Went, Came, SameHeaders;
    forall a: nat, t: nat | SentAt(b, steps, a, t) ensures SameHeaders(b, steps, a, t + 1) {
      SentLater(b, steps, a, t);
      HeadersStay(b, steps, a, t);
    }
    StepsAttribution(b, steps);
  }

  lemma {:induction false} SentLater(b: Batch, steps: seq<Step>, a: nat, t: nat)
    requires b.pending == [] && b.exports == [] && SentAt(b, steps, a, t)
    ensures a <= t < |steps|
  {
    hide Ran, Went, Came;
    if t < a {
      Follows(b, steps[..t + 1]);
      CameGrows(b, steps, t + 1, a);
    }
  }

  lemma {:induction false} CameGrows(b: Batch, steps: seq<Step>, m: nat, n: nat)
    requires m <= n <= |steps|
    ensures |Came(b, steps[..m])| <= |Came(b, steps[..n])|
    decreases n
  {
    hide ResourceAfter, ScopeAfter, Came;
    if m < n {
      CameGrows(b, steps, m, n - 1);
      CameOneMore(b, steps[..n]);
      assert steps[..n][..n - 1] == steps[..n - 1];
    }
  }

  lemma {:induction false} HeadersStay(b: Batch, steps: seq<Step>, a: nat, t: nat)
    requires b.pending == [] && b.exports == [] && QuietHeaders(b, steps) && SentAt(b, steps, a, t)
    requires a <= t < |steps|
    ensures SameHeaders(b, steps, a, t + 1)
  {
    hide Ran, Went, Came, ResourceAfter, ScopeAfter, SentAt;
    AddKeepsHeaders(b, steps, a, t);
    var n := a + 1;
    while n <= t
      invariant a + 1 <= n <= t + 1 && SameHeaders(b, steps, a, n)
    {
      StillPending(b, steps, a, t, n);
      n := n + 1;
    }
  }

  lemma {:induction false} AddKeepsHeaders(b: Batch, steps: seq<Step>, a: nat, t: nat)
    requires SentAt(b, steps, a, t)
    ensures SameHeaders(b, steps, a, a + 1)
  {
    assert steps[..a + 1][..a] == steps[..a];
  }

  /** Between the two steps the span is pending. */
  lemma {:induction false} StillPending(b: Batch, steps: seq<Step>, a: nat, t: nat, n: nat)
    requires b.pending == [] && b.exports == [] && SentAt(b, steps, a, t) && a < n <= t
    ensures Ran(b, steps[..n]).pending != []
  {
    hide Ran, Went, Came, ResourceAfter, ScopeAfter;
    Follows(b, steps[..n]);
    CameGrows(b, steps, a + 1, n);
    CameOneMore(b, steps[..a + 1]);
    assert steps[..a + 1][..a] == steps[..a];
    WentStays(b, steps[..t], n);
    assert steps[..t][..n] == steps[..n];
  }

  // ----- the same for calls -----

  /** Every run of calls, flushes and timer callbacks, from the start: what has
      been exported is labelled with the headers it came under exactly if each
      span was exported under the headers it came under; after a last flush
      that is everything that came in. It is so if headers change only while
      nothing is pending. */
  lemma {:induction false} EveryRunAttribution(maxBatchSize: int, calls: seq<Call>)
    ensures var (b, c, steps) := (Init(maxBatchSize), CalledAll(Init(maxBatchSize), calls), Steps(calls));
            |Went(c.exports)| <= |Came(b, steps)| &&
            (Went(c.exports) == Came(b, steps)[..|Went(c.exports)|] <==> SentUnderOwn(b, steps)) &&
            (c.pending == [] ==> (Went(c.exports) == Came(b, steps) <==> SentUnderOwn(b, steps))) &&
            (QuietHeaders(b, steps) ==> SentUnderOwn(b, steps))
  {
    hide CalledAll, Steps, Ran, Went, Came, SentUnderOwn, QuietHeaders;
    var b, steps := Init(maxBatchSize), Steps(calls);
    CallsAlike(b, calls);
    StepsAttribution(b, steps);
    Follows(b, steps);
    if QuietHeaders(b, steps) {
      QuietAttribution(b, steps);
    }
    if CalledAll(b, calls).pending == [] {
      assert Came(b, steps)[..|Came(b, steps)|] == Came(b, steps);
    }
  }
}
