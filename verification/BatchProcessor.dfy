/** The batch processor as the object it is: a buffer that is reused, and exports
    that must not see it being reused. */
module BatchProcessor {
  import opened Bytes
  import opened OtlpTypes
  import opened Batching

  /** What the exporter was given: it keeps a reference to the spans. */
  datatype Sent = Sent(resource: Resource, scope: Scope, spans: array<Span>)

  class Processor {
    const max: nat
    var buffer: array<Span>
    var len: nat
    var resource: Resource
    var scope: Scope
    var timer: bool
    var sent: seq<Sent>

    ghost predicate Valid()
      reads this
    {
      max > 0 && buffer.Length == max && len <= max &&
      forall i :: 0 <= i < |sent| ==> sent[i].spans != buffer
    }

    ghost function Arrays(): set<object>
      reads this
    {
      set i | 0 <= i < |sent| :: sent[i].spans as object
    }

    ghost function Exports(): seq<Export>
      reads this, Arrays()
    {
      seq(|sent|, i requires 0 <= i < |sent| reads this, Arrays() =>
        Export(sent[i].resource, sent[i].scope, sent[i].spans[..]))
    }

    ghost function State(): Batch
      requires Valid()
      reads this, buffer, Arrays()
    {
      Batch(max, buffer[..len], resource, scope, timer, Exports())
    }

    constructor (maxBatchSize: int)
      ensures Valid() && fresh(buffer) && State() == Init(maxBatchSize)
    {
      max := if maxBatchSize <= 0 then 512 else maxBatchSize;
      buffer := new Span[if maxBatchSize <= 0 then 512 else maxBatchSize](_ => EMPTY_SPAN);
      len := 0;
      resource := EMPTY_RESOURCE;
      scope := EMPTY_SCOPE;
      timer := false;
      sent := [];
    }

    /** Exports a copy of the pending spans and empties the buffer in place. */
    method FlushLocked()
      requires Valid()
      modifies this
      ensures Valid() && buffer == old(buffer) && State() == Flushed(old(State()))
      ensures unchanged(buffer) && old(sent) <= sent
      ensures forall i :: 0 <= i < |old(sent)| ==> unchanged(old(sent)[i].spans)
    {
      if len == 0 {
        return;
      }
      timer := false;
      var spans := new Span[len](i requires 0 <= i < len <= buffer.Length reads this, buffer => buffer[i]);
      ghost var before := Exports();
      assert spans[..] == buffer[..len];
      sent := sent + [Sent(resource, scope, spans)];
      len := 0;
      assert Exports() == before + [Export(resource, scope, spans[..])];
    }

    /** Also the timer's callback, and Shutdown. */
    method Flush()
      requires Valid()
      modifies this
      ensures Valid() && buffer == old(buffer) && State() == Flushed(old(State()))
    {
      FlushLocked();
    }

    method Append(span: Span)
      requires Valid() && len < max
      modifies this, buffer
      ensures Valid() && buffer == old(buffer) && State() == Added(old(State()), span)
      ensures max > 0 && (old(len) < max ==> len < max)
      ensures forall i :: 0 <= i < |old(sent)| ==> unchanged(old(sent)[i].spans)
    {
      ghost var exports := Exports();
      buffer[len] := span;
      len := len + 1;
      assert buffer[..len] == old(buffer[..len]) + [span];
      assert Exports() == exports;
      if len >= max {
        FlushLocked();
      }
    }

    /** Adds all spans; the timer is armed at the end if something is pending. */
    method ProcessTraces(td: TracesData)
      requires Valid() && len < max
      modifies this, buffer
      ensures Valid() && len < max && State() == Processed(old(State()), td)
    {
      hide ScopesEvents;
      ghost var start := State();
      for i := 0 to |td.resourceSpans|
        invariant Valid() && len < max && buffer == old(buffer)
        invariant HandledAll(start, Events(td)) == HandledAll(State(), ResourcesEvents(td.resourceSpans[i..]))
      {
        var rs := td.resourceSpans[i];
        ghost var later := ResourcesEvents(td.resourceSpans[i + 1..]);
        assert td.resourceSpans[i..][1..] == td.resourceSpans[i + 1..];
        Next(State(), SetResource(rs.resource), ScopesEvents(rs.scopeSpans) + later);
        Assoc([SetResource(rs.resource)], ScopesEvents(rs.scopeSpans), later);
        SetHeaders(rs.resource, scope);
        AddScopes(rs.scopeSpans, later);
      }
      if len > 0 && !timer {
        timer := true;
      }
    }

    /** Assigns the current resource and scope. */
    method SetHeaders(r: Resource, s: Scope)
      requires Valid()
      modifies this
      ensures Valid() && buffer == old(buffer) && len == old(len)
      ensures State() == old(State()).(resource := r, scope := s)
    {
      ghost var exports := Exports();
      resource := r;
      scope := s;
      assert Exports() == exports;
    }

    /** The loop over the scopes of one resource. */
    method AddScopes(scopes: seq<ScopeSpans>, ghost later: seq<Event>)
      requires Valid() && len < max
      modifies this, buffer
      ensures Valid() && len < max && buffer == old(buffer)
      ensures HandledAll(State(), later) == HandledAll(old(State()), ScopesEvents(scopes) + later)
    {
      ghost var start := State();
      assert scopes[0..] == scopes;
      for j := 0 to |scopes|
        invariant Valid() && len < max && buffer == old(buffer)
        invariant HandledAll(start, ScopesEvents(scopes) + later) == HandledAll(State(),
            ScopesEvents(scopes[j..]) + later)
      {
        var ss := scopes[j];
        ghost var rest := ScopesEvents(scopes[j + 1..]) + later;
        assert scopes[j..][1..] == scopes[j + 1..];
        assert ScopesEvents(scopes[j..]) + later == [SetScope(ss.scope)] + (SpanEvents(ss.spans) + rest);
        Next(State(), SetScope(ss.scope), SpanEvents(ss.spans) + rest);
        SetHeaders(resource, ss.scope);
        AddSpans(ss.spans, rest);
      }
      assert [] + later == later;
    }

    /** The loop over the spans of one scope. */
    method AddSpans(spans: seq<Span>, ghost later: seq<Event>)
      requires Valid() && len < max
      modifies this, buffer
      ensures Valid() && len < max && buffer == old(buffer)
      ensures HandledAll(State(), later) == HandledAll(old(State()), SpanEvents(spans) + later)
    {
      ghost var start := State();
      assert spans[0..] == spans;
      for k := 0 to |spans|
        invariant Valid() && len < max && buffer == old(buffer)
        invariant HandledAll(start, SpanEvents(spans) + later) == HandledAll(State(), SpanEvents(spans[k..]) + later)
      {
        assert spans[k..][1..] == spans[k + 1..];
        assert SpanEvents(spans[k..]) + later == [Add(spans[k])] + (SpanEvents(spans[k + 1..]) + later);
        Next(State(), Add(spans[k]), SpanEvents(spans[k + 1..]) + later);
        Append(spans[k]);
      }
      assert [] + later == later;
    }
  }

  lemma {:induction false} Next(b: Batch, e: Event, rest: seq<Event>)
    ensures HandledAll(b, [e] + rest) == HandledAll(Handled(b, e), rest)
  {
    assert ([e] + rest)[1..] == rest;
  }
}
