/** The order in which a nested batch of traces is walked, span by span. */
module SpanWalk {
  import opened OtlpTypes

  /** One span, under its resource and scope. */
  datatype Write = Write(resource: Resource, scope: Scope, span: Span)

  function ScopeWrites(r: Resource, s: Scope, spans: seq<Span>): seq<Write> {
    if spans == [] then [] else [Write(r, s, spans[0])] + ScopeWrites(r, s, spans[1..])
  }

  function ResourceWrites(r: Resource, scopes: seq<ScopeSpans>): seq<Write> {
    if scopes == [] then [] else ScopeWrites(r, scopes[0].scope, scopes[0].spans) + ResourceWrites(r, scopes[1..])
  }

  function Writes(rss: seq<ResourceSpans>): seq<Write> {
    if rss == [] then [] else ResourceWrites(rss[0].resource, rss[0].scopeSpans) + Writes(rss[1..])
  }

  /** The walk of two batches is the walk of the one and then of the other, at
      each of the three levels; one span is one write. */
  lemma {:induction false} WalksOn(a: seq<ResourceSpans>, b: seq<ResourceSpans>)
    ensures Writes(a + b) == Writes(a) + Writes(b)
  {
    if a == [] {
      assert a + b == b;
    } else {
      assert (a + b)[1..] == a[1..] + b;
      WalksOn(a[1..], b);
    }
  }

  lemma {:induction false} ScopesWalkOn(r: Resource, a: seq<ScopeSpans>, b: seq<ScopeSpans>)
    ensures ResourceWrites(r, a + b) == ResourceWrites(r, a) + ResourceWrites(r, b)
  {
    if a == [] {
      assert a + b == b;
    } else {
      assert (a + b)[1..] == a[1..] + b;
      ScopesWalkOn(r, a[1..], b);
    }
  }

  lemma {:induction false} OneEach(r: Resource, s: Scope, spans: seq<Span>)
    ensures Writes([ResourceSpans(r, [ScopeSpans(s, spans)])]) == ScopeWrites(r, s, spans)
    ensures |ScopeWrites(r, s, spans)| == |spans|
    ensures forall i :: 0 <= i < |spans| ==> ScopeWrites(r, s, spans)[i] == Write(r, s, spans[i])
    ensures Writes([]) == [] && ResourceWrites(r, []) == []
  {
    var scopes := [ScopeSpans(s, spans)];
    var resources := [ResourceSpans(r, scopes)];
    assert scopes[1..] == [] && resources[1..] == [];
    assert ResourceWrites(r, scopes) == ScopeWrites(r, s, spans) + [];
    assert Writes(resources) == ResourceWrites(r, scopes) + [];
    SpansAre(r, s, spans);
  }

  lemma {:induction false} SpansAre(r: Resource, s: Scope, spans: seq<Span>)
    ensures |ScopeWrites(r, s, spans)| == |spans|
    ensures forall i :: 0 <= i < |spans| ==> ScopeWrites(r, s, spans)[i] == Write(r, s, spans[i])
  {
    if spans != [] {
      SpansAre(r, s, spans[1..]);
    }
  }
}
