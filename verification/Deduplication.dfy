/** The span deduplicator: one span for each id, and which one. */
module Deduplication {
  import opened Bytes
  import opened OtlpTypes

  /** What makes a later duplicate replace the span kept so far. */
  predicate Richer(a: Span, b: Span) {
    |a.events| > |b.events| || |a.attributes| > |b.attributes|
  }

  /** The index of the span with this id, or the length. */
  function IndexWith(spans: seq<Span>, id: SpanID): (i: nat)
    ensures i <= |spans| && (i < |spans| ==> spans[i].spanID == id)
    ensures forall j :: 0 <= j < i ==> spans[j].spanID != id
  {
    if spans == [] || spans[0].spanID == id then 0 else 1 + IndexWith(spans[1..], id)
  }

  function Kept(unique: seq<Span>, span: Span): seq<Span> {
    var i := IndexWith(unique, span.spanID);
    if i == |unique| then unique + [span]
    else if Richer(span, unique[i]) then unique[i := span]
    else unique
  }

  /** What the first n spans leave. */
  function Deduped(spans: seq<Span>, n: nat): seq<Span>
    requires n <= |spans|
  {
    if n == 0 then [] else Kept(Deduped(spans, n - 1), spans[n - 1])
  }

  /** The ids that were met again, in order. */
  function Removed(spans: seq<Span>, n: nat): seq<SpanID>
    requires n <= |spans|
  {
    if n == 0 then []
    else
      var before, id := Deduped(spans, n - 1), spans[n - 1].spanID;
      Removed(spans, n - 1) + if IndexWith(before, id) < |before| then [id] else []
  }

  ghost predicate DistinctIds(spans: seq<Span>) {
    forall i, j :: 0 <= i < j < |spans| ==> spans[i].spanID != spans[j].spanID
  }

  /** The map knows where the span of each id is. */
  ghost predicate Knows(seen: map<SpanID, nat>, unique: seq<Span>) {
    (forall id :: id in seen <==> IndexWith(unique, id) < |unique|) &&
    forall id :: id in seen ==> seen[id] == IndexWith(unique, id)
  }

  method Adjust(spans: seq<Span>) returns (unique: seq<Span>, warnings: seq<SpanID>)
    ensures unique == Deduped(spans, |spans|) && warnings == Removed(spans, |spans|)
  {
    hide Knows, IndexWith;
    var seen: map<SpanID, nat> := map[];
    unique, warnings := [], [];
    KnowsNothing();
    var n := 0;
    while n < |spans|
      invariant 0 <= n <= |spans| && unique == Deduped(spans, n) && warnings == Removed(spans, n) && Knows(seen, unique)
    {
      var span := spans[n];
      KnowsNext(seen, unique, span);
      if span.spanID in seen {
        var idx := seen[span.spanID];
        var existing := unique[idx];
        if |span.events| > |existing.events| || |span.attributes| > |existing.attributes| {
          unique := unique[idx := span];
        }
        warnings := warnings + [span.spanID];
      } else {
        assert warnings + [] == warnings;
        seen := seen[span.spanID := |unique|];
        unique := unique + [span];
      }
      n := n + 1;
    }
  }

  lemma {:induction false} KnowsNothing()
    ensures Knows(map[], [])
  {
  }

  lemma {:induction false} KnowsNext(seen: map<SpanID, nat>, unique: seq<Span>, span: Span)
    requires Knows(seen, unique)
    ensures var i := IndexWith(unique, span.spanID);
            if span.spanID in seen then i < |unique| && seen[span.spanID] == i && Knows(seen, unique[i := span])
            else i == |unique| && Knows(seen[span.spanID := |unique|], unique + [span])
  {
    hide IndexWith;
    var i := IndexWith(unique, span.spanID);
    forall id ensures if i < |unique| then IndexWith(unique[i := span], id) == IndexWith(unique, id)
                      else IndexWith(unique + [span], id) ==
                           if IndexWith(unique, id) == |unique| && id != span.spanID then |unique| + 1
                               else IndexWith(unique, id) {
      if i < |unique| {
        SameIndex(unique, i, span, id);
      } else {
        NextIndex(unique, span, id);
      }
    }
  }

  /** Replacing a span by a duplicate moves no id. */
  lemma {:induction false} SameIndex(unique: seq<Span>, i: nat, span: Span, id: SpanID)
    requires i < |unique| && unique[i].spanID == span.spanID
    ensures IndexWith(unique[i := span], id) == IndexWith(unique, id)
  {
    if i > 0 {
      SameIndex(unique[1..], i - 1, span, id);
      assert unique[i := span][1..] == unique[1..][i - 1 := span];
    } else {
      assert unique[0 := span][1..] == unique[1..];
    }
  }

  lemma {:induction false} NextIndex(unique: seq<Span>, span: Span, id: SpanID)
    ensures IndexWith(unique + [span], id) ==
            if IndexWith(unique, id) == |unique| && id != span.spanID then |unique| + 1 else IndexWith(unique, id)
  {
    if unique == [] {
      assert [span][1..] == [];
      assert unique + [span] == [span];
    } else {
      NextIndex(unique[1..], span, id);
      assert (unique + [span])[1..] == unique[1..] + [span];
    }
  }

  // ----- one span for each id -----

  predicate Has(spans: seq<Span>, id: SpanID) {
    IndexWith(spans, id) < |spans|
  }

  lemma {:induction false} KeptStep(unique: seq<Span>, span: Span)
    requires DistinctIds(unique)
    ensures var r := Kept(unique, span);
            DistinctIds(r) && (forall s :: s in r ==> s in unique || s == span) &&
            (forall id :: Has(r, id) <==> Has(unique, id) || id == span.spanID) &&
            |r| == |unique| + if Has(unique, span.spanID) then 0 else 1
  {
    hide IndexWith;
    var i, r := IndexWith(unique, span.spanID), Kept(unique, span);
    forall id ensures Has(r, id) <==> Has(unique, id) || id == span.spanID {
      if i < |unique| {
        SameIndex(unique, i, span, id);
      } else {
        NextIndex(unique, span, id);
      }
    }
  }

  /** Ids become distinct; each id that came in is still there, and every span
      that is left came in; the others were warned about. */
  lemma {:induction false} OneForEachId(spans: seq<Span>, n: nat)
    requires n <= |spans|
    ensures DistinctIds(Deduped(spans, n)) && |Deduped(spans, n)| + |Removed(spans, n)| == n
    ensures forall s :: s in Deduped(spans, n) ==> s in spans[..n]
    ensures forall s :: s in spans[..n] ==> Has(Deduped(spans, n), s.spanID)
  {
    hide Kept, IndexWith, DistinctIds;
    if n > 0 {
      OneForEachId(spans, n - 1);
      KeptStep(Deduped(spans, n - 1), spans[n - 1]);
      assert spans[..n] == spans[..n - 1] + [spans[n - 1]];
    } else {
      NothingDistinct();
    }
  }

  lemma {:induction false} NothingDistinct()
    ensures DistinctIds([])
  {
  }

  /** A second pass removes nothing; so does the first exactly when ids are distinct. */
  lemma {:induction false} NothingRemovedExactly(spans: seq<Span>)
    ensures Removed(spans, |spans|) == [] <==> DistinctIds(spans)
    ensures DistinctIds(spans) ==> Deduped(spans, |spans|) == spans
    ensures Removed(Deduped(spans, |spans|), |Deduped(spans, |spans|)|) == []
  {
    if DistinctIds(spans) {
      DistinctKept(spans, |spans|);
    } else {
      var i, j :| 0 <= i < j < |spans| && spans[i].spanID == spans[j].spanID;
      DuplicateRemoved(spans, i, j, |spans|);
    }
    OneForEachId(spans, |spans|);
    var r := Deduped(spans, |spans|);
    DistinctKept(r, |r|);
  }

  lemma {:induction false} DistinctKept(spans: seq<Span>, n: nat)
    requires n <= |spans| && DistinctIds(spans)
    ensures Deduped(spans, n) == spans[..n] && Removed(spans, n) == []
  {
    hide IndexWith;
    if n > 0 {
      DistinctKept(spans, n - 1);
      assert spans[..n] == spans[..n - 1] + [spans[n - 1]];
      var before := spans[..n - 1];
      forall j | 0 <= j < |before| ensures before[j].spanID != spans[n - 1].spanID {
        assert before[j] == spans[j];
      }
    }
  }

  lemma {:induction false} DuplicateRemoved(spans: seq<Span>, i: nat, j: nat, n: nat)
    requires i < j < n <= |spans| && spans[i].spanID == spans[j].spanID
    ensures Removed(spans, n) != []
  {
    hide IndexWith, Deduped;
    if n == j + 1 {
      OneForEachId(spans, j);
      assert spans[..j][i] == spans[i];
    } else {
      DuplicateRemoved(spans, i, j, n - 1);
    }
  }

  /** Whether a span has the id of an earlier one. */
  predicate Repeated(spans: seq<Span>, i: nat)
    requires i < |spans|
  {
    exists j :: 0 <= j < i && spans[j].spanID == spans[i].spanID
  }

  function FirstIds(spans: seq<Span>, n: nat): seq<SpanID>
    requires n <= |spans|
  {
    if n == 0 then []
    else FirstIds(spans, n - 1) + if Repeated(spans, n - 1) then [] else [spans[n - 1].spanID]
  }

  function RepeatedIds(spans: seq<Span>, n: nat): seq<SpanID>
    requires n <= |spans|
  {
    if n == 0 then []
    else RepeatedIds(spans, n - 1) + if Repeated(spans, n - 1) then [spans[n - 1].spanID] else []
  }

  function Ids(spans: seq<Span>): (r: seq<SpanID>)
    ensures |r| == |spans| && forall i :: 0 <= i < |r| ==> r[i] == spans[i].spanID
  {
    if spans == [] then [] else [spans[0].spanID] + Ids(spans[1..])
  }

  lemma {:induction false} KeptIds(unique: seq<Span>, span: Span)
    ensures Ids(Kept(unique, span)) == Ids(unique) + if Has(unique, span.spanID) then [] else [span.spanID]
  {
    hide IndexWith;
    var i := IndexWith(unique, span.spanID);
    if i < |unique| {
      assert Ids(unique[i := span]) == Ids(unique);
      assert Ids(unique) + [] == Ids(unique);
    } else {
      assert Ids(unique + [span]) == Ids(unique) + [span.spanID];
    }
  }

  /** Ids stay in the order of their first spans; there is a warning for each
      span that repeats one, in order. */
  lemma {:induction false} OrderKept(spans: seq<Span>, n: nat)
    requires n <= |spans|
    ensures Ids(Deduped(spans, n)) == FirstIds(spans, n) && Removed(spans, n) == RepeatedIds(spans, n)
  {
    hide IndexWith, Kept, Repeated;
    if n > 0 {
      OrderKept(spans, n - 1);
      MetBefore(spans, n - 1);
      KeptIds(Deduped(spans, n - 1), spans[n - 1]);
    }
  }

  lemma {:induction false} MetBefore(spans: seq<Span>, i: nat)
    requires i < |spans|
    ensures Has(Deduped(spans, i), spans[i].spanID) <==> Repeated(spans, i)
  {
    hide Deduped;
    OneForEachId(spans, i);
    var before, id := Deduped(spans, i), spans[i].spanID;
    if Has(before, id) {
      var s := before[IndexWith(before, id)];
      assert s in before;
      var j :| 0 <= j < |spans[..i]| && spans[..i][j] == s;
      assert spans[j].spanID == id;
    }
    if j :| 0 <= j < i && spans[j].spanID == id {
      assert spans[..i][j] == spans[j];
    }
  }

  // ----- which one is kept -----

  /** Of two spans with one id, one has at least as much of both. */
  ghost predicate Comparable(spans: seq<Span>) {
    forall a, b :: a in spans && b in spans && a.spanID == b.spanID ==> !Richer(a, b) || !Richer(b, a)
  }

  ghost predicate Beaten(s: Span, kept: seq<Span>) {
    forall k :: k in kept && k.spanID == s.spanID ==> !Richer(s, k)
  }

  /** One more span: it is not richer than what is kept, and neither is anything
      that was not before. */
  lemma {:induction false} StillBeaten(unique: seq<Span>, span: Span, s: Span)
    requires DistinctIds(unique)
    requires forall a, b :: a in unique + [span, s] && b in unique + [span, s] && a.spanID == b.spanID ==>
        !Richer(a, b) || !Richer(b, a)
    requires s == span || (Has(unique, s.spanID) && Beaten(s, unique))
    ensures Beaten(s, Kept(unique, span))
  {
    hide IndexWith;
    var r, i := Kept(unique, span), IndexWith(unique, span.spanID);
    forall k | k in r && k.spanID == s.spanID ensures !Richer(s, k) {
      if i == |unique| {
        assert k in unique || k == span;
        assert s != span ==> Has(unique, s.spanID) && s.spanID != span.spanID;
      } else {
        assert unique[i] in unique;
        if k.spanID != span.spanID {
          assert k in unique;
        } else {
          OnlyOne(unique, i, span, k);
          assert span in unique + [span, s] && s in unique + [span, s] && unique[i] in unique + [span, s];
        }
      }
    }
  }

  /** The span that is kept under the id. */
  lemma {:induction false} OnlyOne(unique: seq<Span>, i: nat, span: Span, k: Span)
    requires DistinctIds(unique) && i == IndexWith(unique, span.spanID) < |unique|
    requires k in Kept(unique, span) && k.spanID == span.spanID
    ensures k == if Richer(span, unique[i]) then span else unique[i]
  {
    hide IndexWith;
    var r := Kept(unique, span);
    var j :| 0 <= j < |r| && r[j] == k;
  }

  /** If duplicates can be compared, the richest is kept. */
  lemma {:induction false} RichestKept(spans: seq<Span>, n: nat)
    requires n <= |spans| && Comparable(spans)
    ensures forall s :: s in spans[..n] ==> Beaten(s, Deduped(spans, n))
  {
    hide Kept, IndexWith, Beaten, Richer, DistinctIds, Has;
    if n > 0 {
      var before, span := Deduped(spans, n - 1), spans[n - 1];
      RichestKept(spans, n - 1);
      OneForEachId(spans, n - 1);
      assert spans[..n] == spans[..n - 1] + [span];
      forall s | s in spans[..n] ensures Beaten(s, Deduped(spans, n)) {
        assert s == span || s in spans[..n - 1];
        StillBeaten(before, span, s);
      }
    }
  }

  /** If they cannot, a span with more events can lose to a later one with more
      attributes, and the order decides. */
  lemma {:induction false} OrderDecides(a: Span, b: Span)
    requires a.spanID == b.spanID && |a.events| > |b.events| && |b.attributes| > |a.attributes|
    ensures Deduped([a, b], 2) == [b] && Deduped([b, a], 2) == [a]
  {
    assert Deduped([a, b], 1) == [a] && Deduped([b, a], 1) == [b];
  }

  // ----- when the richest is kept -----

  /** No span of the same id has more events or more attributes. */
  ghost predicate Tops(k: Span, spans: seq<Span>) {
    forall s :: s in spans && s.spanID == k.spanID ==> !Richer(s, k)
  }

  /** One span of the id has both the most events and the most attributes. */
  ghost predicate HasTop(spans: seq<Span>, id: SpanID) {
    exists m :: m in spans && m.spanID == id && Tops(m, spans)
  }

  /** Whatever is kept under the id of the last span, that span is not richer;
      what is kept under another id was kept before. */
  lemma {:induction false} LastNotRicher(unique: seq<Span>, span: Span, k: Span)
    requires DistinctIds(unique) && k in Kept(unique, span)
    ensures k.spanID == span.spanID ==> !Richer(span, k)
    ensures k.spanID == span.spanID ==> k == span || (k in unique && !Richer(span, k))
    ensures k.spanID != span.spanID ==> k in unique
  {
    hide IndexWith;
    var i := IndexWith(unique, span.spanID);
    if k.spanID == span.spanID {
      if i < |unique| {
        OnlyOne(unique, i, span, k);
      } else {
        NoneWith(unique, span.spanID);
      }
    }
  }

  lemma {:induction false} NoneWith(unique: seq<Span>, id: SpanID)
    requires !Has(unique, id)
    ensures forall s :: s in unique ==> s.spanID != id
  {
  }

  /** A span with the most of both, once met, is kept or has been: what is kept
      has as much of both. */
  lemma {:induction false} TopStays(spans: seq<Span>, n: nat, m: Span, k: Span)
    requires n <= |spans| && m in spans[..n] && Tops(m, spans[..n])
    requires k in Deduped(spans, n) && k.spanID == m.spanID
    ensures !Richer(m, k)
  {
    hide IndexWith, DistinctIds, Kept;
    var before, span := Deduped(spans, n - 1), spans[n - 1];
    assert spans[..n] == spans[..n - 1] + [span];
    OneForEachId(spans, n - 1);
    LastNotRicher(before, span, k);
    if m in spans[..n - 1] {
      if k in before {
        TopStays(spans, n - 1, m, k);
      } else {
        AtIndex(before, m.spanID);
        TopStays(spans, n - 1, m, before[IndexWith(before, m.spanID)]);
        Replaced(before, span, k);
      }
    }
  }

  lemma {:induction false} AtIndex(spans: seq<Span>, id: SpanID)
    requires Has(spans, id)
    ensures spans[IndexWith(spans, id)] in spans && spans[IndexWith(spans, id)].spanID == id
  {
  }

  /** What was not kept before replaced something it is richer than. */
  lemma {:induction false} Replaced(unique: seq<Span>, span: Span, k: Span)
    requires DistinctIds(unique) && k in Kept(unique, span) && k !in unique && Has(unique, k.spanID)
    ensures k == span && Richer(span, unique[IndexWith(unique, span.spanID)])
  {
    hide IndexWith;
    LastNotRicher(unique, span, k);
    OnlyOne(unique, IndexWith(unique, span.spanID), span, k);
    AtIndex(unique, span.spanID);
  }

  /** The span kept for an id has both the most events and the most attributes
      of that id exactly if some span of that id has both. */
  lemma {:induction false} TopKeptExactly(spans: seq<Span>, k: Span)
    requires k in Deduped(spans, |spans|)
    ensures Tops(k, spans) <==> HasTop(spans, k.spanID)
  {
    hide Deduped, IndexWith;
    OneForEachId(spans, |spans|);
    assert spans[..|spans|] == spans;
    if HasTop(spans, k.spanID) {
      var m :| m in spans && m.spanID == k.spanID && Tops(m, spans);
      TopStays(spans, |spans|, m, k);
    }
  }

  /** How many events and attributes the span has that is kept for the id. */
  function KeptSize(spans: seq<Span>, id: SpanID): (nat, nat) {
    var kept := Deduped(spans, |spans|);
    if Has(kept, id) then
      var k := kept[IndexWith(kept, id)];
      (|k.events|, |k.attributes|)
    else (0, 0)
  }

  ghost predicate SameSpans(a: seq<Span>, b: seq<Span>) {
    multiset(a) == multiset(b)
  }

  ghost predicate AnyOrder(spans: seq<Span>, id: SpanID) {
    forall p, q :: SameSpans(p, spans) && SameSpans(q, spans) ==> KeptSize(p, id) == KeptSize(q, id)
  }

  lemma {:induction false} SameMembers(a: seq<Span>, b: seq<Span>)
    requires SameSpans(a, b)
    ensures forall s :: s in a <==> s in b
  {
    forall s ensures s in a <==> s in b {
      assert s in multiset(a) <==> s in multiset(b);
    }
  }

  lemma {:induction false} SizeIsOfKept(p: seq<Span>, id: SpanID) returns (k: Span)
    requires exists s :: s in p && s.spanID == id
    ensures k in Deduped(p, |p|) && k in p && k.spanID == id && KeptSize(p, id) == (|k.events|, |k.attributes|)
  {
    hide Deduped, IndexWith, DistinctIds;
    OneForEachId(p, |p|);
    assert p[..|p|] == p;
    AtIndex(Deduped(p, |p|), id);
    k := Deduped(p, |p|)[IndexWith(Deduped(p, |p|), id)];
  }

  lemma {:induction false} TopSize(p: seq<Span>, m: Span)
    requires m in p && Tops(m, p)
    ensures KeptSize(p, m.spanID) == (|m.events|, |m.attributes|)
  {
    hide Deduped, KeptSize;
    var k := SizeIsOfKept(p, m.spanID);
    assert p[..|p|] == p;
    TopStays(p, |p|, m, k);
  }

  /** A span put last is not richer than what is kept. */
  lemma {:induction false} LastSize(p: seq<Span>)
    requires p != []
    ensures var last := p[|p| - 1]; var size := KeptSize(p, last.spanID);
            size.0 >= |last.events| && size.1 >= |last.attributes|
  {
    hide KeptSize, Kept, DistinctIds;
    var last := p[|p| - 1];
    var k := SizeIsOfKept(p, last.spanID);
    OneForEachId(p, |p| - 1);
    LastNotRicher(Deduped(p, |p| - 1), last, k);
  }

  lemma {:induction false} MoveLast(spans: seq<Span>, s: Span) returns (p: seq<Span>)
    requires s in spans
    ensures SameSpans(p, spans) && p != [] && p[|p| - 1] == s
  {
    var i :| 0 <= i < |spans| && spans[i] == s;
    p := spans[..i] + spans[i + 1..] + [s];
    assert spans == spans[..i] + ([s] + spans[i + 1..]);
  }

  lemma {:induction false} MostOfEach(spans: seq<Span>, id: SpanID) returns (e: Span, a: Span)
    requires exists s :: s in spans && s.spanID == id
    ensures e in spans && e.spanID == id && a in spans && a.spanID == id
    ensures forall s :: s in spans && s.spanID == id ==>
              |s.events| <= |e.events| && |s.attributes| <= |a.attributes|
  {
    var rest, last := spans[..|spans| - 1], spans[|spans| - 1];
    assert forall s :: s in spans <==> s in rest || s == last by {
      assert spans == rest + [last];
    }
    if s :| s in rest && s.spanID == id {
      e, a := MostOfEach(rest, id);
      if last.spanID == id && |last.events| > |e.events| {
        e := last;
      }
      if last.spanID == id && |last.attributes| > |a.attributes| {
        a := last;
      }
    } else {
      e, a := last, last;
    }
  }

  lemma {:induction false} BothMost(spans: seq<Span>, e: Span, a: Span, k: Span)
    requires forall s :: s in spans && s.spanID == k.spanID ==>
        |s.events| <= |e.events| && |s.attributes| <= |a.attributes|
    requires k in spans && |k.events| >= |e.events| && |k.attributes| >= |a.attributes|
    ensures HasTop(spans, k.spanID)
  {
    assert Tops(k, spans);
  }

  /** Without such a span there are two orders that keep differently many. */
  lemma {:induction false} OrdersDiffer(spans: seq<Span>, id: SpanID) returns (p: seq<Span>, q: seq<Span>)
    requires exists s :: s in spans && s.spanID == id
    requires !HasTop(spans, id)
    ensures SameSpans(p, spans) && SameSpans(q, spans) && KeptSize(p, id) != KeptSize(q, id)
  {
    hide KeptSize, SameSpans, Deduped, HasTop;
    var e, a := MostOfEach(spans, id);
    p := MoveLast(spans, e);
    q := MoveLast(spans, a);
    LastSize(p);
    LastSize(q);
    SameMembers(p, spans);
    var k := SizeIsOfKept(p, id);
    if KeptSize(p, id) == KeptSize(q, id) {
      BothMost(spans, e, a, k);
    }
  }

  lemma {:induction false} SameWithTop(spans: seq<Span>, p: seq<Span>, m: Span)
    requires m in spans && Tops(m, spans) && SameSpans(p, spans)
    ensures KeptSize(p, m.spanID) == (|m.events|, |m.attributes|)
  {
    hide KeptSize, SameSpans, Deduped, Richer;
    SameMembers(p, spans);
    TopSize(p, m);
  }

  /** The order of the spans does not matter exactly for the ids of which some
      span has both the most events and the most attributes. */
  lemma {:induction false} OrderMattersExactly(spans: seq<Span>, id: SpanID)
    requires exists s :: s in spans && s.spanID == id
    ensures AnyOrder(spans, id) <==> HasTop(spans, id)
  {
    hide KeptSize, SameSpans, Tops;
    if HasTop(spans, id) {
      var m :| m in spans && m.spanID == id && Tops(m, spans);
      forall p | SameSpans(p, spans) ensures KeptSize(p, id) == (|m.events|, |m.attributes|) {
        SameWithTop(spans, p, m);
      }
    } else {
      var p, q := OrdersDiffer(spans, id);
    }
  }
}
