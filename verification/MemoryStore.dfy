/** The in-memory trace backend, internal/storage/memory/memory.go. */
module MemoryStore {
  import opened Bytes
  import opened OtlpTypes
  import opened ArrivalOrder
  import opened SpanWalk

  type Stored = Entry<TraceID, TracesData>

  const DEFAULT_MAX_TRACES := 10000

  function WrapSpan(r: Resource, s: Scope, span: Span): TracesData {
    TracesData([ResourceSpans(r, [ScopeSpans(s, [span])])])
  }

  /** Appends to the first resource and scope, making them if there are none. */
  function MergeSpan(td: TracesData, r: Resource, s: Scope, span: Span): TracesData {
    var rss := if td.resourceSpans == [] then [ResourceSpans(r, [])] else td.resourceSpans;
    var scopes := if rss[0].scopeSpans == [] then [ScopeSpans(s, [])] else rss[0].scopeSpans;
    TracesData([rss[0].(scopeSpans := [scopes[0].(spans := scopes[0].spans + [span])] + scopes[1..])] + rss[1..])
  }

  function Written(entries: seq<Stored>, max: nat, w: Write): seq<Stored> {
    Put(entries, max, w.span.traceID, WrapSpan(w.resource, w.scope, w.span),
        td => MergeSpan(td, w.resource, w.scope, w.span))
  }

  function WrittenAll(entries: seq<Stored>, max: nat, ws: seq<Write>): seq<Stored>
    decreases ws
  {
    if ws == [] then entries else WrittenAll(Written(entries, max, ws[0]), max, ws[1..])
  }

  /** The first n entries that match. */
  function FirstMatches(entries: seq<Stored>, matches: TracesData -> bool, n: nat): seq<Stored> {
    if entries == [] || n == 0 then []
    else if matches(entries[0].data) then [entries[0]] + FirstMatches(entries[1..], matches, n - 1)
    else FirstMatches(entries[1..], matches, n)
  }

  function Limit(numTraces: int): nat {
    if numTraces <= 0 then 20 else numTraces
  }

  class Backend {
    var traces: map<TraceID, TracesData>
    var order: seq<TraceID>
    const maxTraces: nat

    ghost predicate Valid()
      reads this
    {
      maxTraces > 0 && Agree(traces, order) && |order| <= maxTraces
    }

    ghost function State(): seq<Stored>
      requires Valid()
      reads this
    {
      Entries(traces, order)
    }

    constructor (maxTraces: int)
      ensures Valid() && State() == [] && this.maxTraces == if maxTraces <= 0 then 10000 else maxTraces
    {
      this.maxTraces := if maxTraces <= 0 then DEFAULT_MAX_TRACES else maxTraces;
      traces := map[];
      order := [];
    }

    method Clear()
      requires Valid()
      modifies this
      ensures Valid() && State() == []
    {
      traces := map[];
      order := [];
    }

    method EvictOldest()
      requires Valid()
      modifies this
      ensures Valid()
      ensures State() == if old(State()) == [] then [] else old(State())[1..]
    {
      if |order| == 0 {
        return;
      }
      EvictAgrees(traces, order);
      var oldest := order[0];
      order := order[1..];
      traces := traces - {oldest};
    }

    /** The body of the loops of WriteSpans. */
    method WriteSpan(r: Resource, s: Scope, span: Span)
      requires Valid()
      modifies this
      ensures Valid() && State() == Written(old(State()), maxTraces, Write(r, s, span))
    {
      hide Entries, Keys, Updated, WrapSpan, MergeSpan;
      var tid := span.traceID;
      EntryKeys(traces, order);
      if tid !in traces {
        SameSize(traces, order);
        if |traces| >= maxTraces {
          EvictOldest();
          EntryKeys(traces, order);
        }
        assert tid !in traces;
        InsertAgrees(traces, order, tid, WrapSpan(r, s, span));
        traces := traces[tid := WrapSpan(r, s, span)];
        order := order + [tid];
      } else {
        var merge := td => MergeSpan(td, r, s, span);
        UpdateAgrees(traces, order, tid, merge);
        traces := traces[tid := MergeSpan(traces[tid], r, s, span)];
      }
    }

    method WriteSpans(td: TracesData)
      requires Valid()
      modifies this
      ensures Valid() && State() == WrittenAll(old(State()), maxTraces, Writes(td.resourceSpans))
    {
      hide ResourceWrites;
      ghost var start := State();
      assert td.resourceSpans[0..] == td.resourceSpans;
      for i := 0 to |td.resourceSpans|
        invariant Valid()
        invariant WrittenAll(start, maxTraces, Writes(td.resourceSpans)) ==
                  WrittenAll(State(), maxTraces, Writes(td.resourceSpans[i..]))
      {
        assert td.resourceSpans[i..][1..] == td.resourceSpans[i + 1..];
        WriteScopes(td.resourceSpans[i].resource, td.resourceSpans[i].scopeSpans, Writes(td.resourceSpans[i + 1..]));
      }
    }

    /** The loop over the scopes of one resource. */
    method WriteScopes(r: Resource, scopes: seq<ScopeSpans>, ghost later: seq<Write>)
      requires Valid()
      modifies this
      ensures Valid()
      ensures WrittenAll(State(), maxTraces, later) == WrittenAll(old(State()), maxTraces, ResourceWrites(r,
          scopes) + later)
    {
      hide ScopeWrites;
      ghost var start := State();
      assert scopes[0..] == scopes;
      for j := 0 to |scopes|
        invariant Valid()
        invariant WrittenAll(start, maxTraces, ResourceWrites(r, scopes) + later) ==
                  WrittenAll(State(), maxTraces, ResourceWrites(r, scopes[j..]) + later)
      {
        assert scopes[j..][1..] == scopes[j + 1..];
        ghost var rest := ResourceWrites(r, scopes[j + 1..]) + later;
        Assoc(ScopeWrites(r, scopes[j].scope, scopes[j].spans), ResourceWrites(r, scopes[j + 1..]), later);
        WriteScope(r, scopes[j].scope, scopes[j].spans, rest);
      }
      assert [] + later == later;
    }

    /** The loop over the spans of one scope. */
    method WriteScope(r: Resource, s: Scope, spans: seq<Span>, ghost later: seq<Write>)
      requires Valid()
      modifies this
      ensures Valid()
      ensures WrittenAll(State(), maxTraces, later) == WrittenAll(old(State()), maxTraces, ScopeWrites(r, s,
          spans) + later)
    {
      hide Written;
      ghost var start := State();
      assert spans[0..] == spans;
      for k := 0 to |spans|
        invariant Valid()
        invariant WrittenAll(start, maxTraces, ScopeWrites(r, s, spans) + later) ==
                  WrittenAll(State(), maxTraces, ScopeWrites(r, s, spans[k..]) + later)
      {
        NextWrite(State(), maxTraces, r, s, spans, k, later);
        WriteSpan(r, s, spans[k]);
      }
      assert [] + later == later;
    }

    method GetTrace(traceID: TraceID) returns (found: bool, td: TracesData)
      requires Valid()
      ensures found <==> exists i :: 0 <= i < |State()| && State()[i].key == traceID
      ensures found ==> Entry(traceID, td) in State()
      ensures !found ==> td == EMPTY_TRACES
    {
      EntryKeys(traces, order);
      if traceID !in traces {
        return false, EMPTY_TRACES;
      }
      ghost var i :| 0 <= i < |order| && order[i] == traceID;
      assert State()[i] == Entry(traceID, traces[traceID]);
      return true, traces[traceID];
    }

    /** The ids of the first traces that match, in the order of arrival. */
    method FindTraceIDs(matches: TracesData -> bool, numTraces: int) returns (ids: seq<TraceID>, ghost places: seq<nat>)
      requires Valid()
      ensures AreFirst(State(), matches, if numTraces <= 0 then 20 else numTraces, places)
      ensures |ids| == |places| && forall k :: 0 <= k < |ids| ==> ids[k] == State()[places[k]].key
      ensures ids == Keys(FirstMatches(State(), matches, Limit(numTraces)))
    {
      hide Search, AreFirst, FirstMatches, Keys, Entries, IdsAt, DataAt, Distinct;
      ids := [];
      places := [];
      var limit := Limit(numTraces);
      ghost var entries := State();
      SearchStarts(entries, matches, limit);
      NothingAt(entries);
      for i := 0 to |order|
        invariant |ids| < limit && |ids| == |places| && IdsAt(ids, entries, places)
        invariant Search(entries, matches, limit, i, places)
      {
        SearchStep(entries, matches, limit, i, places);
        assert entries[i] == Entry(order[i], traces[order[i]]);
        if matches(traces[order[i]]) {
          OneMoreAt(ids, [], entries, places, i);
          ids := ids + [order[i]];
          places := places + [i];
          if |ids| >= limit {
            SearchEnds(entries, matches, limit, i + 1, places);
            FoundIds(ids, entries, matches, limit, places);
            return;
          }
        }
      }
      SearchEnds(entries, matches, limit, |order|, places);
      FoundIds(ids, entries, matches, limit, places);
    }

    /** The first traces that match, in the order of arrival. */
    method FindTraces(matches: TracesData -> bool, numTraces: int)
      returns (results: seq<TracesData>, ghost places: seq<nat>)
      requires Valid()
      ensures AreFirst(State(), matches, if numTraces <= 0 then 20 else numTraces, places)
      ensures |results| == |places| && forall k :: 0 <= k < |results| ==> results[k] == State()[places[k]].data
      ensures |results| == |FirstMatches(State(), matches, Limit(numTraces))|
      ensures forall i :: 0 <= i < |results| ==> results[i] == FirstMatches(State(), matches, Limit(numTraces))[i].data
    {
      hide Search, AreFirst, FirstMatches, Keys, Entries, IdsAt, DataAt, Distinct;
      results := [];
      places := [];
      var limit := Limit(numTraces);
      ghost var entries := State();
      SearchStarts(entries, matches, limit);
      NothingAt(entries);
      for i := 0 to |order|
        invariant |results| < limit && |results| == |places| && DataAt(results, entries, places)
        invariant Search(entries, matches, limit, i, places)
      {
        SearchStep(entries, matches, limit, i, places);
        assert entries[i] == Entry(order[i], traces[order[i]]);
        if matches(traces[order[i]]) {
          OneMoreAt([], results, entries, places, i);
          results := results + [traces[order[i]]];
          places := places + [i];
          if |results| >= limit {
            SearchEnds(entries, matches, limit, i + 1, places);
            FoundData(results, entries, matches, limit, places);
            return;
          }
        }
      }
      SearchEnds(entries, matches, limit, |order|, places);
      FoundData(results, entries, matches, limit, places);
    }
  }

  /** Places in rising order, at each a match; none is passed over before the last
      one, and none at all if fewer than the limit are given. */
  ghost predicate AreFirst(entries: seq<Stored>, matches: TracesData -> bool, limit: nat, places: seq<nat>) {
    |places| <= limit &&
    (forall k :: 0 <= k < |places| ==> places[k] < |entries| && matches(entries[places[k]].data)) &&
    (forall j, k :: 0 <= j < k < |places| ==> places[j] < places[k]) &&
    forall i :: 0 <= i < |entries| && matches(entries[i].data) && i !in places ==>
      |places| == limit && forall k :: 0 <= k < |places| ==> places[k] < i
  }

  /** The places of all matches among the first n entries. */
  ghost predicate Places(entries: seq<Stored>, matches: TracesData -> bool, n: nat, places: seq<nat>) {
    n <= |entries| &&
    (forall k :: 0 <= k < |places| ==> places[k] < n && matches(entries[places[k]].data)) &&
    (forall j, k :: 0 <= j < k < |places| ==> places[j] < places[k]) &&
    forall i :: 0 <= i < n && matches(entries[i].data) ==> i in places
  }

  lemma {:induction false} NextPlace(entries: seq<Stored>, matches: TracesData -> bool, n: nat, places: seq<nat>)
    requires Places(entries, matches, n, places) && n < |entries|
    ensures Places(entries, matches, n + 1, if matches(entries[n].data) then places + [n] else places)
  {
    if matches(entries[n].data) {
      var next := places + [n];
      forall k | 0 <= k < |next| ensures next[k] < n + 1 && matches(entries[next[k]].data) {
        assert next[k] == if k < |places| then places[k] else n;
      }
      forall i | 0 <= i < n + 1 && matches(entries[i].data) ensures i in next {
        if i < n {
          var k :| 0 <= k < |places| && places[k] == i;
          assert next[k] == i;
        } else {
          assert next[|places|] == n;
        }
      }
    }
  }

  /** The first n of all matches are found; the others are those of rest. */
  ghost predicate Found(all: seq<Stored>, n: nat, rest: seq<Stored>, matches: TracesData -> bool, limit: nat) {
    n <= limit && n <= |all| && all[n..] == FirstMatches(rest, matches, limit - n)
  }

  lemma {:induction false} NextMatch(all: seq<Stored>, n: nat, entries: seq<Stored>, i: nat,
          matches: TracesData -> bool, limit: nat)
    requires i < |entries| && n < limit && Found(all, n, entries[i..], matches, limit)
    ensures if matches(entries[i].data)
            then n < |all| && all[n] == entries[i] && Found(all, n + 1, entries[i + 1..], matches, limit) &&
                 (n + 1 == limit ==> |all| == limit)
            else Found(all, n, entries[i + 1..], matches, limit)
  {
    assert entries[i..][1..] == entries[i + 1..];
    if matches(entries[i].data) {
      assert all[n..] == [entries[i]] + FirstMatches(entries[i + 1..], matches, limit - n - 1);
      assert all[n] == all[n..][0];
      assert all[n + 1..] == all[n..][1..];
    }
  }

  /** A search that has come to entry n. */
  ghost predicate Search(entries: seq<Stored>, matches: TracesData -> bool, limit: nat, n: nat, places: seq<nat>) {
    var all := FirstMatches(entries, matches, limit);
    Places(entries, matches, n, places) && Found(all, |places|, entries[n..], matches, limit) &&
    forall k :: 0 <= k < |places| ==> all[k] == entries[places[k]]
  }

  lemma {:induction false} SearchStarts(entries: seq<Stored>, matches: TracesData -> bool, limit: nat)
    ensures Search(entries, matches, limit, 0, [])
  {
    assert entries[0..] == entries;
  }

  lemma {:induction false} SearchStep(entries: seq<Stored>, matches: TracesData -> bool, limit: nat, n: nat,
          places: seq<nat>)
    requires n < |entries| && |places| < limit && Search(entries, matches, limit, n, places)
    ensures Search(entries, matches, limit, n + 1, if matches(entries[n].data) then places + [n] else places)
  {
    hide Places, FirstMatches, Found;
    NextPlace(entries, matches, n, places);
    var all := FirstMatches(entries, matches, limit);
    FoundFits(all, |places|, entries[n..], matches, limit);
    NextMatch(all, |places|, entries, n, matches, limit);
  }

  lemma {:induction false} FoundFits(all: seq<Stored>, n: nat, rest: seq<Stored>, matches: TracesData -> bool,
          limit: nat)
    requires Found(all, n, rest, matches, limit)
    ensures n <= limit && n <= |all|
  {
  }

  /** The search is over at the last entry, or when there is enough. */
  lemma {:induction false} SearchEnds(entries: seq<Stored>, matches: TracesData -> bool, limit: nat, n: nat,
          places: seq<nat>)
    requires Search(entries, matches, limit, n, places) && (n == |entries| || |places| == limit)
    ensures AreFirst(entries, matches, limit, places) && |FirstMatches(entries, matches, limit)| == |places|
    ensures forall k :: 0 <= k < |places| ==>
              places[k] < |entries| && FirstMatches(entries, matches, limit)[k] == entries[places[k]]
  {
    assert n == |entries| ==> entries[n..] == [];
  }

  /** What a search has collected: ids, or traces. */
  ghost predicate IdsAt(ids: seq<TraceID>, entries: seq<Stored>, places: seq<nat>) {
    |ids| == |places| && forall k :: 0 <= k < |ids| ==> places[k] < |entries| && ids[k] == entries[places[k]].key
  }

  ghost predicate DataAt(results: seq<TracesData>, entries: seq<Stored>, places: seq<nat>) {
    |results| == |places| &&
    forall k :: 0 <= k < |results| ==> places[k] < |entries| && results[k] == entries[places[k]].data
  }

  lemma {:induction false} NothingAt(entries: seq<Stored>)
    ensures IdsAt([], entries, []) && DataAt([], entries, [])
  {
  }

  lemma {:induction false} OneMoreAt(ids: seq<TraceID>, results: seq<TracesData>, entries: seq<Stored>,
          places: seq<nat>, i: nat)
    requires i < |entries|
    ensures IdsAt(ids, entries, places) ==> IdsAt(ids + [entries[i].key], entries, places + [i])
    ensures DataAt(results, entries, places) ==> DataAt(results + [entries[i].data], entries, places + [i])
  {
  }

  lemma {:induction false} FoundIds(ids: seq<TraceID>, entries: seq<Stored>, matches: TracesData -> bool, limit: nat,
          places: seq<nat>)
    requires IdsAt(ids, entries, places) && |FirstMatches(entries, matches, limit)| == |places|
    requires forall k :: 0 <= k < |places| ==>
               places[k] < |entries| && FirstMatches(entries, matches, limit)[k] == entries[places[k]]
    ensures |ids| == |places| && forall k :: 0 <= k < |ids| ==> ids[k] == entries[places[k]].key
    ensures ids == Keys(FirstMatches(entries, matches, limit))
  {
    hide FirstMatches;
  }

  lemma {:induction false} FoundData(results: seq<TracesData>, entries: seq<Stored>, matches: TracesData -> bool,
          limit: nat, places: seq<nat>)
    requires DataAt(results, entries, places) && |FirstMatches(entries, matches, limit)| == |places|
    requires forall k :: 0 <= k < |places| ==>
               places[k] < |entries| && FirstMatches(entries, matches, limit)[k] == entries[places[k]]
    ensures |results| == |places| && forall k :: 0 <= k < |results| ==> results[k] == entries[places[k]].data
    ensures forall k :: 0 <= k < |results| ==> results[k] == FirstMatches(entries, matches, limit)[k].data
  {
    hide FirstMatches;
  }

  lemma {:induction false} NextWrite(entries: seq<Stored>, max: nat, r: Resource, s: Scope, spans: seq<Span>,
          k: nat, rest: seq<Write>)
    requires k < |spans|
    ensures WrittenAll(entries, max, ScopeWrites(r, s, spans[k..]) + rest) ==
            WrittenAll(Written(entries, max, Write(r, s, spans[k])), max, ScopeWrites(r, s, spans[k + 1..]) + rest)
  {
    assert spans[k..][1..] == spans[k + 1..];
    var ws := ScopeWrites(r, s, spans[k..]) + rest;
    assert ws[1..] == ScopeWrites(r, s, spans[k + 1..]) + rest;
  }

  // ----- every run -----

  datatype Call = WriteAll(td: TracesData) | Clear

  function Called(entries: seq<Stored>, max: nat, c: Call): seq<Stored> {
    if c.WriteAll? then WrittenAll(entries, max, Writes(c.td.resourceSpans)) else []
  }

  function CalledAll(entries: seq<Stored>, max: nat, calls: seq<Call>): seq<Stored>
    decreases calls
  {
    if calls == [] then entries else CalledAll(Called(entries, max, calls[0]), max, calls[1..])
  }

  /** The reference: for every trace ever started since the last Clear, its id,
      the headers of its first span, and its spans, oldest trace first. */
  datatype Trace = Trace(id: TraceID, resource: Resource, scope: Scope, spans: seq<Span>)

  function DataOf(t: Trace): TracesData {
    TracesData([ResourceSpans(t.resource, [ScopeSpans(t.scope, t.spans)])])
  }

  /** Writing a span: it joins the trace of its id if that is among the last max
      started, else it starts a trace. Nothing is ever removed. */
  function Recorded(history: seq<Trace>, max: nat, w: Write): seq<Trace> {
    var i := LatestOf(history, w.span.traceID);
    if i < |history| && i >= |history| - max then history[i := history[i].(spans := history[i].spans + [w.span])]
    else history + [Trace(w.span.traceID, w.resource, w.scope, [w.span])]
  }

  /** The last place of an id in the history, or past its end. */
  function LatestOf(history: seq<Trace>, id: TraceID): (i: nat)
    ensures i <= |history|
    ensures i < |history| ==> history[i].id == id && forall k :: i < k < |history| ==> history[k].id != id
    ensures i == |history| ==> forall k :: 0 <= k < |history| ==> history[k].id != id
  {
    if history == [] then 0
    else if history[|history| - 1].id == id then |history| - 1
    else
      var i := LatestOf(history[..|history| - 1], id);
      if i == |history| - 1 then |history| else i
  }

  function RecordedAll(history: seq<Trace>, max: nat, ws: seq<Write>): seq<Trace>
    decreases ws
  {
    if ws == [] then history else RecordedAll(Recorded(history, max, ws[0]), max, ws[1..])
  }

  function History(history: seq<Trace>, max: nat, calls: seq<Call>): seq<Trace>
    decreases calls
  {
    if calls == [] then history
    else
      History(if calls[0].WriteAll? then RecordedAll(history, max, Writes(calls[0].td.resourceSpans)) else [], max,
          calls[1..])
  }

  /** The store holds the last max traces of the history, each whole, and no id
      twice among them. */
  ghost predicate Shows(entries: seq<Stored>, history: seq<Trace>, max: nat) {
    Distinct(Keys(entries)) &&
    |entries| == (if |history| <= max then |history| else max) &&
    forall k :: 0 <= k < |entries| ==>
                  var t := history[|history| - |entries| + k]; entries[k] == Entry(t.id, DataOf(t))
  }

  lemma {:induction false} MergeIsAppend(t: Trace, r: Resource, s: Scope, span: Span)
    ensures MergeSpan(DataOf(t), r, s, span) == DataOf(t.(spans := t.spans + [span]))
  {
    var rss := DataOf(t).resourceSpans;
    var scopes := rss[0].scopeSpans;
    assert rss[1..] == [] && scopes[1..] == [];
    var merged := [scopes[0].(spans := scopes[0].spans + [span])];
    assert merged + scopes[1..] == merged;
    assert [rss[0].(scopeSpans := merged)] + rss[1..] == [rss[0].(scopeSpans := merged)];
  }

  /** A trace that the store still shows is added to in both. */
  lemma {:induction false} MergedShows(entries: seq<Stored>, history: seq<Trace>, max: nat, w: Write, k: nat)
    requires max > 0 && Shows(entries, history, max)
    requires k < |entries| && Keys(entries)[k] == w.span.traceID
    ensures Shows(Written(entries, max, w), Recorded(history, max, w), max)
  {
    hide MergeSpan, Put, Updated, Recorded, DataOf, Keys;
    var id := w.span.traceID;
    var base := |history| - |entries|;
    var merge := td => MergeSpan(td, w.resource, w.scope, w.span);
    MergeIsAppend(history[base + k], w.resource, w.scope, w.span);
    PutExisting(entries, max, id, WrapSpan(w.resource, w.scope, w.span), merge);
    RecordedMerge(entries, history, max, w, k);
    var after := Updated(entries, id, merge);
    UpdatedKeys(entries, id, merge);
    var log := history[base + k := history[base + k].(spans := history[base + k].spans + [w.span])];
    forall j | 0 <= j < |after| ensures after[j] == Entry(log[base + j].id, DataOf(log[base + j])) {
      if j != k {
        assert Keys(entries)[j] != Keys(entries)[k];
      }
    }
  }

  lemma {:induction false} UpdatedKeys(entries: seq<Stored>, id: TraceID, merge: TracesData -> TracesData)
    ensures Keys(Updated(entries, id, merge)) == Keys(entries)
  {
  }

  lemma {:induction false} RecordedMerge(entries: seq<Stored>, history: seq<Trace>, max: nat, w: Write, k: nat)
    requires max > 0 && Shows(entries, history, max)
    requires k < |entries| && Keys(entries)[k] == w.span.traceID
    ensures var i := |history| - |entries| + k;
            Recorded(history, max, w) == history[i := history[i].(spans := history[i].spans + [w.span])] &&
            history[i].id == w.span.traceID
  {
    hide LatestOf;
    LatestShown(entries, history, max, w.span.traceID, k);
  }

  lemma {:induction false} PutExisting(entries: seq<Stored>, max: nat, id: TraceID, first: TracesData,
          merge: TracesData -> TracesData)
    requires id in Keys(entries)
    ensures Put(entries, max, id, first, merge) == Updated(entries, id, merge)
  {
  }

  lemma {:induction false} KeyAt(entries: seq<Stored>, history: seq<Trace>, max: nat, j: nat)
    requires Shows(entries, history, max) && j < |entries|
    ensures Keys(entries)[j] == history[|history| - |entries| + j].id
  {
    assert entries[j].key == history[|history| - |entries| + j].id;
  }

  lemma {:induction false} LatestShown(entries: seq<Stored>, history: seq<Trace>, max: nat, id: TraceID, k: nat)
    requires Shows(entries, history, max) && k < |entries| && Keys(entries)[k] == id
    ensures LatestOf(history, id) == |history| - |entries| + k
  {
    hide LatestOf, Keys;
    var base := |history| - |entries|;
    var i := LatestOf(history, id);
    KeyAt(entries, history, max, k);
    assert i >= base + k;
    if i < |history| && i != base + k {
      KeyAt(entries, history, max, i - base);
      assert false;
    }
  }

  /** Any other id starts a trace, and the oldest shown goes if there is no room. */
  lemma {:induction false} StartedShows(entries: seq<Stored>, history: seq<Trace>, max: nat, w: Write)
    requires max > 0 && Shows(entries, history, max)
    requires w.span.traceID !in Keys(entries)
    ensures Shows(Written(entries, max, w), Recorded(history, max, w), max)
  {
    hide Put, Trimmed, WrapSpan, MergeSpan, Recorded;
    var id := w.span.traceID;
    var first := WrapSpan(w.resource, w.scope, w.span);
    var merge := td => MergeSpan(td, w.resource, w.scope, w.span);
    PutKeepsBounds(entries, max, id, first, merge);
    PutNew(entries, max, id, first, merge);
    TrimmedTail(entries, max);
    WrapIsTrace(w);
    RecordedNew(entries, history, max, w);
    var dropped := if |entries| == max then 1 else 0;
    var after := entries[dropped..] + [Entry(id, first)];
    var log := history + [Trace(id, w.resource, w.scope, [w.span])];
    forall j | 0 <= j < |after|
      ensures after[j] == Entry(log[|log| - |after| + j].id, DataOf(log[|log| - |after| + j]))
    {
      if j < |after| - 1 {
        assert after[j] == entries[j + dropped];
      }
    }
  }

  lemma {:induction false} RecordedNew(entries: seq<Stored>, history: seq<Trace>, max: nat, w: Write)
    requires max > 0 && Shows(entries, history, max)
    requires w.span.traceID !in Keys(entries)
    ensures Recorded(history, max, w) == history + [Trace(w.span.traceID, w.resource, w.scope, [w.span])]
  {
    hide LatestOf, Keys;
    var base := |history| - |entries|;
    var i := LatestOf(history, w.span.traceID);
    if base <= i < |history| {
      KeyAt(entries, history, max, i - base);
      assert false;
    }
  }

  lemma {:induction false} WrapIsTrace(w: Write)
    ensures WrapSpan(w.resource, w.scope, w.span) == DataOf(Trace(w.span.traceID, w.resource, w.scope, [w.span]))
  {
  }

  lemma {:induction false} PutNew(entries: seq<Stored>, max: nat, id: TraceID, first: TracesData,
          merge: TracesData -> TracesData)
    requires id !in Keys(entries)
    ensures Put(entries, max, id, first, merge) == Trimmed(entries, max) + [Entry(id, first)]
  {
    hide Updated, Keys, Trimmed;
  }

  lemma {:induction false} TrimmedTail(entries: seq<Stored>, max: nat)
    requires |entries| <= max && max > 0
    ensures Trimmed(entries, max) == entries[if |entries| == max then 1 else 0..]
  {
    if |entries| == max {
    } else {
      assert entries[0..] == entries;
    }
  }

  lemma {:induction false} WrittenShows(entries: seq<Stored>, history: seq<Trace>, max: nat, w: Write)
    requires max > 0 && Shows(entries, history, max)
    ensures Shows(Written(entries, max, w), Recorded(history, max, w), max)
  {
    hide Shows, Written, Recorded;
    if w.span.traceID in Keys(entries) {
      var k :| 0 <= k < |entries| && Keys(entries)[k] == w.span.traceID;
      MergedShows(entries, history, max, w, k);
    } else {
      StartedShows(entries, history, max, w);
    }
  }

  lemma {:induction false} WrittenAllShows(entries: seq<Stored>, history: seq<Trace>, max: nat, ws: seq<Write>)
    requires max > 0 && Shows(entries, history, max)
    ensures Shows(WrittenAll(entries, max, ws), RecordedAll(history, max, ws), max)
    decreases ws
  {
    if ws != [] {
      hide Shows, Written, Recorded;
      WrittenShows(entries, history, max, ws[0]);
      WrittenAllShows(Written(entries, max, ws[0]), Recorded(history, max, ws[0]), max, ws[1..]);
    }
  }

  /** Over every run of writes and Clear the store shows exactly the traces that
      were started last, at most maxTraces, each with all its spans in the order
      written: eviction is oldest first and takes whole traces only. */
  lemma {:induction false} RunShows(entries: seq<Stored>, history: seq<Trace>, max: nat, calls: seq<Call>)
    requires max > 0 && Shows(entries, history, max)
    ensures Shows(CalledAll(entries, max, calls), History(history, max, calls), max)
    decreases calls
  {
    if calls != [] {
      if calls[0].WriteAll? {
        WrittenAllShows(entries, history, max, Writes(calls[0].td.resourceSpans));
        RunShows(Called(entries, max, calls[0]), RecordedAll(history, max, Writes(calls[0].td.resourceSpans)), max,
            calls[1..]);
      } else {
        assert Shows([], [], max);
        RunShows([], [], max, calls[1..]);
      }
    }
  }

  /** FindTraces is GetTrace of each of FindTraceIDs: the first n entries that
      match, in arrival order, none of them skipped. */
  lemma {:induction false} MatchesAreFirst(entries: seq<Stored>, matches: TracesData -> bool, n: nat)
    ensures |FirstMatches(entries, matches, n)| <= n
    ensures multiset(FirstMatches(entries, matches, n)) <= multiset(entries)
    ensures forall e :: e in FirstMatches(entries, matches, n) ==> e in entries && matches(e.data)
    ensures |FirstMatches(entries, matches, n)| < n ==>
              forall e :: e in entries && matches(e.data) ==> e in FirstMatches(entries, matches, n)
  {
    if entries != [] && n > 0 {
      assert entries == [entries[0]] + entries[1..];
      MatchesAreFirst(entries[1..], matches, if matches(entries[0].data) then n - 1 else n);
    }
  }
}
