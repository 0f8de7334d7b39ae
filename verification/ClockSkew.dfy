/** The clock-skew adjuster, internal/query/adjuster.go, on the spans of a trace
    in the order in which the nested slices hold them. */
module ClockSkew {
  import opened Bytes
  import opened OtlpTypes

  /** The place of the last span with an id, which is the one the id map keeps;
      past the end if there is none. */
  function LastWith(spans: seq<Span>, id: SpanID): (i: nat)
    ensures i <= |spans|
    ensures i < |spans| ==> spans[i].spanID == id && forall k :: i < k < |spans| ==> spans[k].spanID != id
    ensures i == |spans| ==> forall k :: 0 <= k < |spans| ==> spans[k].spanID != id
  {
    if spans == [] then 0
    else if spans[|spans| - 1].spanID == id then |spans| - 1
    else
      var i := LastWith(spans[..|spans| - 1], id);
      if i == |spans| - 1 then |spans| else i
  }

  /** The place of the parent of a span, or past the end. */
  function ParentOf(spans: seq<Span>, i: nat): nat
    requires i < |spans|
  {
    if spans[i].parentSpanID == ZERO_SPAN_ID then |spans| else LastWith(spans, spans[i].parentSpanID)
  }

  /** Whether a span that starts at `start` is moved to its parent's start: it is
      earlier, and not by more than a positive limit. The difference is converted
      to a signed duration before it is compared. */
  predicate Moves(start: uint64, parentStart: uint64, maxAdjust: int64) {
    start < parentStart && !(maxAdjust > 0 && AsInt64(parentStart - start) > maxAdjust)
  }

  function Moved(span: Span, parentStart: uint64): Span
    requires span.startTimeUnixNano < parentStart
  {
    var diff := parentStart - span.startTimeUnixNano;
    span.(startTimeUnixNano := parentStart, endTimeUnixNano := (span.endTimeUnixNano + diff) % TWO_64)
  }

  /** Visiting one span. */
  predicate Skewed(spans: seq<Span>, i: nat, maxAdjust: int64)
    requires i < |spans|
  {
    var p := ParentOf(spans, i);
    p < |spans| && Moves(spans[i].startTimeUnixNano, spans[p].startTimeUnixNano, maxAdjust)
  }

  function Visited(spans: seq<Span>, i: nat, maxAdjust: int64): (r: seq<Span>)
    requires i < |spans|
    ensures |r| == |spans|
  {
    if Skewed(spans, i, maxAdjust)
    then spans[i := Moved(spans[i], spans[ParentOf(spans, i)].startTimeUnixNano)]
    else spans
  }

  /** Visiting the first n spans, in order. */
  function Adjusted(spans: seq<Span>, n: nat, maxAdjust: int64): (r: seq<Span>)
    requires n <= |spans|
    ensures |r| == |spans|
  {
    if n == 0 then spans else Visited(Adjusted(spans, n - 1, maxAdjust), n - 1, maxAdjust)
  }

  /** The ids warned about. */
  function Warned(spans: seq<Span>, n: nat, maxAdjust: int64): seq<SpanID>
    requires n <= |spans|
  {
    if n == 0 then []
    else
      var before := Adjusted(spans, n - 1, maxAdjust);
      Warned(spans, n - 1, maxAdjust) + (if Skewed(before, n - 1, maxAdjust) then [spans[n - 1].spanID] else [])
  }

  method Adjust(spans: array<Span>, maxAdjust: int64) returns (warnings: seq<SpanID>)
    modifies spans
    ensures spans[..] == Adjusted(old(spans[..]), spans.Length, maxAdjust)
    ensures warnings == Warned(old(spans[..]), spans.Length, maxAdjust)
  {
    hide LastWith, Adjusted, Visited, Skewed, Warned;
    var spanMap: map<SpanID, nat> := map[];
    ghost var was := spans[..];
    for i := 0 to spans.Length
      invariant spans[..] == was
      invariant forall id :: id in spanMap <==> LastWith(was[..i], id) < i
      invariant forall id :: id in spanMap ==> spanMap[id] == LastWith(was[..i], id)
    {
      forall id ensures LastWith(was[..i + 1], id) ==
                        if was[i].spanID == id then i
                        else if LastWith(was[..i], id) == i then i + 1 else LastWith(was[..i], id)
      {
        OneMoreSpan(was, i, id);
      }
      spanMap := spanMap[spans[i].spanID := i];
    }
    assert was[..spans.Length] == was;
    warnings := [];
    NoVisit(was, maxAdjust);
    for i := 0 to spans.Length
      invariant spans[..] == Adjusted(was, i, maxAdjust)
      invariant warnings == Warned(was, i, maxAdjust)
    {
      ghost var now := spans[..];
      SameIds(was, i, maxAdjust);
      LastStays(was, now, spans[i].parentSpanID);
      NextVisit(was, i, maxAdjust);
      var warned := Visit(spans, i, spanMap, maxAdjust);
      if warned {
        warnings := warnings + [spans[i].spanID];
      }
    }
  }

  /** The body of the second loop. */
  method Visit(spans: array<Span>, i: nat, spanMap: map<SpanID, nat>, maxAdjust: int64) returns (warned: bool)
    requires i < spans.Length
    requires var id := spans[i].parentSpanID;
             (id in spanMap <==> LastWith(spans[..], id) < spans.Length) &&
             (id in spanMap ==> spanMap[id] == LastWith(spans[..], id))
    modifies spans
    ensures spans[..] == Visited(old(spans[..]), i, maxAdjust)
    ensures warned == Skewed(old(spans[..]), i, maxAdjust)
    ensures spans[i].spanID == old(spans[i].spanID)
  {
    hide LastWith;
    var span := spans[i];
    warned := false;
    if span.parentSpanID == ZERO_SPAN_ID || span.parentSpanID !in spanMap {
      return;
    }
    var parent := spans[spanMap[span.parentSpanID]];
    if span.startTimeUnixNano < parent.startTimeUnixNano {
      var diff := parent.startTimeUnixNano - span.startTimeUnixNano;
      if maxAdjust > 0 && AsInt64(diff) > maxAdjust {
        return;
      }
      spans[i] := span.(startTimeUnixNano := parent.startTimeUnixNano,
                        endTimeUnixNano := (span.endTimeUnixNano + diff) % TWO_64);
      warned := true;
    }
  }

  lemma {:induction false} OneMoreSpan(spans: seq<Span>, i: nat, id: SpanID)
    requires i < |spans|
    ensures LastWith(spans[..i + 1], id) ==
            if spans[i].spanID == id then i
            else if LastWith(spans[..i], id) == i then i + 1 else LastWith(spans[..i], id)
  {
    assert spans[..i + 1][..i] == spans[..i];
  }

  lemma {:induction false} NoVisit(spans: seq<Span>, maxAdjust: int64)
    ensures Adjusted(spans, 0, maxAdjust) == spans && Warned(spans, 0, maxAdjust) == []
  {
  }

  lemma {:induction false} NextVisit(spans: seq<Span>, i: nat, maxAdjust: int64)
    requires i < |spans|
    ensures var before := Adjusted(spans, i, maxAdjust);
            Adjusted(spans, i + 1, maxAdjust) == Visited(before, i, maxAdjust) &&
            Warned(spans, i + 1, maxAdjust) ==
            Warned(spans, i, maxAdjust) + (if Skewed(before, i, maxAdjust) then [spans[i].spanID] else [])
  {
    hide Visited, Skewed, LastWith;
  }

  // ----- what a pass keeps -----

  /** Ids and parents are never changed. */
  ghost predicate SameShape(a: seq<Span>, b: seq<Span>) {
    |a| == |b| &&
    forall i :: 0 <= i < |a| ==> a[i].spanID == b[i].spanID && a[i].parentSpanID == b[i].parentSpanID
  }

  /** All there is to know of a visit: only the visited span can change, only in
      its times, and if so its start moves up to a start that is there. */
  lemma {:induction false} VisitEffect(spans: seq<Span>, i: nat, maxAdjust: int64)
    requires i < |spans|
    ensures var r := Visited(spans, i, maxAdjust);
            (forall j :: 0 <= j < |spans| && j != i ==> r[j] == spans[j]) &&
            r[i].spanID == spans[i].spanID && r[i].parentSpanID == spans[i].parentSpanID &&
            (!Skewed(spans, i, maxAdjust) ==> r == spans) &&
            (Skewed(spans, i, maxAdjust) ==>
               spans[i].startTimeUnixNano < r[i].startTimeUnixNano &&
               ParentOf(spans, i) < |spans| && r[i].startTimeUnixNano == spans[ParentOf(spans, i)].startTimeUnixNano)
  {
    hide LastWith;
  }

  lemma {:induction false} SameIds(spans: seq<Span>, n: nat, maxAdjust: int64)
    requires n <= |spans|
    ensures SameShape(spans, Adjusted(spans, n, maxAdjust))
  {
    hide Visited, Skewed, ParentOf, Adjusted, Warned;
    NoVisit(spans, maxAdjust);
    if n > 0 {
      NextVisit(spans, n - 1, maxAdjust);
      SameIds(spans, n - 1, maxAdjust);
      VisitEffect(Adjusted(spans, n - 1, maxAdjust), n - 1, maxAdjust);
    }
  }

  lemma {:induction false} LastStays(a: seq<Span>, b: seq<Span>, id: SpanID)
    requires SameShape(a, b)
    ensures LastWith(a, id) == LastWith(b, id)
  {
    hide LastWith;
    var (i, j) := (LastWith(a, id), LastWith(b, id));
    assert forall k :: 0 <= k < |a| ==> a[k].spanID == b[k].spanID;
    assert i < |a| ==> b[i].spanID == id;
    assert j < |b| ==> a[j].spanID == id;
  }

  lemma {:induction false} ParentStays(a: seq<Span>, b: seq<Span>, i: nat)
    requires SameShape(a, b) && i < |a|
    ensures ParentOf(a, i) == ParentOf(b, i)
  {
    LastStays(a, b, a[i].parentSpanID);
  }

  /** A span is changed only when it is visited, and once. */
  lemma {:induction false} ChangedOnce(spans: seq<Span>, n: nat, maxAdjust: int64, i: nat)
    requires i < |spans| && n <= |spans|
    ensures Adjusted(spans, n, maxAdjust)[i] ==
            if i < n then Visited(Adjusted(spans, i, maxAdjust), i, maxAdjust)[i] else spans[i]
  {
    hide Visited, Skewed, ParentOf, Adjusted, Warned;
    NoVisit(spans, maxAdjust);
    if n > 0 {
      NextVisit(spans, n - 1, maxAdjust);
      ChangedOnce(spans, n - 1, maxAdjust, i);
      VisitEffect(Adjusted(spans, n - 1, maxAdjust), n - 1, maxAdjust);
    }
  }

  /** Modulo 2^64, as durations are computed, every span keeps its duration. */
  lemma {:induction false} DurationKept(spans: seq<Span>, maxAdjust: int64, i: nat)
    requires i < |spans|
    ensures var after := Adjusted(spans, |spans|, maxAdjust)[i];
            (after.endTimeUnixNano - after.startTimeUnixNano) % TWO_64 ==
            (spans[i].endTimeUnixNano - spans[i].startTimeUnixNano) % TWO_64
  {
    hide Visited, ParentOf, Adjusted;
    ChangedOnce(spans, |spans|, maxAdjust, i);
    ChangedOnce(spans, i, maxAdjust, i);
    VisitKeepsDuration(Adjusted(spans, i, maxAdjust), i, maxAdjust);
  }

  lemma {:induction false} VisitKeepsDuration(spans: seq<Span>, i: nat, maxAdjust: int64)
    requires i < |spans|
    ensures var after := Visited(spans, i, maxAdjust)[i];
            (after.endTimeUnixNano - after.startTimeUnixNano) % TWO_64 ==
            (spans[i].endTimeUnixNano - spans[i].startTimeUnixNano) % TWO_64
  {
    hide LastWith, ParentOf;
  }

  /** No start moves back, none beyond the latest original one. */
  lemma {:induction false} StartsBounded(spans: seq<Span>, n: nat, maxAdjust: int64, latest: uint64)
    requires n <= |spans|
    requires forall i :: 0 <= i < |spans| ==> spans[i].startTimeUnixNano <= latest
    ensures forall i :: 0 <= i < |spans| ==>
              spans[i].startTimeUnixNano <= Adjusted(spans, n, maxAdjust)[i].startTimeUnixNano <= latest
  {
    hide Visited, Skewed, ParentOf, Adjusted, Warned;
    NoVisit(spans, maxAdjust);
    if n > 0 {
      NextVisit(spans, n - 1, maxAdjust);
      StartsBounded(spans, n - 1, maxAdjust, latest);
      VisitEffect(Adjusted(spans, n - 1, maxAdjust), n - 1, maxAdjust);
    }
  }

  /** How far a span was moved. */
  function Shift(spans: seq<Span>, maxAdjust: int64, i: nat): int
    requires i < |spans|
  {
    Adjusted(spans, |spans|, maxAdjust)[i].startTimeUnixNano - spans[i].startTimeUnixNano
  }

  /** A positive limit is kept to, except that a shift of 2^63 ns or more, which
      reads as a negative duration, passes any limit. */
  lemma {:induction false} ShiftLimited(spans: seq<Span>, maxAdjust: int64, i: nat)
    requires i < |spans| && maxAdjust > 0
    ensures Shift(spans, maxAdjust, i) <= maxAdjust || Shift(spans, maxAdjust, i) >= TWO_63
  {
    ChangedOnce(spans, |spans|, maxAdjust, i);
    ChangedOnce(spans, i, maxAdjust, i);
  }

  /** Two spans are enough: the limit is one nanosecond, the shift is 2^63. */
  lemma {:induction false} LimitMissed(id: SpanID)
    requires id != ZERO_SPAN_ID
    ensures var spans := [EMPTY_SPAN.(spanID := id, startTimeUnixNano := TWO_63), EMPTY_SPAN.(parentSpanID := id)];
            Shift(spans, 1, 1) == TWO_63
  {
    var spans := [EMPTY_SPAN.(spanID := id, startTimeUnixNano := TWO_63), EMPTY_SPAN.(parentSpanID := id)];
    assert LastWith(spans, id) == 0 by {
      assert spans[0].spanID == id;
    }
    assert ParentOf(spans, 0) == 2;
    assert Adjusted(spans, 0, 1) == spans;
    assert Adjusted(spans, 1, 1) == spans;
    assert Adjusted(spans, 2, 1) == Visited(spans, 1, 1);
  }

  /** The start of the parent of a span at the moment the span is visited: for a
      parent listed later, or the span itself, the start that came in; for one
      listed before, its final start. */
  function ParentStart(spans: seq<Span>, maxAdjust: int64, i: nat): uint64
    requires i < |spans| && ParentOf(spans, i) < |spans|
  {
    Adjusted(spans, i, maxAdjust)[ParentOf(spans, i)].startTimeUnixNano
  }

  lemma {:induction false} ParentStartIs(spans: seq<Span>, maxAdjust: int64, i: nat)
    requires i < |spans| && ParentOf(spans, i) < |spans|
    ensures var p := ParentOf(spans, i);
            ParentStart(spans, maxAdjust, i) ==
            if p >= i then spans[p].startTimeUnixNano
            else Adjusted(spans, |spans|, maxAdjust)[p].startTimeUnixNano
  {
    hide Visited, ParentOf, Adjusted;
    ChangedOnce(spans, i, maxAdjust, ParentOf(spans, i));
    ChangedOnce(spans, |spans|, maxAdjust, ParentOf(spans, i));
  }

  /** A visit moves a span by the lead of its parent, or not at all. */
  lemma {:induction false} ShiftIs(spans: seq<Span>, maxAdjust: int64, i: nat)
    requires i < |spans|
    ensures Shift(spans, maxAdjust, i) ==
            if ParentOf(spans, i) < |spans| &&
               Moves(spans[i].startTimeUnixNano, ParentStart(spans, maxAdjust, i), maxAdjust)
            then ParentStart(spans, maxAdjust, i) - spans[i].startTimeUnixNano else 0
  {
    hide LastWith, ParentOf, Adjusted, Moves;
    var atVisit := Adjusted(spans, i, maxAdjust);
    ChangedOnce(spans, |spans|, maxAdjust, i);
    ChangedOnce(spans, i, maxAdjust, i);
    SameIds(spans, i, maxAdjust);
    ParentStays(spans, atVisit, i);
    VisitEffect(atVisit, i, maxAdjust);
  }

  /** When a span is moved: its parent, the last span that has the id, starts later,
      and by no more than the limit, if that is positive, or by 2^63 ns or more. */
  lemma {:induction false} MovedExactly(spans: seq<Span>, maxAdjust: int64, i: nat)
    requires i < |spans|
    ensures Shift(spans, maxAdjust, i) > 0 <==>
            spans[i].parentSpanID != [0, 0, 0, 0, 0, 0, 0, 0] && LastWith(spans, spans[i].parentSpanID) < |spans| &&
            var lead := ParentStart(spans, maxAdjust, i) - spans[i].startTimeUnixNano;
            lead > 0 && (maxAdjust <= 0 || lead <= maxAdjust || lead >= 0x8000_0000_0000_0000)
  {
    hide LastWith, Shift, Adjusted;
    ShiftIs(spans, maxAdjust, i);
  }

  /** The ids of the spans, up to some place, that one list has changed. */
  function ChangedIds(a: seq<Span>, b: seq<Span>, n: nat): seq<SpanID>
    requires n <= |a| == |b|
  {
    if n == 0 then []
    else ChangedIds(a, b, n - 1) + if a[n - 1] != b[n - 1] then [a[n - 1].spanID] else []
  }

  lemma {:induction false} WarnedUpTo(spans: seq<Span>, maxAdjust: int64, n: nat)
    requires n <= |spans|
    ensures Warned(spans, n, maxAdjust) == ChangedIds(spans, Adjusted(spans, |spans|, maxAdjust), n)
  {
    hide LastWith, Adjusted, Skewed, Visited, Warned;
    NoVisit(spans, maxAdjust);
    if n > 0 {
      NextVisit(spans, n - 1, maxAdjust);
      WarnedUpTo(spans, maxAdjust, n - 1);
      ChangedOnce(spans, |spans|, maxAdjust, n - 1);
      ChangedOnce(spans, n - 1, maxAdjust, n - 1);
      VisitEffect(Adjusted(spans, n - 1, maxAdjust), n - 1, maxAdjust);
    }
  }

  /** There is a warning for each span that was changed, in order. */
  lemma {:induction false} WarnedExactly(spans: seq<Span>, maxAdjust: int64)
    ensures Warned(spans, |spans|, maxAdjust) ==
            ChangedIds(spans, Adjusted(spans, |spans|, maxAdjust), |spans|)
  {
    WarnedUpTo(spans, maxAdjust, |spans|);
  }

  /** A positive limit is missed exactly by the spans that start 2^63 ns or more
      before their parent does when they are visited. */
  lemma {:induction false} LimitMissedExactly(spans: seq<Span>, maxAdjust: int64, i: nat)
    requires i < |spans| && maxAdjust > 0
    ensures Shift(spans, maxAdjust, i) > maxAdjust <==>
            ParentOf(spans, i) < |spans| &&
            ParentStart(spans, maxAdjust, i) - spans[i].startTimeUnixNano >= TWO_63
  {
    hide ParentOf, ParentStart, Shift;
    ShiftIs(spans, maxAdjust, i);
  }

  ghost predicate StartsWithin(spans: seq<Span>, earliest: uint64, latest: uint64) {
    forall i :: 0 <= i < |spans| ==> earliest <= spans[i].startTimeUnixNano <= latest
  }

  ghost predicate LimitKept(spans: seq<Span>, maxAdjust: int64) {
    forall i :: 0 <= i < |spans| ==> Shift(spans, maxAdjust, i) <= maxAdjust
  }

  /** A limit is kept to for all traces whose starts lie between two times
      exactly if these are less than 2^63 ns apart. */
  lemma {:induction false} LimitKeptExactly(earliest: uint64, latest: uint64, maxAdjust: int64)
    requires maxAdjust > 0 && earliest <= latest
    ensures (forall spans :: StartsWithin(spans, earliest, latest) ==> LimitKept(spans, maxAdjust)) <==>
            latest - earliest < TWO_63
  {
    hide Shift;
    if latest - earliest < TWO_63 {
      forall spans | StartsWithin(spans, earliest, latest) ensures LimitKept(spans, maxAdjust) {
        forall i | 0 <= i < |spans| ensures Shift(spans, maxAdjust, i) <= maxAdjust {
          StartsBounded(spans, |spans|, maxAdjust, latest);
          ShiftLimited(spans, maxAdjust, i);
          ShiftSpan(spans, maxAdjust, i);
        }
      }
    } else {
      var spans := FarApart(earliest, latest, maxAdjust);
      assert !LimitKept(spans, maxAdjust);
    }
  }

  lemma {:induction false} ShiftSpan(spans: seq<Span>, maxAdjust: int64, i: nat)
    requires i < |spans|
    ensures Adjusted(spans, |spans|, maxAdjust)[i].startTimeUnixNano ==
            spans[i].startTimeUnixNano + Shift(spans, maxAdjust, i)
  {
  }

  /** A child at the one time, its parent at the other. */
  lemma {:induction false} FarApart(earliest: uint64, latest: uint64, maxAdjust: int64) returns (spans: seq<Span>)
    requires maxAdjust > 0 && latest - earliest >= TWO_63
    ensures StartsWithin(spans, earliest, latest) && |spans| == 2 && Shift(spans, maxAdjust, 1) > maxAdjust
  {
    hide Shift, Adjusted;
    var id: SpanID := [1, 0, 0, 0, 0, 0, 0, 0];
    spans := [EMPTY_SPAN.(spanID := id, startTimeUnixNano := latest),
              EMPTY_SPAN.(parentSpanID := id, startTimeUnixNano := earliest)];
    assert id[0] != ZERO_SPAN_ID[0];
    assert LastWith(spans, id) == 0 by {
      assert spans[0].spanID == id;
    }
    assert ParentOf(spans, 1) == 0;
    assert ParentOf(spans, 0) == 2;
    NoVisit(spans, maxAdjust);
    NextVisit(spans, 0, maxAdjust);
    assert Adjusted(spans, 1, maxAdjust) == spans;
    LimitMissedExactly(spans, maxAdjust, 1);
  }

  // ----- when one pass suffices -----

  /** Every parent that is there comes no later than its children. */
  ghost predicate ParentsFirst(spans: seq<Span>) {
    forall i :: 0 <= i < |spans| && ParentOf(spans, i) < |spans| ==> ParentOf(spans, i) <= i
  }

  ghost predicate NoneSkewed(spans: seq<Span>, maxAdjust: int64) {
    forall i :: 0 <= i < |spans| ==> !Skewed(spans, i, maxAdjust)
  }

  /** A pass changes nothing exactly when it finds nothing to change. */
  lemma {:induction false} StableExactly(spans: seq<Span>, n: nat, maxAdjust: int64)
    requires n <= |spans|
    ensures Adjusted(spans, n, maxAdjust) == spans <==> forall i :: 0 <= i < n ==> !Skewed(spans, i, maxAdjust)
  {
    hide Visited, Skewed, ParentOf, Adjusted, Warned;
    NoVisit(spans, maxAdjust);
    if n > 0 {
      NextVisit(spans, n - 1, maxAdjust);
      StableExactly(spans, n - 1, maxAdjust);
      var before := Adjusted(spans, n - 1, maxAdjust);
      VisitEffect(before, n - 1, maxAdjust);
      if before != spans {
        StillChanged(spans, n, maxAdjust);
      }
    }
  }

  /** Once something was changed, it stays changed. */
  lemma {:induction false} StillChanged(spans: seq<Span>, n: nat, maxAdjust: int64)
    requires 0 < n <= |spans| && Adjusted(spans, n - 1, maxAdjust) != spans
    ensures Adjusted(spans, n, maxAdjust) != spans
  {
    hide Visited, Skewed, ParentOf;
    var before := Adjusted(spans, n - 1, maxAdjust);
    var i :| 0 <= i < |spans| && before[i] != spans[i];
    ChangedOnce(spans, n - 1, maxAdjust, i);
    VisitEffect(before, n - 1, maxAdjust);
    assert Adjusted(spans, n, maxAdjust)[i] == before[i];
  }

  /** No span is listed before a parent that has another parent of its own in
      the list, unless that is the span. */
  ghost predicate ParentsSettled(spans: seq<Span>) {
    forall i :: 0 <= i < |spans| ==> SettledParent(spans, i)
  }

  predicate SettledParent(spans: seq<Span>, i: nat)
    requires i < |spans|
  {
    var p := ParentOf(spans, i);
    i < p < |spans| ==> ParentOf(spans, p) == |spans| || ParentOf(spans, p) == p || ParentOf(spans, p) == i
  }

  /** One pass settles the list for all start and end times. */
  ghost predicate AlwaysSettles(spans: seq<Span>, maxAdjust: int64) {
    forall timed :: SameShape(spans, timed) ==> NoneSkewed(Adjusted(timed, |timed|, maxAdjust), maxAdjust)
  }

  /** Whatever the limit, one pass settles a list for all times exactly if no
      parent can move after its child was visited, other than to that child. */
  lemma {:induction false} OnePassExactly(spans: seq<Span>, maxAdjust: int64)
    ensures AlwaysSettles(spans, maxAdjust) <==> ParentsSettled(spans)
  {
    hide Skewed, SettledParent, Adjusted, SameShape;
    if ParentsSettled(spans) {
      forall timed | SameShape(spans, timed)
        ensures NoneSkewed(Adjusted(timed, |timed|, maxAdjust), maxAdjust)
      {
        SettledShape(spans, timed);
        forall i | 0 <= i < |timed| ensures !Skewed(Adjusted(timed, |timed|, maxAdjust), i, maxAdjust) {
          SettledSpan(timed, maxAdjust, i);
        }
      }
    } else {
      var i :| 0 <= i < |spans| && !SettledParent(spans, i);
      var timed := Unsettle(spans, maxAdjust, i);
      SameLength(spans, timed);
      assert !NoneSkewed(Adjusted(timed, |timed|, maxAdjust), maxAdjust);
    }
  }

  lemma {:induction false} SettledShape(spans: seq<Span>, timed: seq<Span>)
    requires SameShape(spans, timed)
    ensures |spans| == |timed| && forall i :: 0 <= i < |spans| ==> SettledParent(spans, i) == SettledParent(timed, i)
  {
    hide ParentOf, SameShape;
    assert |spans| == |timed| by { SameLength(spans, timed); }
    forall i | 0 <= i < |spans| ensures SettledParent(spans, i) == SettledParent(timed, i) {
      ParentStays(spans, timed, i);
      if ParentOf(spans, i) < |spans| {
        ParentStays(spans, timed, ParentOf(spans, i));
      }
    }
  }

  lemma {:induction false} SameLength(spans: seq<Span>, timed: seq<Span>)
    requires SameShape(spans, timed)
    ensures |spans| == |timed|
  {
  }

  /** The visit of a span sees its parent as it will be, or the parent moves to
      the span. */
  lemma {:induction false} SettledSpan(spans: seq<Span>, maxAdjust: int64, i: nat)
    requires i < |spans| && SettledParent(spans, i)
    ensures !Skewed(Adjusted(spans, |spans|, maxAdjust), i, maxAdjust)
  {
    hide Adjusted, LastWith, ParentOf, Visited, Skewed;
    var n, p := |spans|, ParentOf(spans, i);
    var after, atVisit := Adjusted(spans, n, maxAdjust), Adjusted(spans, i, maxAdjust);
    SameIds(spans, n, maxAdjust);
    SameIds(spans, i, maxAdjust);
    ParentStays(spans, after, i);
    ParentStays(spans, atVisit, i);
    ChangedOnce(spans, n, maxAdjust, i);
    ParentBound(spans, i);
    if p < n {
      ChangedOnce(spans, n, maxAdjust, p);
      ChangedOnce(spans, i, maxAdjust, p);
      if p > i {
        var later := Adjusted(spans, p, maxAdjust);
        SameIds(spans, p, maxAdjust);
        ParentStays(spans, later, p);
        ChangedOnce(spans, p, maxAdjust, p);
        ChangedOnce(spans, p, maxAdjust, i);
        VisitEffect(later, p, maxAdjust);
        SeenParent(atVisit, after, later, maxAdjust, i, p);
      } else {
        SeenBefore(atVisit, after, maxAdjust, i, p);
      }
    } else {
      NoParent(after, i, maxAdjust);
    }
  }

  lemma {:induction false} NoParent(spans: seq<Span>, i: nat, maxAdjust: int64)
    requires i < |spans| && ParentOf(spans, i) == |spans|
    ensures !Skewed(spans, i, maxAdjust)
  {
  }

  /** The parent comes no later than the span, and stays as it was seen. */
  lemma {:induction false} SeenBefore(atVisit: seq<Span>, after: seq<Span>, maxAdjust: int64, i: nat, p: nat)
    requires |atVisit| == |after| && p <= i < |after| && ParentOf(after, i) == p == ParentOf(atVisit, i)
    requires after[i] == Visited(atVisit, i, maxAdjust)[i] && (p < i ==> after[p] == atVisit[p])
    ensures !Skewed(after, i, maxAdjust)
  {
    hide ParentOf;
  }

  /** The parent comes later; it stays as it was seen, or moves to the span. */
  lemma {:induction false} SeenParent(atVisit: seq<Span>, after: seq<Span>, later: seq<Span>, maxAdjust: int64,
          i: nat, p: nat)
    requires |atVisit| == |after| == |later| && i < p < |after| && ParentOf(after, i) == p == ParentOf(atVisit, i)
    requires after[i] == Visited(atVisit, i, maxAdjust)[i] == later[i] && atVisit[p] == later[p]
    requires after[p] == Visited(later, p, maxAdjust)[p]
    requires ParentOf(later, p) == |later| || ParentOf(later, p) == p || ParentOf(later, p) == i
    ensures !Skewed(after, i, maxAdjust)
  {
    hide ParentOf;
  }

  /** Times for which the list is not settled: the span and its parent start
      first, and everything else, the grandparent too, right after. */
  lemma {:induction false} Unsettle(spans: seq<Span>, maxAdjust: int64, i: nat) returns (timed: seq<Span>)
    requires i < |spans| && !SettledParent(spans, i)
    ensures SameShape(spans, timed) && Skewed(Adjusted(timed, |timed|, maxAdjust), i, maxAdjust)
  {
    hide Adjusted, LastWith, ParentOf, Visited, Skewed;
    var n, p := |spans|, ParentOf(spans, i);
    var q := ParentOf(spans, p);
    ParentBound(spans, p);
    timed := seq(n, k requires 0 <= k < n => spans[k].(startTimeUnixNano := if k == i || k == p then 0 else 1));
    assert SameShape(spans, timed);
    ParentStays(spans, timed, i);
    ParentStays(spans, timed, p);
    var after, atVisit, later :=
      Adjusted(timed, n, maxAdjust), Adjusted(timed, i, maxAdjust), Adjusted(timed, p, maxAdjust);
    SameIds(timed, n, maxAdjust);
    SameIds(timed, i, maxAdjust);
    SameIds(timed, p, maxAdjust);
    ParentStays(timed, after, i);
    ParentStays(timed, atVisit, i);
    ParentStays(timed, later, p);
    ChangedOnce(timed, n, maxAdjust, i);
    ChangedOnce(timed, n, maxAdjust, p);
    ChangedOnce(timed, i, maxAdjust, i);
    ChangedOnce(timed, i, maxAdjust, p);
    ChangedOnce(timed, p, maxAdjust, p);
    StartsBounded(timed, p, maxAdjust, 1);
    assert later[q].startTimeUnixNano == 1;
    VisitMoves(later, p, q, maxAdjust);
    VisitStays(atVisit, i, p, maxAdjust);
    assert after[i].startTimeUnixNano == 0 && after[p].startTimeUnixNano == 1;
    LeftBehind(after, i, p, maxAdjust);
  }

  lemma {:induction false} ParentBound(spans: seq<Span>, i: nat)
    requires i < |spans|
    ensures ParentOf(spans, i) <= |spans|
  {
  }

  lemma {:induction false} VisitMoves(spans: seq<Span>, p: nat, q: nat, maxAdjust: int64)
    requires p < |spans| && q < |spans| && ParentOf(spans, p) == q
    requires spans[p].startTimeUnixNano == 0 && spans[q].startTimeUnixNano == 1
    ensures Visited(spans, p, maxAdjust)[p].startTimeUnixNano == 1
  {
    hide ParentOf;
  }

  lemma {:induction false} VisitStays(spans: seq<Span>, i: nat, p: nat, maxAdjust: int64)
    requires i < |spans| && p < |spans| && ParentOf(spans, i) == p
    requires spans[p].startTimeUnixNano == 0
    ensures Visited(spans, i, maxAdjust) == spans
  {
    hide ParentOf;
  }

  lemma {:induction false} LeftBehind(spans: seq<Span>, i: nat, p: nat, maxAdjust: int64)
    requires i < |spans| && p < |spans| && ParentOf(spans, i) == p
    requires spans[i].startTimeUnixNano == 0 && spans[p].startTimeUnixNano == 1
    ensures Skewed(spans, i, maxAdjust)
  {
    hide ParentOf;
  }

  /** In particular when parents come first. After one pass no visit would
      change anything then. */
  lemma {:induction false} OnePassSuffices(spans: seq<Span>, maxAdjust: int64)
    requires ParentsFirst(spans)
    ensures var after := Adjusted(spans, |spans|, maxAdjust);
            NoneSkewed(after, maxAdjust) && Adjusted(after, |after|, maxAdjust) == after
  {
    hide Adjusted, Skewed;
    var after := Adjusted(spans, |spans|, maxAdjust);
    forall i | 0 <= i < |spans| ensures !Skewed(after, i, maxAdjust) {
      SettledSpan(spans, maxAdjust, i);
    }
    StableExactly(after, |after|, maxAdjust);
  }

  /** With no limit, no child starts before its parent after one pass. */
  lemma {:induction false} NoChildBeforeItsParent(spans: seq<Span>, i: nat)
    requires ParentsSettled(spans) && i < |spans|
    ensures var after := Adjusted(spans, |spans|, 0);
            ParentOf(after, i) < |after| ==> after[ParentOf(after, i)].startTimeUnixNano <= after[i].startTimeUnixNano
  {
    hide Adjusted, ParentOf;
    SettledSpan(spans, 0, i);
    assert !Skewed(Adjusted(spans, |spans|, 0), i, 0);
  }

  /** For example a grandchild listed before its parent, which misses the
      parent's own move. */
  lemma {:induction false} OrderMatters(a: SpanID, b: SpanID)
    requires a != b && a != ZERO_SPAN_ID && b != ZERO_SPAN_ID
    ensures var spans := [EMPTY_SPAN.(parentSpanID := b, startTimeUnixNano := 2),
                          EMPTY_SPAN.(spanID := b, parentSpanID := a, startTimeUnixNano := 1),
                          EMPTY_SPAN.(spanID := a, startTimeUnixNano := 3)];
            !NoneSkewed(Adjusted(spans, 3, 0), 0)
  {
    var spans := [EMPTY_SPAN.(parentSpanID := b, startTimeUnixNano := 2),
                  EMPTY_SPAN.(spanID := b, parentSpanID := a, startTimeUnixNano := 1),
                  EMPTY_SPAN.(spanID := a, startTimeUnixNano := 3)];
    assert LastWith(spans, a) == 2 by { assert spans[2].spanID == a; }
    assert LastWith(spans, b) == 1 by { assert spans[1].spanID == b && spans[2].spanID != b; }
    assert Adjusted(spans, 0, 0) == spans;
    assert Adjusted(spans, 1, 0) == spans;
    var after := spans[1 := Moved(spans[1], 3)];
    assert Adjusted(spans, 2, 0) == after;
    assert ParentOf(after, 2) == 3;
    assert Adjusted(spans, 3, 0) == after;
    LastStays(spans, after, b);
    assert Skewed(after, 0, 0);
  }
}
