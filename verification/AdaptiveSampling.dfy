/** The adaptive sampling engine, internal/sampling/adaptive.go, over the reals. */
module AdaptiveSampling {
  const MIN_RATE := 0.0001
  const MAX_RATE := 1.0

  function Clamp(x: real): (r: real)
    ensures MIN_RATE <= r <= MAX_RATE
    ensures MIN_RATE <= x <= MAX_RATE ==> r == x
  {
    var low := if x < MAX_RATE then x else MAX_RATE;
    if low > MIN_RATE then low else MIN_RATE
  }

  /** One recomputation of a rate from the throughput observed since the last. */
  function NewRate(current: real, target: real, observed: real): real
    requires observed > 0.0
  {
    Clamp(current * 0.7 + target / observed * 0.3)
  }

  function Seconds(interval: real): real {
    if interval <= 0.0 then 1.0 else interval
  }

  function RateOf(rates: map<string, real>, service: string): real {
    if service in rates then rates[service] else 1.0
  }

  /** The rate of a service after a round that saw so many of its spans: it
      changes only if there were any. */
  function Moved(current: real, target: real, seen: nat, interval: real): real {
    if seen > 0 then NewRate(current, target, seen as real / Seconds(interval)) else current
  }

  function Seen(window: map<string, nat>, service: string): nat {
    if service in window then window[service] else 0
  }

  /** The rate of every service after a round. */
  function Recomputed(rates: map<string, real>, window: map<string, nat>, target: real, interval: real,
          service: string): real {
    Moved(RateOf(rates, service), target, Seen(window, service), interval)
  }

  class Engine {
    const target: real
    var window: map<string, nat>
    var probabilities: map<string, real>

    ghost predicate Valid()
      reads this
    {
      target > 0.0 && forall s :: s in probabilities ==> MIN_RATE <= probabilities[s] <= MAX_RATE
    }

    constructor (targetQPS: real)
      ensures Valid() && target == (if targetQPS <= 0.0 then 1.0 else targetQPS)
      ensures window == map[] && probabilities == map[]
    {
      target := if targetQPS <= 0.0 then 1.0 else targetQPS;
      window := map[];
      probabilities := map[];
    }

    method RecordSpan(service: string)
      requires Valid()
      modifies this
      ensures Valid() && probabilities == old(probabilities)
      ensures window == old(window)[service := (if service in old(window) then old(window)[service] else 0) + 1]
    {
      if service !in window {
        window := window[service := 0];
      }
      window := window[service := window[service] + 1];
    }

    /** Visits the services in any order, swaps their counts for zero and moves
        the rates of those that were seen. */
    method Compute(interval: real)
      requires Valid()
      modifies this
      ensures Valid()
      ensures window == map s | s in old(window) :: 0
      ensures forall s :: RateOf(probabilities, s) == Recomputed(old(probabilities), old(window), target, interval, s)
      ensures forall s :: s in probabilities <==> s in old(probabilities) || (s in old(window) && old(window)[s] > 0)
    {
      hide NewRate;
      var secs := Seconds(interval);
      var left := window.Keys;
      while left != {}
        invariant Valid() && left <= window.Keys == old(window).Keys
        invariant forall s :: s in left ==> window[s] == old(window)[s]
        invariant forall s :: s in window && s !in left ==> window[s] == 0
        invariant forall s :: s in probabilities <==>
                    s in old(probabilities) || (s in old(window) && s !in left && old(window)[s] > 0)
        invariant forall s :: RateOf(probabilities, s) ==
                    if s in left then RateOf(old(probabilities), s)
                    else Recomputed(old(probabilities), old(window), target, interval, s)
        decreases left
      {
        var service :| service in left;
        left := left - {service};
        ComputeOne(service, secs);
      }
    }

    /** The loop body for one service. */
    method ComputeOne(service: string, secs: real)
      requires Valid() && service in window && secs > 0.0
      modifies this
      ensures Valid() && window == old(window)[service := 0]
      ensures probabilities ==
              if old(window)[service] > 0
              then old(probabilities)[service := NewRate(RateOf(old(probabilities), service), target,
                  old(window)[service] as real / secs)]
              else old(probabilities)
    {
      var observed := window[service] as real / secs;
      window := window[service := 0];
      if observed <= 0.0 {
        return;
      }
      RateInBounds(RateOf(probabilities, service), target, observed);
      probabilities := probabilities[service := NewRate(RateOf(probabilities, service), target, observed)];
    }
  }

  // ----- runs of rounds -----

  /** What comes in between two computations, and the interval of the second. */
  datatype Round = Round(spans: seq<string>, interval: real)

  function Count(spans: seq<string>, service: string): nat {
    if spans == [] then 0
    else Count(spans[..|spans| - 1], service) + (if spans[|spans| - 1] == service then 1 else 0)
  }

  /** The rate of a service after a run of rounds. */
  function AfterRun(current: real, target: real, rounds: seq<Round>, service: string): real {
    if rounds == [] then current
    else
      var last := rounds[|rounds| - 1];
      Moved(AfterRun(current, target, rounds[..|rounds| - 1], service), target, Count(last.spans, service),
          last.interval)
  }

  /** A client that records the spans of every round and then computes. */
  method Run(engine: Engine, rounds: seq<Round>)
    requires engine.Valid() && forall s :: Seen(engine.window, s) == 0
    modifies engine
    ensures engine.Valid() && forall s :: Seen(engine.window, s) == 0
    ensures forall s :: RateOf(engine.probabilities, s) ==
              AfterRun(RateOf(old(engine.probabilities), s), engine.target, rounds, s)
  {
    hide NewRate;
    var i := 0;
    while i < |rounds|
      invariant 0 <= i <= |rounds| && engine.Valid()
      invariant forall s :: Seen(engine.window, s) == 0
      invariant forall s :: RateOf(engine.probabilities, s) ==
                  AfterRun(RateOf(old(engine.probabilities), s), engine.target, rounds[..i], s)
    {
      RecordAll(engine, rounds[i].spans);
      engine.Compute(rounds[i].interval);
      assert rounds[..i + 1][..i] == rounds[..i];
      i := i + 1;
    }
    assert rounds[..i] == rounds;
  }

  method RecordAll(engine: Engine, spans: seq<string>)
    requires engine.Valid() && forall s :: Seen(engine.window, s) == 0
    modifies engine
    ensures engine.Valid() && engine.probabilities == old(engine.probabilities)
    ensures forall s :: Seen(engine.window, s) == Count(spans, s)
  {
    var i := 0;
    while i < |spans|
      invariant 0 <= i <= |spans| && engine.Valid() && engine.probabilities == old(engine.probabilities)
      invariant forall s :: Seen(engine.window, s) == Count(spans[..i], s)
    {
      engine.RecordSpan(spans[i]);
      assert spans[..i + 1][..i] == spans[..i];
      i := i + 1;
    }
    assert spans[..i] == spans;
  }

  /** The rounds of a run that saw the service. */
  function Busy(rounds: seq<Round>, service: string): nat {
    if rounds == [] then 0
    else Busy(rounds[..|rounds| - 1], service) + (if Count(rounds[|rounds| - 1].spans, service) > 0 then 1 else 0)
  }

  /** Every round that saw the service saw it at this throughput. */
  predicate Steady(rounds: seq<Round>, service: string, observed: real) {
    forall i :: 0 <= i < |rounds| && Count(rounds[i].spans, service) > 0 ==>
      Count(rounds[i].spans, service) as real / Seconds(rounds[i].interval) == observed
  }

  // ----- convergence -----

  function Distance(a: real, b: real): real {
    if a < b then b - a else a - b
  }

  function Power(x: real, n: nat): real {
    if n == 0 then 1.0 else x * Power(x, n - 1)
  }

  /** The rate after n rounds with the same throughput. */
  function Rounds(current: real, target: real, observed: real, n: nat): real
    requires observed > 0.0
  {
    if n == 0 then current else NewRate(Rounds(current, target, observed, n - 1), target, observed)
  }

  /** The rate at which the target would be met, within the bounds. */
  function Goal(target: real, observed: real): real
    requires observed > 0.0
  {
    Clamp(target / observed)
  }

  /** A rate moves towards the goal, not past it, and stays there once reached;
      seven tenths of the distance remain at most. */
  lemma {:induction false} RoundContracts(current: real, target: real, observed: real)
    requires observed > 0.0 && MIN_RATE <= current <= MAX_RATE
    ensures var (next, goal) := (NewRate(current, target, observed), Goal(target, observed));
            Distance(next, goal) <= 0.7 * Distance(current, goal) &&
            (current <= goal ==> current <= next <= goal) && (goal <= current ==> goal <= next <= current)
  {
    var desired := target / observed;
    assert NewRate(current, target, observed) == Clamp(current * 0.7 + desired * 0.3);
  }

  /** Seven tenths of the rate and three of the desired one, which leaves exactly
      seven tenths of the distance, unless the bounds cut it. */
  lemma {:induction false} NewRateExactly(current: real, target: real, observed: real)
    requires observed > 0.0
    ensures var (rate, desired) := (NewRate(current, target, observed), target / observed);
            var mean := 0.7 * current + 0.3 * desired;
            rate == (if mean < 0.0001 then 0.0001 else if mean > 1.0 then 1.0 else mean) &&
            mean - desired == 0.7 * (current - desired)
  {
  }

  /** A service that was not seen keeps its rate, which is 1 at first; any other
      moves by its throughput over the interval, or over a second if that is
      not positive. */
  lemma {:induction false} RecomputedExactly(rates: map<string, real>, window: map<string, nat>, target: real,
          interval: real, service: string)
    ensures var (current, next) := (RateOf(rates, service), Recomputed(rates, window, target, interval, service));
            (service in rates ==> current == rates[service]) && (service !in rates ==> current == 1.0) &&
            if service !in window || window[service] == 0 then next == current
            else
              var observed := window[service] as real / (if interval > 0.0 then interval else 1.0);
              var mean := 0.7 * current + 0.3 * (target / observed);
              next == (if mean < 0.0001 then 0.0001 else if mean > 1.0 then 1.0 else mean)
  {
    hide NewRate;
    if service in window && window[service] > 0 {
      NewRateExactly(RateOf(rates, service), target, window[service] as real / Seconds(interval));
    }
  }

  /** The goal is the share of the spans that meets the target. */
  lemma {:induction false} GoalIs(target: real, observed: real)
    requires observed > 0.0
    ensures var goal := Goal(target, observed);
            0.0001 <= goal <= 1.0 && (0.0001 <= target / observed <= 1.0 ==> goal * observed == target) &&
            (target > observed ==> goal == 1.0) && (target / observed < 0.0001 ==> goal == 0.0001)
  {
    assert target / observed * observed == target;
  }

  lemma {:induction false} RoundsConverge(current: real, target: real, observed: real, n: nat)
    requires observed > 0.0 && MIN_RATE <= current <= MAX_RATE
    ensures MIN_RATE <= Rounds(current, target, observed, n) <= MAX_RATE
    ensures Distance(Rounds(current, target, observed, n), Goal(target, observed)) <=
            Power(0.7, n) * Distance(current, Goal(target, observed))
  {
    hide NewRate, Goal, Distance;
    var goal := Goal(target, observed);
    if n == 0 {
      assert Power(0.7, 0) == 1.0;
    } else {
      RoundsConverge(current, target, observed, n - 1);
      var before := Rounds(current, target, observed, n - 1);
      RoundContracts(before, target, observed);
      RateInBounds(before, target, observed);
      Shrinks(Distance(Rounds(current, target, observed, n), goal), Distance(before, goal), Power(0.7, n - 1),
          Distance(current, goal));
    }
  }

  /** With idle rounds anywhere in between, a run is as many rounds as saw the
      service. */
  lemma {:induction false} IdleRoundsSkipped(current: real, target: real, observed: real, rounds: seq<Round>,
          service: string)
    requires observed > 0.0 && Steady(rounds, service, observed)
    ensures AfterRun(current, target, rounds, service) == Rounds(current, target, observed, Busy(rounds, service))
  {
    hide NewRate, Count;
    if rounds != [] {
      IdleRoundsSkipped(current, target, observed, rounds[..|rounds| - 1], service);
    }
  }

  /** So every run of the engine at a steady throughput, however many idle
      rounds it holds, brings the rate within 0.7 to the number of busy rounds
      of the distance it started from. */
  lemma {:induction false} RunConverges(current: real, target: real, observed: real, rounds: seq<Round>,
          service: string)
    requires observed > 0.0 && Steady(rounds, service, observed) && MIN_RATE <= current <= MAX_RATE
    ensures var (rate, goal) := (AfterRun(current, target, rounds, service), Goal(target, observed));
            MIN_RATE <= rate <= MAX_RATE &&
            Distance(rate, goal) <= Power(0.7, Busy(rounds, service)) * Distance(current, goal)
  {
    hide *;
    IdleRoundsSkipped(current, target, observed, rounds, service);
    RoundsConverge(current, target, observed, Busy(rounds, service));
  }

  lemma {:induction false} RateInBounds(current: real, target: real, observed: real)
    requires observed > 0.0
    ensures MIN_RATE <= NewRate(current, target, observed) <= MAX_RATE
  {
  }

  lemma {:induction false} Shrinks(next: real, before: real, p: real, first: real)
    requires next <= 0.7 * before && before <= p * first
    ensures next <= 0.7 * p * first
  {
    assert 0.7 * p * first == 0.7 * (p * first);
  }

  lemma {:induction false} AtMost(p: real, d: real)
    requires p > 0.0 && d <= 1.0
    ensures p * d <= p
  {
    assert p * d <= p * 1.0;
  }

  /** From the default rate the goal is missed by at most 0.7 to the n. */
  lemma {:induction false} DefaultConverges(target: real, observed: real, n: nat)
    requires observed > 0.0
    ensures Distance(Rounds(1.0, target, observed, n), Goal(target, observed)) <= Power(0.7, n)
  {
    hide Rounds, Power;
    RoundsConverge(1.0, target, observed, n);
    PowerPositive(n);
    var d := Distance(1.0, Goal(target, observed));
    assert d <= 1.0;
    AtMost(Power(0.7, n), d);
  }

  lemma {:induction false} PowerPositive(n: nat)
    ensures Power(0.7, n) > 0.0
  {
    if n > 0 {
      PowerPositive(n - 1);
    }
  }
}
