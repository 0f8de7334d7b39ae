/** The pipeline's single consumer over the same bounded queue,
    internal/pipeline/pipeline.go, proved to be an instance of the worker pool. */
module Pipeline {
  import Pool = WorkerPool

  /** Where consumeLoop and drain are: at the first select, at Dequeue, at the
      second select, in processAndExport, at the Dequeue of drain, or returned. */
  datatype Consumer<T> = Top | Polling | Sleeping | Working(td: T, draining: bool) | Draining | Stopped

  datatype Pipe<T(==)> = Pipe(
    cap: nat, queue: seq<T>, closed: bool, cancelled: bool, panicked: bool,
    waiting: multiset<T>, consumer: Consumer<T>,
    accepted: seq<T>, processed: seq<T>, served: nat)

  datatype Action<T> =
    | Check(td: T) | Send(td: T) | GiveUp(td: T)
    | Close | Cancel
    | SeeCancel | Poll | Dequeue | Wake | Process | Drain

  function Init<T(==)>(cap: nat): Pipe<T> {
    Pipe(cap, [], false, false, false, multiset{}, Top, [], [], 0)
  }

  predicate Enabled<T(==)>(p: Pipe<T>, a: Action<T>) {
    !p.panicked &&
    match a
    case Check(_) => true
    case Send(td) => td in p.waiting && (p.closed || |p.queue| < p.cap)
    case GiveUp(td) => td in p.waiting
    case Close => !p.closed
    case Cancel => !p.cancelled
    case SeeCancel => (p.consumer.Top? || p.consumer.Sleeping?) && p.cancelled
    // the default branch is taken only when the context is not done
    case Poll => p.consumer.Top? && !p.cancelled
    case Dequeue => p.consumer.Polling?
    case Wake => p.consumer.Sleeping?
    case Process => p.consumer.Working?
    case Drain => p.consumer.Draining?
  }

  function Apply<T(==)>(p: Pipe<T>, a: Action<T>): Pipe<T>
    requires Enabled(p, a)
  {
    match a
    case Check(td) => if p.closed then p else p.(waiting := p.waiting + multiset{td})
    case Send(td) =>
      if p.closed then p.(panicked := true)
      else p.(waiting := p.waiting - multiset{td}, queue := p.queue + [td], accepted := p.accepted + [td])
    case GiveUp(td) => p.(waiting := p.waiting - multiset{td})
    case Close => p.(closed := true)
    case Cancel => p.(cancelled := true)
    case SeeCancel => p.(consumer := Draining)
    case Poll => p.(consumer := Polling)
    case Dequeue =>
      if p.queue == [] then p.(consumer := Sleeping)
      else p.(consumer := Working(p.queue[0], false), queue := p.queue[1..])
    case Wake => p.(consumer := Top)
    case Process =>
      p.(consumer := if p.consumer.draining then Draining else Top, processed := p.processed + [p.consumer.td])
    case Drain =>
      if p.queue == [] then p.(consumer := Stopped, served := |p.accepted|)
      else p.(consumer := Working(p.queue[0], true), queue := p.queue[1..])
  }

  predicate Runs<T(==)>(p: Pipe<T>, run: seq<Action<T>>)
    decreases run
  {
    run == [] || (Enabled(p, run[0]) && Runs(Apply(p, run[0]), run[1..]))
  }

  function After<T(==)>(p: Pipe<T>, run: seq<Action<T>>): Pipe<T>
    requires Runs(p, run)
    decreases run
  {
    if run == [] then p else After(Apply(p, run[0]), run[1..])
  }

  predicate CancelsLast<T(==)>(p: Pipe<T>, run: seq<Action<T>>)
    requires Runs(p, run)
    decreases run
  {
    run == [] || ((run[0].Cancel? ==> p.closed) && CancelsLast(Apply(p, run[0]), run[1..]))
  }

  predicate ClosesQuietly<T(==)>(p: Pipe<T>, run: seq<Action<T>>)
    requires Runs(p, run)
    decreases run
  {
    run == [] || ((run[0].Close? ==> p.waiting == multiset{}) && ClosesQuietly(Apply(p, run[0]), run[1..]))
  }

  // ----- a pool of one worker -----

  function AsWorker<T>(c: Consumer<T>): Pool.Worker<T> {
    match c
    case Working(td, draining) => Pool.Busy(td, draining)
    case Draining => Pool.Draining
    case Stopped => Pool.Exited
    case _ => Pool.Idle
  }

  function InHand<T>(c: Consumer<T>): seq<T> {
    if c.Working? then [c.td] else []
  }

  function AsPool<T(==)>(p: Pipe<T>): Pool.Pool<T> {
    Pool.Pool(p.cap, p.queue, p.closed, p.cancelled, p.panicked, p.waiting, [AsWorker(p.consumer)],
              p.accepted, p.processed + InHand(p.consumer), p.processed, p.served)
  }

  /** The pool action that a pipeline action is, if it is not invisible. */
  function AsPoolAction<T(==)>(p: Pipe<T>, a: Action<T>): seq<Pool.Action<T>> {
    match a
    case Check(td) => [Pool.Check(td)]
    case Send(td) => [Pool.Send(td)]
    case GiveUp(td) => [Pool.GiveUp(td)]
    case Close => [Pool.Close]
    case Cancel => [Pool.Cancel]
    case SeeCancel => [Pool.SeeCancel(0)]
    case Poll => []
    case Wake => []
    case Dequeue => if p.queue == [] then [] else [Pool.Receive(0)]
    case Process => [Pool.Finish(0)]
    case Drain => if p.queue == [] then [Pool.DrainEnd(0)] else [Pool.Receive(0)]
  }

  ghost predicate Simulates<T>(p: Pipe<T>, a: Action<T>)
    requires Enabled(p, a)
  {
    if AsPoolAction(p, a) == [] then AsPool(Apply(p, a)) == AsPool(p)
    else
      Pool.Enabled(AsPool(p), AsPoolAction(p, a)[0]) &&
      Pool.Apply(AsPool(p), AsPoolAction(p, a)[0]) == AsPool(Apply(p, a))
  }

  lemma {:induction false} TakeSimulates<T>(p: Pipe<T>, a: Action<T>)
    requires Enabled(p, a) && (a.Dequeue? || a.Drain?)
    ensures Simulates(p, a)
  {
    var q := Apply(p, a);
    assert q.processed + InHand(q.consumer) == p.processed + InHand(p.consumer) + InHand(q.consumer);
    if p.queue == [] {
      assert a.Drain? ==> Pool.AllExited(AsPool(q).workers);
    }
  }

  lemma {:induction false} ProcessSimulates<T>(p: Pipe<T>)
    requires Enabled(p, Process)
    ensures Simulates(p, Process)
  {
    var q := Apply(p, Process);
    assert q.processed + InHand(q.consumer) == p.processed + InHand(p.consumer);
  }

  lemma {:induction false} StepSimulates<T>(p: Pipe<T>, a: Action<T>)
    requires Enabled(p, a)
    ensures Simulates(p, a)
  {
    match a
    case Dequeue => TakeSimulates(p, a);
    case Drain => TakeSimulates(p, a);
    case Process => ProcessSimulates(p);
    case _ =>
  }

  /** Every run of the pipeline is a run of a pool with one worker, with the same
      queue, the same history and the same discipline of Close and Cancel. */
  lemma {:induction false} RunSimulates<T>(p: Pipe<T>, run: seq<Action<T>>) returns (poolRun: seq<Pool.Action<T>>)
    requires Runs(p, run)
    ensures Pool.Runs(AsPool(p), poolRun)
    ensures Pool.After(AsPool(p), poolRun) == AsPool(After(p, run))
    ensures CancelsLast(p, run) ==> Pool.CancelsLast(AsPool(p), poolRun)
    ensures ClosesQuietly(p, run) ==> Pool.ClosesQuietly(AsPool(p), poolRun)
    decreases run
  {
    if run == [] {
      poolRun := [];
    } else {
      hide AsPool;
      SameFlags(p);
      StepSimulates(p, run[0]);
      var more := RunSimulates(Apply(p, run[0]), run[1..]);
      if AsPoolAction(p, run[0]) == [] {
        poolRun := more;
      } else {
        poolRun := [AsPoolAction(p, run[0])[0]] + more;
        assert poolRun[1..] == more;
      }
    }
  }

  lemma {:induction false} SameFlags<T>(p: Pipe<T>)
    ensures AsPool(p).closed == p.closed && AsPool(p).waiting == p.waiting && AsPool(p).panicked == p.panicked
  {
  }

  lemma {:induction false} InitSimulates<T>(cap: nat)
    ensures AsPool(Init<T>(cap)) == Pool.Init(1, cap)
  {
    assert Pool.Idles<T>(0) == [];
    assert Pool.Idles<T>(1) == [Pool.Idle] + Pool.Idles<T>(0);
  }

  // ----- what follows for the pipeline -----

  /** At every moment of every run the batches handed on, the one in hand and the
      queued ones are, in this order, all that was accepted, and the queue is
      within its capacity. */
  lemma {:induction false} FirstInFirstOut<T>(cap: nat, run: seq<Action<T>>)
    requires Runs(Init(cap), run)
    ensures var p := After(Init(cap), run);
            p.processed + InHand(p.consumer) + p.queue == p.accepted && |p.queue| <= p.cap
  {
    var poolRun := RunSimulates(Init(cap), run);
    InitSimulates<T>(cap);
    Pool.InitInv<T>(1, cap);
    Pool.RunKeepsInv(AsPool(Init(cap)), poolRun);
  }

  /** When Shutdown returns from its wait, everything accepted has been handed
      on, in order, provided that nothing but Shutdown cancels. */
  lemma {:induction false} ShutdownDrains<T>(cap: nat, run: seq<Action<T>>)
    requires Runs(Init(cap), run) && CancelsLast(Init(cap), run)
    requires After(Init(cap), run).consumer.Stopped?
    ensures var p := After(Init(cap), run); p.processed == p.accepted && p.queue == []
  {
    var p := After(Init(cap), run);
    var poolRun := RunSimulates(Init(cap), run);
    InitSimulates<T>(cap);
    assert AsPool(p).workers[0].Exited?;
    Pool.CloseRunsEverything(1, cap, poolRun);
    FirstInFirstOut(cap, run);
  }

  /** Receivers are shut down before the queue is closed; so no send panics. */
  lemma {:induction false} QuietShutdownNeverPanics<T>(cap: nat, run: seq<Action<T>>)
    requires Runs(Init(cap), run) && ClosesQuietly(Init(cap), run)
    ensures !After(Init(cap), run).panicked
  {
    var poolRun := RunSimulates(Init(cap), run);
    InitSimulates<T>(cap);
    SameFlags(After(Init(cap), run));
    Pool.QuietCloseNeverPanics(AsPool(Init(cap)), poolRun);
  }

  /** In any run, whoever cancels: what the stopped consumer has handed on is what
      was accepted before it stopped; the rest stays in the queue. */
  lemma {:induction false} WhatShutdownLeaves<T>(cap: nat, run: seq<Action<T>>)
    requires Runs(Init(cap), run) && After(Init(cap), run).consumer.Stopped?
    ensures var p := After(Init(cap), run);
            p.served <= |p.accepted| && p.processed == p.accepted[..p.served] && p.queue == p.accepted[p.served..]
  {
    var p := After(Init(cap), run);
    var poolRun := RunSimulates(Init(cap), run);
    InitSimulates<T>(cap);
    Pool.InitInv<T>(1, cap);
    Pool.RunKeepsInv(AsPool(Init(cap)), poolRun);
    assert Pool.AllExited(AsPool(p).workers);
    FirstInFirstOut(cap, run);
    assert p.accepted[p.served..] == (p.processed + p.queue)[|p.processed|..];
  }

  // ----- what can always be done -----

  function Submits<T>(tds: seq<T>): seq<Action<T>> {
    if tds == [] then [] else [Check(tds[0]), Send(tds[0])] + Submits(tds[1..])
  }

  lemma {:induction false} Submitted<T>(p: Pipe<T>, td: T) returns (q: Pipe<T>)
    requires !p.panicked && !p.closed && |p.queue| < p.cap
    ensures Enabled(p, Check(td)) && Enabled(Apply(p, Check(td)), Send(td))
    ensures q == Apply(Apply(p, Check(td)), Send(td))
    ensures q == p.(queue := p.queue + [td], accepted := p.accepted + [td])
  {
    assert p.waiting + multiset{td} - multiset{td} == p.waiting;
    q := Apply(Apply(p, Check(td)), Send(td));
  }

  /** An open queue takes as many batches as it has places, whatever the consumer
      is doing. */
  lemma {:induction false} FillsUp<T>(p: Pipe<T>, tds: seq<T>)
    requires !p.panicked && !p.closed && |p.queue| + |tds| <= p.cap
    ensures Runs(p, Submits(tds))
    ensures After(p, Submits(tds)) == p.(queue := p.queue + tds, accepted := p.accepted + tds)
    decreases tds
  {
    hide Enabled, Apply;
    if tds == [] {
      assert p.queue + [] == p.queue && p.accepted + [] == p.accepted;
    } else {
      var td, rest := tds[0], Submits(tds[1..]);
      var q := Submitted(p, td);
      FillsUp(q, tds[1..]);
      OneStep(Apply(p, Check(td)), Send(td), rest);
      OneStep(p, Check(td), [Send(td)] + rest);
      assert [Check(td), Send(td)] + rest == [Check(td)] + ([Send(td)] + rest);
      assert [td] + tds[1..] == tds;
      Pool.Onward(p.queue, td, tds[1..]);
      Pool.Onward(p.accepted, td, tds[1..]);
    }
  }


  /** It is never stuck before it has stopped. */
  lemma {:induction false} ConsumerNeverStuck<T>(p: Pipe<T>)
    requires !p.panicked && !p.consumer.Stopped?
    ensures exists a: Action<T> ::
              (a.SeeCancel? || a.Poll? || a.Dequeue? || a.Wake? || a.Process? || a.Drain?) && Enabled(p, a)
  {
    var a: Action<T> :=
      match p.consumer
      case Top => if p.cancelled then SeeCancel else Poll
      case Polling => Dequeue
      case Sleeping => Wake
      case Working(_, _) => Process
      case Draining => Drain
      case Stopped => Drain;
    assert Enabled(p, a);
  }

  function Consumes<T>(n: nat): seq<Action<T>> {
    if n == 0 then [] else [Poll, Dequeue, Process] + Consumes(n - 1)
  }

  lemma {:induction false} HandedOn<T>(p: Pipe<T>) returns (q: Pipe<T>)
    requires !p.panicked && !p.cancelled && p.consumer.Top? && p.queue != []
    ensures Enabled(p, Poll) && Enabled(Apply(p, Poll), Dequeue) && Enabled(Apply(Apply(p, Poll), Dequeue), Process)
    ensures q == Apply(Apply(Apply(p, Poll), Dequeue), Process)
    ensures q == p.(queue := p.queue[1..], processed := p.processed + [p.queue[0]])
  {
    q := Apply(Apply(Apply(p, Poll), Dequeue), Process);
  }

  /** While nothing is cancelled it can hand on all batches of the queue, in order. */
  lemma {:induction false} HandsOnAll<T>(p: Pipe<T>, n: nat)
    requires !p.panicked && !p.cancelled && p.consumer.Top? && n <= |p.queue|
    ensures Runs(p, Consumes(n))
    ensures After(p, Consumes(n)) == p.(queue := p.queue[n..], processed := p.processed + p.queue[..n])
    decreases n
  {
    hide Enabled, Apply;
    if n == 0 {
      assert p.queue[0..] == p.queue && p.queue[..0] == [] && p.processed + [] == p.processed;
    } else {
      var q := HandedOn(p);
      ThreeSteps(p, Poll, Dequeue, Process, Consumes(n - 1));
      HandsOnAll(q, n - 1);
      assert p.queue[1..][n - 1..] == p.queue[n..];
      assert [p.queue[0]] + p.queue[1..][..n - 1] == p.queue[..n];
      Pool.Onward(p.processed, p.queue[0], p.queue[1..][..n - 1]);
    }
  }

  lemma {:induction false} ThreeSteps<T>(p: Pipe<T>, a: Action<T>, b: Action<T>, c: Action<T>, run: seq<Action<T>>)
    requires Enabled(p, a) && Enabled(Apply(p, a), b) && Enabled(Apply(Apply(p, a), b), c)
    ensures var q := Apply(Apply(Apply(p, a), b), c);
            (Runs(p, [a, b, c] + run) <==> Runs(q, run)) && (Runs(q, run) ==> After(p, [a, b, c] + run) == After(q, run))
  {
    hide Enabled, Apply;
    OneStep(p, a, [b, c] + run);
    OneStep(Apply(p, a), b, [c] + run);
    OneStep(Apply(Apply(p, a), b), c, run);
    assert [a, b, c] + run == [a] + ([b, c] + run) && [b, c] + run == [b] + ([c] + run);
  }

  lemma {:induction false} OneStep<T>(p: Pipe<T>, a: Action<T>, run: seq<Action<T>>)
    requires Enabled(p, a)
    ensures Runs(p, [a] + run) <==> Runs(Apply(p, a), run)
    ensures Runs(Apply(p, a), run) ==> After(p, [a] + run) == After(Apply(p, a), run)
  {
    hide Enabled, Apply;
    assert ([a] + run)[1..] == run;
  }

  function Drains<T>(n: nat): seq<Action<T>> {
    if n == 0 then [Drain] else [Drain, Process] + Drains(n - 1)
  }

  /** Once it drains it can hand on everything that is queued and stop. */
  lemma {:induction false} DrainsAll<T>(p: Pipe<T>)
    requires !p.panicked && p.consumer.Draining?
    ensures Runs(p, Drains(|p.queue|))
    ensures After(p, Drains(|p.queue|)) ==
            p.(queue := [], processed := p.processed + p.queue, consumer := Stopped, served := |p.accepted|)
    decreases |p.queue|
  {
    if p.queue == [] {
      assert Drains<T>(0) == [Drain] + [];
      OneStep(p, Drain, []);
      assert p.processed + [] == p.processed;
    } else {
      var q := Apply(p, Drain);
      var r := Apply(q, Process);
      var rest: seq<Action<T>> := Drains(|p.queue| - 1);
      DrainsAll(r);
      OneStep(q, Process, rest);
      OneStep(p, Drain, [Process] + rest);
      assert Drains<T>(|p.queue|) == [Drain] + ([Process] + rest);
      assert [p.queue[0]] + p.queue[1..] == p.queue;
      Pool.Onward(p.processed, p.queue[0], p.queue[1..]);
    }
  }
}
