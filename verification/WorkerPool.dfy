/** The bounded job queue and its workers, internal/queue/bounded.go and
    workerpool.go, as a machine of atomic steps taken in any order by any
    number of submitters and workers. */
module WorkerPool {
  datatype Worker<T> = Idle | Busy(job: T, draining: bool) | Draining | Exited

  /** The channel is `queue` (at most cap jobs) with its closed flag; `waiting`
      are the jobs whose submitters have passed the closed check and not yet
      reached the send. The rest is history: jobs in the order the channel took
      them, in the order workers received them, in the order they were finished,
      and how many had been accepted when the last worker exited. */
  datatype Pool<T(==)> = Pool(
    cap: nat, queue: seq<T>, closed: bool, cancelled: bool, panicked: bool,
    waiting: multiset<T>, workers: seq<Worker<T>>,
    accepted: seq<T>, taken: seq<T>, done: seq<T>, served: nat)

  /** Check and Send are the two halves of Enqueue and EnqueueWait; GiveUp is a
      full queue (Enqueue) or a cancelled submitter (EnqueueWait). Receive takes
      a job from the channel in either loop of a worker; SeeClosed, SeeCancel
      and DrainEnd are its other branches; Finish returns from the job. */
  datatype Action<T> =
    | Check(job: T) | Send(job: T) | GiveUp(job: T)
    | Close | Cancel
    | Receive(i: nat) | Finish(i: nat) | SeeClosed(i: nat) | SeeCancel(i: nat) | DrainEnd(i: nat)

  function Init<T(==)>(workers: nat, cap: nat): Pool<T> {
    Pool(cap, [], false, false, false, multiset{}, Idles(workers), [], [], [], 0)
  }

  function Idles<T>(n: nat): (workers: seq<Worker<T>>)
    ensures |workers| == n && forall i :: 0 <= i < n ==> workers[i].Idle?
  {
    if n == 0 then [] else [Idle] + Idles(n - 1)
  }

  predicate IsWorkerAction<T>(a: Action<T>) {
    a.Receive? || a.Finish? || a.SeeClosed? || a.SeeCancel? || a.DrainEnd?
  }

  predicate Enabled<T(==)>(p: Pool<T>, a: Action<T>) {
    !p.panicked &&
    match a
    case Check(_) => true
    case Send(job) => job in p.waiting && (p.closed || |p.queue| < p.cap)
    case GiveUp(job) => job in p.waiting
    case Close => !p.closed
    case Cancel => !p.cancelled
    case Receive(i) => i < |p.workers| && (p.workers[i].Idle? || p.workers[i].Draining?) && p.queue != []
    case Finish(i) => i < |p.workers| && p.workers[i].Busy?
    case SeeClosed(i) => i < |p.workers| && p.workers[i].Idle? && p.closed && p.queue == []
    case SeeCancel(i) => i < |p.workers| && p.workers[i].Idle? && p.cancelled
    case DrainEnd(i) => i < |p.workers| && p.workers[i].Draining? && p.queue == []
  }

  function Apply<T(==)>(p: Pool<T>, a: Action<T>): Pool<T>
    requires Enabled(p, a)
  {
    match a
    case Check(job) => if p.closed then p else p.(waiting := p.waiting + multiset{job})
    case Send(job) =>
      // a send on a closed channel panics
      if p.closed then p.(panicked := true)
      else p.(waiting := p.waiting - multiset{job}, queue := p.queue + [job], accepted := p.accepted + [job])
    case GiveUp(job) => p.(waiting := p.waiting - multiset{job})
    case Close => p.(closed := true)
    case Cancel => p.(cancelled := true)
    case Receive(i) =>
      p.(queue := p.queue[1..], taken := p.taken + [p.queue[0]],
         workers := p.workers[i := Busy(p.queue[0], p.workers[i].Draining?)])
    case Finish(i) =>
      p.(done := p.done + [p.workers[i].job],
         workers := p.workers[i := if p.workers[i].draining then Draining else Idle])
    case SeeCancel(i) => p.(workers := p.workers[i := Draining])
    case SeeClosed(i) => Leave(p, i)
    case DrainEnd(i) => Leave(p, i)
  }

  function Leave<T(==)>(p: Pool<T>, i: nat): Pool<T>
    requires i < |p.workers|
  {
    var workers := p.workers[i := Exited];
    p.(workers := workers, served := if AllExited(workers) then |p.accepted| else p.served)
  }

  predicate AllExited<T>(workers: seq<Worker<T>>) {
    forall i :: 0 <= i < |workers| ==> workers[i].Exited?
  }

  // ----- runs -----

  predicate Runs<T(==)>(p: Pool<T>, run: seq<Action<T>>)
    decreases run
  {
    run == [] || (Enabled(p, run[0]) && Runs(Apply(p, run[0]), run[1..]))
  }

  function After<T(==)>(p: Pool<T>, run: seq<Action<T>>): Pool<T>
    requires Runs(p, run)
    decreases run
  {
    if run == [] then p else After(Apply(p, run[0]), run[1..])
  }

  /** Only Close cancels the context: no Cancel before the queue is closed. */
  predicate CancelsLast<T(==)>(p: Pool<T>, run: seq<Action<T>>)
    requires Runs(p, run)
    decreases run
  {
    run == [] || ((run[0].Cancel? ==> p.closed) && CancelsLast(Apply(p, run[0]), run[1..]))
  }

  /** Close is called when no submitter is between its check and its send. */
  predicate ClosesQuietly<T(==)>(p: Pool<T>, run: seq<Action<T>>)
    requires Runs(p, run)
    decreases run
  {
    run == [] || ((run[0].Close? ==> p.waiting == multiset{}) && ClosesQuietly(Apply(p, run[0]), run[1..]))
  }

  // ----- what every step keeps -----

  function Jobs<T>(w: Worker<T>): seq<T> {
    if w.Busy? then [w.job] else []
  }

  function InFlight<T(==)>(workers: seq<Worker<T>>): multiset<T> {
    if workers == [] then multiset{} else multiset(Jobs(workers[0])) + InFlight(workers[1..])
  }

  ghost predicate Inv<T>(p: Pool<T>) {
    |p.queue| <= p.cap && |p.workers| > 0 &&
    // first in, first out
    p.taken + p.queue == p.accepted &&
    // no job lost, none run twice
    multiset(p.taken) == multiset(p.done) + InFlight(p.workers) &&
    // a single worker finishes jobs in the order they were accepted
    (|p.workers| == 1 ==> p.taken == p.done + Jobs(p.workers[0])) &&
    // once all workers are gone, only what came later is left behind
    (AllExited(p.workers) ==> p.served <= |p.accepted| && p.taken == p.accepted[..p.served])
  }

  lemma {:induction false} InFlightFirst<T>(workers: seq<Worker<T>>)
    requires workers != []
    ensures InFlight(workers) == multiset(Jobs(workers[0])) + InFlight(workers[1..])
  {
  }

  lemma {:induction false} InFlightUpdate<T>(workers: seq<Worker<T>>, i: nat, w: Worker<T>)
    requires i < |workers|
    ensures multiset(Jobs(workers[i])) <= InFlight(workers)
    ensures InFlight(workers[i := w]) == InFlight(workers) - multiset(Jobs(workers[i])) + multiset(Jobs(w))
  {
    hide InFlight, Jobs;
    var after := workers[i := w];
    InFlightFirst(workers);
    InFlightFirst(after);
    if i == 0 {
      assert after[1..] == workers[1..];
      Swap(InFlight(workers[1..]), multiset(Jobs(workers[0])), multiset(Jobs(w)));
    } else {
      InFlightUpdate(workers[1..], i - 1, w);
      assert after[1..] == workers[1..][i - 1 := w];
      Replace(multiset(Jobs(workers[0])), InFlight(workers[1..]), multiset(Jobs(workers[i])), multiset(Jobs(w)));
    }
  }

  lemma {:induction false} Swap<T>(rest: multiset<T>, x: multiset<T>, y: multiset<T>)
    ensures x <= x + rest && y + rest == x + rest - x + y
  {
  }

  lemma {:induction false} Replace<T>(head: multiset<T>, rest: multiset<T>, x: multiset<T>, y: multiset<T>)
    requires x <= rest
    ensures x <= head + rest && head + (rest - x + y) == head + rest - x + y
  {
  }

  lemma {:induction false} NoneInFlight<T>(workers: seq<Worker<T>>)
    requires AllExited(workers)
    ensures InFlight(workers) == multiset{}
  {
    if workers != [] {
      NoneInFlight(workers[1..]);
    }
  }

  lemma {:induction false} InitInv<T>(n: nat, cap: nat)
    requires n > 0
    ensures Inv(Init<T>(n, cap))
  {
    assert Init<T>(n, cap).workers[0].Idle?;
    IdleInFlight<T>(n);
  }

  lemma {:induction false} IdleInFlight<T>(n: nat)
    ensures InFlight(Idles<T>(n)) == multiset{}
  {
    if n > 0 {
      IdleInFlight<T>(n - 1);
      assert Idles<T>(n)[1..] == Idles<T>(n - 1);
    }
  }

  lemma {:induction false} StepKeepsInv<T>(p: Pool<T>, a: Action<T>)
    requires Inv(p) && Enabled(p, a)
    ensures Inv(Apply(p, a))
  {
    hide InFlight;
    match a
    case Receive(i) => ReceiveKeepsInv(p, i);
    case Finish(i) => FinishKeepsInv(p, i);
    case SeeClosed(i) => LeaveKeepsInv(p, i);
    case DrainEnd(i) => LeaveKeepsInv(p, i);
    case SeeCancel(i) =>
      InFlightUpdate(p.workers, i, Draining);
      assert Apply(p, a).workers[i].Draining?;
    case _ =>
  }

  lemma {:induction false} ReceiveKeepsInv<T>(p: Pool<T>, i: nat)
    requires Inv(p) && Enabled(p, Receive(i))
    ensures Inv(Apply(p, Receive(i)))
  {
    hide InFlight;
    var q := Apply(p, Receive(i));
    var job := p.queue[0];
    InFlightUpdate(p.workers, i, q.workers[i]);
    assert q.taken + q.queue == p.taken + p.queue;
    assert multiset(q.taken) == multiset(p.taken) + multiset{job};
    assert multiset(Jobs(q.workers[i])) == multiset{job} && Jobs(p.workers[i]) == [];
    assert q.workers[i].Busy?;
  }

  lemma {:induction false} FinishKeepsInv<T>(p: Pool<T>, i: nat)
    requires Inv(p) && Enabled(p, Finish(i))
    ensures Inv(Apply(p, Finish(i)))
  {
    hide InFlight;
    var q := Apply(p, Finish(i));
    var job := p.workers[i].job;
    assert multiset(q.done) == multiset(p.done) + multiset{job};
    assert multiset(Jobs(p.workers[i])) == multiset{job} && Jobs(q.workers[i]) == [];
    InFlightUpdate(p.workers, i, q.workers[i]);
    assert !q.workers[i].Exited?;
  }

  lemma {:induction false} LeaveKeepsInv<T>(p: Pool<T>, i: nat)
    requires Inv(p) && i < |p.workers| && p.queue == [] && Jobs(p.workers[i]) == []
    ensures Inv(Leave(p, i))
  {
    hide InFlight;
    InFlightUpdate(p.workers, i, Exited);
    if |p.workers| == 1 {
      assert Leave(p, i).workers[0].Exited?;
    }
  }

  lemma {:induction false} RunKeepsInv<T>(p: Pool<T>, run: seq<Action<T>>)
    requires Inv(p) && Runs(p, run)
    ensures Inv(After(p, run))
    decreases run
  {
    if run != [] {
      StepKeepsInv(p, run[0]);
      RunKeepsInv(Apply(p, run[0]), run[1..]);
    }
  }

  // ----- Close drains -----

  /** While only Close cancels, a worker that is gone saw the queue closed and
      empty, and it stays so. */
  ghost predicate GoneMeansDrained<T>(p: Pool<T>) {
    (p.cancelled ==> p.closed) &&
    ((exists i :: 0 <= i < |p.workers| && p.workers[i].Exited?) ==> p.closed && p.queue == []) &&
    ((exists i :: 0 <= i < |p.workers| && IsDraining(p.workers[i])) ==> p.closed)
  }

  predicate IsDraining<T>(w: Worker<T>) {
    w.Draining? || (w.Busy? && w.draining)
  }

  lemma {:induction false} StepKeepsDrained<T>(p: Pool<T>, a: Action<T>)
    requires Enabled(p, a) && GoneMeansDrained(p)
    requires a.Cancel? ==> p.closed
    ensures GoneMeansDrained(Apply(p, a))
  {
    var q := Apply(p, a);
    forall i | 0 <= i < |q.workers| && q.workers[i].Exited? ensures q.closed && q.queue == [] {
      if p.workers[i].Draining? {
        assert IsDraining(p.workers[i]);
      }
    }
    forall i | 0 <= i < |q.workers| && IsDraining(q.workers[i]) ensures q.closed {
      if !p.workers[i].Idle? {
        assert IsDraining(p.workers[i]);
      }
    }
  }

  lemma {:induction false} RunKeepsDrained<T>(p: Pool<T>, run: seq<Action<T>>)
    requires Runs(p, run) && GoneMeansDrained(p) && CancelsLast(p, run)
    ensures GoneMeansDrained(After(p, run))
    decreases run
  {
    if run != [] {
      StepKeepsDrained(p, run[0]);
      RunKeepsDrained(Apply(p, run[0]), run[1..]);
    }
  }

  /** In every run, whoever cancels: when all workers are gone, exactly the jobs
      accepted before the last of them left have been run, each once; the others
      are still in the queue. */
  lemma {:induction false} WhatWorkersLeave<T>(n: nat, cap: nat, run: seq<Action<T>>)
    requires n > 0 && Runs(Init(n, cap), run)
    requires AllExited(After(Init(n, cap), run).workers)
    ensures var p := After(Init(n, cap), run);
            p.served <= |p.accepted| &&
            multiset(p.done) == multiset(p.accepted[..p.served]) &&
            p.queue == p.accepted[p.served..]
  {
    InitInv<T>(n, cap);
    RunKeepsInv(Init(n, cap), run);
    var p := After(Init(n, cap), run);
    NoneInFlight(p.workers);
    assert p.accepted[p.served..] == (p.taken + p.queue)[|p.taken|..];
  }

  /** When only Close cancels and all workers are gone, which is when Close
      returns, every accepted job has been run exactly once. */
  lemma {:induction false} CloseRunsEverything<T>(n: nat, cap: nat, run: seq<Action<T>>)
    requires n > 0 && Runs(Init(n, cap), run) && CancelsLast(Init(n, cap), run)
    requires AllExited(After(Init(n, cap), run).workers)
    ensures var p := After(Init(n, cap), run);
            p.queue == [] && multiset(p.done) == multiset(p.accepted)
  {
    WhatWorkersLeave(n, cap, run);
    InitInv<T>(n, cap);
    RunKeepsInv(Init(n, cap), run);
    RunKeepsDrained(Init(n, cap), run);
    var p := After(Init(n, cap), run);
    assert p.workers[0].Exited?;
    assert p.accepted[..p.served] == p.accepted;
  }

  /** The condition is needed: the context that Start was given can be cancelled
      from outside, and a job submitted after that is accepted and never run. */
  lemma {:induction false} OutsideCancelLosesAJob<T>(job: T)
    ensures var run := [Cancel, SeeCancel(0), DrainEnd(0), Check(job), Send(job), Close];
            Runs(Init(1, 1), run) && AllExited(After(Init(1, 1), run).workers) &&
            After(Init(1, 1), run).accepted == [job] && After(Init(1, 1), run).done == []
  {
    var p0 := Init<T>(1, 1);
    var p1 := Apply(p0, Cancel);
    var p2 := Apply(p1, SeeCancel(0));
    var p3 := Apply(p2, DrainEnd(0));
    var p4 := Apply(p3, Check(job));
    var p5 := Apply(p4, Send(job));
    var p6 := Apply(p5, Close);
    assert Chain([p0, p1, p2, p3, p4, p5, p6], [Cancel, SeeCancel(0), DrainEnd(0), Check(job), Send(job), Close]);
    ChainRuns([p0, p1, p2, p3, p4, p5, p6], [Cancel, SeeCancel(0), DrainEnd(0), Check(job), Send(job), Close]);
  }

  ghost predicate Chain<T>(ps: seq<Pool<T>>, run: seq<Action<T>>) {
    |ps| == |run| + 1 &&
    forall k :: 0 <= k < |run| ==> Enabled(ps[k], run[k]) && ps[k + 1] == Apply(ps[k], run[k])
  }

  lemma {:induction false} ChainRuns<T>(ps: seq<Pool<T>>, run: seq<Action<T>>)
    requires Chain(ps, run)
    ensures Runs(ps[0], run) && After(ps[0], run) == ps[|run|]
    decreases run
  {
    if run != [] {
      assert Enabled(ps[0], run[0]) && ps[0 + 1] == Apply(ps[0], run[0]);
      assert Chain(ps[1..], run[1..]) by {
        forall k | 0 <= k < |run[1..]|
          ensures Enabled(ps[1..][k], run[1..][k]) && ps[1..][k + 1] == Apply(ps[1..][k], run[1..][k])
        {
          assert Enabled(ps[k + 1], run[k + 1]) && ps[k + 1 + 1] == Apply(ps[k + 1], run[k + 1]);
        }
      }
      ChainRuns(ps[1..], run[1..]);
    }
  }

  // ----- Close returns -----

  function Rank<T>(w: Worker<T>): nat {
    match w
    case Idle => 2
    case Busy(_, draining) => if draining then 2 else 3
    case Draining => 1
    case Exited => 0
  }

  function Ranks<T>(workers: seq<Worker<T>>): nat {
    if workers == [] then 0 else Rank(workers[0]) + Ranks(workers[1..])
  }

  /** An upper bound on how many steps the workers can still take. */
  function Work<T(==)>(p: Pool<T>): nat {
    4 * |p.queue| + Ranks(p.workers)
  }

  lemma {:induction false} RanksUpdate<T>(workers: seq<Worker<T>>, i: nat, w: Worker<T>)
    requires i < |workers|
    ensures Ranks(workers[i := w]) + Rank(workers[i]) == Ranks(workers) + Rank(w)
  {
    if i == 0 {
      assert workers[i := w][1..] == workers[1..];
    } else {
      RanksUpdate(workers[1..], i - 1, w);
      assert workers[i := w][1..] == workers[1..][i - 1 := w];
    }
  }

  /** After Close has closed the queue and cancelled, workers that are not gone
      can always take a step (unless a submitter has crashed the program), every
      such step brings the end nearer, and no other step delays it. */
  lemma {:induction false} CloseTerminates<T>(p: Pool<T>)
    requires p.closed && p.cancelled && !p.panicked
    ensures AllExited(p.workers) || exists a :: IsWorkerAction(a) && Enabled(p, a)
    ensures forall a :: Enabled(p, a) && IsWorkerAction(a) ==> Work(Apply(p, a)) < Work(p)
    ensures forall a :: Enabled(p, a) && !IsWorkerAction(a) ==> Work(Apply(p, a)) == Work(p)
  {
    if !AllExited(p.workers) {
      var i :| 0 <= i < |p.workers| && !p.workers[i].Exited?;
      if p.workers[i].Idle? {
        var a: Action<T> := SeeCancel(i);
        assert IsWorkerAction(a) && Enabled(p, a);
      } else if p.workers[i].Busy? {
        var a: Action<T> := Finish(i);
        assert IsWorkerAction(a) && Enabled(p, a);
      } else if p.queue == [] {
        var a: Action<T> := DrainEnd(i);
        assert IsWorkerAction(a) && Enabled(p, a);
      } else {
        var a: Action<T> := Receive(i);
        assert IsWorkerAction(a) && Enabled(p, a);
      }
    }
    forall a | Enabled(p, a) && IsWorkerAction(a) ensures Work(Apply(p, a)) < Work(p) {
      RanksUpdate(p.workers, a.i, Apply(p, a).workers[a.i]);
    }
  }

  // ----- what can always be done -----

  function Submits<T>(jobs: seq<T>): seq<Action<T>> {
    if jobs == [] then [] else [Check(jobs[0]), Send(jobs[0])] + Submits(jobs[1..])
  }

  /** An open queue takes as many jobs as it has places, without any worker. */
  lemma {:induction false} FillsUp<T>(p: Pool<T>, jobs: seq<T>)
    requires !p.panicked && !p.closed && |p.queue| + |jobs| <= p.cap
    ensures Runs(p, Submits(jobs))
    ensures After(p, Submits(jobs)) == p.(queue := p.queue + jobs, accepted := p.accepted + jobs)
    decreases jobs
  {
    if jobs == [] {
      assert p.queue + [] == p.queue && p.accepted + [] == p.accepted;
    } else {
      var job, run := jobs[0], Submits(jobs);
      var q := Apply(p, Check(job));
      assert run[1..] == [Send(job)] + Submits(jobs[1..]) && run[1..][1..] == Submits(jobs[1..]);
      assert p.waiting + multiset{job} - multiset{job} == p.waiting;
      var r := Apply(q, Send(job));
      FillsUp(r, jobs[1..]);
      assert [job] + jobs[1..] == jobs;
      Onward(p.queue, job, jobs[1..]);
      Onward(p.accepted, job, jobs[1..]);
    }
  }

  lemma {:induction false} Onward<T>(a: seq<T>, x: T, b: seq<T>)
    ensures a + [x] + b == a + ([x] + b)
  {
  }

  /** No more than that: a job waits, or gives up, while the queue is full. */
  lemma {:induction false} FullQueueWaits<T>(p: Pool<T>, job: T)
    requires !p.panicked && job in p.waiting
    ensures Enabled(p, Send(job)) <==> p.closed || |p.queue| < p.cap
    ensures Enabled(p, GiveUp(job)) && Apply(p, GiveUp(job)) == p.(waiting := p.waiting - multiset{job})
  {
  }

  function Serves<T>(i: nat, n: nat): seq<Action<T>> {
    if n == 0 then [] else [Receive(i), Finish(i)] + Serves(i, n - 1)
  }

  lemma {:induction false} TwoSteps<T>(p: Pool<T>, a: Action<T>, b: Action<T>, run: seq<Action<T>>)
    requires Enabled(p, a) && Enabled(Apply(p, a), b)
    ensures var q := Apply(Apply(p, a), b);
            (Runs(p, [a, b] + run) <==> Runs(q, run)) && (Runs(q, run) ==> After(p, [a, b] + run) == After(q, run))
  {
    hide Enabled, Apply;
    assert ([a, b] + run)[1..] == [b] + run && ([b] + run)[1..] == run;
  }

  lemma {:induction false} Served<T>(p: Pool<T>, i: nat) returns (r: Pool<T>)
    requires !p.panicked && i < |p.workers| && (p.workers[i].Idle? || p.workers[i].Draining?) && p.queue != []
    ensures Enabled(p, Receive(i)) && Enabled(Apply(p, Receive(i)), Finish(i))
    ensures r == Apply(Apply(p, Receive(i)), Finish(i))
    ensures r == p.(queue := p.queue[1..], taken := p.taken + [p.queue[0]], done := p.done + [p.queue[0]])
  {
    r := Apply(Apply(p, Receive(i)), Finish(i));
    assert r.workers == p.workers;
  }

  /** One idle worker, or one that drains, can run all jobs of the queue, in order. */
  lemma {:induction false} OneWorkerSuffices<T>(p: Pool<T>, i: nat, n: nat)
    requires !p.panicked && i < |p.workers| && (p.workers[i].Idle? || p.workers[i].Draining?) && n <= |p.queue|
    ensures Runs(p, Serves(i, n))
    ensures After(p, Serves(i, n)) ==
            p.(queue := p.queue[n..], taken := p.taken + p.queue[..n], done := p.done + p.queue[..n])
    decreases n
  {
    hide Enabled, Apply;
    if n == 0 {
      assert p.queue[0..] == p.queue && p.queue[..0] == [];
      assert p.taken + [] == p.taken && p.done + [] == p.done;
    } else {
      var job := p.queue[0];
      var r := Served(p, i);
      TwoSteps(p, Receive(i), Finish(i), Serves(i, n - 1));
      OneWorkerSuffices(r, i, n - 1);
      assert p.queue[1..][n - 1..] == p.queue[n..];
      assert [job] + p.queue[1..][..n - 1] == p.queue[..n];
      Onward(p.taken, job, p.queue[1..][..n - 1]);
      Onward(p.done, job, p.queue[1..][..n - 1]);
    }
  }

  /** While jobs are queued and some worker is left, the workers are not stuck. */
  lemma {:induction false} NoDeadlock<T>(p: Pool<T>)
    requires !p.panicked && p.queue != [] && !AllExited(p.workers)
    ensures exists a: Action<T> :: (a.Receive? || a.Finish?) && Enabled(p, a)
  {
    var i :| 0 <= i < |p.workers| && !p.workers[i].Exited?;
    var a: Action<T> := if p.workers[i].Busy? then Finish(i) else Receive(i);
    assert Enabled(p, a);
  }

  /** The job that a submitter brings while the queue is open, and the one that it
      takes back. */
  function BroughtBy<T(==)>(p: Pool<T>, a: Action<T>): multiset<T> {
    if a.Check? && !p.closed then multiset{a.job} else multiset{}
  }

  function GivenUpBy<T(==)>(a: Action<T>): multiset<T> {
    if a.GiveUp? then multiset{a.job} else multiset{}
  }

  function Brought<T(==)>(p: Pool<T>, run: seq<Action<T>>): multiset<T>
    requires Runs(p, run)
    decreases run
  {
    if run == [] then multiset{} else BroughtBy(p, run[0]) + Brought(Apply(p, run[0]), run[1..])
  }

  function GivenUp<T(==)>(run: seq<Action<T>>): multiset<T> {
    if run == [] then multiset{} else GivenUpBy(run[0]) + GivenUp(run[1..])
  }

  /** The jobs that submitters still wait with, and those accepted. */
  function Held<T(==)>(p: Pool<T>): multiset<T> {
    p.waiting + multiset(p.accepted)
  }

  lemma {:induction false} StepLosesNone<T>(p: Pool<T>, a: Action<T>)
    requires Enabled(p, a)
    ensures Held(p) + BroughtBy(p, a) == Held(Apply(p, a)) + GivenUpBy(a)
  {
    if a.Send? && !p.closed {
      assert multiset(p.accepted + [a.job]) == multiset(p.accepted) + multiset{a.job};
      Handed(p.waiting, multiset(p.accepted), a.job);
    } else if a.GiveUp? {
      Handed(p.waiting, multiset(p.accepted), a.job);
    }
  }

  lemma {:induction false} Handed<T>(waiting: multiset<T>, accepted: multiset<T>, job: T)
    requires job in waiting
    ensures (waiting - multiset{job}) + (accepted + multiset{job}) == waiting + accepted
    ensures (waiting - multiset{job}) + accepted + multiset{job} == waiting + accepted
  {
  }

  lemma {:induction false} Balance<T>(a: multiset<T>, b: multiset<T>, c: multiset<T>, x: multiset<T>, y: multiset<T>,
                                      u: multiset<T>, v: multiset<T>)
    requires a + x == b + u && b + y == c + v
    ensures a + (x + y) == c + (u + v)
  {
    assert a + (x + y) == a + x + y;
    assert b + u + y == b + y + u;
    assert c + v + u == c + (u + v);
  }

  /** Every job that a submitter brings is waiting, accepted or given up. */
  lemma {:induction false} NoSubmissionLost<T>(p: Pool<T>, run: seq<Action<T>>)
    requires Runs(p, run)
    ensures var q := After(p, run);
            (p.waiting + multiset(p.accepted)) + Brought(p, run) == (q.waiting + multiset(q.accepted)) + GivenUp(run)
    decreases run
  {
    hide Apply, Enabled, BroughtBy, GivenUpBy;
    if run != [] {
      var q := Apply(p, run[0]);
      StepLosesNone(p, run[0]);
      NoSubmissionLost(q, run[1..]);
      Balance(Held(p), Held(q), Held(After(q, run[1..])), BroughtBy(p, run[0]), Brought(q, run[1..]),
              GivenUpBy(run[0]), GivenUp(run[1..]));
    }
  }

  // ----- submitters and Close -----

  /** A submitter between its check and its send is the only danger to Close. */
  ghost predicate Quiet<T>(p: Pool<T>) {
    !p.panicked && (p.closed ==> p.waiting == multiset{})
  }

  lemma {:induction false} QuietCloseNeverPanics<T>(p: Pool<T>, run: seq<Action<T>>)
    requires Quiet(p) && Runs(p, run) && ClosesQuietly(p, run)
    ensures Quiet(After(p, run))
    decreases run
  {
    if run != [] {
      QuietCloseNeverPanics(Apply(p, run[0]), run[1..]);
    }
  }

  /** Exactly then: in a state that is still running, some continuation panics
      after a next step Close if and only if a submitter is in between. */
  lemma {:induction false} PanicsExactlyWhenBusy<T>(p: Pool<T>)
    requires !p.panicked && !p.closed
    ensures (exists job :: Runs(p, [Close, Send(job)]) && After(p, [Close,
        Send(job)]).panicked) <==> p.waiting != multiset{}
    ensures p.waiting == multiset{} ==>
              forall run :: Runs(Apply(p, Close), run) ==> !After(Apply(p, Close), run).panicked
  {
    var q := Apply(p, Close);
    forall job
      ensures Runs(p, [Close, Send(job)]) <==> job in p.waiting
      ensures job in p.waiting ==> After(p, [Close, Send(job)]).panicked
    {
      CloseThenSend(p, job);
    }
    if p.waiting != multiset{} {
      var job :| job in p.waiting;
      assert Runs(p, [Close, Send(job)]) && After(p, [Close, Send(job)]).panicked;
    } else {
      forall run | Runs(q, run) ensures !After(q, run).panicked {
        ClosedIsQuiet(q, run);
      }
    }
  }

  lemma {:induction false} CloseThenSend<T>(p: Pool<T>, job: T)
    requires !p.panicked && !p.closed
    ensures Runs(p, [Close, Send(job)]) <==> job in p.waiting
    ensures job in p.waiting ==> After(p, [Close, Send(job)]).panicked
  {
    var run := [Close, Send(job)];
    var q := Apply(p, Close);
    assert run[1..] == [Send(job)] && run[1..][1..] == [];
    assert Runs(p, run) <==> Runs(q, run[1..]);
    assert Runs(q, run[1..]) <==> Enabled(q, Send(job));
    if job in p.waiting {
      assert After(p, run) == After(q, run[1..]);
      assert After(q, run[1..]) == After(Apply(q, Send(job)), run[1..][1..]);
    }
  }

  lemma {:induction false} ClosedIsQuiet<T>(p: Pool<T>, run: seq<Action<T>>)
    requires p.closed && Quiet(p) && Runs(p, run)
    ensures !After(p, run).panicked
    decreases run
  {
    if run != [] {
      ClosedIsQuiet(Apply(p, run[0]), run[1..]);
    }
  }
}
