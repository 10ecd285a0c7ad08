/**
 The thread pool (module/dispatcher/threadpool.cpp) as a state machine: every section under the queue
 mutex is one step, and so is every notification, which happens after the mutex has been released.

 A wait on the condition variable tests its predicate under the mutex and blocks if it is false; a
 notified thread tests again, and may also wake up for no reason.
 */
module ThreadPool {
  import opened Tallies

  type Job = nat

  /** A worker is about to test the predicate, blocked, running the k-th job dequeued, or gone. */
  datatype Worker = Ready | Blocked | Running(k: nat) | Exited

  datatype Pool = Pool(
    jobs: seq<Job>, terminating: bool, workers: seq<Worker>,
    /** Submitters between unlock and notify_one, and terminators between unlock and notify_all. */
    notifying: nat, broadcasting: nat,
    /** All jobs ever queued and dequeued; the dequeued ones that have returned; the count when the flag was set. */
    submitted: seq<Job>, dequeued: seq<Job>, finished: seq<nat>, atFlag: nat)

  datatype Step =
    | QueueJob(job: Job)
    | NotifyOne(w: nat)
    | NotifyNobody
    | Test(w: nat)
    | WakeSpuriously(w: nat)
    | JobReturns(w: nat)
    | SetFlag
    | NotifyAll

  predicate IsBlocked(s: Pool, w: nat) { w < |s.workers| && s.workers[w].Blocked? }

  predicate NoneBlocked(s: Pool) { forall w :: 0 <= w < |s.workers| ==> !s.workers[w].Blocked? }

  predicate Enabled(s: Pool, step: Step) {
    match step
    case QueueJob(_) => true
    case NotifyOne(w) => s.notifying > 0 && IsBlocked(s, w)
    case NotifyNobody => s.notifying > 0 && NoneBlocked(s)
    case Test(w) => w < |s.workers| && s.workers[w].Ready?
    case WakeSpuriously(w) => IsBlocked(s, w)
    case JobReturns(w) => w < |s.workers| && s.workers[w].Running?
    case SetFlag => true
    case NotifyAll => s.broadcasting > 0
  }

  // ----- the section of wait_for_task under the mutex

  datatype Answer = Wait | Exit | Take(job: Job)

  /** What a worker does once it holds the mutex. */
  function Look(jobs: seq<Job>, terminating: bool): Answer {
    if !(jobs != [] || terminating) then Wait
    else if terminating then Exit
    else Take(jobs[0])
  }

  function AfterTest(s: Pool, w: nat): Pool
    requires w < |s.workers|
  {
    match Look(s.jobs, s.terminating)
    case Wait => s.(workers := s.workers[w := Blocked])
    case Exit => s.(workers := s.workers[w := Exited])
    case Take(job) =>
      s.(jobs := s.jobs[1..], dequeued := s.dequeued + [job], workers := s.workers[w := Running(|s.dequeued|)])
  }

  function Woken(workers: seq<Worker>): (r: seq<Worker>)
    ensures |r| == |workers| && forall w :: 0 <= w < |r| ==> !r[w].Blocked?
    ensures forall w :: 0 <= w < |r| && !workers[w].Blocked? ==> r[w] == workers[w]
    ensures forall w :: 0 <= w < |r| && workers[w].Blocked? ==> r[w].Ready?
  {
    if workers == [] then [] else [if workers[0].Blocked? then Ready else workers[0]] + Woken(workers[1..])
  }

  function Apply(s: Pool, step: Step): Pool
    requires Enabled(s, step)
  {
    match step
    case QueueJob(job) => s.(jobs := s.jobs + [job], submitted := s.submitted + [job], notifying := s.notifying + 1)
    case NotifyOne(w) => s.(notifying := s.notifying - 1, workers := s.workers[w := Ready])
    case NotifyNobody => s.(notifying := s.notifying - 1)
    case Test(w) => AfterTest(s, w)
    case WakeSpuriously(w) => s.(workers := s.workers[w := Ready])
    case JobReturns(w) => s.(workers := s.workers[w := Ready], finished := s.finished + [s.workers[w].k])
    case SetFlag =>
      s.(terminating := true, broadcasting := s.broadcasting + 1,
         atFlag := if s.terminating then s.atFlag else |s.dequeued|)
    case NotifyAll => s.(broadcasting := s.broadcasting - 1, workers := Woken(s.workers))
  }

  // ----- what every step keeps

  function IsReady(w: Worker, unit: ()): nat { if w.Ready? then 1 else 0 }

  function RunsJob(w: Worker, k: nat): nat { if w == Running(k) then 1 else 0 }

  /** The queue is first in, first out, and loses nothing. */
  ghost predicate InOrder(s: Pool) { s.dequeued + s.jobs == s.submitted }

  /** The k-th job dequeued is being run by one worker or has returned once. */
  ghost predicate JobOnce(s: Pool, k: nat) {
    Tally(RunsJob, s.workers, k) + Count(s.finished, k) == if k < |s.dequeued| then 1 else 0
  }

  /** As long as a worker is blocked, enough threads are on their way to test the predicate, or to be woken. */
  ghost predicate Awake(s: Pool) {
    NoneBlocked(s) ||
    if s.terminating then s.broadcasting > 0 else |s.jobs| <= s.notifying + Tally(IsReady, s.workers, ())
  }

  ghost predicate Frozen(s: Pool) { s.terminating ==> |s.dequeued| == s.atFlag }

  ghost predicate Inv(s: Pool) {
    InOrder(s) && Awake(s) && Frozen(s) && forall k: nat :: JobOnce(s, k)
  }

  lemma WokenKeepsJobs(workers: seq<Worker>, k: nat)
    ensures Tally(RunsJob, Woken(workers), k) == Tally(RunsJob, workers, k)
  {
    if workers != [] {
      WokenKeepsJobs(workers[1..], k);
      assert Woken(workers)[1..] == Woken(workers[1..]);
    }
  }

  lemma TestKeepsJobs(s: Pool, w: nat, k: nat)
    requires JobOnce(s, k) && Enabled(s, Test(w))
    ensures JobOnce(AfterTest(s, w), k)
  {
    TallyUpdate<Worker, nat>(RunsJob, s.workers, w, AfterTest(s, w).workers[w], k);
  }

  lemma StepKeepsJobs(s: Pool, step: Step, k: nat)
    requires JobOnce(s, k) && Enabled(s, step)
    ensures JobOnce(Apply(s, step), k)
  {
    match step
    case QueueJob(_) =>
    case NotifyOne(w) => TallyUpdate<Worker, nat>(RunsJob, s.workers, w, Ready, k);
    case NotifyNobody =>
    case Test(w) => TestKeepsJobs(s, w, k);
    case WakeSpuriously(w) => TallyUpdate<Worker, nat>(RunsJob, s.workers, w, Ready, k);
    case JobReturns(w) =>
      TallyUpdate<Worker, nat>(RunsJob, s.workers, w, Ready, k);
      CountAppend<nat>(s.finished, s.workers[w].k, k);
    case SetFlag =>
    case NotifyAll => WokenKeepsJobs(s.workers, k);
  }

  /** Replacing a worker by one that is not blocked leaves the others blocked or not as before. */
  lemma StepKeepsAwake(s: Pool, step: Step)
    requires Awake(s) && Enabled(s, step)
    ensures Awake(Apply(s, step))
  {
    match step
    case QueueJob(_) =>
    case NotifyOne(w) => TallyUpdate(IsReady, s.workers, w, Ready, ());
    case NotifyNobody =>
    case Test(w) => TestKeepsAwake(s, w);
    case WakeSpuriously(w) => TallyUpdate(IsReady, s.workers, w, Ready, ());
    case JobReturns(w) =>
      TallyUpdate(IsReady, s.workers, w, Ready, ());
      StillNone(s, w, Ready);
    case SetFlag =>
    case NotifyAll =>
  }

  lemma StillNone(s: Pool, w: nat, worker: Worker)
    requires w < |s.workers| && !s.workers[w].Blocked? && !worker.Blocked?
    ensures NoneBlocked(s) <==> NoneBlocked(s.(workers := s.workers[w := worker]))
  {
    forall i | 0 <= i < |s.workers|
      ensures s.workers[i].Blocked? <==> s.workers[w := worker][i].Blocked?
    {
    }
  }

  lemma TestKeepsAwake(s: Pool, w: nat)
    requires Awake(s) && Enabled(s, Test(w))
    ensures Awake(AfterTest(s, w))
  {
    var after := AfterTest(s, w).workers[w];
    TallyUpdate(IsReady, s.workers, w, after, ());
    if !after.Blocked? {
      StillNone(s, w, after);
    }
  }

  lemma StepKeepsOrder(s: Pool, step: Step)
    requires InOrder(s) && Frozen(s) && Enabled(s, step)
    ensures InOrder(Apply(s, step)) && Frozen(Apply(s, step))
  {
    if step.QueueJob? {
      assert s.dequeued + (s.jobs + [step.job]) == s.submitted + [step.job];
    } else if step.Test? && Look(s.jobs, s.terminating).Take? {
      assert s.dequeued + [s.jobs[0]] + s.jobs[1..] == s.dequeued + s.jobs;
    }
  }

  // ----- runs

  /** `n` workers are about to test; nothing has been queued. */
  function Start(n: nat): Pool {
    Pool([], false, seq(n, _ => Ready), 0, 0, [], [], [], 0)
  }

  predicate Legal(s: Pool, steps: seq<Step>)
    decreases |steps|
  {
    steps == [] || (Enabled(s, steps[0]) && Legal(Apply(s, steps[0]), steps[1..]))
  }

  function Run(s: Pool, steps: seq<Step>): Pool
    requires Legal(s, steps)
    decreases |steps|
  {
    if steps == [] then s else Run(Apply(s, steps[0]), steps[1..])
  }

  lemma StartHoldsInv(n: nat)
    ensures Inv(Start(n))
  {
    var s := Start(n);
    forall k: nat
      ensures JobOnce(s, k)
    {
      TallyZero<Worker, nat>(RunsJob, s.workers, k);
    }
  }

  lemma {:induction false} RunKeepsInv(s: Pool, steps: seq<Step>)
    requires Inv(s) && Legal(s, steps)
    ensures Inv(Run(s, steps))
    decreases |steps|
  {
    if steps != [] {
      var next := Apply(s, steps[0]);
      StepKeepsOrder(s, steps[0]);
      StepKeepsAwake(s, steps[0]);
      forall k: nat
        ensures JobOnce(next, k)
      {
        StepKeepsJobs(s, steps[0], k);
      }
      RunKeepsInv(next, steps[1..]);
    }
  }

  /**
   In every interleaving of any number of submitters, workers and terminators: the dequeued jobs
   followed by the pending ones are the submitted ones, in order; each dequeued job is run by one
   worker or has returned, once; and none is dequeued after the flag is set.
   */
  lemma JobsRunOnceInOrder(n: nat, steps: seq<Step>)
    requires Legal(Start(n), steps)
    ensures var s := Run(Start(n), steps);
            && s.dequeued + s.jobs == s.submitted
            && (forall k: nat :: JobOnce(s, k))
            && (s.terminating ==> |s.dequeued| == s.atFlag)
  {
    StartHoldsInv(n);
    RunKeepsInv(Start(n), steps);
  }

  /**
   What a worker gets that tests the predicate in any reachable state: it waits if and only if every
   submitted job has been dequeued and the flag is not set, exits if and only if the flag is set, and
   otherwise takes the oldest submitted job that nobody has taken.
   */
  lemma TesterTakesOldestJob(n: nat, steps: seq<Step>)
    requires Legal(Start(n), steps)
    ensures var s := Run(Start(n), steps);
            var answer := Look(s.jobs, s.terminating);
            && (answer.Wait? <==> s.dequeued == s.submitted && !s.terminating)
            && (answer.Exit? <==> s.terminating)
            && (answer.Take? ==> |s.dequeued| < |s.submitted| && answer.job == s.submitted[|s.dequeued|])
  {
    StartHoldsInv(n);
    RunKeepsInv(Start(n), steps);
    var s := Run(Start(n), steps);
    assert s.dequeued + s.jobs == s.submitted;
    assert s.jobs == s.submitted[|s.dequeued|..];
  }

  lemma {:induction false} NoneReady(workers: seq<Worker>)
    requires forall w :: 0 <= w < |workers| ==> !workers[w].Ready?
    ensures Tally(IsReady, workers, ()) == 0
  {
    TallyZero(IsReady, workers, ());
  }

  /**
   No wake-up is lost.  If a worker is blocked and none is about to test the predicate, then every
   pending job still has its own notify_one to come, and a set flag its notify_all.
   */
  lemma NoLostWakeUp(n: nat, steps: seq<Step>, w: nat)
    requires Legal(Start(n), steps) && IsBlocked(Run(Start(n), steps), w)
    requires forall v :: 0 <= v < |Run(Start(n), steps).workers| ==> !Run(Start(n), steps).workers[v].Ready?
    ensures var s := Run(Start(n), steps);
            if s.terminating then s.broadcasting > 0 else |s.jobs| <= s.notifying
  {
    StartHoldsInv(n);
    RunKeepsInv(Start(n), steps);
    NoneReady(Run(Start(n), steps).workers);
  }

  /** Until the flag is set every worker stays in its loop. */
  ghost predicate NoneExited(s: Pool) {
    !s.terminating ==> forall w :: 0 <= w < |s.workers| ==> !s.workers[w].Exited?
  }

  lemma {:induction false} RunKeepsWorkers(s: Pool, steps: seq<Step>)
    requires NoneExited(s) && Legal(s, steps)
    ensures NoneExited(Run(s, steps)) && |Run(s, steps).workers| == |s.workers|
    decreases |steps|
  {
    if steps != [] {
      RunKeepsWorkers(Apply(s, steps[0]), steps[1..]);
    }
  }

  /** In every reachable state without the flag no worker has left its loop. */
  lemma WorkersStay(n: nat, steps: seq<Step>)
    requires Legal(Start(n), steps)
    ensures var s := Run(Start(n), steps);
            |s.workers| == n && (!s.terminating ==> forall w :: 0 <= w < n ==> !s.workers[w].Exited?)
  {
    RunKeepsWorkers(Start(n), steps);
  }

  lemma Prefixed(s: Pool, step: Step, rest: seq<Step>)
    requires Enabled(s, step) && Legal(Apply(s, step), rest)
    ensures Legal(s, [step] + rest) && Run(s, [step] + rest) == Run(Apply(s, step), rest)
  {
    assert ([step] + rest)[1..] == rest;
  }

  /** Worker `w` runs the oldest job, which was pending in `s`. */
  ghost predicate Serves(s: Pool, s': Pool, w: nat) {
    && s.jobs != [] && s'.dequeued == s.dequeued + [s.jobs[0]] && s'.jobs == s.jobs[1..]
    && w < |s'.workers| && s'.workers[w] == Running(|s.dequeued|)
  }

  /** How a worker comes to take the oldest job: it tests, first returning from its job or being notified. */
  function Approach(worker: Worker, w: nat): seq<Step> {
    match worker
    case Ready => [Test(w)]
    case Running(_) => [JobReturns(w), Test(w)]
    case _ => [NotifyOne(w), Test(w)]
  }

  lemma ApproachServes(s: Pool, w: nat)
    requires s.jobs != [] && !s.terminating && w < |s.workers| && !s.workers[w].Exited?
    requires s.workers[w].Blocked? ==> s.notifying > 0
    ensures var steps := Approach(s.workers[w], w); Legal(s, steps) && Serves(s, Run(s, steps), w)
  {
    var s1 := if s.workers[w].Ready? then s
              else Apply(s, if s.workers[w].Running? then JobReturns(w) else NotifyOne(w));
    assert Serves(s, Apply(s1, Test(w)), w);
    Prefixed(s1, Test(w), []);
    assert [Test(w)] + [] == [Test(w)];
    if !s.workers[w].Ready? {
      var first := if s.workers[w].Running? then JobReturns(w) else NotifyOne(w);
      Prefixed(s, first, [Test(w)]);
      assert [first] + [Test(w)] == Approach(s.workers[w], w);
    }
  }

  /**
   Progress: from every reachable state with a worker, a pending job and no flag, some worker can take and run
   the oldest pending job, without a spurious wake-up: if all are blocked, a notification is still to come.
   */
  lemma PendingJobCanRun(n: nat, steps: seq<Step>) returns (w: nat)
    requires n > 0 && Legal(Start(n), steps)
    requires var s := Run(Start(n), steps); s.jobs != [] && !s.terminating
    ensures var s := Run(Start(n), steps);
            && w < |s.workers|
            && Legal(s, Approach(s.workers[w], w)) && Serves(s, Run(s, Approach(s.workers[w], w)), w)
  {
    StartHoldsInv(n);
    RunKeepsInv(Start(n), steps);
    WorkersStay(n, steps);
    var s := Run(Start(n), steps);
    if v :| 0 <= v < |s.workers| && !s.workers[v].Blocked? {
      w := v;
    } else {
      w := 0;
      assert s.workers[0].Blocked?;
      NoneReady(s.workers);
    }
    ApproachServes(s, w);
  }

  /** Once every terminator has notified, no worker is blocked, and a worker that tests exits: join returns. */
  lemma TerminateReachesEveryWorker(n: nat, steps: seq<Step>, w: nat)
    requires Legal(Start(n), steps)
    requires var s := Run(Start(n), steps); s.terminating && s.broadcasting == 0 && w < |s.workers|
    ensures var s := Run(Start(n), steps);
            && NoneBlocked(s)
            && (s.workers[w].Ready? ==> Apply(s, Test(w)).workers[w].Exited?)
  {
    StartHoldsInv(n);
    RunKeepsInv(Start(n), steps);
  }

  // ----- the shared queue itself

  /** The fields the mutex protects; each method is one section under it, and one step of the machine. */
  class JobQueue {
    var jobs: seq<Job>
    var shouldTerminate: bool

    ghost predicate Shows(s: Pool)
      reads this
    {
      jobs == s.jobs && shouldTerminate == s.terminating
    }

    constructor (ghost n: nat)
      ensures Shows(Start(n))
    {
      jobs, shouldTerminate := [], false;
    }

    /** queue_job, up to the unlock. */
    method Push(job: Job, ghost s: Pool)
      requires Shows(s)
      modifies this
      ensures Shows(Apply(s, QueueJob(job)))
    {
      jobs := jobs + [job];
    }

    /** wait_for_task, from the lock until the mutex is given up: the worker blocks, returns, or has its job. */
    method Take(ghost s: Pool, ghost w: nat) returns (answer: Answer)
      requires Shows(s) && Enabled(s, Test(w))
      modifies this
      ensures Shows(Apply(s, Test(w)))
      ensures answer.Wait? <==> Apply(s, Test(w)).workers[w].Blocked?
      ensures answer.Exit? <==> Apply(s, Test(w)).workers[w].Exited?
      ensures answer.Take? ==> Apply(s, Test(w)).dequeued == s.dequeued + [answer.job]
    {
      if jobs == [] && !shouldTerminate {
        return Wait;
      }
      if shouldTerminate {
        return Exit;
      }
      var job := jobs[0];
      jobs := jobs[1..];
      return Answer.Take(job);
    }

    /** terminate, up to the unlock. */
    method Terminate(ghost s: Pool)
      requires Shows(s)
      modifies this
      ensures Shows(Apply(s, SetFlag))
    {
      shouldTerminate := true;
    }
  }
}
