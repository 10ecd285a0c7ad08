/**
 Report delivery with any number of threads, at the grain of the driver's locked sections
 (driver/io.c).  IrpQueueCompleteIrp, the insertion IOCTL and cancellation are no longer atomic:
 other threads may run between taking an IRP and completing it, between the cap check and the
 insertion into the deferred list, and between querying the deferred list and queueing the IRP.
 */
module ReportProtocol {
  import EventSlots
  import opened IrpQueue
  import opened Tallies

  datatype Thread =
    | Free
    | Holding(r: Report)                 // inside IrpQueueCompleteIrp, no IRP requested yet
    | Matched(r: Report, irp: Irp)       // an IRP was removed from the queue for this report
    | Unmatched(r: Report)               // no IRP was pending
    | Recorded(r: Report, record: Ptr)   // past the cap check, list entry allocated
    | Querying(irp: Irp)                 // inside the insertion IOCTL
    | Inserting(irp: Irp)                // no deferred report was found
    | Cancelling(irp: Irp)               // removed from the queue, not yet completed

  /** The driver, its threads, and what has happened so far. */
  datatype State = State(driver: Driver, threads: seq<Thread>, submitted: seq<Report>,
                         dropped: seq<Report>, arrived: seq<Irp>, leaked: seq<Ptr>, misfits: nat)

  datatype Action =
    | BeginReport(r: Report)
    | TakeIrp
    | Deliver
    | Reserve(record: Ptr)
    | Append
    | BeginIrp(irp: Irp)
    | Query
    | Enqueue
    | BeginCancel(irp: Irp)
    | EndCancel

  datatype Step = Step(t: nat, a: Action)

  /** What a thread may do, given where it is and what the driver holds; after a fault nothing. */
  predicate Can(d: Driver, th: Thread, a: Action) {
    !d.fault &&
    match a
    case BeginReport(r) => th.Free? && r.buffer !in d.pool
    case TakeIrp => th.Holding?
    case Deliver => th.Matched?
    case Reserve(record) => th.Unmatched? && (record == NULL || record !in d.pool)
    case Append => th.Recorded?
    case BeginIrp(irp) => th.Free?
    case Query => th.Querying?
    case Enqueue => th.Inserting?
    case BeginCancel(irp) => th.Free? && irp in d.queue
    case EndCancel => th.Cancelling?
  }

  function ThreadAfter(d: Driver, th: Thread, a: Action): Thread
    requires Can(d, th, a)
  {
    match a
    case BeginReport(r) => Holding(r)
    case TakeIrp => if d.queue == [] then Unmatched(th.r) else Matched(th.r, d.queue[0])
    case Deliver => Free
    case Reserve(record) =>
      if d.deferredCount > MAX_DEFERRED_REPORTS_COUNT || record == NULL then Free else Recorded(th.r, record)
    case Append => Free
    case BeginIrp(irp) => Querying(irp)
    case Query =>
      var (d', done) := QueryPending(d, th.irp);
      if d'.fault then th else if done then Free else Inserting(th.irp)
    case Enqueue => Free
    case BeginCancel(irp) => Cancelling(irp)
    case EndCancel => Free
  }

  function DriverAfter(d: Driver, th: Thread, a: Action): Driver
    requires Can(d, th, a)
  {
    match a
    case BeginReport(r) => d.(pool := d.pool + {r.buffer})
    case TakeIrp => if d.queue == [] then d else d.(queue := d.queue[1..], count := d.count - 1)
    case Deliver =>
      Complete(d.(pool := d.pool - {th.r.buffer}), th.irp,
               if Fits(th.irp, th.r.size) then Delivered(th.r) else InsufficientResources)
    case Reserve(record) =>
      if d.deferredCount > MAX_DEFERRED_REPORTS_COUNT then d.(pool := d.pool - {th.r.buffer})
      else if record == NULL then d
      else d.(pool := d.pool + {record})
    case Append => d.(deferred := d.deferred + [Deferred(th.record, th.r)], deferredCount := d.deferredCount + 1)
    case BeginIrp(irp) => d
    case Query => QueryPending(d, th.irp).0
    case Enqueue => d.(queue := d.queue + [th.irp], count := d.count + 1)
    case BeginCancel(irp) => d.(queue := Without(d.queue, irp), count := d.count - 1)
    case EndCancel => Complete(d, th.irp, Cancelled)
  }

  function SubmittedBy(a: Action, r: Report): nat {
    if a.BeginReport? && a.r == r then 1 else 0
  }

  function ArrivedBy(a: Action, irp: Irp): nat {
    if a.BeginIrp? && a.irp == irp then 1 else 0
  }

  /** A query whose IRP is too small for the oldest deferred report. */
  predicate Misfits(d: Driver, th: Thread, a: Action) {
    a.Query? && th.Querying? && d.deferredCount > 0 && d.deferred != [] && !Fits(th.irp, d.deferred[0].report.size)
  }

  /** The action drops a report: the IRP is too small, the cap is reached, or no list entry is left. */
  predicate Drops(d: Driver, th: Thread, a: Action)
    requires Can(d, th, a)
  {
    || Misfits(d, th, a)
    || (a.Deliver? && !Fits(th.irp, th.r.size))
    || (a.Reserve? && (d.deferredCount > MAX_DEFERRED_REPORTS_COUNT || a.record == NULL))
  }

  /** The report dropped: the oldest deferred one, or the thread's own. */
  function Dropped(d: Driver, th: Thread, a: Action): Report
    requires Can(d, th, a) && Drops(d, th, a)
  {
    if a.Query? then d.deferred[0].report else th.r
  }

  predicate Leaks(d: Driver, th: Thread, a: Action)
    requires Can(d, th, a)
  {
    a.Reserve? && d.deferredCount <= MAX_DEFERRED_REPORTS_COUNT && a.record == NULL
  }

  function DroppedBy(d: Driver, th: Thread, a: Action, r: Report): nat
    requires Can(d, th, a)
  {
    if Drops(d, th, a) && Dropped(d, th, a) == r then 1 else 0
  }

  function LeakedBy(d: Driver, th: Thread, a: Action, p: Ptr): nat
    requires Can(d, th, a)
  {
    if Leaks(d, th, a) && th.r.buffer == p then 1 else 0
  }

  predicate Enabled(s: State, step: Step) {
    step.t < |s.threads| && Can(s.driver, s.threads[step.t], step.a)
  }

  function Apply(s: State, step: Step): State
    requires Enabled(s, step)
  {
    var th := s.threads[step.t];
    State(DriverAfter(s.driver, th, step.a),
          s.threads[step.t := ThreadAfter(s.driver, th, step.a)],
          if step.a.BeginReport? then s.submitted + [step.a.r] else s.submitted,
          if Drops(s.driver, th, step.a) then s.dropped + [Dropped(s.driver, th, step.a)] else s.dropped,
          if step.a.BeginIrp? then s.arrived + [step.a.irp] else s.arrived,
          if Leaks(s.driver, th, step.a) then s.leaked + [th.r.buffer] else s.leaked,
          if Misfits(s.driver, th, step.a) then s.misfits + 1 else s.misfits)
  }

  predicate Misfit(s: State, step: Step) {
    step.t < |s.threads| && Misfits(s.driver, s.threads[step.t], step.a)
  }

  // ----- what the threads hold

  function IrpOf(th: Thread, irp: Irp): nat {
    if (th.Matched? || th.Querying? || th.Inserting? || th.Cancelling?) && th.irp == irp then 1 else 0
  }

  function ReportOf(th: Thread, r: Report): nat {
    if (th.Holding? || th.Matched? || th.Unmatched? || th.Recorded?) && th.r == r then 1 else 0
  }

  function MemoryOf(th: Thread, p: Ptr): nat {
    (if (th.Holding? || th.Matched? || th.Unmatched? || th.Recorded?) && th.r.buffer == p then 1 else 0)
    + (if th.Recorded? && th.record == p then 1 else 0)
  }

  function ReservationOf(th: Thread, unit: ()): nat {
    if th.Recorded? then 1 else 0
  }

  lemma CountWithout(queue: seq<Irp>, irp: Irp, x: Irp)
    requires irp in queue
    ensures Count(Without(queue, irp), x) == Count(queue, x) - if irp == x then 1 else 0
    ensures |Without(queue, irp)| == |queue| - 1
  {
    CountRemove(queue, IndexOf(queue, irp), x);
  }

  lemma {:induction false} ReservationsBounded(ts: seq<Thread>)
    ensures Tally(ReservationOf, ts, ()) <= |ts|
  {
    if ts != [] {
      ReservationsBounded(ts[1..]);
    }
  }

  // ----- the invariant

  /**
   The queue's count is its length, and the deferred count exceeds its list by the misfits; only a
   misfit leads to a fault; reservations past the cap check are bounded by the threads.
   */
  ghost predicate Counts(s: State) {
    && s.driver.count == |s.driver.queue|
    && s.driver.deferredCount == |s.driver.deferred| + s.misfits
    && (s.driver.fault ==> s.driver.deferred == [] && s.misfits > 0)
    && s.driver.deferredCount + Tally(ReservationOf, s.threads, ()) <= MAX_DEFERRED_REPORTS_COUNT + |s.threads|
  }

  /** How often the driver has an IRP, pending or completed. */
  function DriverIrps(d: Driver, irp: Irp): nat {
    Count(d.queue, irp) + Count(CompletedIrps(d.completions), irp)
  }

  /** How often an IRP is queued, completed or held by a thread. */
  ghost function IrpCount(s: State, irp: Irp): nat {
    DriverIrps(s.driver, irp) + Tally(IrpOf, s.threads, irp)
  }

  /** How often a report has been delivered or waits in the deferred list. */
  function DriverReports(d: Driver, r: Report): nat {
    Count(DeliveredReports(d.completions), r) + Count(WaitingReports(d.deferred), r)
  }

  /** How often a report is delivered, deferred, held by a thread or dropped. */
  ghost function ReportCount(s: State, r: Report): nat {
    DriverReports(s.driver, r) + Tally(ReportOf, s.threads, r) + Count(s.dropped, r)
  }

  /** How many owners an address has: deferred entries, threads, or nobody any more. */
  ghost function OwnerCount(s: State, p: Ptr): nat {
    Count(Addresses(s.driver.deferred), p) + Tally(MemoryOf, s.threads, p) + Count(s.leaked, p)
  }

  function Live(d: Driver, p: Ptr): nat {
    if p in d.pool then 1 else 0
  }

  ghost predicate Inv(s: State) {
    && Counts(s)
    && (forall irp :: IrpCount(s, irp) == Count(s.arrived, irp))
    && (forall r :: ReportCount(s, r) == Count(s.submitted, r))
    && (forall p :: OwnerCount(s, p) == Live(s.driver, p))
  }

  // ----- what one action does, apart from the other threads

  lemma LengthBalance(d: Driver, th: Thread, a: Action)
    requires Can(d, th, a) && d.count == |d.queue| && |d.deferred| <= d.deferredCount
    ensures var d' := DriverAfter(d, th, a);
            && d'.count == |d'.queue|
            && d'.deferredCount - |d'.deferred| == d.deferredCount - |d.deferred| + (if Misfits(d, th, a) then 1 else 0)
            && (d'.fault <==> a.Query? && d.deferred == [] && d.deferredCount > 0)
            && (a.Reserve? && ThreadAfter(d, th, a).Recorded? ==> d'.deferredCount <= MAX_DEFERRED_REPORTS_COUNT)
            && (!(a.Reserve? && ThreadAfter(d, th, a).Recorded?) ==>
                  d'.deferredCount + ReservationOf(ThreadAfter(d, th, a), ()) <= d.deferredCount + ReservationOf(th, ()))
  {
    if a.BeginCancel? {
      CountWithout(d.queue, a.irp, a.irp);
    }
  }

  predicate Completes(d: Driver, th: Thread, a: Action)
    requires Can(d, th, a)
  {
    a.Deliver? || a.EndCancel? || (a.Query? && QueryPending(d, th.irp).1)
  }

  function OutcomeOf(d: Driver, th: Thread, a: Action): Outcome
    requires Can(d, th, a) && Completes(d, th, a)
  {
    if a.Deliver? then (if Fits(th.irp, th.r.size) then Delivered(th.r) else InsufficientResources)
    else if a.Query? then Delivered(d.deferred[0].report)
    else Cancelled
  }

  /** An action completes the thread's IRP, or else leaves the completions alone. */
  lemma CompletionsAfter(d: Driver, th: Thread, a: Action)
    requires Can(d, th, a)
    ensures DriverAfter(d, th, a).completions ==
            if Completes(d, th, a) then d.completions + [Completion(th.irp, OutcomeOf(d, th, a))] else d.completions
    ensures Completes(d, th, a) ==> DriverAfter(d, th, a).queue == d.queue && ThreadAfter(d, th, a).Free?
  {
  }

  lemma QueueBalance(d: Driver, th: Thread, a: Action, irp: Irp)
    requires Can(d, th, a) && !Completes(d, th, a)
    ensures Count(DriverAfter(d, th, a).queue, irp) + IrpOf(ThreadAfter(d, th, a), irp) ==
            Count(d.queue, irp) + IrpOf(th, irp) + ArrivedBy(a, irp)
  {
    if a.Enqueue? {
      CountAppend(d.queue, th.irp, irp);
    }
    if a.BeginCancel? {
      CountWithout(d.queue, a.irp, irp);
    }
  }

  lemma CompletionIrp(cs: seq<Completion>, c: Completion, irp: Irp)
    ensures Count(CompletedIrps(cs + [c]), irp) == Count(CompletedIrps(cs), irp) + if c.irp == irp then 1 else 0
  {
    assert CompletedIrps(cs + [c]) == CompletedIrps(cs) + [c.irp];
    CountAppend(CompletedIrps(cs), c.irp, irp);
  }

  lemma IrpBalance(d: Driver, th: Thread, a: Action, irp: Irp)
    requires Can(d, th, a)
    ensures DriverIrps(DriverAfter(d, th, a), irp) + IrpOf(ThreadAfter(d, th, a), irp) ==
            DriverIrps(d, irp) + IrpOf(th, irp) + ArrivedBy(a, irp)
  {
    CompletionsAfter(d, th, a);
    if Completes(d, th, a) {
      CompletionIrp(d.completions, Completion(th.irp, OutcomeOf(d, th, a)), irp);
    } else {
      QueueBalance(d, th, a, irp);
    }
  }

  lemma DeferredBalance(d: Driver, th: Thread, a: Action, r: Report)
    requires |d.deferred| <= d.deferredCount && Can(d, th, a) && !Completes(d, th, a)
    ensures Count(WaitingReports(DriverAfter(d, th, a).deferred), r) + ReportOf(ThreadAfter(d, th, a), r) + DroppedBy(d, th, a, r) ==
            Count(WaitingReports(d.deferred), r) + ReportOf(th, r) + SubmittedBy(a, r)
  {
    if a.Append? {
      assert WaitingReports(d.deferred + [Deferred(th.record, th.r)]) == WaitingReports(d.deferred) + [th.r];
      CountAppend(WaitingReports(d.deferred), th.r, r);
    }
    if Misfits(d, th, a) {
      assert WaitingReports(d.deferred)[1..] == WaitingReports(d.deferred[1..]);
    }
  }

  lemma DeliveredCount(cs: seq<Completion>, c: Completion, r: Report)
    ensures Count(DeliveredReports(cs + [c]), r) ==
            Count(DeliveredReports(cs), r) + if c.outcome == Delivered(r) then 1 else 0
  {
    DeliveredAppend(cs, c);
    if c.outcome.Delivered? {
      CountAppend(DeliveredReports(cs), c.outcome.report, r);
    } else {
      assert DeliveredReports(cs) + [] == DeliveredReports(cs);
    }
  }

  lemma DeliveryBalance(d: Driver, th: Thread, a: Action, r: Report)
    requires |d.deferred| <= d.deferredCount && Can(d, th, a) && Completes(d, th, a)
    ensures Count(WaitingReports(DriverAfter(d, th, a).deferred), r) + DroppedBy(d, th, a, r)
              + (if OutcomeOf(d, th, a) == Delivered(r) then 1 else 0) ==
            Count(WaitingReports(d.deferred), r) + ReportOf(th, r)
  {
    if a.Query? {
      assert WaitingReports(d.deferred)[1..] == WaitingReports(d.deferred[1..]);
    }
  }

  lemma ReportBalance(d: Driver, th: Thread, a: Action, r: Report)
    requires |d.deferred| <= d.deferredCount && Can(d, th, a)
    ensures DriverReports(DriverAfter(d, th, a), r) + ReportOf(ThreadAfter(d, th, a), r) + DroppedBy(d, th, a, r) ==
            DriverReports(d, r) + ReportOf(th, r) + SubmittedBy(a, r)
  {
    CompletionsAfter(d, th, a);
    if Completes(d, th, a) {
      DeliveredCount(d.completions, Completion(th.irp, OutcomeOf(d, th, a)), r);
      DeliveryBalance(d, th, a, r);
    } else {
      DeferredBalance(d, th, a, r);
    }
  }

  /** The claims of the moving thread and of the deferred list change as the pool does. */
  lemma OwnerBalance(d: Driver, th: Thread, a: Action, p: Ptr)
    requires |d.deferred| <= d.deferredCount && Can(d, th, a)
    requires Count(Addresses(d.deferred), p) + MemoryOf(th, p) <= Live(d, p)
    ensures var d' := DriverAfter(d, th, a);
            Count(Addresses(d'.deferred), p) + MemoryOf(ThreadAfter(d, th, a), p) + LeakedBy(d, th, a, p) + Live(d, p) ==
            Count(Addresses(d.deferred), p) + MemoryOf(th, p) + Live(d', p)
  {
    if a.Append? {
      AddressesAppend(d.deferred, Deferred(th.record, th.r));
      CountPair(Addresses(d.deferred), th.r.buffer, th.record, p);
    } else if a.Query? {
      QueryOwners(d, th, p);
    } else {
      PrivateOwners(d, th, a, p);
    }
  }

  lemma CountPair(s: seq<Ptr>, x: Ptr, y: Ptr, p: Ptr)
    ensures Count(s + [x, y], p) == Count(s, p) + (if x == p then 1 else 0) + (if y == p then 1 else 0)
    ensures Count([x, y] + s, p) == Count(s, p) + (if x == p then 1 else 0) + (if y == p then 1 else 0)
  {
    CountConcat(s, [x, y], p);
    CountConcat([x, y], s, p);
    assert [x, y][1..] == [y];
  }

  lemma QueryOwners(d: Driver, th: Thread, p: Ptr)
    requires |d.deferred| <= d.deferredCount && Can(d, th, Query)
    requires Count(Addresses(d.deferred), p) <= Live(d, p)
    ensures var d' := DriverAfter(d, th, Query);
            Count(Addresses(d'.deferred), p) + Live(d, p) == Count(Addresses(d.deferred), p) + Live(d', p)
  {
    if d.deferred != [] {
      var head := d.deferred[0];
      CountPair(Addresses(d.deferred[1..]), head.report.buffer, head.record, p);
    }
  }

  lemma PrivateOwners(d: Driver, th: Thread, a: Action, p: Ptr)
    requires Can(d, th, a) && !a.Append? && !a.Query? && MemoryOf(th, p) <= Live(d, p)
    ensures DriverAfter(d, th, a).deferred == d.deferred
    ensures MemoryOf(ThreadAfter(d, th, a), p) + LeakedBy(d, th, a, p) + Live(d, p) ==
            MemoryOf(th, p) + Live(DriverAfter(d, th, a), p)
  {
  }

  // ----- one step among all threads

  lemma StepKeepsCounts(s: State, step: Step)
    requires Counts(s) && Enabled(s, step)
    ensures Counts(Apply(s, step))
  {
    var th := s.threads[step.t];
    LengthBalance(s.driver, th, step.a);
    ReservationsBounded(Apply(s, step).threads);
    TallyUpdate(ReservationOf, s.threads, step.t, ThreadAfter(s.driver, th, step.a), ());
  }

  lemma StepKeepsIrps(s: State, step: Step, irp: Irp)
    requires Enabled(s, step) && IrpCount(s, irp) == Count(s.arrived, irp)
    ensures IrpCount(Apply(s, step), irp) == Count(Apply(s, step).arrived, irp)
  {
    var th := s.threads[step.t];
    IrpBalance(s.driver, th, step.a, irp);
    TallyUpdate(IrpOf, s.threads, step.t, ThreadAfter(s.driver, th, step.a), irp);
    if step.a.BeginIrp? {
      CountAppend(s.arrived, step.a.irp, irp);
    }
  }

  lemma StepKeepsReports(s: State, step: Step, r: Report)
    requires Counts(s) && Enabled(s, step) && ReportCount(s, r) == Count(s.submitted, r)
    ensures ReportCount(Apply(s, step), r) == Count(Apply(s, step).submitted, r)
  {
    var th := s.threads[step.t];
    ReportBalance(s.driver, th, step.a, r);
    TallyUpdate(ReportOf, s.threads, step.t, ThreadAfter(s.driver, th, step.a), r);
    if step.a.BeginReport? {
      CountAppend(s.submitted, step.a.r, r);
    }
    if Drops(s.driver, th, step.a) {
      CountAppend(s.dropped, Dropped(s.driver, th, step.a), r);
    }
  }

  lemma StepKeepsOwners(s: State, step: Step, p: Ptr)
    requires Counts(s) && Enabled(s, step) && OwnerCount(s, p) == Live(s.driver, p)
    ensures OwnerCount(Apply(s, step), p) == Live(Apply(s, step).driver, p)
  {
    var th := s.threads[step.t];
    TallyAtLeast(MemoryOf, s.threads, step.t, step.t, p);
    OwnerBalance(s.driver, th, step.a, p);
    TallyUpdate(MemoryOf, s.threads, step.t, ThreadAfter(s.driver, th, step.a), p);
    if Leaks(s.driver, th, step.a) {
      CountAppend(s.leaked, th.r.buffer, p);
    }
  }

  lemma StepKeepsInv(s: State, step: Step)
    requires Inv(s) && Enabled(s, step)
    ensures Inv(Apply(s, step))
  {
    StepKeepsCounts(s, step);
    var s' := Apply(s, step);
    forall irp
      ensures IrpCount(s', irp) == Count(s'.arrived, irp)
    {
      StepKeepsIrps(s, step, irp);
    }
    forall r
      ensures ReportCount(s', r) == Count(s'.submitted, r)
    {
      StepKeepsReports(s, step, r);
    }
    forall p
      ensures OwnerCount(s', p) == Live(s'.driver, p)
    {
      StepKeepsOwners(s, step, p);
    }
  }

  // ----- runs

  ghost predicate Start(s: State) {
    && s.driver == Empty()
    && (forall t :: 0 <= t < |s.threads| ==> s.threads[t].Free?)
    && s.submitted == [] && s.dropped == [] && s.arrived == [] && s.leaked == [] && s.misfits == 0
  }

  predicate Legal(s: State, steps: seq<Step>)
    decreases |steps|
  {
    steps == [] || (Enabled(s, steps[0]) && Legal(Apply(s, steps[0]), steps[1..]))
  }

  function Run(s: State, steps: seq<Step>): State
    requires Legal(s, steps)
    decreases |steps|
  {
    if steps == [] then s else Run(Apply(s, steps[0]), steps[1..])
  }

  lemma {:induction false} RunKeepsInv(s: State, steps: seq<Step>)
    requires Inv(s) && Legal(s, steps)
    ensures Inv(Run(s, steps))
    decreases |steps|
  {
    if steps != [] {
      StepKeepsInv(s, steps[0]);
      RunKeepsInv(Apply(s, steps[0]), steps[1..]);
    }
  }

  /**
   Main result: in every interleaving each IRP is queued, held or completed exactly once; each report
   is delivered, deferred, held or dropped exactly once; each live allocation has exactly one owner or
   was leaked by a failed record allocation; the queue's count is its length, the deferred count
   exceeds its list by the misfits so far, and only then can there be a fault.
   */
  lemma ConservationInEveryInterleaving(s0: State, steps: seq<Step>)
    requires Start(s0) && Legal(s0, steps)
    ensures Inv(Run(s0, steps))
  {
    TallyZero(ReservationOf, s0.threads, ());
    forall irp ensures IrpCount(s0, irp) == 0 { TallyZero(IrpOf, s0.threads, irp); }
    forall r ensures ReportCount(s0, r) == 0 { TallyZero(ReportOf, s0.threads, r); }
    forall p ensures OwnerCount(s0, p) == 0 { TallyZero(MemoryOf, s0.threads, p); }
    RunKeepsInv(s0, steps);
  }

  /** Memory a thread holds is live and held by nobody else, so no thread frees another's memory. */
  lemma HeldMemoryIsLive(s: State, t: nat, p: Ptr)
    requires Inv(s) && t < |s.threads| && MemoryOf(s.threads[t], p) > 0
    ensures p in s.driver.pool && p !in Addresses(s.driver.deferred) && p !in s.leaked
    ensures forall u :: 0 <= u < |s.threads| && u != t ==> MemoryOf(s.threads[u], p) == 0
  {
    TallyAtLeast(MemoryOf, s.threads, t, t, p);
    assert OwnerCount(s, p) <= 1;
    CountPositive(Addresses(s.driver.deferred), p);
    CountPositive(s.leaked, p);
    forall u | 0 <= u < |s.threads| && u != t
      ensures MemoryOf(s.threads[u], p) == 0
    {
      TallyAtLeast(MemoryOf, s.threads, t, u, p);
    }
  }

  /** What a thread inside an operation does next; a reporter may find that no list entry can be allocated. */
  function NextAction(th: Thread): Action
    requires !th.Free?
  {
    match th
    case Holding(_) => TakeIrp
    case Matched(_, _) => Deliver
    case Unmatched(_) => Reserve(NULL)
    case Recorded(_, _) => Append
    case Querying(_) => Query
    case Inserting(_) => Enqueue
    case Cancelling(_) => EndCancel
  }

  function ToGo(th: Thread): nat {
    match th
    case Free => 0
    case Holding(_) => 3
    case Unmatched(_) => 2
    case Querying(_) => 2
    case _ => 1
  }

  /** No thread is ever stuck: as long as nothing has faulted, its next step is possible and brings its operation closer to the end. */
  lemma EveryThreadCanFinish(s: State, t: nat)
    requires t < |s.threads| && !s.threads[t].Free? && !s.driver.fault
    ensures Enabled(s, Step(t, NextAction(s.threads[t])))
    ensures var s' := Apply(s, Step(t, NextAction(s.threads[t])));
            s'.driver.fault || ToGo(s'.threads[t]) < ToGo(s.threads[t])
  {
  }

  // ----- what only atomic operations give

  lemma Prepend(s: State, a: Step, rest: seq<Step>)
    requires Enabled(s, a) && Legal(Apply(s, a), rest)
    ensures Legal(s, [a] + rest) && Run(s, [a] + rest) == Run(Apply(s, a), rest)
  {
    assert ([a] + rest)[1..] == rest;
  }

  /** Run by one thread alone, the steps of a report are IrpQueueCompleteIrp. */
  function ReportActions(d: Driver, r: Report, record: Ptr): seq<Action> {
    [BeginReport(r), TakeIrp] +
    if d.queue != [] then [Deliver]
    else if d.deferredCount > MAX_DEFERRED_REPORTS_COUNT || record == NULL then [Reserve(record)]
    else [Reserve(record), Append]
  }

  /** Running one thread's actions without interruption, as the driver and that thread see it. */
  predicate Alone(d: Driver, th: Thread, acts: seq<Action>, d': Driver, th': Thread)
    decreases |acts|
  {
    if acts == [] then d' == d && th' == th
    else
      && Can(d, th, acts[0])
      && Alone(DriverAfter(d, th, acts[0]), ThreadAfter(d, th, acts[0]), acts[1..], d', th')
  }

  function StepsOf(t: nat, acts: seq<Action>): seq<Step> {
    if acts == [] then [] else [Step(t, acts[0])] + StepsOf(t, acts[1..])
  }

  lemma {:induction false} AloneIsARun(s: State, t: nat, acts: seq<Action>, d': Driver, th': Thread)
    requires t < |s.threads| && Alone(s.driver, s.threads[t], acts, d', th')
    ensures Legal(s, StepsOf(t, acts))
    ensures Run(s, StepsOf(t, acts)).driver == d' && Run(s, StepsOf(t, acts)).threads == s.threads[t := th']
    decreases |acts|
  {
    if acts != [] {
      var s1 := Apply(s, Step(t, acts[0]));
      AloneIsARun(s1, t, acts[1..], d', th');
      Prepend(s, Step(t, acts[0]), StepsOf(t, acts[1..]));
      assert s1.threads[t := th'] == s.threads[t := th'];
    }
  }

  lemma UninterruptedReportIsSubmit(s: State, t: nat, r: Report, record: Ptr)
    requires t < |s.threads| && s.threads[t].Free? && !s.driver.fault
    requires r.buffer !in s.driver.pool && (record == NULL || (record !in s.driver.pool && record != r.buffer))
    ensures var steps := StepsOf(t, ReportActions(s.driver, r, record));
            && Legal(s, steps)
            && Run(s, steps).driver == Submit(s.driver.(pool := s.driver.pool + {r.buffer}), r, record)
            && Run(s, steps).threads == s.threads
  {
    var acts := ReportActions(s.driver, r, record);
    var d1 := s.driver.(pool := s.driver.pool + {r.buffer});
    assert acts[1..][0] == TakeIrp && acts[1..][1..] == acts[2..];
    ReportAlone(d1, r, record);
    assert Alone(s.driver, Free, acts, Submit(d1, r, record), Free);
    AloneIsARun(s, t, acts, Submit(d1, r, record), Free);
    assert s.threads[t := Free] == s.threads;
  }

  lemma ReportAlone(d: Driver, r: Report, record: Ptr)
    requires r.buffer in d.pool && (record == NULL || record !in d.pool) && !d.fault
    ensures Alone(d, Holding(r), ReportActions(d, r, record)[1..], Submit(d, r, record), Free)
  {
    var acts := ReportActions(d, r, record)[1..];
    assert acts[1..] == ReportActions(d, r, record)[2..];
    if d.queue != [] {
      assert acts == [TakeIrp, Deliver] && acts[1..] == [Deliver] && acts[1..][1..] == [];
    } else if d.deferredCount > MAX_DEFERRED_REPORTS_COUNT || record == NULL {
      assert acts == [TakeIrp, Reserve(record)] && acts[1..] == [Reserve(record)] && acts[1..][1..] == [];
    } else {
      assert acts == [TakeIrp, Reserve(record), Append] && acts[1..] == [Reserve(record), Append];
      assert acts[1..][1..] == [Append] && acts[1..][1..][1..] == [];
      var d1 := d.(pool := d.pool + {record});
      assert Alone(d1, Recorded(r, record), [Append], Submit(d, r, record), Free);
    }
  }

  function InsertActions(d: Driver, irp: Irp): seq<Action> {
    if QueryPending(d, irp).1 then [BeginIrp(irp), Query] else [BeginIrp(irp), Query, Enqueue]
  }

  /** Run by one thread alone, the steps of an insertion that does not fault are the IOCTL. */
  lemma UninterruptedInsertionIsInsertIrp(s: State, t: nat, irp: Irp)
    requires t < |s.threads| && s.threads[t].Free?
    requires !InsertIrp(s.driver, irp).fault
    ensures var steps := StepsOf(t, InsertActions(s.driver, irp));
            && Legal(s, steps)
            && Run(s, steps).driver == InsertIrp(s.driver, irp)
            && Run(s, steps).threads == s.threads
  {
    var acts := InsertActions(s.driver, irp);
    var (d, done) := QueryPending(s.driver, irp);
    if done {
      assert acts[1..] == [Query] && acts[1..][1..] == [];
      assert Alone(s.driver, Querying(irp), [Query], InsertIrp(s.driver, irp), Free);
    } else {
      assert acts[1..] == [Query, Enqueue] && acts[1..][1..] == [Enqueue] && acts[1..][1..][1..] == [];
      assert Alone(d, Inserting(irp), [Enqueue], InsertIrp(s.driver, irp), Free);
      assert Alone(s.driver, Querying(irp), [Query, Enqueue], InsertIrp(s.driver, irp), Free);
    }
    assert Alone(s.driver, Free, acts, InsertIrp(s.driver, irp), Free);
    AloneIsARun(s, t, acts, InsertIrp(s.driver, irp), Free);
    assert s.threads[t := Free] == s.threads;
  }

  /** Run by one thread alone, the steps of a cancellation are the atomic one. */
  lemma UninterruptedCancelIsCancelIrp(s: State, t: nat, irp: Irp)
    requires t < |s.threads| && s.threads[t].Free? && !s.driver.fault && irp in s.driver.queue
    ensures var steps := StepsOf(t, [BeginCancel(irp), EndCancel]);
            && Legal(s, steps)
            && Run(s, steps).driver == CancelIrp(s.driver, irp)
            && Run(s, steps).threads == s.threads
  {
    var acts := [BeginCancel(irp), EndCancel];
    assert acts[1..] == [EndCancel] && acts[1..][1..] == [];
    var d := DriverAfter(s.driver, Free, BeginCancel(irp));
    assert Alone(d, Cancelling(irp), [EndCancel], CancelIrp(s.driver, irp), Free);
    assert Alone(s.driver, Free, acts, CancelIrp(s.driver, irp), Free);
    AloneIsARun(s, t, acts, CancelIrp(s.driver, irp), Free);
    assert s.threads[t := Free] == s.threads;
  }

  lemma {:induction false} RunsCompose(s: State, xs: seq<Step>, mid: State, ys: seq<Step>)
    requires Legal(s, xs) && Run(s, xs) == mid && Legal(mid, ys)
    ensures Legal(s, xs + ys) && Run(s, xs + ys) == Run(mid, ys)
    decreases |xs|
  {
    if xs == [] {
      assert xs + ys == ys;
    } else {
      var rest := xs[1..] + ys;
      RunsCompose(Apply(s, xs[0]), xs[1..], mid, ys);
      Prepend(s, xs[0], rest);
      HeadAndRest(xs, ys);
    }
  }

  // ----- when no IRP waits while a report is deferred

  /** No IRP waits while a report is deferred. */
  predicate Exclusive(d: Driver) { d.queue == [] || d.deferred == [] }

  /** A step keeps exclusion unless it queues behind the other side's back. */
  lemma ExclusionStepExactly(s: State, step: Step)
    requires Exclusive(s.driver) && Enabled(s, step)
    ensures Exclusive(Apply(s, step).driver) <==>
            && !(step.a.Append? && s.driver.queue != [])
            && !(step.a.Enqueue? && s.driver.deferred != [])
  {
    if step.a.BeginCancel? {
      CountWithout(s.driver.queue, step.a.irp, step.a.irp);
    }
  }

  /** A thread has found no IRP and has not deferred its report yet. */
  ghost predicate Deferring(s: State) {
    exists t :: 0 <= t < |s.threads| && (s.threads[t].Unmatched? || s.threads[t].Recorded?)
  }

  /** A thread has found no deferred report and has not queued its IRP yet. */
  ghost predicate Queueing(s: State) {
    exists t :: 0 <= t < |s.threads| && s.threads[t].Inserting?
  }

  /** The two windows: an IRP is queued while a report is about to be deferred, or the other way round. */
  ghost predicate InWindow(s: State, step: Step) {
    (step.a.Enqueue? && Deferring(s)) || (step.a.Append? && Queueing(s))
  }

  /** Exclusion, together with what the threads between the two halves of their operation rely on. */
  ghost predicate Guarded(s: State) {
    && Counts(s) && Exclusive(s.driver)
    && (Deferring(s) ==> s.driver.queue == [])
    && (Queueing(s) ==> s.driver.deferred == [])
  }

  /** The moving thread is the only one whose place changes. */
  lemma OthersStay(s: State, step: Step)
    requires Enabled(s, step)
    ensures var th' := Apply(s, step).threads[step.t];
            && (Deferring(Apply(s, step)) ==> Deferring(s) || th'.Unmatched? || th'.Recorded?)
            && (Queueing(Apply(s, step)) ==> Queueing(s) || th'.Inserting?)
  {
    var s' := Apply(s, step);
    if t :| 0 <= t < |s'.threads| && t != step.t && (s'.threads[t].Unmatched? || s'.threads[t].Recorded?) {
      assert s.threads[t] == s'.threads[t];
    }
    if t :| 0 <= t < |s'.threads| && t != step.t && s'.threads[t].Inserting? {
      assert s.threads[t] == s'.threads[t];
    }
  }

  lemma StepKeepsGuarded(s: State, step: Step)
    requires Guarded(s) && Enabled(s, step) && !Misfit(s, step) && !InWindow(s, step)
    ensures Guarded(Apply(s, step))
  {
    StepKeepsCounts(s, step);
    OthersStay(s, step);
    var th := s.threads[step.t];
    assert th.Unmatched? || th.Recorded? ==> Deferring(s);
    assert th.Inserting? ==> Queueing(s);
    ExclusionStepExactly(s, step);
    if step.a.BeginCancel? {
      CountWithout(s.driver.queue, step.a.irp, step.a.irp);
    }
  }

  /** Runs that stay out of the windows, with requests large enough. */
  ghost predicate Undisturbed(s: State, steps: seq<Step>)
    decreases |steps|
  {
    steps == [] ||
    (Enabled(s, steps[0]) && !Misfit(s, steps[0]) && !InWindow(s, steps[0]) && Undisturbed(Apply(s, steps[0]), steps[1..]))
  }

  lemma {:induction false} RunKeepsGuarded(s: State, steps: seq<Step>)
    requires Guarded(s) && Undisturbed(s, steps)
    ensures Legal(s, steps) && Guarded(Run(s, steps))
    decreases |steps|
  {
    if steps != [] {
      StepKeepsGuarded(s, steps[0]);
      RunKeepsGuarded(Apply(s, steps[0]), steps[1..]);
    }
  }

  /** In every interleaving that stays out of the two windows, no IRP waits while a report is deferred. */
  lemma ExclusionOutsideWindows(s0: State, steps: seq<Step>)
    requires Start(s0) && Undisturbed(s0, steps)
    ensures Legal(s0, steps) && Exclusive(Run(s0, steps).driver)
  {
    TallyZero(ReservationOf, s0.threads, ());
    RunKeepsGuarded(s0, steps);
  }

  /** A step inside a window leaves another thread a step, or two, that breaks exclusion. */
  lemma WindowBreaksExclusion(s: State, step: Step, u: nat, record: Ptr)
    requires Guarded(s) && Enabled(s, step) && u < |s.threads| && u != step.t
    requires record != NULL && record !in s.driver.pool
    ensures step.a.Enqueue? && s.threads[u].Recorded? ==>
              var bad := [step, Step(u, Append)]; Legal(s, bad) && !Exclusive(Run(s, bad).driver)
    ensures step.a.Append? && s.threads[u].Inserting? ==>
              var bad := [step, Step(u, Enqueue)]; Legal(s, bad) && !Exclusive(Run(s, bad).driver)
    ensures step.a.Enqueue? && s.threads[u].Unmatched? && s.driver.deferredCount <= MAX_DEFERRED_REPORTS_COUNT ==>
              var bad := [step, Step(u, Reserve(record)), Step(u, Append)]; Legal(s, bad) && !Exclusive(Run(s, bad).driver)
  {
    var s1 := Apply(s, step);
    assert s1.threads[u] == s.threads[u];
    if step.a.Enqueue? && s.threads[u].Recorded? {
      OneMore(s, step, Step(u, Append));
    } else if step.a.Append? && s.threads[u].Inserting? {
      OneMore(s, step, Step(u, Enqueue));
    } else if step.a.Enqueue? && s.threads[u].Unmatched? && s.driver.deferredCount <= MAX_DEFERRED_REPORTS_COUNT {
      OneMore(s1, Step(u, Reserve(record)), Step(u, Append));
      Prepend(s, step, [Step(u, Reserve(record)), Step(u, Append)]);
      assert [step] + [Step(u, Reserve(record)), Step(u, Append)] == [step, Step(u, Reserve(record)), Step(u, Append)];
    }
  }

  lemma OneMore(s: State, a: Step, b: Step)
    requires Enabled(s, a) && Enabled(Apply(s, a), b)
    ensures Legal(s, [a, b]) && Run(s, [a, b]) == Apply(Apply(s, a), b)
  {
    Prepend(Apply(s, a), b, []);
    Prepend(s, a, [b]);
    assert [a] + [b] == [a, b] && [b] + [] == [b];
  }

  /** A query faults if and only if nothing is deferred although some report has been discarded for want of room. */
  lemma QueryFaultsExactly(s: State, t: nat)
    requires Counts(s) && Enabled(s, Step(t, Query))
    ensures Apply(s, Step(t, Query)).driver.fault <==> s.driver.deferred == [] && s.misfits > 0
  {
  }

  // ----- slot-sized traffic

  predicate SizedReport(r: Report) { 0 < r.size <= EventSlots.MAXIMUM_REPORT_BUFFER_SIZE }

  /** Reports fit a user-mode slot, and every request offers a whole slot. */
  predicate SizedAction(a: Action) {
    && (a.BeginReport? ==> SizedReport(a.r))
    && (a.BeginIrp? ==> a.irp.length == EventSlots.MAXIMUM_REPORT_BUFFER_SIZE)
  }

  predicate SizedThread(th: Thread) {
    && (th.Holding? || th.Matched? || th.Unmatched? || th.Recorded? ==> SizedReport(th.r))
    && (th.Querying? ==> th.irp.length == EventSlots.MAXIMUM_REPORT_BUFFER_SIZE)
  }

  ghost predicate AllSized(s: State) {
    && (forall i :: 0 <= i < |s.driver.deferred| ==> SizedReport(s.driver.deferred[i].report))
    && (forall t :: 0 <= t < |s.threads| ==> SizedThread(s.threads[t]))
  }

  lemma SizedStep(s: State, step: Step)
    requires AllSized(s) && Enabled(s, step) && SizedAction(step.a)
    ensures AllSized(Apply(s, step)) && !Misfit(s, step)
  {
    assert SizedThread(s.threads[step.t]);
  }

  lemma {:induction false} SizedRun(s: State, steps: seq<Step>)
    requires AllSized(s) && Legal(s, steps) && forall i :: 0 <= i < |steps| ==> SizedAction(steps[i].a)
    ensures Run(s, steps).misfits == s.misfits
    decreases |steps|
  {
    if steps != [] {
      SizedStep(s, steps[0]);
      SizedRun(Apply(s, steps[0]), steps[1..]);
    }
  }

  /** With slot-sized reports and requests no interleaving has a misfit: none faults, and the deferred count is the list's length. */
  lemma SizedInterleavingsNeverFault(s0: State, steps: seq<Step>)
    requires Start(s0) && Legal(s0, steps) && forall i :: 0 <= i < |steps| ==> SizedAction(steps[i].a)
    ensures var d := Run(s0, steps).driver; !d.fault && d.deferredCount == |d.deferred| && d.count == |d.queue|
  {
    SizedRun(s0, steps);
    ConservationInEveryInterleaving(s0, steps);
  }

  /** The three uninterrupted stretches of the run below, seen from the driver. */
  lemma StrandingStretches(r: Report, irp: Irp, record: Ptr)
    requires record != NULL && record != r.buffer
    ensures var d0 := Empty();
            var d1 := d0.(pool := {r.buffer});
            var d2 := d1.(queue := [irp], count := 1);
            var d3 := d2.(pool := {r.buffer, record}, deferred := [Deferred(record, r)], deferredCount := 1);
            && Alone(d0, Free, [BeginReport(r), TakeIrp], d1, Unmatched(r))
            && Alone(d1, Free, [BeginIrp(irp), Query, Enqueue], d2, Free)
            && Alone(d2, Unmatched(r), [Reserve(record), Append], d3, Free)
  {
    var d0 := Empty();
    var d1 := d0.(pool := {r.buffer});
    var d2 := d1.(queue := [irp], count := 1);
    var d3 := d2.(pool := {r.buffer, record}, deferred := [Deferred(record, r)], deferredCount := 1);
    assert [BeginReport(r), TakeIrp][1..] == [TakeIrp] && [TakeIrp][1..] == [];
    assert Alone(d1, Holding(r), [TakeIrp], d1, Unmatched(r));
    assert [BeginIrp(irp), Query, Enqueue][1..] == [Query, Enqueue];
    assert [Query, Enqueue][1..] == [Enqueue] && [Enqueue][1..] == [];
    assert Alone(d1, Inserting(irp), [Enqueue], d2, Free);
    assert Alone(d1, Querying(irp), [Query, Enqueue], d2, Free);
    assert [Reserve(record), Append][1..] == [Append] && [Append][1..] == [];
    assert Alone(d2.(pool := {r.buffer, record}), Recorded(r, record), [Append], d3, Free);
  }

  /**
   Without atomicity an IRP can wait while a report is deferred: the reporter finds no IRP, the
   inserter finds no report, and each then queues its own.
   */
  lemma InterleavingStrandsReport(s0: State, r: Report, irp: Irp, record: Ptr)
    requires Start(s0) && |s0.threads| == 2
    requires record != NULL && record != r.buffer && Fits(irp, r.size)
    ensures var steps := StepsOf(0, [BeginReport(r), TakeIrp]) + StepsOf(1, [BeginIrp(irp), Query, Enqueue])
                         + StepsOf(0, [Reserve(record), Append]);
            && Legal(s0, steps)
            && Run(s0, steps).driver.queue == [irp]
            && Run(s0, steps).driver.deferred == [Deferred(record, r)]
  {
    StrandingStretches(r, irp, record);
    var xs := StepsOf(0, [BeginReport(r), TakeIrp]);
    var ys := StepsOf(1, [BeginIrp(irp), Query, Enqueue]);
    var zs := StepsOf(0, [Reserve(record), Append]);
    var d1 := s0.driver.(pool := {r.buffer});
    AloneIsARun(s0, 0, [BeginReport(r), TakeIrp], d1, Unmatched(r));
    var s1 := Run(s0, xs);
    var d2 := d1.(queue := [irp], count := 1);
    AloneIsARun(s1, 1, [BeginIrp(irp), Query, Enqueue], d2, Free);
    var s2 := Run(s1, ys);
    var d3 := d2.(pool := {r.buffer, record}, deferred := [Deferred(record, r)], deferredCount := 1);
    AloneIsARun(s2, 0, [Reserve(record), Append], d3, Free);
    RunsCompose(s0, xs, s1, ys);
    RunsCompose(s0, xs + ys, s2, zs);
  }
}
