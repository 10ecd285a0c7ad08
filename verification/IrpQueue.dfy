/**
 Report delivery in the driver (driver/io.c): reports meet pending IRPs through a cancel-safe queue,
 and reports that find no IRP wait in a bounded deferred list.

 `pool` is the set of live pool allocations.  The cancel-safe queue is taken at its documented
 contract: a removed IRP leaves the queue before it is completed.
 */
module IrpQueue {
  import EventSlots
  import opened Tallies

  const MAX_DEFERRED_REPORTS_COUNT := 100

  type Ptr = nat

  const NULL: Ptr := 0

  datatype Report = Report(buffer: Ptr, size: nat)

  /** A pending request; `length` is its OutputBufferLength. */
  datatype Irp = Irp(id: nat, length: nat)

  datatype Deferred = Deferred(record: Ptr, report: Report)

  datatype Outcome = Delivered(report: Report) | InsufficientResources | Cancelled

  datatype Completion = Completion(irp: Irp, outcome: Outcome)

  /** `fault` is set when a record that does not exist is read and freed; nothing is promised after that. */
  datatype Driver = Driver(queue: seq<Irp>, count: int, deferred: seq<Deferred>, deferredCount: int,
                           pool: set<Ptr>, completions: seq<Completion>, fault: bool)

  function Empty(): Driver { Driver([], 0, [], 0, {}, [], false) }

  /** ValidateIrpOutputBuffer: a zero-sized report never fits. */
  predicate Fits(irp: Irp, size: nat) {
    0 < size <= irp.length
  }

  // ----- specifications

  function Complete(d: Driver, irp: Irp, outcome: Outcome): Driver {
    d.(completions := d.completions + [Completion(irp, outcome)])
  }

  /** IrpQueueDeferReport; `record` is what the pool returned for the list entry, NULL on failure. */
  function Defer(d: Driver, r: Report, record: Ptr): Driver {
    if d.deferredCount > MAX_DEFERRED_REPORTS_COUNT then d.(pool := d.pool - {r.buffer})
    else if record == NULL then d
    else d.(pool := d.pool + {record}, deferred := d.deferred + [Deferred(record, r)],
            deferredCount := d.deferredCount + 1)
  }

  /** IrpQueueCompleteIrp. */
  function Submit(d: Driver, r: Report, record: Ptr): Driver {
    if d.queue == [] then Defer(d, r, record)
    else
      var irp := d.queue[0];
      var d' := d.(queue := d.queue[1..], count := d.count - 1, pool := d.pool - {r.buffer});
      Complete(d', irp, if Fits(irp, r.size) then Delivered(r) else InsufficientResources)
  }

  /**
   IrpQueueQueryPendingReports: the new state, and whether the IRP was completed.  With a positive count
   and an empty list, removing the head yields the list head itself.
   */
  function QueryPending(d: Driver, irp: Irp): (Driver, bool) {
    if d.deferredCount <= 0 then (d, false)
    else if d.deferred == [] then (d.(fault := true), false)
    else
      var head := d.deferred[0];
      var d' := d.(deferred := d.deferred[1..], pool := d.pool - {head.report.buffer, head.record});
      if Fits(irp, head.report.size)
      then (Complete(d', irp, Delivered(head.report)).(deferredCount := d.deferredCount - 1), true)
      else (d', false)
  }

  /** The IOCTL_INSERT_IRP_INTO_QUEUE case of DeviceControl. */
  function InsertIrp(d: Driver, irp: Irp): Driver {
    var (d', done) := QueryPending(d, irp);
    if done || d'.fault then d' else d'.(queue := d'.queue + [irp], count := d'.count + 1)
  }

  /** The position of the first occurrence. */
  function IndexOf(queue: seq<Irp>, irp: Irp): (i: nat)
    requires irp in queue
    ensures i < |queue| && queue[i] == irp && irp !in queue[..i]
  {
    if queue[0] == irp then 0 else 1 + IndexOf(queue[1..], irp)
  }

  function Without(queue: seq<Irp>, irp: Irp): (r: seq<Irp>)
    requires irp in queue
    ensures multiset(r) == multiset(queue) - multiset{irp}
  {
    var i := IndexOf(queue, irp);
    assert queue == queue[..i] + [irp] + queue[i + 1..];
    queue[..i] + queue[i + 1..]
  }

  /** Cancellation: the queue gives the IRP up, then it is completed as cancelled. */
  function CancelIrp(d: Driver, irp: Irp): Driver
    requires irp in d.queue
  {
    Complete(d.(queue := Without(d.queue, irp), count := d.count - 1), irp, Cancelled)
  }

  // ----- ownership

  function Addresses(deferred: seq<Deferred>): seq<Ptr> {
    if deferred == [] then []
    else [deferred[0].report.buffer, deferred[0].record] + Addresses(deferred[1..])
  }

  ghost predicate Distinct(s: seq<Ptr>) {
    forall i, j :: 0 <= i < j < |s| ==> s[i] != s[j]
  }

  /** The deferred list owns its buffers and records: all live, none shared. */
  ghost predicate OwnsDeferred(d: Driver) {
    && Distinct(Addresses(d.deferred))
    && (forall p :: p in Addresses(d.deferred) ==> p in d.pool)
  }

  /** What holds even after a deferred report has been discarded for want of room. */
  ghost predicate Sound(d: Driver) {
    && !d.fault
    && d.count == |d.queue|
    && |d.deferred| <= d.deferredCount <= MAX_DEFERRED_REPORTS_COUNT + 1
    && OwnsDeferred(d)
  }

  ghost predicate Valid(d: Driver) {
    && !d.fault
    && d.count == |d.queue|
    && d.deferredCount == |d.deferred|
    && (d.queue == [] || d.deferred == [])
    && |d.deferred| <= MAX_DEFERRED_REPORTS_COUNT + 1
    && OwnsDeferred(d)
  }

  lemma {:induction false} AddressesAppend(xs: seq<Deferred>, x: Deferred)
    ensures Addresses(xs + [x]) == Addresses(xs) + [x.report.buffer, x.record]
  {
    if xs == [] {
      assert xs + [x] == [x];
      assert Addresses([]) == [];
    } else {
      assert (xs + [x])[1..] == xs[1..] + [x];
      AddressesAppend(xs[1..], x);
    }
  }

  // ----- each operation keeps the invariant

  lemma SubmitKeepsValid(d: Driver, r: Report, record: Ptr)
    requires Valid(d)
    requires r.buffer in d.pool && r.buffer !in Addresses(d.deferred)
    requires record == NULL || record !in d.pool
    ensures Valid(Submit(d, r, record))
  {
    AddressesAppend(d.deferred, Deferred(record, r));
  }

  /**
   The insertion keeps the invariant if and only if no report is deferred or the oldest one fits:
   a deferred report that does not fit is discarded without lowering the deferred count.
   */
  lemma InsertKeepsValidExactly(d: Driver, irp: Irp)
    requires Valid(d)
    ensures Valid(InsertIrp(d, irp)) <==> d.deferred == [] || Fits(irp, d.deferred[0].report.size)
    ensures d.deferred != [] && !Fits(irp, d.deferred[0].report.size) ==>
              InsertIrp(d, irp).deferredCount == |InsertIrp(d, irp).deferred| + 1
  {
    if d.deferred != [] {
      HeadOwned(d);
    }
  }

  /** The oldest deferred report's buffer and record are live and belong to no other entry. */
  lemma HeadOwned(d: Driver)
    requires OwnsDeferred(d) && d.deferred != []
    ensures var head := d.deferred[0];
            var rest := Addresses(d.deferred[1..]);
            && Addresses(d.deferred) == [head.report.buffer, head.record] + rest
            && head.report.buffer in d.pool && head.record in d.pool && head.report.buffer != head.record
            && head.report.buffer !in rest && head.record !in rest
            && Distinct(rest)
  {
    var head := d.deferred[0];
    var rest := Addresses(d.deferred[1..]);
    var all := Addresses(d.deferred);
    assert all == [head.report.buffer, head.record] + rest;
    assert forall i :: 0 <= i < |rest| ==> rest[i] == all[i + 2];
    assert all[0] == head.report.buffer && all[1] == head.record;
    assert all[0] in all && all[1] in all;
  }

  lemma CancelKeepsValid(d: Driver, irp: Irp)
    requires Valid(d) && irp in d.queue
    ensures Valid(CancelIrp(d, irp))
  {
    assert |multiset(Without(d.queue, irp))| == |multiset(d.queue)| - 1;
  }

  // ----- whole runs of atomic operations

  datatype Event =
    | Reported(report: Report, record: Ptr)
    | Inserted(irp: Irp)
    | CancelRequested(irp: Irp)

  /** A reporter allocates its buffer, and only a queued IRP can be cancelled. */
  ghost predicate Possible(d: Driver, e: Event) {
    match e
    case Reported(r, record) =>
      && r.buffer !in d.pool && (record == NULL || (record !in d.pool && record != r.buffer))
    case Inserted(irp) => true
    case CancelRequested(irp) => irp in d.queue
  }

  /** The insertion offers too little room for the oldest deferred report. */
  predicate Misfit(d: Driver, e: Event) {
    e.Inserted? && d.deferred != [] && !Fits(e.irp, d.deferred[0].report.size)
  }

  ghost predicate Legal(d: Driver, e: Event) { Possible(d, e) && !Misfit(d, e) }

  ghost function Next(d: Driver, e: Event): Driver
    requires Possible(d, e)
  {
    if d.fault then d
    else
      match e
      case Reported(r, record) => Submit(d.(pool := d.pool + {r.buffer}), r, record)
      case Inserted(irp) => InsertIrp(d, irp)
      case CancelRequested(irp) => CancelIrp(d, irp)
  }

  lemma NextKeepsValid(d: Driver, e: Event)
    requires Valid(d) && Legal(d, e)
    ensures Valid(Next(d, e))
  {
    match e
    case Reported(r, record) => SubmitKeepsValid(d.(pool := d.pool + {r.buffer}), r, record);
    case Inserted(irp) => InsertKeepsValidExactly(d, irp);
    case CancelRequested(irp) => CancelKeepsValid(d, irp);
  }

  ghost predicate PossibleRun(d: Driver, events: seq<Event>)
    decreases |events|
  {
    events == [] || (Possible(d, events[0]) && PossibleRun(Next(d, events[0]), events[1..]))
  }

  /** No insertion is a misfit. */
  ghost predicate LegalRun(d: Driver, events: seq<Event>)
    decreases |events|
  {
    events == [] || (Legal(d, events[0]) && LegalRun(Next(d, events[0]), events[1..]))
  }

  ghost function Run(d: Driver, events: seq<Event>): Driver
    requires PossibleRun(d, events)
    decreases |events|
  {
    if events == [] then d else Run(Next(d, events[0]), events[1..])
  }

  /** A legal run keeps the invariant, and so never faults. */
  lemma {:induction false} LegalRunStaysValid(d: Driver, events: seq<Event>)
    requires Valid(d) && LegalRun(d, events)
    ensures PossibleRun(d, events) && Valid(Run(d, events))
    decreases |events|
  {
    if events != [] {
      NextKeepsValid(d, events[0]);
      LegalRunStaysValid(Next(d, events[0]), events[1..]);
    }
  }

  lemma {:induction false} FaultStays(d: Driver, events: seq<Event>)
    requires PossibleRun(d, events) && d.fault
    ensures Run(d, events) == d
    decreases |events|
  {
    if events != [] {
      FaultStays(d, events[1..]);
    }
  }

  /** The report this event adds to what must be delivered: none if it is dropped on arrival. */
  function Accepted(d: Driver, e: Event): seq<Report> {
    if !e.Reported? then []
    else if d.queue != [] then (if Fits(d.queue[0], e.report.size) then [e.report] else [])
    else if d.deferredCount > MAX_DEFERRED_REPORTS_COUNT || e.record == NULL then []
    else [e.report]
  }

  ghost function AcceptedRun(d: Driver, events: seq<Event>): seq<Report>
    requires PossibleRun(d, events)
    decreases |events|
  {
    if events == [] then [] else Accepted(d, events[0]) + AcceptedRun(Next(d, events[0]), events[1..])
  }

  function DeliveredReports(cs: seq<Completion>): seq<Report> {
    if cs == [] then []
    else (if cs[0].outcome.Delivered? then [cs[0].outcome.report] else []) + DeliveredReports(cs[1..])
  }

  function WaitingReports(deferred: seq<Deferred>): seq<Report> {
    seq(|deferred|, i requires 0 <= i < |deferred| => deferred[i].report)
  }

  function CompletedIrps(cs: seq<Completion>): seq<Irp> {
    seq(|cs|, i requires 0 <= i < |cs| => cs[i].irp)
  }

  /** Every IRP the driver has accepted, pending or completed, with multiplicity. */
  function AllIrps(d: Driver): multiset<Irp> {
    multiset(d.queue) + multiset(CompletedIrps(d.completions))
  }

  function InsertedIrps(events: seq<Event>): seq<Irp> {
    if events == [] then []
    else (if events[0].Inserted? then [events[0].irp] else []) + InsertedIrps(events[1..])
  }

  /** The buffer this event leaves without an owner: the list entry could not be allocated. */
  function Leaked(d: Driver, e: Event): set<Ptr> {
    if e.Reported? && d.queue == [] && d.deferredCount <= MAX_DEFERRED_REPORTS_COUNT && e.record == NULL
    then {e.report.buffer} else {}
  }

  ghost function LeakedRun(d: Driver, events: seq<Event>): set<Ptr>
    requires PossibleRun(d, events)
    decreases |events|
  {
    if events == [] then {} else Leaked(d, events[0]) + LeakedRun(Next(d, events[0]), events[1..])
  }

  /** How many insertions of the run discard a report for want of room. */
  ghost function MisfitsRun(d: Driver, events: seq<Event>): nat
    requires PossibleRun(d, events)
    decreases |events|
  {
    if events == [] then 0
    else (if Misfit(d, events[0]) && !d.fault then 1 else 0) + MisfitsRun(Next(d, events[0]), events[1..])
  }

  function Unowned(d: Driver): set<Ptr> {
    d.pool - (set p | p in Addresses(d.deferred))
  }

  /** Everything accepted so far, in order: delivered first, then the deferred list. */
  function Pipeline(d: Driver): seq<Report> {
    DeliveredReports(d.completions) + WaitingReports(d.deferred)
  }

  lemma {:induction false} DeliveredAppend(cs: seq<Completion>, c: Completion)
    ensures DeliveredReports(cs + [c]) ==
            DeliveredReports(cs) + (if c.outcome.Delivered? then [c.outcome.report] else [])
  {
    if cs == [] {
      assert cs + [c] == [c] && [c][1..] == [];
      assert DeliveredReports([]) == [];
    } else {
      var first := if cs[0].outcome.Delivered? then [cs[0].outcome.report] else [];
      var last := if c.outcome.Delivered? then [c.outcome.report] else [];
      DeliveredAppend(cs[1..], c);
      assert (cs + [c])[0] == cs[0] && (cs + [c])[1..] == cs[1..] + [c];
      ConcatAssociates(first, DeliveredReports(cs[1..]), last);
    }
  }

  lemma SubmitPipeline(d: Driver, r: Report, record: Ptr)
    requires d.queue == [] || d.deferred == []
    ensures Pipeline(Submit(d, r, record)) == Pipeline(d) + Accepted(d, Reported(r, record))
  {
    if d.queue != [] {
      var irp := d.queue[0];
      DeliveredAppend(d.completions, Completion(irp, if Fits(irp, r.size) then Delivered(r) else InsufficientResources));
    } else if d.deferredCount <= MAX_DEFERRED_REPORTS_COUNT && record != NULL {
      assert WaitingReports(d.deferred + [Deferred(record, r)]) == WaitingReports(d.deferred) + [r];
      ConcatAssociates(DeliveredReports(d.completions), WaitingReports(d.deferred), [r]);
    }
  }

  lemma InsertPipeline(d: Driver, irp: Irp)
    requires d.deferredCount == |d.deferred| && (d.deferred == [] || Fits(irp, d.deferred[0].report.size))
    ensures Pipeline(InsertIrp(d, irp)) == Pipeline(d)
  {
    if d.deferred != [] {
      var head := d.deferred[0].report;
      DeliveredAppend(d.completions, Completion(irp, Delivered(head)));
      assert WaitingReports(d.deferred) == [head] + WaitingReports(d.deferred[1..]);
      ConcatAssociates(DeliveredReports(d.completions), [head], WaitingReports(d.deferred[1..]));
    }
  }

  lemma PipelineStep(d: Driver, e: Event)
    requires Valid(d) && Legal(d, e)
    ensures Pipeline(Next(d, e)) == Pipeline(d) + Accepted(d, e)
  {
    match e
    case Reported(r, record) => SubmitPipeline(d.(pool := d.pool + {r.buffer}), r, record);
    case Inserted(irp) => InsertPipeline(d, irp);
    case CancelRequested(irp) => DeliveredAppend(d.completions, Completion(irp, Cancelled));
  }

  lemma SubmitIrps(d: Driver, r: Report, record: Ptr)
    ensures AllIrps(Submit(d, r, record)) == AllIrps(d)
  {
    if d.queue != [] {
      var irp := d.queue[0];
      assert d.queue == [irp] + d.queue[1..];
      assert multiset(d.queue) == multiset{irp} + multiset(d.queue[1..]);
      CompletionCounts(d.completions, Completion(irp, if Fits(irp, r.size) then Delivered(r) else InsufficientResources));
    }
  }

  lemma InsertIrps(d: Driver, irp: Irp)
    requires !InsertIrp(d, irp).fault
    ensures AllIrps(InsertIrp(d, irp)) == AllIrps(d) + multiset{irp}
  {
    if QueryPending(d, irp).1 {
      CompletionCounts(d.completions, Completion(irp, Delivered(d.deferred[0].report)));
    }
  }

  lemma CancelIrps(d: Driver, irp: Irp)
    requires irp in d.queue
    ensures AllIrps(CancelIrp(d, irp)) == AllIrps(d)
  {
    CompletionCounts(d.completions, Completion(irp, Cancelled));
    assert multiset(d.queue) == multiset(Without(d.queue, irp)) + multiset{irp};
  }

  lemma IrpStep(d: Driver, e: Event)
    requires Possible(d, e) && !Next(d, e).fault
    ensures AllIrps(Next(d, e)) == AllIrps(d) + (if e.Inserted? then multiset{e.irp} else multiset{})
  {
    match e
    case Reported(r, record) => SubmitIrps(d.(pool := d.pool + {r.buffer}), r, record);
    case Inserted(irp) => InsertIrps(d, irp);
    case CancelRequested(irp) => CancelIrps(d, irp);
  }

  lemma CompletionCounts(cs: seq<Completion>, c: Completion)
    ensures multiset(CompletedIrps(cs + [c])) == multiset(CompletedIrps(cs)) + multiset{c.irp}
  {
    assert CompletedIrps(cs + [c]) == CompletedIrps(cs) + [c.irp];
  }

  lemma SubmitOwnership(d: Driver, r: Report, record: Ptr)
    requires r.buffer !in d.pool && (record == NULL || (record !in d.pool && record != r.buffer))
    requires OwnsDeferred(d)
    ensures Unowned(Submit(d.(pool := d.pool + {r.buffer}), r, record)) == Unowned(d) + Leaked(d, Reported(r, record))
  {
    AddressesAppend(d.deferred, Deferred(record, r));
  }

  lemma InsertOwnership(d: Driver, irp: Irp)
    requires OwnsDeferred(d)
    ensures Unowned(InsertIrp(d, irp)) == Unowned(d)
  {
    if d.deferred != [] {
      HeadOwned(d);
    }
  }

  lemma OwnershipStep(d: Driver, e: Event)
    requires Sound(d) && Possible(d, e) && !Next(d, e).fault
    ensures Unowned(Next(d, e)) == Unowned(d) + Leaked(d, e)
  {
    match e
    case Reported(r, record) => SubmitOwnership(d, r, record);
    case Inserted(irp) => InsertOwnership(d, irp);
    case CancelRequested(irp) =>
  }

  /** An event that does not fault keeps soundness; the drift of the deferred count grows by one on a misfit only. */
  lemma SoundStep(d: Driver, e: Event)
    requires Sound(d) && Possible(d, e) && !Next(d, e).fault
    ensures Sound(Next(d, e))
    ensures Next(d, e).deferredCount - |Next(d, e).deferred| ==
            d.deferredCount - |d.deferred| + if Misfit(d, e) then 1 else 0
  {
    match e
    case Reported(r, record) => SubmitStaysSound(d.(pool := d.pool + {r.buffer}), r, record);
    case Inserted(irp) => InsertStaysSound(d, irp);
    case CancelRequested(irp) => assert |multiset(Without(d.queue, irp))| == |multiset(d.queue)| - 1;
  }

  lemma SubmitStaysSound(d: Driver, r: Report, record: Ptr)
    requires Sound(d) && r.buffer in d.pool && r.buffer !in Addresses(d.deferred) && (record == NULL || record !in d.pool)
    ensures Sound(Submit(d, r, record))
    ensures Submit(d, r, record).deferredCount - |Submit(d, r, record).deferred| == d.deferredCount - |d.deferred|
  {
    AddressesAppend(d.deferred, Deferred(record, r));
  }

  lemma InsertStaysSound(d: Driver, irp: Irp)
    requires Sound(d) && !InsertIrp(d, irp).fault
    ensures Sound(InsertIrp(d, irp))
    ensures InsertIrp(d, irp).deferredCount - |InsertIrp(d, irp).deferred| ==
            d.deferredCount - |d.deferred| + if Misfit(d, Inserted(irp)) then 1 else 0
  {
    if d.deferred != [] {
      HeadOwned(d);
    }
  }

  lemma {:induction false} OrderOverRuns(d: Driver, events: seq<Event>)
    requires Valid(d) && LegalRun(d, events)
    ensures PossibleRun(d, events) && Valid(Run(d, events))
    ensures Pipeline(Run(d, events)) == Pipeline(d) + AcceptedRun(d, events)
    decreases |events|
  {
    if events != [] {
      NextKeepsValid(d, events[0]);
      var d' := Next(d, events[0]);
      PipelineStep(d, events[0]);
      OrderOverRuns(d', events[1..]);
      ConcatAssociates(Pipeline(d), Accepted(d, events[0]), AcceptedRun(d', events[1..]));
    }
  }

  /** Cancelling takes one IRP out of the queue and leaves the others in their order. */
  lemma CancelKeepsOrder(d: Driver, irp: Irp)
    requires irp in d.queue
    ensures exists i :: 0 <= i < |d.queue| && d.queue[i] == irp && CancelIrp(d, irp).queue == d.queue[..i] + d.queue[i + 1..]
  {
    var i := IndexOf(d.queue, irp);
    assert d.queue[i] == irp && CancelIrp(d, irp).queue == d.queue[..i] + d.queue[i + 1..];
  }

  /** Requests in the order in which they are served: completed ones first, then the queue. */
  function Served(d: Driver): seq<Irp> { CompletedIrps(d.completions) + d.queue }

  lemma SubmitServed(d: Driver, r: Report, record: Ptr)
    ensures Served(Submit(d, r, record)) == Served(d)
  {
    if d.queue != [] {
      var irp := d.queue[0];
      var c := Completion(irp, if Fits(irp, r.size) then Delivered(r) else InsufficientResources);
      assert CompletedIrps(d.completions + [c]) == CompletedIrps(d.completions) + [irp];
      assert d.queue == [irp] + d.queue[1..];
      ConcatAssociates(CompletedIrps(d.completions), [irp], d.queue[1..]);
    }
  }

  lemma InsertServed(d: Driver, irp: Irp)
    requires !d.fault && (d.queue == [] || d.deferred == []) && d.deferredCount == |d.deferred|
    ensures Served(InsertIrp(d, irp)) == Served(d) + [irp]
  {
    if QueryPending(d, irp).1 {
      var c := Completion(irp, Delivered(d.deferred[0].report));
      assert CompletedIrps(d.completions + [c]) == CompletedIrps(d.completions) + [irp];
    } else {
      ConcatAssociates(CompletedIrps(d.completions), d.queue, [irp]);
      assert InsertIrp(d, irp).queue == d.queue + [irp] && InsertIrp(d, irp).completions == d.completions;
    }
  }

  /** Over every run without a misfit or a cancellation, requests are served first come, first served. */
  lemma {:induction false} IrpOrderOverRuns(d: Driver, events: seq<Event>)
    requires Valid(d) && LegalRun(d, events) && forall i :: 0 <= i < |events| ==> !events[i].CancelRequested?
    ensures PossibleRun(d, events) && Served(Run(d, events)) == Served(d) + InsertedIrps(events)
    decreases |events|
  {
    if events != [] {
      var e := events[0];
      NextKeepsValid(d, e);
      IrpOrderOverRuns(Next(d, e), events[1..]);
      if e.Inserted? {
        InsertServed(d, e.irp);
        ConcatAssociates(Served(d), [e.irp], InsertedIrps(events[1..]));
      } else {
        SubmitServed(d.(pool := d.pool + {e.report.buffer}), e.report, e.record);
        assert InsertedIrps(events) == InsertedIrps(events[1..]);
      }
    }
  }

  /** The IRPs completed as cancelled, in order. */
  function CancelledIrps(cs: seq<Completion>): seq<Irp> {
    if cs == [] then []
    else CancelledIrps(cs[..|cs| - 1]) + if cs[|cs| - 1].outcome.Cancelled? then [cs[|cs| - 1].irp] else []
  }

  function CancelRequests(events: seq<Event>): seq<Irp> {
    if events == [] then []
    else (if events[0].CancelRequested? then [events[0].irp] else []) + CancelRequests(events[1..])
  }

  lemma CancelledAppend(cs: seq<Completion>, c: Completion)
    ensures CancelledIrps(cs + [c]) == CancelledIrps(cs) + if c.outcome.Cancelled? then [c.irp] else []
  {
    assert (cs + [c])[..|cs|] == cs;
  }

  lemma CancelledStep(d: Driver, e: Event)
    requires Possible(d, e) && !Next(d, e).fault
    ensures CancelledIrps(Next(d, e).completions) ==
            CancelledIrps(d.completions) + if e.CancelRequested? then [e.irp] else []
  {
    match e
    case Reported(r, record) =>
      if d.queue != [] {
        var irp := d.queue[0];
        CancelledAppend(d.completions, Completion(irp, if Fits(irp, r.size) then Delivered(r) else InsufficientResources));
      }
    case Inserted(irp) =>
      if QueryPending(d, irp).1 {
        CancelledAppend(d.completions, Completion(irp, Delivered(d.deferred[0].report)));
      }
    case CancelRequested(irp) => CancelledAppend(d.completions, Completion(irp, Cancelled));
  }

  /** Over every run that has not faulted, exactly the IRPs whose cancellation was requested are completed as cancelled. */
  lemma {:induction false} CancelledOverRuns(d: Driver, events: seq<Event>)
    requires PossibleRun(d, events) && !Run(d, events).fault
    ensures CancelledIrps(Run(d, events).completions) == CancelledIrps(d.completions) + CancelRequests(events)
    decreases |events|
  {
    if events != [] {
      var e := events[0];
      if Next(d, e).fault {
        FaultStays(Next(d, e), events[1..]);
      }
      CancelledStep(d, e);
      CancelledOverRuns(Next(d, e), events[1..]);
      ConcatAssociates(CancelledIrps(d.completions), if e.CancelRequested? then [e.irp] else [], CancelRequests(events[1..]));
    }
  }

  /** Every report delivered has a size, and fits the request it went to. */
  ghost predicate DeliveriesFit(cs: seq<Completion>) {
    forall i :: 0 <= i < |cs| && cs[i].outcome.Delivered? ==> 0 < cs[i].outcome.report.size <= cs[i].irp.length
  }

  /** No request is refused but for a report that does not fit it. */
  lemma RefusalsAreForRoom(d: Driver, r: Report, record: Ptr)
    requires d.queue != []
    ensures var c := Submit(d, r, record).completions[|d.completions|];
            c == Completion(d.queue[0], if 0 < r.size <= d.queue[0].length then Delivered(r) else InsufficientResources)
  {
  }

  lemma {:induction false} DeliveriesFitOverRuns(d: Driver, events: seq<Event>)
    requires PossibleRun(d, events) && DeliveriesFit(d.completions)
    ensures DeliveriesFit(Run(d, events).completions)
    decreases |events|
  {
    if events != [] {
      DeliveriesFitOverRuns(Next(d, events[0]), events[1..]);
    }
  }

  /** Conservation of IRPs needs no room: it holds over every run that has not faulted. */
  lemma {:induction false} IrpsOverRuns(d: Driver, events: seq<Event>)
    requires PossibleRun(d, events) && !Run(d, events).fault
    ensures AllIrps(Run(d, events)) == AllIrps(d) + multiset(InsertedIrps(events))
    decreases |events|
  {
    if events != [] {
      var e := events[0];
      if Next(d, e).fault {
        FaultStays(Next(d, e), events[1..]);
      }
      IrpStep(d, e);
      IrpsOverRuns(Next(d, e), events[1..]);
      if e.Inserted? {
        assert InsertedIrps(events) == [e.irp] + InsertedIrps(events[1..]);
      } else {
        assert InsertedIrps(events) == InsertedIrps(events[1..]);
      }
    }
  }

  /** So does ownership, and the count exceeds the list by the reports discarded for want of room. */
  lemma {:induction false} OwnershipOverRuns(d: Driver, events: seq<Event>)
    requires Sound(d) && PossibleRun(d, events) && !Run(d, events).fault
    ensures Sound(Run(d, events))
    ensures Unowned(Run(d, events)) == Unowned(d) + LeakedRun(d, events)
    ensures Run(d, events).deferredCount - |Run(d, events).deferred| ==
            d.deferredCount - |d.deferred| + MisfitsRun(d, events)
    decreases |events|
  {
    if events != [] {
      if Next(d, events[0]).fault {
        FaultStays(Next(d, events[0]), events[1..]);
      }
      SoundStep(d, events[0]);
      OwnershipStep(d, events[0]);
      OwnershipOverRuns(Next(d, events[0]), events[1..]);
    }
  }

  /** After any run without a fault, the next insertion faults if and only if the list is empty and some misfit came before. */
  lemma InsertionFaultsExactly(events: seq<Event>, irp: Irp)
    requires PossibleRun(Empty(), events) && !Run(Empty(), events).fault
    ensures InsertIrp(Run(Empty(), events), irp).fault <==>
            Run(Empty(), events).deferred == [] && MisfitsRun(Empty(), events) > 0
  {
    OwnershipOverRuns(Empty(), events);
  }

  /** Two requests too small for one deferred report: the first is a misfit, the second faults. */
  lemma FaultIsReached(r: Report, record: Ptr, irp: Irp)
    requires record != NULL && record != r.buffer && !Fits(irp, r.size)
    ensures var events := [Reported(r, record), Inserted(irp), Inserted(irp)];
            PossibleRun(Empty(), events) && Run(Empty(), events).fault
  {
    var events := [Reported(r, record), Inserted(irp), Inserted(irp)];
    var d1 := Next(Empty(), events[0]);
    assert d1.deferred == [Deferred(record, r)] && d1.deferredCount == 1;
    var d2 := Next(d1, events[1]);
    assert d2.deferred == [] && d2.deferredCount == 1;
    assert events[1..] == [Inserted(irp), Inserted(irp)] && events[1..][1..] == [Inserted(irp)];
    assert [Inserted(irp)][1..] == [];
    assert Next(d2, Inserted(irp)).fault;
    assert PossibleRun(d2, [Inserted(irp)]) && Run(d2, [Inserted(irp)]).fault;
  }

  lemma OneEvent(d: Driver, e: Event, rest: seq<Event>)
    requires Possible(d, e) && PossibleRun(Next(d, e), rest)
    ensures PossibleRun(d, [e] + rest) && Run(d, [e] + rest) == Run(Next(d, e), rest)
  {
    assert ([e] + rest)[1..] == rest;
  }

  /** Two deferred reports, the older one larger than a request, and a late one. */
  lemma TwoAreDeferred(large: Deferred, small: Deferred)
    requires large.record != NULL && small.record != NULL
    requires Distinct([large.report.buffer, large.record, small.report.buffer, small.record])
    ensures var events := [Reported(large.report, large.record)] + [Reported(small.report, small.record)];
            && PossibleRun(Empty(), events)
            && Run(Empty(), events).deferred == [large, small] && Run(Empty(), events).deferredCount == 2
            && Run(Empty(), events).queue == [] && Run(Empty(), events).completions == [] && !Run(Empty(), events).fault
            && Run(Empty(), events).pool == {large.report.buffer, large.record, small.report.buffer, small.record}
  {
    var all := [large.report.buffer, large.record, small.report.buffer, small.record];
    assert forall i, j :: 0 <= i < j < 4 ==> all[i] != all[j];
    assert all[0] != all[1] && all[0] != all[2] && all[0] != all[3] && all[1] != all[2] && all[1] != all[3] && all[2] != all[3];
    var d1 := Next(Empty(), Reported(large.report, large.record));
    assert d1.pool == {large.report.buffer, large.record} && d1.deferred == [large];
    OneEvent(d1, Reported(small.report, small.record), []);
    OneEvent(Empty(), Reported(large.report, large.record), [Reported(small.report, small.record)]);
    assert [Reported(small.report, small.record)] + [] == [Reported(small.report, small.record)];
  }

  /** The request is a misfit for the older report and is queued; the late report meets it before the younger deferred one. */
  lemma LateReportOvertakes(d: Driver, late: Report, irp: Irp) returns (events: seq<Event>)
    requires !d.fault && d.queue == [] && d.completions == [] && |d.deferred| == 2 && d.deferredCount == 2
    requires !Fits(irp, d.deferred[0].report.size) && Fits(irp, late.size) && late.buffer !in d.pool
    ensures PossibleRun(d, events) && !Run(d, events).fault
    ensures Run(d, events).completions == [Completion(irp, Delivered(late))]
    ensures Run(d, events).deferred == [d.deferred[1]]
  {
    var d1 := Next(d, Inserted(irp));
    assert d1.queue == [irp] && d1.deferred == [d.deferred[1]];
    OneEvent(d1, Reported(late, NULL), []);
    OneEvent(d, Inserted(irp), [Reported(late, NULL)] + []);
    events := [Inserted(irp)] + ([Reported(late, NULL)] + []);
  }

  lemma {:induction false} RunsCompose(d: Driver, xs: seq<Event>, ys: seq<Event>)
    requires PossibleRun(d, xs) && PossibleRun(Run(d, xs), ys)
    ensures PossibleRun(d, xs + ys) && Run(d, xs + ys) == Run(Run(d, xs), ys)
    decreases |xs|
  {
    if xs == [] {
      assert xs + ys == ys;
    } else {
      var rest := xs[1..] + ys;
      RunsCompose(Next(d, xs[0]), xs[1..], ys);
      OneEvent(d, xs[0], rest);
      HeadAndRest(xs, ys);
    }
  }

  /** A run from the empty driver after which a late report has been delivered and an older one is still deferred. */
  lemma OvertakingIsReached(large: Deferred, small: Deferred, late: Report, irp: Irp) returns (events: seq<Event>)
    requires large.record != NULL && small.record != NULL
    requires Distinct([large.report.buffer, large.record, small.report.buffer, small.record])
    requires late.buffer !in [large.report.buffer, large.record, small.report.buffer, small.record]
    requires !Fits(irp, large.report.size) && Fits(irp, small.report.size) && Fits(irp, late.size)
    ensures PossibleRun(Empty(), events) && !Run(Empty(), events).fault
    ensures Run(Empty(), events).completions == [Completion(irp, Delivered(late))]
    ensures Run(Empty(), events).deferred == [small]
  {
    TwoAreDeferred(large, small);
    var xs := [Reported(large.report, large.record)] + [Reported(small.report, small.record)];
    var ys := LateReportOvertakes(Run(Empty(), xs), late, irp);
    RunsCompose(Empty(), xs, ys);
    events := xs + ys;
  }

  /**
   Main result for atomic operations.  Over every run without a misfit:
   delivered reports followed by the deferred list are the accepted reports in arrival order;
   every IRP is in the queue or completed exactly as often as it was inserted;
   the only allocations without an owner are buffers whose list entry could not be allocated;
   both counts equal their list lengths, the deferred list never exceeds 101 entries, and no IRP
   waits while a report is deferred.
   */
  lemma DeliveryOverRuns(d: Driver, events: seq<Event>)
    requires Valid(d) && LegalRun(d, events)
    ensures PossibleRun(d, events)
    ensures var d' := Run(d, events);
            && Valid(d')
            && Pipeline(d') == Pipeline(d) + AcceptedRun(d, events)
            && AllIrps(d') == AllIrps(d) + multiset(InsertedIrps(events))
            && Unowned(d') == Unowned(d) + LeakedRun(d, events)
  {
    OrderOverRuns(d, events);
    IrpsOverRuns(d, events);
    OwnershipOverRuns(d, events);
  }

  // ----- the pool of user-mode slots makes every run legal

  /** Reports fit a user-mode slot, and every request offers a whole slot. */
  ghost predicate Sized(d: Driver, e: Event) {
    && (e.Reported? ==> 0 < e.report.size <= EventSlots.MAXIMUM_REPORT_BUFFER_SIZE)
    && (e.Inserted? ==> e.irp.length == EventSlots.MAXIMUM_REPORT_BUFFER_SIZE)
    && (e.CancelRequested? ==> e.irp in d.queue)
    && (e.Reported? ==>
          && e.report.buffer !in d.pool
          && (e.record == NULL || (e.record !in d.pool && e.record != e.report.buffer)))
  }

  ghost predicate SizedState(d: Driver) {
    && (forall i :: 0 <= i < |d.deferred| ==> 0 < d.deferred[i].report.size <= EventSlots.MAXIMUM_REPORT_BUFFER_SIZE)
    && (forall i :: 0 <= i < |d.queue| ==> d.queue[i].length == EventSlots.MAXIMUM_REPORT_BUFFER_SIZE)
  }

  /** With slot-sized requests every event is legal and only the cap or the allocator drops a report. */
  lemma SlotSizedTrafficIsLegal(d: Driver, e: Event)
    requires Valid(d) && SizedState(d) && Sized(d, e)
    ensures Legal(d, e) && SizedState(Next(d, e))
    ensures e.Reported? ==>
              (Accepted(d, e) == [] <==> d.queue == [] && (|d.deferred| == MAX_DEFERRED_REPORTS_COUNT + 1 || e.record == NULL))
  {
    if e.CancelRequested? {
      var r := Without(d.queue, e.irp);
      forall i | 0 <= i < |r|
        ensures r[i].length == EventSlots.MAXIMUM_REPORT_BUFFER_SIZE
      {
        assert r[i] in multiset(r);
        assert r[i] in d.queue;
      }
    }
  }

  ghost predicate SizedRun(d: Driver, events: seq<Event>)
    decreases |events|
  {
    events == [] || (Sized(d, events[0]) && Possible(d, events[0]) && SizedRun(Next(d, events[0]), events[1..]))
  }

  /** Every run of slot-sized traffic is legal, so the laws of DeliveryOverRuns hold of it from the start. */
  lemma {:induction false} SizedRunsAreLegal(d: Driver, events: seq<Event>)
    requires Valid(d) && SizedState(d) && SizedRun(d, events)
    ensures LegalRun(d, events)
    decreases |events|
  {
    if events != [] {
      SlotSizedTrafficIsLegal(d, events[0]);
      NextKeepsValid(d, events[0]);
      SizedRunsAreLegal(Next(d, events[0]), events[1..]);
    }
  }

  lemma SizedDelivery(events: seq<Event>)
    requires SizedRun(Empty(), events)
    ensures PossibleRun(Empty(), events)
    ensures var d := Run(Empty(), events);
            && Valid(d)
            && Pipeline(d) == AcceptedRun(Empty(), events)
            && AllIrps(d) == multiset(InsertedIrps(events))
            && Unowned(d) == LeakedRun(Empty(), events)
  {
    var d := Empty();
    EmptyHoldsNothing();
    SizedRunsAreLegal(d, events);
    DeliveryOverRuns(d, events);
  }

  lemma EmptyHoldsNothing()
    ensures Valid(Empty()) && SizedState(Empty())
    ensures Pipeline(Empty()) == [] && AllIrps(Empty()) == multiset{} && Unowned(Empty()) == {}
  {
  }

  // ----- the driver's own structure

  class IrpQueueHead {
    var queue: seq<Irp>
    var count: int
    var deferred: seq<Deferred>
    var deferredCount: int
    var pool: set<Ptr>
    var completions: seq<Completion>
    var fault: bool

    ghost function View(): Driver
      reads this
    {
      Driver(queue, count, deferred, deferredCount, pool, completions, fault)
    }

    constructor ()
      ensures View() == Empty() && Valid(View())
    {
      queue, count, deferred, deferredCount, pool, completions, fault := [], 0, [], 0, {}, [], false;
    }

    /** Freeing memory that is not live is what this precondition rules out at every call below. */
    method ExFreePool(p: Ptr)
      requires p in pool
      modifies this`pool
      ensures pool == old(pool) - {p}
    {
      pool := pool - {p};
    }

    method IofCompleteRequest(irp: Irp, outcome: Outcome)
      modifies this`completions
      ensures View() == Complete(old(View()), irp, outcome)
    {
      completions := completions + [Completion(irp, outcome)];
    }

    /** IoCsqRemoveNextIrp through IrpQueuePeekNextEntry and IrpQueueRemove. */
    method RemoveNextIrp() returns (found: bool, irp: Irp)
      requires count == |queue|
      modifies this`queue, this`count
      ensures found <==> old(queue) != []
      ensures found ==> irp == old(queue)[0] && queue == old(queue)[1..] && count == old(count) - 1
      ensures !found ==> queue == old(queue) && count == old(count)
    {
      if count == 0 {
        return false, Irp(0, 0);
      }
      irp := queue[0];
      count := count - 1;
      queue := queue[1..];
      found := true;
    }

    method IrpQueueDeferReport(r: Report, record: Ptr)
      requires r.buffer in pool
      requires record == NULL || record !in pool
      modifies this`deferred, this`deferredCount, this`pool
      ensures View() == Defer(old(View()), r, record)
    {
      if deferredCount > MAX_DEFERRED_REPORTS_COUNT {
        ExFreePool(r.buffer);
        return;
      }
      if record == NULL {
        return;
      }
      pool := pool + {record};
      deferred := deferred + [Deferred(record, r)];
      deferredCount := deferredCount + 1;
    }

    method IrpQueueCompleteIrp(r: Report, record: Ptr)
      requires Sound(View())
      requires r.buffer in pool && r.buffer !in Addresses(deferred)
      requires record == NULL || record !in pool
      modifies this
      ensures View() == Submit(old(View()), r, record)
      ensures Valid(old(View())) ==> Valid(View())
    {
      if Valid(View()) {
        SubmitKeepsValid(View(), r, record);
      }
      var found, irp := RemoveNextIrp();
      if !found {
        IrpQueueDeferReport(r, record);
        return;
      }
      if !Fits(irp, r.size) {
        ExFreePool(r.buffer);
        IofCompleteRequest(irp, InsufficientResources);
        return;
      }
      ExFreePool(r.buffer);
      IofCompleteRequest(irp, Delivered(r));
    }

    method IrpQueueQueryPendingReports(irp: Irp) returns (done: bool)
      requires Sound(View())
      modifies this`deferred, this`deferredCount, this`pool, this`completions, this`fault
      ensures (View(), done) == QueryPending(old(View()), irp)
    {
      if deferredCount > 0 {
        if deferred == [] {
          fault := true;
          return false;
        }
        var report := deferred[0];
        HeadOwned(View());
        assert old(pool) - {report.report.buffer} - {report.record} == old(pool) - {report.report.buffer, report.record};
        deferred := deferred[1..];
        if !Fits(irp, report.report.size) {
          ExFreePool(report.report.buffer);
          ExFreePool(report.record);
          return false;
        }
        IofCompleteRequest(irp, Delivered(report.report));
        ExFreePool(report.report.buffer);
        ExFreePool(report.record);
        deferredCount := deferredCount - 1;
        return true;
      }
      return false;
    }

    method InsertIrpIntoQueue(irp: Irp)
      requires Sound(View())
      modifies this
      ensures View() == InsertIrp(old(View()), irp)
      ensures fault <==> old(deferred) == [] && old(deferredCount) > 0
      ensures Valid(old(View())) ==> (Valid(View()) <==> old(deferred) == [] || Fits(irp, old(deferred)[0].report.size))
    {
      if Valid(View()) {
        InsertKeepsValidExactly(View(), irp);
      }
      var done := IrpQueueQueryPendingReports(irp);
      if !done && !fault {
        queue := queue + [irp];
        count := count + 1;
      }
    }
  }
}
