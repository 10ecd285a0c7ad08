/**
 The user-mode pool of event slots (module/kernel_interface/kernel_interface.cpp).  Each pending
 request of the module is backed by one of five slots; completion threads release a slot and
 re-arm the pool by claiming one and sending a new request.
 */
module EventSlots {
  import opened Tallies

  const EVENT_COUNT := 5
  const MAXIMUM_REPORT_BUFFER_SIZE := 1000

  type Byte = bv8

  function Zeroed(): seq<Byte> { seq(MAXIMUM_REPORT_BUFFER_SIZE, _ => 0) }

  /** The lowest slot not in use, or the number of slots. */
  function FirstFree(inUse: seq<bool>): (i: nat)
    ensures i <= |inUse|
    ensures i < |inUse| ==> !inUse[i]
    ensures forall j :: 0 <= j < i ==> inUse[j]
  {
    if inUse == [] || !inUse[0] then 0 else 1 + FirstFree(inUse[1..])
  }

  function Used(inUse: seq<bool>): nat { Count(inUse, true) }

  lemma {:induction false} FullMeansAllUsed(inUse: seq<bool>)
    ensures Used(inUse) <= |inUse|
    ensures FirstFree(inUse) == |inUse| <==> Used(inUse) == |inUse|
  {
    if inUse != [] {
      FullMeansAllUsed(inUse[1..]);
    }
  }

  /** The flags after a slot is released; an unknown event releases nothing. */
  function Released(inUse: seq<bool>, slot: int): seq<bool> {
    if 0 <= slot < |inUse| then inUse[slot := false] else inUse
  }

  /** The vector of event_dispatcher objects; an OVERLAPPED address is identified with its index. */
  class EventVector {
    const inUse: array<bool>
    const buffer: array<seq<Byte>>

    ghost predicate Valid() { inUse.Length == EVENT_COUNT && buffer.Length == EVENT_COUNT }

    constructor ()
      ensures Valid() && fresh(inUse) && fresh(buffer)
      ensures forall i :: 0 <= i < EVENT_COUNT ==> !inUse[i]
    {
      inUse := new bool[EVENT_COUNT](_ => false);
      buffer := new seq<Byte>[EVENT_COUNT](_ => Zeroed());
    }

    /** get_free_event_entry: claims the first free slot; EVENT_COUNT stands for nullptr. */
    method GetFreeEventEntry() returns (entry: nat)
      requires Valid()
      modifies inUse
      ensures entry == FirstFree(old(inUse[..]))
      ensures inUse[..] == if entry < EVENT_COUNT then old(inUse[..])[entry := true] else old(inUse[..])
    {
      entry := 0;
      while entry < EVENT_COUNT
        invariant 0 <= entry <= EVENT_COUNT
        invariant inUse[..] == old(inUse[..])
        invariant FirstFree(inUse[..]) == entry + FirstFree(inUse[entry..])
      {
        if !inUse[entry] {
          inUse[entry] := true;
          return;
        }
        entry := entry + 1;
      }
    }

    /** release_event_object: clears the buffer and the flag of the given slot and of no other. */
    method ReleaseEventObject(event: int)
      requires Valid()
      modifies inUse, buffer
      ensures inUse[..] == Released(old(inUse[..]), event)
      ensures forall i :: 0 <= i < EVENT_COUNT ==>
                buffer[i] == if i == event then Zeroed() else old(buffer[i])
    {
      var i := 0;
      while i < EVENT_COUNT
        invariant 0 <= i <= EVENT_COUNT
        invariant forall j :: 0 <= j < EVENT_COUNT ==> inUse[j] == (old(inUse[j]) && !(j < i && j == event))
        invariant forall j :: 0 <= j < EVENT_COUNT ==>
                    buffer[j] == if j < i && j == event then Zeroed() else old(buffer[j])
      {
        if i == event {
          buffer[i] := Zeroed();
          inUse[i] := false;
        }
        i := i + 1;
      }
      assert inUse[..] == Released(old(inUse[..]), event);
    }

    /** get_buffer_from_event_object. */
    method GetBufferFromEventObject(event: int) returns (found: bool, data: seq<Byte>)
      requires Valid()
      ensures found <==> 0 <= event < EVENT_COUNT
      ensures found ==> data == buffer[event]
    {
      var i := 0;
      found, data := false, [];
      while i < EVENT_COUNT
        invariant 0 <= i <= EVENT_COUNT
        invariant !(0 <= event < i)
      {
        if i == event {
          return true, buffer[i];
        }
        i := i + 1;
      }
    }
  }

  // ----- any number of threads

  datatype Worker =
    | Waiting                            // in GetQueuedCompletionStatus
    | Handling(slot: nat)                // completion dequeued, slot not yet released
    | Arming(left: nat)                  // about to call send_pending_irp, `left` more calls follow
    | Claimed(slot: nat, left: nat)      // slot claimed, request not yet sent

  /** What becomes of a request: kept pending, completed at once, or refused. */
  datatype Reply = Pends | CompletesAtOnce | Refused

  /** `pending` are the slots of requests in the driver, `port` those of queued completions. */
  datatype State = State(inUse: seq<bool>, workers: seq<Worker>, pending: seq<nat>, port: seq<nat>, lost: seq<nat>)

  datatype Step =
    | Claim(t: nat)
    | Send(t: nat, reply: Reply)
    | DriverCompletes(k: nat)
    | Dequeue(t: nat)
    | Release(t: nat)

  predicate Enabled(s: State, step: Step) {
    match step
    case Claim(t) => t < |s.workers| && s.workers[t].Arming?
    case Send(t, _) => t < |s.workers| && s.workers[t].Claimed?
    case DriverCompletes(k) => k < |s.pending|
    case Dequeue(t) => t < |s.workers| && s.workers[t].Waiting? && s.port != []
    case Release(t) => t < |s.workers| && s.workers[t].Handling?
  }

  function Rest(left: nat): Worker { if left == 0 then Waiting else Arming(left - 1) }

  function Apply(s: State, step: Step): State
    requires Enabled(s, step)
  {
    match step
    case Claim(t) =>
      var i := FirstFree(s.inUse);
      var left := s.workers[t].left;
      if i == |s.inUse| then s.(workers := s.workers[t := Rest(left)])
      else s.(inUse := s.inUse[i := true], workers := s.workers[t := Claimed(i, left)])
    case Send(t, reply) =>
      var w := s.workers[t];
      var s' := s.(workers := s.workers[t := Rest(w.left)]);
      if reply.Pends? then s'.(pending := s.pending + [w.slot])
      else if reply.CompletesAtOnce? then s'.(port := s.port + [w.slot])
      else s'.(lost := s.lost + [w.slot])
    case DriverCompletes(k) =>
      s.(pending := s.pending[..k] + s.pending[k + 1..], port := s.port + [s.pending[k]])
    case Dequeue(t) => s.(port := s.port[1..], workers := s.workers[t := Handling(s.port[0])])
    case Release(t) =>
      var slot := s.workers[t].slot;
      s.(workers := s.workers[t := Arming(0)], inUse := Released(s.inUse, slot))
  }

  function HoldsSlot(w: Worker, slot: nat): nat {
    if (w.Handling? || w.Claimed?) && w.slot == slot then 1 else 0
  }

  function Holds(w: Worker, unit: ()): nat { if w.Handling? || w.Claimed? then 1 else 0 }

  /** Calls of send_pending_irp this thread still has to make before it waits. */
  function Owes(w: Worker, unit: ()): nat {
    if w.Arming? then w.left + 1 else if w.Claimed? then w.left else 0
  }

  /** How often a slot backs a request, a completion, or a thread's work. */
  ghost function Backs(s: State, slot: nat): nat {
    Count(s.pending, slot) + Count(s.port, slot) + Count(s.lost, slot) + Tally(HoldsSlot, s.workers, slot)
  }

  ghost predicate SlotOnce(s: State, slot: nat) {
    Backs(s, slot) == if slot < |s.inUse| && s.inUse[slot] then 1 else 0
  }

  ghost predicate Totals(s: State) {
    && |s.inUse| == EVENT_COUNT
    && Used(s.inUse) == |s.pending| + |s.port| + |s.lost| + Tally(Holds, s.workers, ())
    && Used(s.inUse) + Tally(Owes, s.workers, ()) == EVENT_COUNT
  }

  ghost predicate Inv(s: State) {
    Totals(s) && forall slot :: SlotOnce(s, slot)
  }

  /** initiate_completion_port is about to send five requests; the completion threads wait. */
  ghost predicate Start(s: State) {
    && s.inUse == seq(EVENT_COUNT, _ => false)
    && s.pending == [] && s.port == [] && s.lost == []
    && |s.workers| > 0 && s.workers[0] == Arming(EVENT_COUNT - 1)
    && forall t :: 0 < t < |s.workers| ==> s.workers[t].Waiting?
  }

  lemma StartHoldsInv(s: State)
    requires Start(s)
    ensures Inv(s)
  {
    forall slot
      ensures Tally(HoldsSlot, s.workers, slot) == 0
    {
      TallyZero(HoldsSlot, s.workers, slot);
    }
    TallyZero(Holds, s.workers, ());
    TallyZero(Owes, s.workers[1..], ());
    CountPositive(s.inUse, true);
  }

  /** A thread about to send a request always finds a free slot. */
  lemma ArmingFindsSlot(s: State, t: nat)
    requires Inv(s) && t < |s.workers| && s.workers[t].Arming?
    ensures FirstFree(s.inUse) < EVENT_COUNT
  {
    TallyAtLeast(Owes, s.workers, t, t, ());
    FullMeansAllUsed(s.inUse);
  }

  lemma ClaimKeeps(s: State, t: nat, slot: nat)
    requires Inv(s) && Enabled(s, Claim(t))
    ensures SlotOnce(Apply(s, Claim(t)), slot) && Totals(Apply(s, Claim(t)))
  {
    ArmingFindsSlot(s, t);
    var i := FirstFree(s.inUse);
    var w := Claimed(i, s.workers[t].left);
    assert SlotOnce(s, slot);
    TallyUpdate(HoldsSlot, s.workers, t, w, slot);
    CountUpdate(s.inUse, i, true, true);
    TallyUpdate(Holds, s.workers, t, w, ());
    TallyUpdate(Owes, s.workers, t, w, ());
  }

  lemma SendKeeps(s: State, t: nat, reply: Reply, slot: nat)
    requires Inv(s) && Enabled(s, Send(t, reply))
    ensures SlotOnce(Apply(s, Send(t, reply)), slot) && Totals(Apply(s, Send(t, reply)))
  {
    var w := s.workers[t];
    assert SlotOnce(s, slot);
    TallyUpdate(HoldsSlot, s.workers, t, Rest(w.left), slot);
    TallyUpdate(Holds, s.workers, t, Rest(w.left), ());
    TallyUpdate(Owes, s.workers, t, Rest(w.left), ());
    if reply.Pends? {
      CountAppend(s.pending, w.slot, slot);
    } else if reply.CompletesAtOnce? {
      CountAppend(s.port, w.slot, slot);
    } else {
      CountAppend(s.lost, w.slot, slot);
    }
  }

  lemma DriverCompletesKeeps(s: State, k: nat, slot: nat)
    requires Inv(s) && Enabled(s, DriverCompletes(k))
    ensures SlotOnce(Apply(s, DriverCompletes(k)), slot) && Totals(Apply(s, DriverCompletes(k)))
  {
    assert SlotOnce(s, slot);
    CountRemove(s.pending, k, slot);
    CountAppend(s.port, s.pending[k], slot);
  }

  lemma DequeueKeeps(s: State, t: nat, slot: nat)
    requires Inv(s) && Enabled(s, Dequeue(t))
    ensures SlotOnce(Apply(s, Dequeue(t)), slot) && Totals(Apply(s, Dequeue(t)))
  {
    var w := Handling(s.port[0]);
    assert SlotOnce(s, slot);
    TallyUpdate(HoldsSlot, s.workers, t, w, slot);
    TallyUpdate(Holds, s.workers, t, w, ());
    TallyUpdate(Owes, s.workers, t, w, ());
  }

  lemma ReleaseKeeps(s: State, t: nat, slot: nat)
    requires Inv(s) && Enabled(s, Release(t))
    ensures SlotOnce(Apply(s, Release(t)), slot) && Totals(Apply(s, Release(t)))
  {
    var held: nat := s.workers[t].slot;
    TallyAtLeast<Worker, nat>(HoldsSlot, s.workers, t, t, held);
    assert SlotOnce(s, held) && SlotOnce(s, slot);
    assert held < |s.inUse| && s.inUse[held];
    CountUpdate(s.inUse, held, false, true);
    TallyUpdate(HoldsSlot, s.workers, t, Arming(0), slot);
    TallyUpdate(Holds, s.workers, t, Arming(0), ());
    TallyUpdate(Owes, s.workers, t, Arming(0), ());
  }

  lemma StepKeeps(s: State, step: Step, slot: nat)
    requires Inv(s) && Enabled(s, step)
    ensures SlotOnce(Apply(s, step), slot) && Totals(Apply(s, step))
  {
    match step
    case Claim(t) => ClaimKeeps(s, t, slot);
    case Send(t, reply) => SendKeeps(s, t, reply, slot);
    case DriverCompletes(k) => DriverCompletesKeeps(s, k, slot);
    case Dequeue(t) => DequeueKeeps(s, t, slot);
    case Release(t) => ReleaseKeeps(s, t, slot);
  }

  predicate Legal(s: State, steps: seq<Step>)
    decreases |steps|
  {
    steps == [] || (Enabled(s, steps[0]) && Legal(Apply(s, steps[0]), steps[1..]))
  }

  function Run(s: State, steps: seq<Step>): State
    requires Legal(s, steps)
    decreases |steps|
  {
    if steps == [] then s else Run(Apply(s, steps[0]), steps[1..])
  }

  lemma {:induction false} RunKeepsInv(s: State, steps: seq<Step>)
    requires Inv(s) && Legal(s, steps)
    ensures Inv(Run(s, steps))
    decreases |steps|
  {
    if steps != [] {
      forall slot
        ensures SlotOnce(Apply(s, steps[0]), slot)
      {
        StepKeeps(s, steps[0], slot);
      }
      StepKeeps(s, steps[0], 0);
      RunKeepsInv(Apply(s, steps[0]), steps[1..]);
    }
  }

  predicate Refuses(step: Step) { step.Send? && step.reply.Refused? }

  predicate Keeps(step: Step) { step.Send? && step.reply.Pends? }

  predicate Answers(step: Step) { step.Send? && step.reply.CompletesAtOnce? }

  predicate Completes(step: Step) { step.DriverCompletes? }

  predicate Collects(step: Step) { step.Dequeue? }

  /** How often a step of the run is of the given kind. */
  function Times(steps: seq<Step>, kind: Step -> bool): nat {
    if steps == [] then 0 else (if kind(steps[0]) then 1 else 0) + Times(steps[1..], kind)
  }

  /**
   Exactly the slots of refused sends are lost; requests in the driver are those it kept less those it
   completed; and queued completions are those and the requests answered at once, less those collected.
   */
  lemma {:induction false} TrafficIsCounted(s: State, steps: seq<Step>)
    requires Legal(s, steps)
    ensures |Run(s, steps).lost| == |s.lost| + Times(steps, Refuses)
    ensures |Run(s, steps).pending| + Times(steps, Completes) == |s.pending| + Times(steps, Keeps)
    ensures |Run(s, steps).port| + Times(steps, Collects) == |s.port| + Times(steps, Answers) + Times(steps, Completes)
    decreases |steps|
  {
    if steps != [] {
      TrafficIsCounted(Apply(s, steps[0]), steps[1..]);
    }
  }

  /**
   Main result, for any number of completion threads, any order of completions, and sends that may
   be refused: the slots in use are the requests in the driver, the completions not yet released, the
   slots claimed but not sent and those lost to refused sends; no slot backs two of these; and a
   thread about to send always finds a free slot.
   */
  lemma SlotsAreConserved(s0: State, steps: seq<Step>)
    requires Start(s0) && Legal(s0, steps)
    ensures var s := Run(s0, steps);
            && Used(s.inUse) == |s.pending| + |s.port| + |s.lost| + Tally(Holds, s.workers, ())
            && |s.lost| == Times(steps, Refuses)
            && (forall slot :: SlotOnce(s, slot))
            && (forall t :: 0 <= t < |s.workers| && s.workers[t].Arming? ==> FirstFree(s.inUse) < EVENT_COUNT)
  {
    StartHoldsInv(s0);
    RunKeepsInv(s0, steps);
    TrafficIsCounted(s0, steps);
    var s := Run(s0, steps);
    forall t | 0 <= t < |s.workers| && s.workers[t].Arming?
      ensures FirstFree(s.inUse) < EVENT_COUNT
    {
      ArmingFindsSlot(s, t);
    }
  }
}
