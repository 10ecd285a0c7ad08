/**
 Every interleaving of one allocating thread (ValidateThreadsViaKernelApc), any number of stackwalk
 APCs and one querying thread (QueryActiveApcContextsForCompletion), at the grain of one locked
 section or one unlocked access per step.

 A step that touches freed memory, or frees it again, sets `fault`.
 */
module ApcProtocol {
  import opened ApcContext

  /** Where the allocating thread is (driver/modules.c). */
  datatype Allocator =
    | Idle
    | Build                              // nothing in progress was found
    | Insert(p: Ptr)                     // about to call InsertApcContext
    | Flag(p: Ptr)                       // inserted, allocation_in_progress not yet set
    | Enumerate(p: Ptr)                  // between two threads of the enumeration
    | CountLookup(p: Ptr)                // an APC is queued but not counted
    | CountAdd(p: Ptr, header: Ptr)      // IncrementApcCount has fetched the header

  datatype Stage =
    | Queued
    | Running                            // inside ApcKernelRoutine, may read the module data
    | Lookup                             // APC object freed, about to look the context up
    | Decrement(header: Ptr)             // header fetched, count not yet lowered
    | Abandoned                          // left through the early return, never decremented

  datatype Apc = Apc(ctx: Ptr, stage: Stage)

  datatype Query =
    | At(index: nat)
    | Fetched(index: nat, entry: Ptr)    // GetApcContextByIndex returned, lock dropped
    | Freeing(index: nat, entry: Ptr)    // decided to free; the lock is held

  datatype State = State(table: Table, unloading: bool, alloc: Allocator,
                         apcs: map<nat, Apc>, query: Query, fault: bool)

  datatype Step =
    | StartLookup | AllocFails | AllocOk(p: Ptr) | InsertContext | SetFlag | ClearFlag
    | QueueApc(a: nat) | CountLookupStep | CountAddStep
    | Deliver(a: nat) | ReadModules(a: nat) | Rundown(a: nat) | Leave(a: nat) | Finish(a: nat)
    | DecrementLookup(a: nat) | DecrementApply(a: nat)
    | QueryFetch | QueryCheck | QueryFree
    | Unload

  predicate Start(s: State) {
    s == State(Table(seq(MAXIMUM_APC_CONTEXTS, _ => NULL), map[], {}), false, Idle, map[], At(0), false)
  }

  predicate AtStage(s: State, a: nat, stage: Stage) {
    a in s.apcs && s.apcs[a].stage == stage
  }

  predicate LockFree(s: State) { !s.query.Freeing? }

  predicate Enabled(s: State, step: Step) {
    match step
    case StartLookup => s.alloc.Idle? && LockFree(s)
    case AllocFails => s.alloc.Build?
    case AllocOk(p) => s.alloc.Build? && p != NULL && p !in s.table.contexts && p !in s.table.modules
    case InsertContext => s.alloc.Insert? && LockFree(s)
    case SetFlag => s.alloc.Flag?
    case ClearFlag => s.alloc.Enumerate?
    case QueueApc(a) => s.alloc.Enumerate? && a !in s.apcs
    case CountLookupStep => s.alloc.CountLookup? && LockFree(s)
    case CountAddStep => s.alloc.CountAdd? && LockFree(s)
    case Deliver(a) => AtStage(s, a, Queued)
    case ReadModules(a) => AtStage(s, a, Running)
    case Rundown(a) => AtStage(s, a, Queued)
    case Leave(a) => AtStage(s, a, Running)
    case Finish(a) => AtStage(s, a, Running)
    case DecrementLookup(a) => AtStage(s, a, Lookup) && LockFree(s)
    case DecrementApply(a) => a in s.apcs && s.apcs[a].stage.Decrement? && LockFree(s)
    case QueryFetch => s.query.At? && s.query.index < |s.table.slots|
    case QueryCheck => s.query.Fetched?
    case QueryFree => s.query.Freeing?
    case Unload => true
  }

  function Fault(s: State): State { s.(fault := true) }

  function SetContext(s: State, p: Ptr, c: Context): State {
    s.(table := s.table.(contexts := s.table.contexts[p := c]))
  }

  function SetStage(s: State, a: nat, stage: Stage): State
    requires a in s.apcs
  {
    s.(apcs := s.apcs[a := s.apcs[a].(stage := stage)])
  }

  /** The query moves to the next slot; after the last one the call returns. */
  function NextIndex(i: nat): nat {
    if i + 1 < MAXIMUM_APC_CONTEXTS then i + 1 else 0
  }

  function Stackwalk(s: State): Ptr {
    FindById(s.table.slots, s.table.contexts, APC_CONTEXT_ID_STACKWALK, 0)
  }

  function Apply(s: State, step: Step): State
    requires Enabled(s, step)
  {
    match step
    case StartLookup => if Stackwalk(s) != NULL then s else s.(alloc := Build)
    case AllocFails => s.(alloc := Idle)
    case AllocOk(p) =>
      var t := s.table.(contexts := s.table.contexts[p := Context(APC_CONTEXT_ID_STACKWALK, 0, false)],
                        modules := s.table.modules + {p});
      s.(table := t, alloc := Insert(p))
    case InsertContext =>
      var i := FirstFree(s.table.slots, 0);
      var s' := s.(alloc := Flag(s.alloc.p));
      if s.unloading || i == |s.table.slots| then s'
      else s'.(table := s.table.(slots := s.table.slots[i := s.alloc.p]))
    case SetFlag =>
      var p := s.alloc.p;
      if p !in s.table.contexts then Fault(s)
      else SetContext(s.(alloc := Enumerate(p)), p, s.table.contexts[p].(allocating := true))
    case ClearFlag =>
      var p := s.alloc.p;
      if p !in s.table.contexts then Fault(s)
      else SetContext(s.(alloc := Idle), p, s.table.contexts[p].(allocating := false))
    case QueueApc(a) => s.(alloc := CountLookup(s.alloc.p), apcs := s.apcs[a := Apc(s.alloc.p, Queued)])
    case CountLookupStep => s.(alloc := CountAdd(s.alloc.p, Stackwalk(s)))
    case CountAddStep =>
      var h := s.alloc.header;
      var s' := s.(alloc := Enumerate(s.alloc.p));
      if h == NULL then s'
      else if h !in s.table.contexts then Fault(s)
      else SetContext(s', h, s.table.contexts[h].(count := s.table.contexts[h].count + 1))
    case Deliver(a) => SetStage(s, a, Running)
    case ReadModules(a) =>
      if s.apcs[a].ctx in s.table.contexts && s.apcs[a].ctx in s.table.modules then s else Fault(s)
    case Rundown(a) => SetStage(s, a, Lookup)
    case Leave(a) => SetStage(s, a, Abandoned)
    case Finish(a) => SetStage(s, a, Lookup)
    case DecrementLookup(a) => SetStage(s, a, Decrement(Stackwalk(s)))
    case DecrementApply(a) =>
      var h := s.apcs[a].stage.header;
      var s' := s.(apcs := s.apcs - {a});
      if h == NULL then s'
      else if h !in s.table.contexts then Fault(s)
      else SetContext(s', h, s.table.contexts[h].(count := s.table.contexts[h].count - 1))
    case QueryFetch => s.(query := Fetched(s.query.index, s.table.slots[s.query.index]))
    case QueryCheck =>
      var Fetched(i, e) := s.query;
      if e == NULL then s.(query := At(NextIndex(i)))
      else if e !in s.table.contexts then Fault(s)
      else if Reclaimable(s.table.contexts[e]) then s.(query := Freeing(i, e))
      else s.(query := At(NextIndex(i)))
    case QueryFree =>
      var Freeing(i, e) := s.query;
      var k := SlotOf(s.table.slots, e, 0);
      if e !in s.table.contexts || e !in s.table.modules then Fault(s)
      else if k < |s.table.slots| && s.table.contexts[e].count <= 0 then
        s.(table := Table(s.table.slots[k := NULL], s.table.contexts - {e}, s.table.modules - {e}),
           query := At(NextIndex(i)))
      else
        s.(table := s.table.(modules := s.table.modules - {e}), query := At(NextIndex(i)))
    case Unload => s.(unloading := true)
  }

  // ----- the window between insertion and the flag

  /** The query looks at a context that has been inserted but not yet flagged. */
  predicate InWindow(s: State, step: Step) {
    step.QueryCheck? && s.query.Fetched? && s.query.entry != NULL && s.alloc == Flag(s.query.entry)
  }

  /** Runs in which no query looks at a context inside that window. */
  predicate Legal(s: State, steps: seq<Step>)
    decreases |steps|
  {
    steps == [] || (Enabled(s, steps[0]) && !InWindow(s, steps[0]) && Legal(Apply(s, steps[0]), steps[1..]))
  }

  predicate Possible(s: State, steps: seq<Step>)
    decreases |steps|
  {
    steps == [] || (Enabled(s, steps[0]) && Possible(Apply(s, steps[0]), steps[1..]))
  }

  function Run(s: State, steps: seq<Step>): State
    requires Possible(s, steps)
    decreases |steps|
  {
    if steps == [] then s else Run(Apply(s, steps[0]), steps[1..])
  }

  // ----- the invariant

  /** The APCs that carry context `p` and have not been decremented. */
  function Carrying(apcs: map<nat, Apc>, p: Ptr): set<nat> {
    set a | a in apcs && apcs[a].ctx == p
  }

  /** An APC has been queued that IncrementApcCount has not counted yet. */
  function Uncounted(alloc: Allocator, p: Ptr): nat {
    if (alloc.CountLookup? || alloc.CountAdd?) && alloc.p == p then 1 else 0
  }

  ghost predicate Vacant(t: Table) {
    forall i :: 0 <= i < |t.slots| ==> t.slots[i] == NULL
  }

  ghost predicate Live(t: Table, p: Ptr) {
    p != NULL && p in t.contexts && p in t.modules && t.contexts[p].id == APC_CONTEXT_ID_STACKWALK
  }

  /** A context in use is in a slot, unless it was created while unloading; then no slot is used. */
  ghost predicate Placed(s: State, p: Ptr) {
    Live(s.table, p) && (p in s.table.slots || (s.unloading && Vacant(s.table)))
  }

  ghost predicate TableInv(t: Table) {
    && |t.slots| == MAXIMUM_APC_CONTEXTS
    && (forall i :: 0 <= i < |t.slots| && t.slots[i] != NULL ==> Live(t, t.slots[i]))
    && (forall i, j :: 0 <= i < j < |t.slots| ==> t.slots[i] == NULL || t.slots[j] == NULL)
  }

  ghost predicate AllocInv(s: State) {
    match s.alloc
    case Idle => forall p :: p != NULL && p in s.table.slots && p in s.table.contexts ==> !s.table.contexts[p].allocating
    case Build => Vacant(s.table)
    case Insert(p) =>
      && Vacant(s.table) && Live(s.table, p)
      && s.table.contexts[p] == Context(APC_CONTEXT_ID_STACKWALK, 0, false) && Carrying(s.apcs, p) == {}
    case Flag(p) =>
      && Placed(s, p)
      && s.table.contexts[p] == Context(APC_CONTEXT_ID_STACKWALK, 0, false) && Carrying(s.apcs, p) == {}
    case Enumerate(p) => Placed(s, p) && s.table.contexts[p].allocating
    case CountLookup(p) => Placed(s, p) && s.table.contexts[p].allocating
    case CountAdd(p, h) =>
      && Placed(s, p) && s.table.contexts[p].allocating
      && h == (if p in s.table.slots then p else NULL)
  }

  ghost predicate ApcInv(s: State) {
    forall a :: a in s.apcs ==>
      && Placed(s, s.apcs[a].ctx)
      && (s.apcs[a].stage.Decrement? ==>
            s.apcs[a].stage.header == if s.apcs[a].ctx in s.table.slots then s.apcs[a].ctx else NULL)
  }

  /** count + (APCs queued but not counted) = APCs not yet decremented. */
  ghost predicate CountLaw(s: State) {
    forall p :: p != NULL && p in s.table.slots && p in s.table.contexts ==>
      s.table.contexts[p].count + Uncounted(s.alloc, p) == |Carrying(s.apcs, p)|
  }

  ghost predicate QueryInv(s: State) {
    && s.query.index < |s.table.slots|
    && match s.query
       case At(i) => true
       case Fetched(i, e) => e != NULL ==> s.table.slots[i] == e
       case Freeing(i, e) =>
         && e != NULL && s.table.slots[i] == e && s.alloc.Idle? && s.apcs == map[]
         && e in s.table.contexts && Reclaimable(s.table.contexts[e])
  }

  ghost predicate Inv(s: State) {
    !s.fault && TableInv(s.table) && AllocInv(s) && ApcInv(s) && CountLaw(s) && QueryInv(s)
  }

  // ----- what the invariant says about the table

  lemma Occupant(t: Table, p: Ptr, q: Ptr)
    requires TableInv(t)
    requires p != NULL && q != NULL && p in t.slots && q in t.slots
    ensures p == q
  {
    var i :| 0 <= i < |t.slots| && t.slots[i] == p;
    var j :| 0 <= j < |t.slots| && t.slots[j] == q;
  }

  /** Looking the stackwalk identifier up yields the only occupant. */
  lemma LookupFindsOccupant(s: State)
    requires TableInv(s.table)
    ensures Vacant(s.table) <==> Stackwalk(s) == NULL
    ensures forall p :: p != NULL && p in s.table.slots ==> Stackwalk(s) == p
  {
    var t := s.table;
    forall p | p != NULL && p in t.slots
      ensures Stackwalk(s) == p
    {
      var i :| 0 <= i < |t.slots| && t.slots[i] == p;
      assert Live(t, t.slots[i]);
      Occupant(t, p, Stackwalk(s));
    }
    if !Vacant(t) {
      var i :| 0 <= i < |t.slots| && t.slots[i] != NULL;
      assert t.slots[i] in t.slots;
    }
  }

  /** With a context in a slot, every APC and the allocating thread work on that context. */
  lemma OneContext(s: State, p: Ptr)
    requires Inv(s) && p != NULL && p in s.table.slots
    ensures forall a :: a in s.apcs ==> s.apcs[a].ctx == p
    ensures Carrying(s.apcs, p) == s.apcs.Keys
    ensures s.alloc.Idle? || (!s.alloc.Build? && !s.alloc.Insert? && s.alloc.p == p)
  {
    forall a | a in s.apcs
      ensures s.apcs[a].ctx == p
    {
      Occupied(s, p, s.apcs[a].ctx);
    }
    assert !Vacant(s.table);
    if !s.alloc.Idle? && !s.alloc.Build? && !s.alloc.Insert? {
      Occupied(s, p, s.alloc.p);
    }
  }

  lemma Occupied(s: State, p: Ptr, q: Ptr)
    requires TableInv(s.table) && p != NULL && p in s.table.slots && Placed(s, q)
    ensures q == p
  {
    assert !Vacant(s.table);
    Occupant(s.table, p, q);
  }

  lemma CarryingGrows(apcs: map<nat, Apc>, a: nat, apc: Apc)
    requires a !in apcs
    ensures forall p :: Carrying(apcs[a := apc], p) == if p == apc.ctx then Carrying(apcs, p) + {a} else Carrying(apcs, p)
    ensures |Carrying(apcs[a := apc], apc.ctx)| == |Carrying(apcs, apc.ctx)| + 1
  {
    assert Carrying(apcs[a := apc], apc.ctx) == Carrying(apcs, apc.ctx) + {a};
    forall p | p != apc.ctx
      ensures Carrying(apcs[a := apc], p) == Carrying(apcs, p)
    {
    }
  }

  lemma CarryingShrinks(apcs: map<nat, Apc>, a: nat)
    requires a in apcs
    ensures forall p :: p != apcs[a].ctx ==> Carrying(apcs - {a}, p) == Carrying(apcs, p)
    ensures |Carrying(apcs - {a}, apcs[a].ctx)| == |Carrying(apcs, apcs[a].ctx)| - 1
  {
    assert Carrying(apcs, apcs[a].ctx) == Carrying(apcs - {a}, apcs[a].ctx) + {a};
    forall p | p != apcs[a].ctx
      ensures Carrying(apcs - {a}, p) == Carrying(apcs, p)
    {
    }
  }

  lemma CarryingKept(apcs: map<nat, Apc>, a: nat, stage: Stage)
    requires a in apcs
    ensures forall p :: Carrying(apcs[a := apcs[a].(stage := stage)], p) == Carrying(apcs, p)
  {
  }

  // ----- each step keeps the invariant

  predicate AllocatorStep(step: Step) {
    step.StartLookup? || step.AllocFails? || step.AllocOk? || step.InsertContext? || step.SetFlag? || step.ClearFlag?
  }

  lemma AllocatorKeeps(s: State, step: Step)
    requires Inv(s) && Enabled(s, step) && AllocatorStep(step)
    ensures Inv(Apply(s, step))
  {
    LookupFindsOccupant(s);
    var s' := Apply(s, step);
    match step
    case AllocOk(p) =>
      assert s'.table.slots == s.table.slots;
      forall a | a in s.apcs
        ensures s.apcs[a].ctx != p && Placed(s', s.apcs[a].ctx)
      {
      }
    case InsertContext => InsertKeeps(s);
    case SetFlag => FlagKeeps(s, s.alloc.p, true);
    case ClearFlag => FlagKeeps(s, s.alloc.p, false);
    case _ =>
  }

  lemma InsertKeeps(s: State)
    requires Inv(s) && Enabled(s, InsertContext)
    ensures Inv(Apply(s, InsertContext))
  {
    var s' := Apply(s, InsertContext);
    var p := s.alloc.p;
    assert FirstFree(s.table.slots, 0) == 0;
    if s.unloading {
      assert s'.table == s.table;
    } else {
      assert s.apcs.Keys == {};
      assert s'.table.slots[0] == p;
      assert forall i :: 0 < i < |s'.table.slots| ==> s'.table.slots[i] == NULL;
      assert Carrying(s'.apcs, p) == {};
      assert forall q :: q != NULL && q in s'.table.slots ==> q == p;
    }
  }

  lemma FlagKeeps(s: State, p: Ptr, on: bool)
    requires Inv(s)
    requires s.alloc == if on then Flag(p) else Enumerate(p)
    ensures var next := SetContext(s.(alloc := if on then Enumerate(p) else Idle), p,
                                   s.table.contexts[p].(allocating := on));
            Inv(next)
  {
    var next := SetContext(s.(alloc := if on then Enumerate(p) else Idle), p,
                           s.table.contexts[p].(allocating := on));
    assert next.table.slots == s.table.slots;
    assert Placed(s, p);
    AllOccupantsAre(s, p);
    forall a | a in s.apcs
      ensures Placed(next, s.apcs[a].ctx)
    {
      assert Placed(s, s.apcs[a].ctx);
    }
    assert forall i :: 0 <= i < |next.table.slots| && next.table.slots[i] != NULL ==> Live(s.table, s.table.slots[i]);
  }

  predicate CountingStep(step: Step) {
    step.QueueApc? || step.CountLookupStep? || step.CountAddStep?
  }

  lemma CountingKeeps(s: State, step: Step)
    requires Inv(s) && Enabled(s, step) && CountingStep(step)
    ensures Inv(Apply(s, step))
  {
    match step
    case QueueApc(a) => QueueKeeps(s, a);
    case CountAddStep => CountAddKeeps(s);
    case _ => LookupFindsOccupant(s);
  }

  lemma QueueKeeps(s: State, a: nat)
    requires Inv(s) && Enabled(s, QueueApc(a))
    ensures Inv(Apply(s, QueueApc(a)))
  {
    var s' := Apply(s, QueueApc(a));
    var p := s.alloc.p;
    assert Placed(s, p);
    AllOccupantsAre(s, p);
    CarryingGrows(s.apcs, a, Apc(p, Queued));
  }

  lemma CountAddKeeps(s: State)
    requires Inv(s) && Enabled(s, CountAddStep)
    ensures Inv(Apply(s, CountAddStep))
  {
    var s' := Apply(s, CountAddStep);
    var p := s.alloc.p;
    assert Placed(s, p);
    AllOccupantsAre(s, p);
    RecountKeeps(s, s', s.alloc.header);
  }

  lemma AllOccupantsAre(s: State, p: Ptr)
    requires TableInv(s.table) && Placed(s, p)
    ensures forall q :: q != NULL && q in s.table.slots ==> q == p
  {
    forall q | q != NULL && q in s.table.slots
      ensures q == p
    {
      Occupied(s, q, p);
    }
  }

  /** Changing only a count keeps everything that does not speak of counts. */
  lemma RecountKeeps(s: State, s': State, h: Ptr)
    requires Inv(s)
    requires s'.table.slots == s.table.slots && s'.table.modules == s.table.modules
    requires s'.table.contexts.Keys == s.table.contexts.Keys
    requires forall p :: p in s.table.contexts ==>
               s'.table.contexts[p] == if p == h then s.table.contexts[p].(count := s'.table.contexts[p].count)
                                       else s.table.contexts[p]
    requires s'.unloading == s.unloading
    ensures TableInv(s'.table)
    ensures forall p :: Placed(s, p) ==> Placed(s', p)
    ensures Vacant(s.table) <==> Vacant(s'.table)
  {
    forall i | 0 <= i < |s'.table.slots| && s'.table.slots[i] != NULL
      ensures Live(s'.table, s'.table.slots[i])
    {
      assert Live(s.table, s.table.slots[i]);
    }
  }

  predicate ApcStep(step: Step) {
    step.Deliver? || step.ReadModules? || step.Rundown? || step.Leave? || step.Finish? || step.DecrementLookup?
  }

  lemma ApcKeeps(s: State, step: Step)
    requires Inv(s) && Enabled(s, step) && ApcStep(step)
    ensures Inv(Apply(s, step))
  {
    assert Placed(s, s.apcs[step.a].ctx);
    if !step.ReadModules? {
      LookupFindsOccupant(s);
      StageKeeps(s, step.a, Apply(s, step).apcs[step.a].stage);
    }
  }

  lemma StageKeeps(s: State, a: nat, stage: Stage)
    requires Inv(s) && a in s.apcs
    requires stage.Decrement? ==> stage.header == Stackwalk(s)
    ensures Inv(SetStage(s, a, stage))
  {
    var s' := SetStage(s, a, stage);
    LookupFindsOccupant(s);
    CarryingKept(s.apcs, a, stage);
    assert s'.table == s.table && s'.alloc == s.alloc;
    forall b | b in s'.apcs
      ensures Placed(s', s'.apcs[b].ctx)
    {
      assert Placed(s, s.apcs[b].ctx);
    }
    assert QueryInv(s') by { assert a in s.apcs; }
  }

  lemma DecrementKeeps(s: State, a: nat)
    requires Inv(s) && Enabled(s, DecrementApply(a))
    ensures Inv(Apply(s, DecrementApply(a)))
  {
    var s' := Apply(s, DecrementApply(a));
    var p := s.apcs[a].ctx;
    var h := s.apcs[a].stage.header;
    assert Placed(s, p);
    CarryingShrinks(s.apcs, a);
    RecountKeeps(s, s', h);
    AllOccupantsAre(s, p);
    assert forall b :: b in s'.apcs ==> b in s.apcs && s'.apcs[b] == s.apcs[b];
    if s.alloc.Flag? {
      assert a in Carrying(s.apcs, p);
      assert s.alloc.p != p;
      assert Placed(s, s.alloc.p);
      assert Carrying(s'.apcs, s.alloc.p) == {};
    }
    if s.alloc.Insert? {
      assert a in Carrying(s.apcs, p);
      assert Carrying(s'.apcs, s.alloc.p) == {};
    }
  }

  predicate QueryStep(step: Step) {
    step.QueryFetch? || step.QueryCheck? || step.QueryFree?
  }

  lemma QueryKeeps(s: State, step: Step)
    requires Inv(s) && Enabled(s, step) && QueryStep(step) && !InWindow(s, step)
    ensures Inv(Apply(s, step))
  {
    if step.QueryCheck? && s.query.entry != NULL {
      CheckSparesUsers(s);
    }
    if step.QueryFree? {
      var s' := Apply(s, step);
      var Freeing(i, e) := s.query;
      assert SlotOf(s.table.slots, e, 0) == i;
      assert forall j :: 0 <= j < |s'.table.slots| ==> s'.table.slots[j] == NULL;
    }
  }

  /** A context that passes the check outside the window is used by nobody. */
  lemma CheckSparesUsers(s: State)
    requires Inv(s) && s.query.Fetched? && s.query.entry != NULL && s.alloc != Flag(s.query.entry)
    ensures Reclaimable(s.table.contexts[s.query.entry]) ==> s.alloc.Idle? && s.apcs == map[]
  {
    var e := s.query.entry;
    assert e in s.table.slots;
    assert Live(s.table, e);
    OneContext(s, e);
    if Reclaimable(s.table.contexts[e]) {
      assert s.alloc.Idle?;
      assert |Carrying(s.apcs, e)| == 0;
      assert s.apcs.Keys == {};
    }
  }

  lemma StepKeepsInv(s: State, step: Step)
    requires Inv(s) && Enabled(s, step) && !InWindow(s, step)
    ensures Inv(Apply(s, step))
  {
    if AllocatorStep(step) {
      AllocatorKeeps(s, step);
    } else if CountingStep(step) {
      CountingKeeps(s, step);
    } else if ApcStep(step) {
      ApcKeeps(s, step);
    } else if QueryStep(step) {
      QueryKeeps(s, step);
    } else if step.DecrementApply? {
      DecrementKeeps(s, step.a);
    }
  }

  lemma {:induction false} RunKeepsInv(s: State, steps: seq<Step>)
    requires Inv(s) && Legal(s, steps)
    ensures Possible(s, steps) && Inv(Run(s, steps))
    decreases |steps|
  {
    if steps != [] {
      StepKeepsInv(s, steps[0]);
      RunKeepsInv(Apply(s, steps[0]), steps[1..]);
    }
  }

  // ----- main results

  /**
   In every run that keeps the query out of the window, no freed memory is touched or freed again,
   every APC not yet decremented has its context and module data live, and the count of a context
   in a slot plus the APCs not yet counted is the number of APCs not yet decremented.
   */
  lemma ContextOutlivesItsApcs(s0: State, steps: seq<Step>)
    requires Start(s0) && Legal(s0, steps)
    ensures Possible(s0, steps)
    ensures var s := Run(s0, steps);
            && !s.fault
            && (forall a :: a in s.apcs ==> s.apcs[a].ctx in s.table.contexts && s.apcs[a].ctx in s.table.modules)
            && (!s.alloc.Idle? && !s.alloc.Build? ==> s.alloc.p in s.table.contexts)
            && CountLaw(s)
  {
    assert forall i :: 0 <= i < |s0.table.slots| ==> s0.table.slots[i] == NULL;
    RunKeepsInv(s0, steps);
    var s := Run(s0, steps);
    forall a | a in s.apcs
      ensures s.apcs[a].ctx in s.table.contexts && s.apcs[a].ctx in s.table.modules
    {
      assert Placed(s, s.apcs[a].ctx);
    }
  }

  /**
   The window is exactly what must be avoided: the check keeps the invariant if and only if the
   context it looks at is not waiting for its flag, and if it is, the allocating thread's next
   access hits freed memory.
   */
  lemma WindowIsExact(s: State)
    requires Inv(s) && s.query.Fetched?
    ensures Inv(Apply(s, QueryCheck)) <==> !InWindow(s, QueryCheck)
    ensures InWindow(s, QueryCheck) ==>
              var bad := [QueryCheck, QueryFree, SetFlag];
              Possible(s, bad) && Run(s, bad).fault
  {
    if InWindow(s, QueryCheck) {
      var s1 := Apply(s, QueryCheck);
      assert s1.query.Freeing?;
      var s2 := Apply(s1, QueryFree);
      assert Live(s.table, s.query.entry);
      assert s.query.entry !in s2.table.contexts;
      var bad := [QueryCheck, QueryFree, SetFlag];
      assert bad[1..] == [QueryFree, SetFlag] && bad[1..][1..] == [SetFlag] && bad[1..][1..][1..] == [];
    } else {
      StepKeepsInv(s, QueryCheck);
    }
  }

  /** The window is reachable: the whole failing run from the initial state. */
  lemma WindowIsReachable(s0: State)
    requires Start(s0)
    ensures var steps := [StartLookup, AllocOk(1), InsertContext, QueryFetch];
            Legal(s0, steps) && Possible(s0, steps) && InWindow(Run(s0, steps), QueryCheck)
  {
    var steps := [StartLookup, AllocOk(1), InsertContext, QueryFetch];
    assert forall i :: 0 <= i < |s0.table.slots| ==> s0.table.slots[i] == NULL;
    assert Stackwalk(s0) == NULL;
    var s1 := Apply(s0, StartLookup);
    var s2 := Apply(s1, AllocOk(1));
    assert FirstFree(s2.table.slots, 0) == 0;
    var s3 := Apply(s2, InsertContext);
    assert steps[1..] == [AllocOk(1), InsertContext, QueryFetch];
    assert steps[1..][1..] == [InsertContext, QueryFetch];
    assert steps[1..][1..][1..] == [QueryFetch];
    assert steps[1..][1..][1..][1..] == [];
    assert Legal(s2, [InsertContext, QueryFetch]);
  }

  // ----- completion

  /** The steps of the query over slot `i`, uninterrupted. */
  function SlotSteps(s: State): seq<Step>
    requires s.query.At? && s.query.index < |s.table.slots|
  {
    var e := s.table.slots[s.query.index];
    if e != NULL && e in s.table.contexts && Reclaimable(s.table.contexts[e])
    then [QueryFetch, QueryCheck, QueryFree]
    else [QueryFetch, QueryCheck]
  }

  /** What the query does to one slot: the table of SweepOne, and the next index. */
  lemma SlotSwept(s: State)
    requires Inv(s) && s.query.At? && !s.alloc.Flag?
    ensures Legal(s, SlotSteps(s)) && Possible(s, SlotSteps(s))
    ensures var i := s.query.index;
            var s' := Run(s, SlotSteps(s));
            && Inv(s')
            && s' == s.(table := s'.table, query := At(NextIndex(i)))
            && (ReclaimedAt(s.table, i) ==>
                  s'.table == Table(s.table.slots[i := NULL], s.table.contexts - {s.table.slots[i]},
                                    s.table.modules - {s.table.slots[i]}))
            && (!ReclaimedAt(s.table, i) ==> s'.table == s.table)
  {
    var s1 := Apply(s, QueryFetch);
    StepKeepsInv(s, QueryFetch);
    StepKeepsInv(s1, QueryCheck);
    var s2 := Apply(s1, QueryCheck);
    if s2.query.Freeing? {
      StepKeepsInv(s2, QueryFree);
      assert SlotOf(s2.table.slots, s2.query.entry, 0) == s.query.index;
      ThreeSteps(s, QueryFetch, QueryCheck, QueryFree);
    } else {
      TwoSteps(s, QueryFetch, QueryCheck);
    }
  }

  lemma TwoSteps(s: State, a: Step, b: Step)
    requires Enabled(s, a) && !InWindow(s, a)
    requires Enabled(Apply(s, a), b) && !InWindow(Apply(s, a), b)
    ensures Legal(s, [a, b]) && Possible(s, [a, b])
    ensures Run(s, [a, b]) == Apply(Apply(s, a), b)
  {
    assert [a, b][1..] == [b] && [b][1..] == [];
    assert Legal(Apply(s, a), [b]);
    assert Run(Apply(s, a), [b]) == Run(Apply(Apply(s, a), b), []);
  }

  lemma ThreeSteps(s: State, a: Step, b: Step, c: Step)
    requires Enabled(s, a) && !InWindow(s, a)
    requires Enabled(Apply(s, a), b) && !InWindow(Apply(s, a), b)
    requires Enabled(Apply(Apply(s, a), b), c) && !InWindow(Apply(Apply(s, a), b), c)
    ensures Legal(s, [a, b, c]) && Possible(s, [a, b, c])
    ensures Run(s, [a, b, c]) == Apply(Apply(Apply(s, a), b), c)
  {
    assert [a, b, c][1..] == [b, c];
    TwoSteps(Apply(s, a), b, c);
  }

  /** The state after an uninterrupted query has passed the slots from `s.query.index` on. */
  ghost function Pass(s: State): State
    requires Inv(s) && s.query.At? && !s.alloc.Flag?
    decreases MAXIMUM_APC_CONTEXTS - s.query.index
  {
    SlotSwept(s);
    var s' := Run(s, SlotSteps(s));
    if s'.query.index == 0 then s' else Pass(s')
  }

  lemma WellFormedFromInv(t: Table)
    requires TableInv(t)
    ensures WellFormed(t)
  {
    forall i | 0 <= i < |t.slots| && t.slots[i] != NULL
      ensures t.slots[i] in t.contexts && t.slots[i] in t.modules
    {
      assert Live(t, t.slots[i]);
    }
  }

  lemma {:induction false} PassSweeps(s: State, before: Table)
    requires Inv(s) && s.query.At? && !s.alloc.Flag?
    requires WellFormed(before) && Swept(before, s.table, s.query.index)
    ensures var s' := Pass(s);
            && Inv(s') && s'.query == At(0)
            && s' == s.(table := s'.table, query := At(0))
            && Swept(before, s'.table, MAXIMUM_APC_CONTEXTS)
    decreases MAXIMUM_APC_CONTEXTS - s.query.index
  {
    var s' := SlotOfPass(s, before);
    if s'.query.index != 0 {
      PassSweeps(s', before);
    }
  }

  /** One slot of a pass. */
  lemma SlotOfPass(s: State, before: Table) returns (s': State)
    requires Inv(s) && s.query.At? && !s.alloc.Flag?
    requires WellFormed(before) && Swept(before, s.table, s.query.index)
    ensures Legal(s, SlotSteps(s)) && Possible(s, SlotSteps(s)) && s' == Run(s, SlotSteps(s))
    ensures Inv(s') && s' == s.(table := s'.table, query := At(NextIndex(s.query.index)))
    ensures Swept(before, s'.table, s.query.index + 1)
  {
    SlotSwept(s);
    s' := Run(s, SlotSteps(s));
    WellFormedFromInv(s.table);
    SweepOne(before, s.table, s'.table, s.query.index);
  }

  /**
   An uninterrupted query computes what QueryActiveApcContextsForCompletion computes, and it frees
   the context in a slot, with its module data, if and only if the allocation has ended and no APC
   carrying it is left; then every slot is clear and a new operation can start.
   */
  lemma QueryReclaimsWhenDone(s: State, p: Ptr)
    requires Inv(s) && s.query == At(0) && !s.alloc.Flag?
    requires p != NULL && p in s.table.slots
    ensures var s' := Pass(s);
            && Inv(s') && Swept(s.table, s'.table, MAXIMUM_APC_CONTEXTS)
            && (p !in s'.table.contexts <==> s.alloc.Idle? && Carrying(s.apcs, p) == {})
            && (p !in s'.table.modules <==> p !in s'.table.contexts)
            && (p !in s'.table.contexts ==>
                  && Vacant(s'.table)
                  && Enabled(s', StartLookup) && Apply(s', StartLookup).alloc.Build?)
  {
    WellFormedFromInv(s.table);
    PassSweeps(s, s.table);
    var s' := Pass(s);
    OneContext(s, p);
    var i :| 0 <= i < |s.table.slots| && s.table.slots[i] == p;
    assert Live(s.table, s.table.slots[i]);
    assert p !in s'.table.contexts <==> ReclaimedAt(s.table, i);
    assert Reclaimable(s.table.contexts[p]) <==> s.alloc.Idle? && Carrying(s.apcs, p) == {};
    if p !in s'.table.contexts {
      forall j | 0 <= j < |s'.table.slots|
        ensures s'.table.slots[j] == NULL
      {
      }
      LookupFindsOccupant(s');
    }
  }

  lemma StepKeepsAbandoned(s: State, step: Step, a: nat)
    requires Enabled(s, step) && AtStage(s, a, Abandoned)
    ensures AtStage(Apply(s, step), a, Abandoned) && Apply(s, step).apcs[a].ctx == s.apcs[a].ctx
  {
  }

  // ----- completion in any interleaving

  /** Allocation has ended, and no APC is left to carry the context in the slot. */
  ghost predicate Done(s: State, p: Ptr) {
    Inv(s) && p != NULL && p in s.table.slots && s.alloc.Idle? && s.apcs == map[]
  }

  /** The query has not yet passed slot `i`, which holds `p`. */
  ghost predicate Ahead(s: State, p: Ptr, i: nat) {
    && i < |s.table.slots| && s.table.slots[i] == p
    && match s.query
       case At(j) => j <= i
       case Fetched(j, e) => j < i || (j == i && e == p)
       case Freeing(j, e) => j == i && e == p
  }

  /** This step of the query is the last of a pass over all slots. */
  predicate EndsPass(s: State, step: Step)
    requires Enabled(s, step)
  {
    !s.query.At? && Apply(s, step).query == At(0)
  }

  predicate ContainsPass(s: State, steps: seq<Step>)
    requires Possible(s, steps)
    decreases |steps|
  {
    steps != [] && (EndsPass(s, steps[0]) || ContainsPass(Apply(s, steps[0]), steps[1..]))
  }

  /** Until the context is freed it stays ready to be freed, and the query does not get past it. */
  lemma StepAhead(s: State, step: Step, p: Ptr, i: nat)
    requires Done(s, p) && Ahead(s, p, i) && Enabled(s, step) && !InWindow(s, step)
    ensures var s' := Apply(s, step);
            if p in s'.table.contexts then Done(s', p) && Ahead(s', p, i) && !EndsPass(s, step)
            else Inv(s') && Vacant(s'.table) && p !in s'.table.modules
  {
    StepKeepsInv(s, step);
    LookupFindsOccupant(s);
    assert Live(s.table, s.table.slots[i]);
    assert Carrying(s.apcs, p) == {};
    assert Reclaimable(s.table.contexts[p]);
    if step.QueryFree? {
      assert SlotOf(s.table.slots, p, 0) == i;
    }
  }

  /**
   In any interleaving: once allocation has ended and no APC carries the context, every run that
   contains the end of a whole pass of the query frees the context and its module data on the way,
   and leaves every slot clear at that point.
   */
  lemma {:induction false} PassReclaims(s: State, steps: seq<Step>, p: Ptr, i: nat) returns (k: nat)
    requires Done(s, p) && Ahead(s, p, i) && Legal(s, steps) && Possible(s, steps) && ContainsPass(s, steps)
    ensures k <= |steps| && Possible(s, steps[..k])
    ensures var s' := Run(s, steps[..k]);
            p !in s'.table.contexts && p !in s'.table.modules && Vacant(s'.table) && Inv(s')
    decreases |steps|
  {
    StepAhead(s, steps[0], p, i);
    var s' := Apply(s, steps[0]);
    if p !in s'.table.contexts {
      k := 1;
      FirstOf(s, steps, 0);
    } else {
      var j := PassReclaims(s', steps[1..], p, i);
      FirstOf(s, steps, j);
      k := j + 1;
    }
  }

  lemma FirstOf(s: State, steps: seq<Step>, j: nat)
    requires steps != [] && j < |steps| && Enabled(s, steps[0]) && Possible(Apply(s, steps[0]), steps[1..][..j])
    ensures Possible(s, steps[..j + 1])
    ensures Run(s, steps[..j + 1]) == Run(Apply(s, steps[0]), steps[1..][..j])
  {
    assert steps[..j + 1][1..] == steps[1..][..j];
  }

  // ----- the table's methods and the steps

  /** The two steps of IncrementApcCount, uninterrupted, are the method. */
  lemma CountStepsIncrement(s: State)
    requires Enabled(s, CountLookupStep)
    ensures Enabled(Apply(s, CountLookupStep), CountAddStep)
    ensures Apply(Apply(s, CountLookupStep), CountAddStep).table == Adjusted(s.table, APC_CONTEXT_ID_STACKWALK, 1)
  {
  }

  lemma DecrementStepsDecrement(s: State, a: nat)
    requires Enabled(s, DecrementLookup(a))
    ensures Enabled(Apply(s, DecrementLookup(a)), DecrementApply(a))
    ensures Apply(Apply(s, DecrementLookup(a)), DecrementApply(a)).table == Adjusted(s.table, APC_CONTEXT_ID_STACKWALK, -1)
  {
  }

  lemma InsertStepInserts(s: State)
    requires Enabled(s, InsertContext)
    ensures Apply(s, InsertContext).table == InsertedInto(s.table, s.alloc.p, s.unloading)
  {
  }

  /** The context whose memory a step reads or writes, NULL if it touches none. */
  function Touched(s: State, step: Step): Ptr
    requires Enabled(s, step)
  {
    match step
    case SetFlag => s.alloc.p
    case ClearFlag => s.alloc.p
    case CountAddStep => s.alloc.header
    case ReadModules(a) => s.apcs[a].ctx
    case DecrementApply(a) => s.apcs[a].stage.header
    case QueryCheck => s.query.entry
    case QueryFree => s.query.entry
    case _ => NULL
  }

  /** A step faults if and only if the memory it touches, or the module data it needs, has been freed. */
  lemma FaultsExactly(s: State, step: Step)
    requires Enabled(s, step) && !s.fault
    requires s.alloc.Flag? || s.alloc.Enumerate? ==> s.alloc.p != NULL
    requires s.query.Freeing? ==> s.query.entry != NULL
    requires forall a :: a in s.apcs ==> s.apcs[a].ctx != NULL
    ensures Apply(s, step).fault <==>
            && Touched(s, step) != NULL
            && (Touched(s, step) !in s.table.contexts ||
                ((step.ReadModules? || step.QueryFree?) && Touched(s, step) !in s.table.modules))
  {
  }

  /** While the driver unloads, which it does from the request on, no step occupies a slot. */
  lemma UnloadingOccupiesNothing(s: State, step: Step, i: nat)
    requires Enabled(s, step) && (s.unloading || step.Unload?) && i < |s.table.slots|
    ensures |Apply(s, step).table.slots| == |s.table.slots| && Apply(s, step).unloading
    ensures Apply(s, step).table.slots[i] == s.table.slots[i] || Apply(s, step).table.slots[i] == NULL
  {
  }

  // ----- every APC that is not abandoned decrements

  /** What is left of an APC: one that runs ends, one that does not is run down, and either decrements. */
  function RestOf(a: nat, stage: Stage): seq<Step> {
    match stage
    case Queued => [Rundown(a), DecrementLookup(a), DecrementApply(a)]
    case Running => [Finish(a), DecrementLookup(a), DecrementApply(a)]
    case Lookup => [DecrementLookup(a), DecrementApply(a)]
    case Decrement(_) => [DecrementApply(a)]
    case Abandoned => []
  }

  /** `s'` is `s` with the APC gone, and one less counted if its context is in a slot. */
  ghost predicate Decremented(s: State, s': State, a: nat)
    requires a in s.apcs
  {
    var p := s.apcs[a].ctx;
    && Inv(s') && s'.apcs == s.apcs - {a}
    && s'.alloc == s.alloc && s'.query == s.query && s'.unloading == s.unloading
    && s'.table.slots == s.table.slots && s'.table.modules == s.table.modules
    && s'.table.contexts.Keys == s.table.contexts.Keys
    && (p in s.table.slots && p in s.table.contexts ==>
          s'.table.contexts[p] == s.table.contexts[p].(count := s.table.contexts[p].count - 1))
  }

  lemma DecrementStep(s: State, a: nat)
    requires Inv(s) && a in s.apcs && s.apcs[a].stage.Decrement? && LockFree(s)
    ensures Enabled(s, DecrementApply(a)) && Decremented(s, Apply(s, DecrementApply(a)), a)
  {
    DecrementKeeps(s, a);
    assert Placed(s, s.apcs[a].ctx);
  }

  lemma StageStep(s: State, a: nat, step: Step, stage: Stage)
    requires Inv(s) && a in s.apcs && Enabled(s, step) && ApcStep(step) && Apply(s, step) == SetStage(s, a, stage)
    ensures Inv(SetStage(s, a, stage)) && SetStage(s, a, stage).apcs[a].ctx == s.apcs[a].ctx
    ensures forall s' :: Decremented(SetStage(s, a, stage), s', a) ==> Decremented(s, s', a)
  {
    ApcKeeps(s, step);
    assert SetStage(s, a, stage).apcs - {a} == s.apcs - {a};
  }

  /** From any stage but the abandoned one an APC can run to its decrement, which lowers the count once. */
  lemma ApcRunsToDecrement(s: State, a: nat)
    requires Inv(s) && LockFree(s) && a in s.apcs && !s.apcs[a].stage.Abandoned?
    ensures var steps := RestOf(a, s.apcs[a].stage);
            Legal(s, steps) && Possible(s, steps) && Decremented(s, Run(s, steps), a)
  {
    match s.apcs[a].stage
    case Queued =>
      LookupThenDecrement(s, a, Rundown(a));
    case Running =>
      LookupThenDecrement(s, a, Finish(a));
    case Lookup =>
      FromLookup(s, a);
    case Decrement(_) =>
      DecrementStep(s, a);
      Prefixed(s, DecrementApply(a), []);
      assert [DecrementApply(a)] + [] == [DecrementApply(a)];
  }

  lemma FromLookup(s: State, a: nat)
    requires Inv(s) && LockFree(s) && AtStage(s, a, Lookup)
    ensures var steps := [DecrementLookup(a), DecrementApply(a)];
            Legal(s, steps) && Possible(s, steps) && Decremented(s, Run(s, steps), a)
  {
    var s1 := Apply(s, DecrementLookup(a));
    StageStep(s, a, DecrementLookup(a), Decrement(Stackwalk(s)));
    DecrementStep(s1, a);
    TwoSteps(s, DecrementLookup(a), DecrementApply(a));
  }

  lemma LookupThenDecrement(s: State, a: nat, step: Step)
    requires Inv(s) && LockFree(s) && a in s.apcs && Enabled(s, step) && (step == Rundown(a) || step == Finish(a))
    ensures var steps := [step, DecrementLookup(a), DecrementApply(a)];
            Legal(s, steps) && Possible(s, steps) && Decremented(s, Run(s, steps), a)
  {
    StageStep(s, a, step, Lookup);
    var s1 := Apply(s, step);
    FromLookup(s1, a);
    Prefixed(s, step, [DecrementLookup(a), DecrementApply(a)]);
    assert [step] + [DecrementLookup(a), DecrementApply(a)] == [step, DecrementLookup(a), DecrementApply(a)];
  }

  ghost predicate NoneAbandoned(s: State) {
    forall a :: a in s.apcs ==> !s.apcs[a].stage.Abandoned?
  }

  /** All APCs run to their decrements, one after another. */
  lemma {:induction false} ApcsRunOut(s: State, p: Ptr) returns (steps: seq<Step>)
    requires Inv(s) && s.alloc.Idle? && NoneAbandoned(s) && p != NULL && p in s.table.slots
    ensures Legal(s, steps) && Possible(s, steps) && Done(Run(s, steps), p)
    decreases |s.apcs|
  {
    if s.apcs == map[] {
      steps := [];
    } else {
      var a :| a in s.apcs;
      ApcRunsToDecrement(s, a);
      var first := RestOf(a, s.apcs[a].stage);
      var s' := Run(s, first);
      assert |s.apcs.Keys - {a}| == |s.apcs.Keys| - 1 && s'.apcs.Keys == s.apcs.Keys - {a};
      var rest := ApcsRunOut(s', p);
      RunsCompose(s, first, rest);
      steps := first + rest;
    }
  }

  /** The query leaves the slot it is at; either the context is freed by that, or it is still ready to be. */
  lemma QuerySettles(s: State, p: Ptr) returns (steps: seq<Step>)
    requires Done(s, p)
    ensures Legal(s, steps) && Possible(s, steps)
    ensures var s' := Run(s, steps);
            Inv(s') && s'.query.At? && s'.alloc.Idle? && (Done(s', p) || Freed(s', p))
  {
    if s.query.At? {
      steps := [];
    } else if s.query.Freeing? {
      SettleStep(s, QueryFree, p);
      steps := [QueryFree];
      Prefixed(s, QueryFree, []);
      assert [QueryFree] + [] == [QueryFree];
    } else {
      var s1 := Apply(s, QueryCheck);
      SettleStep(s, QueryCheck, p);
      if s1.query.Freeing? {
        SettleStep(s1, QueryFree, p);
        TwoSteps(s, QueryCheck, QueryFree);
        steps := [QueryCheck, QueryFree];
      } else {
        Prefixed(s, QueryCheck, []);
        assert [QueryCheck] + [] == [QueryCheck];
        steps := [QueryCheck];
      }
    }
  }

  /** The context and its module data are freed, and every slot is clear. */
  ghost predicate Freed(s: State, p: Ptr) {
    p !in s.table.contexts && p !in s.table.modules && Vacant(s.table)
  }

  lemma SettleStep(s: State, step: Step, p: Ptr)
    requires Done(s, p) && Enabled(s, step) && (step.QueryCheck? || step.QueryFree?)
    ensures Inv(Apply(s, step)) && Apply(s, step).alloc.Idle? && !Apply(s, step).query.Fetched?
    ensures Done(Apply(s, step), p) || (step.QueryFree? && Freed(Apply(s, step), p))
  {
    StepKeepsInv(s, step);
    if step.QueryFree? {
      var Freeing(i, e) := s.query;
      Occupant(s.table, p, e);
      assert SlotOf(s.table.slots, e, 0) == i;
    }
  }

  /** The uninterrupted pass is a run. */
  lemma {:induction false} PassIsARun(s: State) returns (steps: seq<Step>)
    requires Inv(s) && s.query.At? && !s.alloc.Flag?
    ensures Legal(s, steps) && Possible(s, steps) && Run(s, steps) == Pass(s)
    decreases MAXIMUM_APC_CONTEXTS - s.query.index
  {
    SlotSwept(s);
    var first := SlotSteps(s);
    var s' := Run(s, first);
    if s'.query.index == 0 {
      steps := first;
    } else {
      var rest := PassIsARun(s');
      RunsCompose(s, first, rest);
      steps := first + rest;
    }
  }

  /** The pass that is under way ends; either it frees the context, or that is still to be done. */
  lemma PassEnds(s: State, p: Ptr) returns (steps: seq<Step>)
    requires Done(s, p) && s.query.At?
    ensures Legal(s, steps) && Possible(s, steps)
    ensures var s' := Run(s, steps);
            Inv(s') && s'.query == At(0) && (Done(s', p) || Freed(s', p))
  {
    if s.query == At(0) {
      steps := [];
    } else {
      steps := PassIsARun(s);
      PassKeepsDone(s, p);
    }
  }

  lemma {:induction false} PassKeepsDone(s: State, p: Ptr)
    requires Inv(s) && s.query.At? && s.alloc.Idle? && s.apcs == map[] && p != NULL && (Done(s, p) || Freed(s, p))
    ensures var s' := Pass(s);
            Inv(s') && s'.query == At(0) && s'.alloc.Idle? && s'.apcs == map[] && (Done(s', p) || Freed(s', p))
    decreases MAXIMUM_APC_CONTEXTS - s.query.index
  {
    SlotSwept(s);
    var s' := Run(s, SlotSteps(s));
    SlotKeepsDone(s, s', p);
    if s'.query.index != 0 {
      PassKeepsDone(s', p);
    }
  }

  lemma SlotKeepsDone(s: State, s': State, p: Ptr)
    requires Inv(s) && s.query.At? && s.alloc.Idle? && s.apcs == map[] && p != NULL && (Done(s, p) || Freed(s, p))
    requires Inv(s') && s' == s.(table := s'.table, query := At(NextIndex(s.query.index)))
    requires var i := s.query.index;
             if ReclaimedAt(s.table, i)
             then s'.table == Table(s.table.slots[i := NULL], s.table.contexts - {s.table.slots[i]}, s.table.modules - {s.table.slots[i]})
             else s'.table == s.table
    ensures Done(s', p) || Freed(s', p)
  {
    var i := s.query.index;
    if ReclaimedAt(s.table, i) {
      if Done(s, p) {
        Occupant(s.table, p, s.table.slots[i]);
      }
      assert forall j :: 0 <= j < |s.table.slots| && j != i ==> s.table.slots[j] == NULL;
    }
  }

  /** The next step of the allocating thread on its way to the end of the enumeration. */
  function Onward(alloc: Allocator): Step {
    match alloc
    case Flag(_) => SetFlag
    case CountLookup(_) => CountLookupStep
    case CountAdd(_, _) => CountAddStep
    case _ => ClearFlag
  }

  /** How many such steps are left. */
  function ToGo(alloc: Allocator): nat {
    match alloc
    case Flag(_) => 2
    case Enumerate(_) => 1
    case CountLookup(_) => 3
    case CountAdd(_, _) => 2
    case _ => 0
  }

  lemma OnwardStep(s: State, p: Ptr)
    requires Inv(s) && NoneAbandoned(s) && !s.alloc.Idle? && p != NULL && p in s.table.slots
    ensures Enabled(s, Onward(s.alloc)) && !InWindow(s, Onward(s.alloc))
    ensures var s' := Apply(s, Onward(s.alloc));
            && Inv(s') && NoneAbandoned(s') && p in s'.table.slots
            && ToGo(s'.alloc) < ToGo(s.alloc) && (ToGo(s'.alloc) == 0 ==> s'.alloc.Idle?)
  {
    OneContext(s, p);
    StepKeepsInv(s, Onward(s.alloc));
  }

  /** The allocating thread ends its enumeration. */
  lemma {:induction false} AllocationEnds(s: State, p: Ptr) returns (steps: seq<Step>)
    requires Inv(s) && NoneAbandoned(s) && p != NULL && p in s.table.slots
    ensures Legal(s, steps) && Possible(s, steps)
    ensures var s' := Run(s, steps); Inv(s') && NoneAbandoned(s') && p in s'.table.slots && s'.alloc.Idle?
    decreases ToGo(s.alloc), if s.alloc.Idle? then 0 else 1
  {
    if s.alloc.Idle? {
      steps := [];
    } else {
      OnwardStep(s, p);
      var rest := AllocationEnds(Apply(s, Onward(s.alloc)), p);
      Prefixed(s, Onward(s.alloc), rest);
      steps := [Onward(s.alloc)] + rest;
    }
  }

  /**
   Completion: from every state of the invariant in which no APC was abandoned, a run ends the allocation, lets
   every APC decrement and the query pass, and frees the context with its module data.  An abandoned APC
   makes this impossible in every run.
   */
  lemma EveryOperationCanComplete(s: State, p: Ptr) returns (steps: seq<Step>)
    requires Inv(s) && NoneAbandoned(s) && p != NULL && p in s.table.slots
    ensures Legal(s, steps) && Possible(s, steps) && Freed(Run(s, steps), p) && Inv(Run(s, steps))
  {
    steps := AllocationEnds(s, p);
    var more := ApcsRunOut(Run(s, steps), p);
    RunsCompose(s, steps, more);
    steps := steps + more;
    more := QuerySettles(Run(s, steps), p);
    RunsCompose(s, steps, more);
    steps := steps + more;
    if Done(Run(s, steps), p) {
      more := PassEnds(Run(s, steps), p);
      RunsCompose(s, steps, more);
      steps := steps + more;
      if Done(Run(s, steps), p) {
        more := PassIsARun(Run(s, steps));
        QueryReclaimsWhenDone(Run(s, steps), p);
        RunsCompose(s, steps, more);
        steps := steps + more;
      }
    }
  }

  // ----- an APC that never decrements

  lemma Prefixed(s: State, step: Step, rest: seq<Step>)
    requires Enabled(s, step) && !InWindow(s, step) && Legal(Apply(s, step), rest) && Possible(Apply(s, step), rest)
    ensures Legal(s, [step] + rest) && Possible(s, [step] + rest) && Run(s, [step] + rest) == Run(Apply(s, step), rest)
  {
    assert ([step] + rest)[1..] == rest;
  }

  /** The run of WindowIsReachable without the query, up to the enumeration. */
  lemma EnumerationIsReached(s0: State) returns (steps: seq<Step>)
    requires Start(s0)
    ensures Legal(s0, steps) && Possible(s0, steps)
    ensures Run(s0, steps).alloc == Enumerate(1) && Run(s0, steps).apcs == map[]
  {
    assert forall i :: 0 <= i < |s0.table.slots| ==> s0.table.slots[i] == NULL;
    assert Stackwalk(s0) == NULL;
    var s1 := Apply(s0, StartLookup);
    var s2 := Apply(s1, AllocOk(1));
    var s3 := Apply(s2, InsertContext);
    var s4 := Apply(s3, SetFlag);
    steps := [];
    Prefixed(s3, SetFlag, steps);
    steps := [SetFlag] + steps;
    Prefixed(s2, InsertContext, steps);
    steps := [InsertContext] + steps;
    Prefixed(s1, AllocOk(1), steps);
    steps := [AllocOk(1)] + steps;
    Prefixed(s0, StartLookup, steps);
    steps := [StartLookup] + steps;
  }

  lemma {:induction false} RunsCompose(s: State, xs: seq<Step>, ys: seq<Step>)
    requires Legal(s, xs) && Possible(s, xs) && Legal(Run(s, xs), ys) && Possible(Run(s, xs), ys)
    ensures Legal(s, xs + ys) && Possible(s, xs + ys) && Run(s, xs + ys) == Run(Run(s, xs), ys)
    decreases |xs|
  {
    if xs == [] {
      assert xs + ys == ys;
    } else {
      RunsCompose(Apply(s, xs[0]), xs[1..], ys);
      Prefixed(s, xs[0], xs[1..] + ys);
      assert xs + ys == [xs[0]] + (xs[1..] + ys);
    }
  }

  /** A run from the initial state to an APC that will never decrement. */
  lemma AbandonedIsReached(s0: State) returns (steps: seq<Step>)
    requires Start(s0)
    ensures Legal(s0, steps) && Possible(s0, steps) && AtStage(Run(s0, steps), 0, Abandoned)
  {
    var xs := EnumerationIsReached(s0);
    var ys := LeaveEarly(Run(s0, xs), 0);
    RunsCompose(s0, xs, ys);
    steps := xs + ys;
  }

  /** From a context being enumerated, the next APC can be queued, delivered and left through the early return. */
  lemma LeaveEarly(s: State, a: nat) returns (steps: seq<Step>)
    requires s.alloc.Enumerate? && a !in s.apcs
    ensures Legal(s, steps) && Possible(s, steps) && AtStage(Run(s, steps), a, Abandoned)
  {
    var s1 := Apply(s, QueueApc(a));
    var s2 := Apply(s1, Deliver(a));
    steps := [];
    Prefixed(s2, Leave(a), steps);
    steps := [Leave(a)] + steps;
    Prefixed(s1, Deliver(a), steps);
    steps := [Deliver(a)] + steps;
    Prefixed(s, QueueApc(a), steps);
    steps := [QueueApc(a)] + steps;
  }

  /** An APC that left through the early return pins its context for the rest of every run. */
  lemma {:induction false} AbandonedApcPinsContext(s: State, steps: seq<Step>, a: nat)
    requires Inv(s) && AtStage(s, a, Abandoned) && Legal(s, steps)
    ensures Possible(s, steps)
    ensures var s' := Run(s, steps);
            && AtStage(s', a, Abandoned) && s'.apcs[a].ctx == s.apcs[a].ctx
            && s.apcs[a].ctx in s'.table.contexts && s.apcs[a].ctx in s'.table.modules
    decreases |steps|
  {
    if steps == [] {
      assert Placed(s, s.apcs[a].ctx);
    } else {
      StepKeepsInv(s, steps[0]);
      StepKeepsAbandoned(s, steps[0], a);
      AbandonedApcPinsContext(Apply(s, steps[0]), steps[1..], a);
    }
  }
}
