/**
 The table of APC contexts kept in the driver configuration (driver/apc.c).

 Pool memory is modelled by the set of live allocations: `contexts` maps the address of every
 live context to its header, and `modules` holds the address of every context whose module data is
 live.  Address 0 is NULL.  Freeing removes an address from these collections.
 */
module ApcContext {

  const MAXIMUM_APC_CONTEXTS := 10
  const APC_CONTEXT_ID_STACKWALK := 1

  type Ptr = nat

  const NULL: Ptr := 0

  /** APC_CONTEXT_HEADER; `count` is signed because an APC may finish before it is counted. */
  datatype Context = Context(id: int, count: int, allocating: bool)

  datatype Table = Table(slots: seq<Ptr>, contexts: map<Ptr, Context>, modules: set<Ptr>)

  /** Every non-null slot points at a live context whose module data is live, and no two agree. */
  ghost predicate WellFormed(t: Table) {
    && |t.slots| == MAXIMUM_APC_CONTEXTS
    && (forall i :: 0 <= i < |t.slots| && t.slots[i] != NULL ==>
          t.slots[i] in t.contexts && t.slots[i] in t.modules)
    && (forall i, j :: 0 <= i < j < |t.slots| && t.slots[i] != NULL ==> t.slots[i] != t.slots[j])
  }

  // ----- specifications of the locked sections

  /** The first context at or after slot `from` with the given identifier, or NULL. */
  function FindById(slots: seq<Ptr>, contexts: map<Ptr, Context>, id: int, from: nat): (p: Ptr)
    requires from <= |slots|
    ensures p == NULL ==>
              forall i :: from <= i < |slots| && slots[i] != NULL && slots[i] in contexts ==> contexts[slots[i]].id != id
    ensures p != NULL ==> p in slots[from..] && p in contexts && contexts[p].id == id
    decreases |slots| - from
  {
    if from == |slots| then NULL
    else if slots[from] != NULL && slots[from] in contexts && contexts[slots[from]].id == id then slots[from]
    else FindById(slots, contexts, id, from + 1)
  }

  /** The lowest index of a null slot, or the number of slots. */
  function FirstFree(slots: seq<Ptr>, from: nat): (i: nat)
    requires from <= |slots|
    ensures from <= i <= |slots|
    ensures i < |slots| ==> slots[i] == NULL
    ensures forall j :: from <= j < i ==> slots[j] != NULL
    decreases |slots| - from
  {
    if from == |slots| || slots[from] == NULL then from else FirstFree(slots, from + 1)
  }

  /** The lowest index at which `p` is stored, or the number of slots. */
  function SlotOf(slots: seq<Ptr>, p: Ptr, from: nat): (i: nat)
    requires from <= |slots|
    ensures from <= i <= |slots|
    ensures i < |slots| ==> slots[i] == p
    ensures p !in slots[from..i]
    decreases |slots| - from
  {
    if from == |slots| || slots[from] == p then from else SlotOf(slots, p, from + 1)
  }

  /** The count of the first context with the identifier, changed by `change`; nothing if there is none. */
  function Adjusted(t: Table, id: int, change: int): Table {
    var p := FindById(t.slots, t.contexts, id, 0);
    if p == NULL then t
    else t.(contexts := t.contexts[p := t.contexts[p].(count := t.contexts[p].count + change)])
  }

  /** The context in the first free slot; nowhere with no free slot, or while unloading. */
  function InsertedInto(t: Table, p: Ptr, unloading: bool): Table {
    var i := FirstFree(t.slots, 0);
    if unloading || i == |t.slots| then t else t.(slots := t.slots[i := p])
  }

  /** A context the query may reclaim: nothing counted, no allocation under way, a known kind. */
  predicate Reclaimable(c: Context) {
    c.count <= 0 && !c.allocating && c.id == APC_CONTEXT_ID_STACKWALK
  }

  ghost predicate ReclaimedAt(t: Table, i: nat) {
    && i < |t.slots| && t.slots[i] != NULL && t.slots[i] in t.contexts
    && Reclaimable(t.contexts[t.slots[i]])
  }

  /** `p` sits in one of the first `n` slots and may be reclaimed. */
  ghost predicate Taken(before: Table, n: nat, p: Ptr) {
    exists i :: 0 <= i < n && ReclaimedAt(before, i) && before.slots[i] == p
  }

  /** What a query that has passed the first `n` slots leaves behind. */
  ghost predicate Swept(before: Table, after: Table, n: nat) {
    && |after.slots| == |before.slots|
    && (forall i :: 0 <= i < |before.slots| ==>
          after.slots[i] == if i < n && ReclaimedAt(before, i) then NULL else before.slots[i])
    && (forall p :: p in after.contexts <==> p in before.contexts && !Taken(before, n, p))
    && (forall p :: p in after.contexts ==> after.contexts[p] == before.contexts[p])
    && (forall p :: p in after.modules <==> p in before.modules && !Taken(before, n, p))
  }

  // ----- the table as the driver keeps it

  class DriverConfig {
    var slots: array<Ptr>
    var contexts: map<Ptr, Context>
    var modules: set<Ptr>

    ghost function View(): Table
      reads this, slots
    {
      Table(slots[..], contexts, modules)
    }

    ghost predicate Valid()
      reads this, slots
    {
      WellFormed(View())
    }

    constructor ()
      ensures Valid() && fresh(slots)
      ensures View() == Table(seq(MAXIMUM_APC_CONTEXTS, _ => NULL), map[], {})
    {
      slots := new Ptr[MAXIMUM_APC_CONTEXTS](_ => NULL);
      contexts := map[];
      modules := {};
    }

    method GetApcContext(id: int) returns (context: Ptr)
      requires Valid()
      ensures context == FindById(slots[..], contexts, id, 0)
    {
      var index := 0;
      context := NULL;
      while index < MAXIMUM_APC_CONTEXTS
        invariant 0 <= index <= MAXIMUM_APC_CONTEXTS
        invariant FindById(slots[..], contexts, id, 0) == FindById(slots[..], contexts, id, index)
      {
        var header := slots[index];
        if header != NULL && contexts[header].id == id {
          return header;
        }
        index := index + 1;
      }
    }

    method IncrementApcCount(id: int)
      requires Valid()
      modifies this`contexts
      ensures Valid()
      ensures View() == Adjusted(old(View()), id, 1)
    {
      var header := GetApcContext(id);
      if header != NULL {
        contexts := contexts[header := contexts[header].(count := contexts[header].count + 1)];
      }
    }

    method DecrementApcCount(id: int)
      requires Valid()
      modifies this`contexts
      ensures Valid()
      ensures View() == Adjusted(old(View()), id, -1)
    {
      var context := GetApcContext(id);
      if context != NULL {
        contexts := contexts[context := contexts[context].(count := contexts[context].count - 1)];
      }
    }

    /** The context goes into the first free slot; with no free slot, or while unloading, nowhere. */
    method InsertApcContext(context: Ptr, unloading: bool)
      requires Valid()
      requires context != NULL && context in contexts && context in modules && context !in slots[..]
      modifies slots
      ensures Valid()
      ensures View() == InsertedInto(old(View()), context, unloading)
    {
      if unloading {
        return;
      }
      var index := 0;
      while index < MAXIMUM_APC_CONTEXTS
        invariant 0 <= index <= MAXIMUM_APC_CONTEXTS
        invariant slots[..] == old(slots[..])
        invariant FirstFree(slots[..], 0) == FirstFree(slots[..], index)
      {
        if slots[index] == NULL {
          slots[index] := context;
          assert slots[..] == old(slots[..])[index := context];
          return;
        }
        index := index + 1;
      }
    }

    /** Frees a context that sits in a slot and counts nothing; anything else is left alone. */
    method FreeApcContextStructure(context: Ptr) returns (freed: bool)
      requires WellFormed(View().(modules := modules + {context}))
      requires context != NULL && context in contexts
      modifies this`contexts, slots
      ensures freed <==> context in old(slots[..]) && old(contexts)[context].count <= 0
      ensures !freed ==> contexts == old(contexts) && slots[..] == old(slots[..])
      ensures freed ==> contexts == old(contexts) - {context}
      ensures freed ==> forall i :: 0 <= i < slots.Length ==>
                slots[i] == if old(slots[i]) == context then NULL else old(slots[i])
    {
      var index := 0;
      while index < MAXIMUM_APC_CONTEXTS
        invariant 0 <= index <= MAXIMUM_APC_CONTEXTS
        invariant slots[..] == old(slots[..])
        invariant context !in slots[..index]
        invariant contexts == old(contexts)
      {
        if slots[index] == context {
          if contexts[context].count > 0 {
            return false;
          }
          contexts := contexts - {context};
          slots[index] := NULL;
          return true;
        }
        index := index + 1;
      }
      return false;
    }

    /** The body of the query's loop: one slot is reclaimed, or left alone. */
    method QuerySlot(index: nat)
      requires Valid() && index < MAXIMUM_APC_CONTEXTS
      modifies this`contexts, this`modules, slots
      ensures ReclaimedAt(old(View()), index) ==>
                View() == Table(old(slots[..])[index := NULL], old(contexts) - {old(slots[index])}, old(modules) - {old(slots[index])})
      ensures !ReclaimedAt(old(View()), index) ==> View() == old(View())
    {
      var entry := slots[index];
      if entry != NULL && contexts[entry].count <= 0 && !contexts[entry].allocating {
        if contexts[entry].id == APC_CONTEXT_ID_STACKWALK {
          modules := modules - {entry};
          var freed := FreeApcContextStructure(entry);
          assert slots[..] == old(slots[..])[index := NULL];
        }
      }
    }

    /** One pass of the query reclaims exactly the reclaimable contexts, with their module data. */
    method QueryActiveApcContextsForCompletion()
      requires Valid()
      modifies this`contexts, this`modules, slots
      ensures Valid()
      ensures Swept(old(View()), View(), MAXIMUM_APC_CONTEXTS)
    {
      ghost var before := View();
      var index := 0;
      while index < MAXIMUM_APC_CONTEXTS
        invariant 0 <= index <= MAXIMUM_APC_CONTEXTS
        invariant slots == old(slots)
        invariant Valid()
        invariant Swept(before, View(), index)
      {
        ghost var mid := View();
        QuerySlot(index);
        SweepOne(before, mid, View(), index);
        index := index + 1;
      }
    }
  }

  lemma TakenOneMore(t: Table, i: nat, p: Ptr)
    ensures Taken(t, i + 1, p) <==> Taken(t, i, p) || (ReclaimedAt(t, i) && t.slots[i] == p)
  {
  }

  /** A slot not yet passed holds a context that no earlier slot holds. */
  lemma NotTakenBefore(t: Table, i: nat)
    requires WellFormed(t) && i < |t.slots| && t.slots[i] != NULL
    ensures !Taken(t, i, t.slots[i])
  {
  }

  /** One more slot of the sweep. */
  lemma SweepOne(before: Table, mid: Table, after: Table, i: nat)
    requires WellFormed(before) && WellFormed(mid) && Swept(before, mid, i)
    requires i < MAXIMUM_APC_CONTEXTS
    requires ReclaimedAt(mid, i) ==>
               after == Table(mid.slots[i := NULL], mid.contexts - {mid.slots[i]}, mid.modules - {mid.slots[i]})
    requires !ReclaimedAt(mid, i) ==> after == mid
    ensures Swept(before, after, i + 1) && WellFormed(after)
  {
    assert mid.slots[i] == before.slots[i];
    if before.slots[i] != NULL {
      NotTakenBefore(before, i);
    }
    assert ReclaimedAt(mid, i) <==> ReclaimedAt(before, i);
    forall p
      ensures Taken(before, i + 1, p) <==> Taken(before, i, p) || (ReclaimedAt(before, i) && before.slots[i] == p)
    {
      TakenOneMore(before, i, p);
    }
  }
}
