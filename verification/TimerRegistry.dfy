/**
 The timer registry (module/dispatcher/timer.cpp): a fixed array of 64 waitable handles, a map from handle to
 callback, and a counter that is handed to the wait as the length of the array's valid part.

 Creating a timer is an oracle that yields a handle not in use, or zero.  An absent entry holds the
 invalid handle, the greatest value, so that sorting puts it last.
 */
module TimerRegistry {
  import opened Wrappers
  import opened Tallies

  type Handle = h: nat | h <= 0xFFFF_FFFF_FFFF_FFFF

  type Routine = nat

  // ----- the array and the map in agreement

  /** The valid handles are the first `n` entries. */
  ghost predicate Front(h: seq<Handle>, n: int) {
    forall i :: 0 <= i < |h| ==> (h[i] == 0xFFFF_FFFF_FFFF_FFFF <==> i >= n)
  }

  /** A valid handle is in the array once if it has a callback, and otherwise not at all. */
  ghost predicate Agrees(h: seq<Handle>, c: map<Handle, Routine>, x: Handle) {
    Count(h, x) == if x in c then 1 else 0
  }

  /** The registry holds exactly `n` timers, in the front of the array. */
  ghost predicate Holds(h: seq<Handle>, c: map<Handle, Routine>, n: int) {
    && |h| == 64 && 0 <= n <= 64 && Front(h, n)
    && 0xFFFF_FFFF_FFFF_FFFF !in c
    && forall x: Handle :: x != 0xFFFF_FFFF_FFFF_FFFF ==> Agrees(h, c, x)
  }

  lemma {:induction false} CountTwice(s: seq<Handle>, i: nat, j: nat)
    requires i < j < |s| && s[i] == s[j]
    ensures Count(s, s[i]) >= 2
  {
    if i == 0 {
      CountPositive(s[1..], s[i]);
      assert s[1..][j - 1] == s[j];
    } else {
      CountTwice(s[1..], i - 1, j - 1);
    }
  }

  /** What agreement means: the valid prefix has no duplicates and is the map's set of keys. */
  lemma HoldsMeansPrefix(h: seq<Handle>, c: map<Handle, Routine>, n: int)
    requires Holds(h, c, n)
    ensures forall i, j :: 0 <= i < j < n ==> h[i] != h[j]
    ensures forall x: Handle :: x in c <==> x in h[..n]
  {
    forall i, j | 0 <= i < j < n
      ensures h[i] != h[j]
    {
      assert Agrees(h, c, h[i]);
      if h[i] == h[j] {
        CountTwice(h, i, j);
      }
    }
    forall x: Handle
      ensures x in c <==> x in h[..n]
    {
      CountPositive(h, x);
      if x != 0xFFFF_FFFF_FFFF_FFFF {
        assert Agrees(h, c, x);
      }
    }
  }

  /** The counter alone does not fit two different registries. */
  lemma HoldsOnce(h: seq<Handle>, c: map<Handle, Routine>, n: int, m: int)
    requires Holds(h, c, n) && Holds(h, c, m)
    ensures n == m
  {
    FrontCount(h, n);
    FrontCount(h, m);
  }

  // ----- sorting

  predicate Ordered(s: seq<Handle>) { forall i, j :: 0 <= i < j < |s| ==> s[i] <= s[j] }

  function Inserted(s: seq<Handle>, x: Handle): seq<Handle> {
    if s == [] || x <= s[0] then [x] + s else [s[0]] + Inserted(s[1..], x)
  }

  /** std::sort, as a value. */
  function Sorted(s: seq<Handle>): seq<Handle> {
    if s == [] then [] else Inserted(Sorted(s[1..]), s[0])
  }

  lemma {:induction false} InsertedIsSorted(s: seq<Handle>, x: Handle)
    requires Ordered(s)
    ensures Ordered(Inserted(s, x)) && |Inserted(s, x)| == |s| + 1
    ensures forall y :: y in Inserted(s, x) <==> y == x || y in s
  {
    if s != [] && x > s[0] {
      InsertedIsSorted(s[1..], x);
      var rest := Inserted(s[1..], x);
      forall i | 0 <= i < |rest|
        ensures s[0] <= rest[i]
      {
        assert rest[i] == x || rest[i] in s[1..];
      }
    }
  }

  lemma {:induction false} InsertedCount(s: seq<Handle>, x: Handle, y: Handle)
    ensures Count(Inserted(s, x), y) == Count(s, y) + if x == y then 1 else 0
  {
    if s == [] || x <= s[0] {
      CountConcat([x], s, y);
    } else {
      InsertedCount(s[1..], x, y);
      CountConcat([s[0]], Inserted(s[1..], x), y);
    }
  }

  /** Sorting permutes and orders. */
  lemma {:induction false} SortedPermutes(s: seq<Handle>, y: Handle)
    ensures Ordered(Sorted(s)) && |Sorted(s)| == |s| && Count(Sorted(s), y) == Count(s, y)
  {
    if s != [] {
      SortedPermutes(s[1..], y);
      InsertedIsSorted(Sorted(s[1..]), s[0]);
      InsertedCount(Sorted(s[1..]), s[0], y);
    }
  }

  /** In an ordered array the greatest value fills the back. */
  lemma {:induction false} GreatestLast(s: seq<Handle>)
    requires Ordered(s)
    ensures Front(s, |s| - Count(s, 0xFFFF_FFFF_FFFF_FFFF))
  {
    if s != [] {
      GreatestLast(s[1..]);
      var n := |s| - Count(s, 0xFFFF_FFFF_FFFF_FFFF);
      forall i | 0 <= i < |s|
        ensures s[i] == 0xFFFF_FFFF_FFFF_FFFF <==> i >= n
      {
        if i > 0 {
          assert s[1..][i - 1] == s[i];
        } else if s[0] == 0xFFFF_FFFF_FFFF_FFFF {
          AllGreatest(s);
        } else {
          CountAtMost(s[1..], 0xFFFF_FFFF_FFFF_FFFF);
        }
      }
    }
  }

  lemma {:induction false} AllGreatest(s: seq<Handle>)
    requires forall i :: 0 <= i < |s| ==> s[i] == 0xFFFF_FFFF_FFFF_FFFF
    ensures Count(s, 0xFFFF_FFFF_FFFF_FFFF) == |s|
  {
    if s != [] {
      AllGreatest(s[1..]);
    }
  }

  lemma {:induction false} CountAtMost(s: seq<Handle>, x: Handle)
    ensures Count(s, x) <= |s|
  {
    if s != [] {
      CountAtMost(s[1..], x);
    }
  }

  lemma {:induction false} FrontCount(s: seq<Handle>, n: int)
    requires Front(s, n) && 0 <= n <= |s|
    ensures Count(s, 0xFFFF_FFFF_FFFF_FFFF) == |s| - n
  {
    if n == 0 {
      AllGreatest(s);
    } else {
      assert forall i :: 0 <= i < |s[1..]| ==> s[1..][i] == s[i + 1];
      FrontCount(s[1..], n - 1);
    }
  }

  // ----- the operations, on values

  function FirstOf(h: seq<Handle>, x: Handle): (k: nat)
    ensures k <= |h| && (k < |h| <==> x in h)
    ensures k < |h| ==> h[k] == x
    ensures forall i :: 0 <= i < k ==> h[i] != x
  {
    if h == [] || h[0] == x then 0 else 1 + FirstOf(h[1..], x)
  }

  /** The array after close_handle_entry. */
  function Closed(h: seq<Handle>, x: Handle): seq<Handle> {
    if x in h then Sorted(h[FirstOf(h, x) := 0xFFFF_FFFF_FFFF_FFFF]) else h
  }

  /** close_handle_entry finds an entry for `x`; the invalid handle matches an empty entry. */
  ghost predicate Matched(c: map<Handle, Routine>, n: int, x: Handle) {
    x in c || (x == 0xFFFF_FFFF_FFFF_FFFF && n < 64)
  }

  /** Closing keeps the registry in agreement, one timer smaller if the handle had a callback. */
  lemma CloseKeeps(h: seq<Handle>, c: map<Handle, Routine>, n: int, x: Handle)
    requires Holds(h, c, n)
    ensures x in h <==> Matched(c, n, x)
    ensures Holds(Closed(h, x), c - {x}, if x in c then n - 1 else n)
  {
    CountPositive(h, x);
    FrontCount(h, n);
    if x != 0xFFFF_FFFF_FFFF_FFFF {
      assert Agrees(h, c, x);
    }
    var h', c' := Closed(h, x), c - {x};
    if x in h {
      var cleared := h[FirstOf(h, x) := 0xFFFF_FFFF_FFFF_FFFF];
      forall y: Handle
        ensures Count(h', y) + (if y == x then 1 else 0) == Count(h, y) + (if y == 0xFFFF_FFFF_FFFF_FFFF then 1 else 0)
      {
        CountUpdate<Handle>(h, FirstOf(h, x), 0xFFFF_FFFF_FFFF_FFFF, y);
        SortedPermutes(cleared, y);
      }
      SortedPermutes(cleared, x);
      GreatestLast(h');
    }
    forall y: Handle | y != 0xFFFF_FFFF_FFFF_FFFF
      ensures Agrees(h', c', y)
    {
      assert Agrees(h, c, y);
    }
  }

  lemma InsertKeeps(h: seq<Handle>, c: map<Handle, Routine>, n: int, x: Handle, r: Routine)
    requires Holds(h, c, n) && n < 64 && x != 0xFFFF_FFFF_FFFF_FFFF && x !in c
    ensures Holds(h[n := x], c[x := r], n + 1)
  {
    var h', c' := h[n := x], c[x := r];
    forall y: Handle | y != 0xFFFF_FFFF_FFFF_FFFF
      ensures Agrees(h', c', y)
    {
      assert Agrees(h, c, y);
      CountUpdate<Handle>(h, n, x, y);
    }
  }

  // ----- runs of inserts and closes

  datatype Registry = Registry(h: seq<Handle>, c: map<Handle, Routine>, active: int)

  /** A successful insert with a new timer's handle, or closing a timer. */
  datatype Op = Insert(x: Handle, routine: Routine) | Close(x: Handle)

  function Initial(): Registry { Registry(seq(64, _ => 0xFFFF_FFFF_FFFF_FFFF), map[], 0) }

  predicate Allowed(s: Registry, op: Op) {
    op.x != 0xFFFF_FFFF_FFFF_FFFF && (op.Insert? ==> op.x !in s.c)
  }

  function Apply(s: Registry, op: Op): Registry {
    match op
    case Insert(x, routine) =>
      var free := FirstOf(s.h, 0xFFFF_FFFF_FFFF_FFFF);
      if free == |s.h| then s else Registry(s.h[free := x], s.c[x := routine], s.active + 1)
    case Close(x) => Registry(Closed(s.h, x), s.c - {x}, if x in s.h then s.active - 1 else s.active)
  }

  predicate Legal(s: Registry, ops: seq<Op>)
    decreases |ops|
  {
    ops == [] || (Allowed(s, ops[0]) && Legal(Apply(s, ops[0]), ops[1..]))
  }

  function Run(s: Registry, ops: seq<Op>): Registry
    decreases |ops|
  {
    if ops == [] then s else Run(Apply(s, ops[0]), ops[1..])
  }

  lemma ApplyKeeps(s: Registry, op: Op)
    requires Holds(s.h, s.c, s.active) && Allowed(s, op)
    ensures Holds(Apply(s, op).h, Apply(s, op).c, Apply(s, op).active)
  {
    match op
    case Insert(x, routine) =>
      var free := FirstOf(s.h, 0xFFFF_FFFF_FFFF_FFFF);
      if free < 64 {
        assert s.active <= free;
        assert s.h[s.active] == 0xFFFF_FFFF_FFFF_FFFF;
        InsertKeeps(s.h, s.c, s.active, x, routine);
      }
    case Close(x) => CloseKeeps(s.h, s.c, s.active, x);
  }

  /** The first free entry is right behind the valid handles. */
  lemma FreeIsBehindFront(h: seq<Handle>, c: map<Handle, Routine>, n: int)
    requires Holds(h, c, n)
    ensures FirstOf(h, 0xFFFF_FFFF_FFFF_FFFF) == n
  {
    var free := FirstOf(h, 0xFFFF_FFFF_FFFF_FFFF);
    assert free >= n;
    if n < 64 {
      assert h[n] == 0xFFFF_FFFF_FFFF_FFFF;
    }
  }

  lemma InitialHolds()
    ensures Holds(Initial().h, Initial().c, 0)
  {
    var h, c := Initial().h, Initial().c;
    forall x: Handle | x != 0xFFFF_FFFF_FFFF_FFFF
      ensures Agrees(h, c, x)
    {
      CountPositive(h, x);
    }
  }

  lemma {:induction false} RunKeeps(s: Registry, ops: seq<Op>)
    requires Holds(s.h, s.c, s.active) && Legal(s, ops)
    ensures var t := Run(s, ops); Holds(t.h, t.c, t.active)
    decreases |ops|
  {
    if ops != [] {
      ApplyKeeps(s, ops[0]);
      RunKeeps(Apply(s, ops[0]), ops[1..]);
    }
  }

  /**
   Over every run of successful inserts and closes the valid handles are the first `active` entries,
   without duplicates, and are the map's keys.
   */
  lemma RegistryOverRuns(ops: seq<Op>)
    requires Legal(Initial(), ops)
    ensures var s := Run(Initial(), ops);
            && |s.h| == 64 && 0 <= s.active <= 64 && Front(s.h, s.active)
            && (forall i, j :: 0 <= i < j < s.active ==> s.h[i] != s.h[j])
            && (forall x: Handle :: x in s.c <==> x in s.h[..s.active])
  {
    InitialHolds();
    RunKeeps(Initial(), ops);
    var s := Run(Initial(), ops);
    HoldsMeansPrefix(s.h, s.c, s.active);
  }

  // ----- the class

  datatype Dispatch = Ran(routine: Routine) | Ignored | OutOfBounds

  class Timer {
    const handles: array<Handle>
    var callbacks: map<Handle, Routine>
    var toRemove: seq<Handle>
    var active: int
    /** The handles closed, in order. */
    var closed: seq<Handle>

    ghost function View(): Registry
      reads this, handles
    {
      Registry(handles[..], callbacks, active)
    }

    /** The registry holds `n` timers, whatever the counter says. */
    ghost predicate Valid(n: int)
      reads this, handles
    {
      handles.Length == 64 && Holds(handles[..], callbacks, n)
    }

    constructor ()
      ensures Valid(0) && View() == Initial() && toRemove == [] && fresh(handles)
    {
      handles := new Handle[64](_ => 0xFFFF_FFFF_FFFF_FFFF);
      callbacks, toRemove, active, closed := map[], [], 0, [];
      new;
      forall x: Handle | x != 0xFFFF_FFFF_FFFF_FFFF
        ensures Agrees(handles[..], map[], x)
      {
        CountPositive(handles[..], x);
      }
    }

    /** find_free_handle: the index of the first invalid entry, 64 if there is none. */
    method FindFreeHandle(ghost n: int) returns (index: nat)
      requires Valid(n)
      ensures index == n
    {
      index := 0;
      while index < 64
        invariant index <= n
      {
        assert handles[index] == handles[..][index];
        if handles[index] == 0xFFFF_FFFF_FFFF_FFFF {
          return;
        }
        index := index + 1;
      }
    }

    /**
     insert_callback; `created` is the new timer's handle, zero on failure.  A failed creation leaves the zero in
     the array, so the registry stays in agreement if and only if creation succeeds or is not attempted.
     */
    method InsertCallback(routine: Routine, created: Handle, ghost n: int) returns (handle: Option<Handle>)
      requires Valid(n) && created != 0xFFFF_FFFF_FFFF_FFFF && created !in callbacks && 0 !in callbacks
      modifies this`callbacks, this`active, handles
      ensures handle == if n < 64 && created != 0 then Some(created) else None
      ensures handle.Some? ==>
                Valid(n + 1) && callbacks == old(callbacks)[created := routine] && active == old(active) + 1
      ensures created != 0 ==> View() == Apply(old(View()), Insert(created, routine))
      ensures handle.None? ==> callbacks == old(callbacks) && active == old(active)
      ensures (exists m :: Valid(m)) <==> n == 64 || created != 0
      ensures 0 !in callbacks
    {
      FreeIsBehindFront(handles[..], callbacks, n);
      var index := FindFreeHandle(n);
      if index == 64 {
        assert Valid(n);
        return None;
      }
      handles[index] := created;
      assert handles[..] == old(handles[..])[n := created];
      if created == 0 {
        ghost var h := handles[..];
        assert forall m :: !Holds(h, callbacks, m) by {
          CountPositive(h, 0);
          assert h[n] == 0;
          assert !Agrees(h, callbacks, 0);
        }
        return None;
      }
      InsertKeeps(old(handles[..]), callbacks, n, created, routine);
      callbacks := callbacks[created := routine];
      active := active + 1;
      assert Valid(n + 1);
      return Some(created);
    }

    /** Storing the sorted values, in place of std::sort. */
    method SortHandles()
      requires handles.Length == 64
      modifies handles
      ensures handles[..] == Sorted(old(handles[..]))
    {
      var sorted := Sorted(handles[..]);
      SortedPermutes(handles[..], 0);
      for i := 0 to 64
        invariant forall k :: 0 <= k < i ==> handles[k] == sorted[k]
      {
        handles[i] := sorted[i];
      }
      assert handles[..] == sorted;
    }

    /** close_handle_entry: closes the timer if it is there, and moves the others to the front. */
    method CloseHandleEntry(handle: Handle, ghost n: int)
      requires Valid(n)
      modifies this`callbacks, this`active, this`closed, handles
      ensures Valid(if handle in old(callbacks) then n - 1 else n)
      ensures View() == Apply(old(View()), Close(handle))
      ensures callbacks == old(callbacks) - {handle}
      ensures active == old(active) - (if Matched(old(callbacks), n, handle) then 1 else 0)
      ensures closed == old(closed) + (if Matched(old(callbacks), n, handle) then [handle] else [])
    {
      CloseKeeps(handles[..], callbacks, n, handle);
      callbacks := callbacks - {handle};
      var entry := 0;
      while entry < 64
        invariant entry <= 64 && forall k :: 0 <= k < entry ==> handles[k] != handle
      {
        if handles[entry] == handle {
          assert handles[..][entry] == handle;
          assert FirstOf(handles[..], handle) == entry;
          closed := closed + [handle];
          handles[entry] := 0xFFFF_FFFF_FFFF_FFFF;
          assert handles[..] == old(handles[..])[entry := 0xFFFF_FFFF_FFFF_FFFF];
          SortHandles();
          active := active - 1;
          return;
        }
        entry := entry + 1;
      }
    }

    /**
     query_removal_queue: each entry is closed as it should be, but the counter is lowered once more for
     each, so afterwards it is the number of timers if and only if the queue was empty.
     */
    method QueryRemovalQueue(ghost n: int) returns (ghost left: int)
      requires Valid(n) && active == n
      modifies this, handles
      ensures toRemove == [] && Valid(left)
      ensures forall x :: x in callbacks <==> x in old(callbacks) && x !in old(toRemove)
      ensures active <= left - |old(toRemove)|
      ensures 0xFFFF_FFFF_FFFF_FFFF !in old(toRemove) ==> active == left - |old(toRemove)|
      ensures Valid(active) <==> old(toRemove) == []
    {
      left := n;
      ghost var done := 0;
      while toRemove != []
        invariant done <= |old(toRemove)| && toRemove == old(toRemove)[done..]
        invariant Valid(left) && active <= left - done
        invariant 0xFFFF_FFFF_FFFF_FFFF !in old(toRemove) ==> active == left - done
        invariant forall x :: x in callbacks <==> x in old(callbacks) && x !in old(toRemove)[..done]
        decreases |toRemove|
      {
        var entry := toRemove[0];
        assert entry == old(toRemove)[done] && entry in old(toRemove);
        assert old(toRemove)[..done + 1] == old(toRemove)[..done] + [entry];
        ghost var was := left;
        left := if entry in callbacks then left - 1 else left;
        CloseHandleEntry(entry, was);
        toRemove := toRemove[1..];
        active := active - 1;
        done := done + 1;
      }
      assert old(toRemove)[..done] == old(toRemove);
      if Valid(active) {
        HoldsOnce(handles[..], callbacks, active, left);
      }
    }

    /**
     dispatch_callback_for_index: an index of a valid handle always finds its callback, an index behind
     them is ignored, and one outside the array, such as the failure code of the wait, reads past its end.
     */
    method DispatchCallbackForIndex(index: nat, ghost n: int) returns (outcome: Dispatch)
      requires Valid(n)
      ensures index < n ==> handles[index] in callbacks && outcome == Ran(callbacks[handles[index]])
      ensures n <= index < 64 ==> outcome == Ignored
      ensures index >= 64 ==> outcome == OutOfBounds
    {
      if index >= 64 {
        return OutOfBounds;
      }
      HoldsMeansPrefix(handles[..], callbacks, n);
      assert handles[..][index] == handles[index];
      if index < n {
        assert handles[..][..n][index] == handles[index];
      }
      if handles[index] !in callbacks {
        return Ignored;
      }
      return Ran(callbacks[handles[index]]);
    }
  }
}
