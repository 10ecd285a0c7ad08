/**
 The NMI section: HandleNmiIOCTL (driver/modules.c) guarded by the interlocked flag nmi_status
 (driver/driver.c), run by any number of threads.

 Every interlocked operation and every acquisition or release of a resource is one step; whether an
 acquisition or the launch succeeds is an oracle.
 */
module NmiSection {
  import opened Wrappers
  import opened Tallies

  /** What a caller can hold: the flag, the per-core context, the callback registration, the module list. */
  datatype Resource = Flag | Context | Callback | Modules

  /** A caller is outside, about to acquire something, about to launch, or releasing what is still to do. */
  datatype Thread =
    | Outside
    | Allocating
    | Registering
    | Querying
    | Launching
    | Leaving(todo: seq<Resource>, held: set<Resource>)

  datatype State = State(status: int, threads: seq<Thread>, acquired: seq<Resource>, released: seq<Resource>)

  datatype Step = Enter(t: nat) | Advance(t: nat, ok: bool)

  function Held(t: Thread): set<Resource> {
    match t
    case Outside => {}
    case Allocating => {Flag}
    case Registering => {Flag, Context}
    case Querying => {Flag, Context, Callback}
    case Launching => {Flag, Context, Callback, Modules}
    case Leaving(_, held) => held
  }

  predicate Enabled(s: State, step: Step) {
    step.t < |s.threads| && (step.Enter? <==> s.threads[step.t].Outside?) &&
    (s.threads[step.t].Leaving? ==> s.threads[step.t].todo != [])
  }

  // ----- one caller

  /** The resource an acquisition step asks for. */
  function Asked(t: Thread): Option<Resource> {
    match t
    case Allocating => Some(Context)
    case Registering => Some(Callback)
    case Querying => Some(Modules)
    case _ => None
  }

  /** The next state of a caller inside; a failed step goes to its own list of releases. */
  function Next(t: Thread, ok: bool): Thread
    requires !t.Outside? && (t.Leaving? ==> t.todo != [])
  {
    match t
    case Allocating => if ok then Registering else Leaving([Flag], {Flag})
    case Registering => if ok then Querying else Leaving([Context, Flag], {Flag, Context})
    case Querying => if ok then Launching else Leaving([Callback, Context, Flag], {Flag, Context, Callback})
    case Launching =>
      if ok then Leaving([Modules, Context, Callback, Flag], {Flag, Context, Callback, Modules})
      else Leaving([Callback, Modules, Context, Flag], {Flag, Context, Callback, Modules})
    case Leaving(todo, held) => if todo[1..] == [] then Outside else Leaving(todo[1..], held - {todo[0]})
  }

  function Apply(s: State, step: Step): State
    requires Enabled(s, step)
  {
    match step
    case Enter(t) =>
      if s.status == 0
      then s.(status := 1, threads := s.threads[t := Allocating], acquired := s.acquired + [Flag])
      else s
    case Advance(t, ok) =>
      var thread := s.threads[t];
      var moved := s.(threads := s.threads[t := Next(thread, ok)]);
      if thread.Leaving? then
        moved.(released := s.released + [thread.todo[0]],
               status := if thread.todo[0] == Flag then s.status - 1 else s.status)
      else if ok && Asked(thread).Some? then moved.(acquired := s.acquired + [Asked(thread).value])
      else moved
  }

  // ----- what every step keeps

  function Has(t: Thread, r: Resource): nat { if r in Held(t) then 1 else 0 }

  /** A caller on its way out releases what it holds and nothing else, each once, the flag last. */
  ghost predicate Tidy(t: Thread) {
    t.Leaving? ==>
      && t.todo != [] && t.todo[|t.todo| - 1] == Flag
      && (forall r :: r in t.todo <==> r in t.held)
      && forall i, j :: 0 <= i < j < |t.todo| ==> t.todo[i] != t.todo[j]
  }

  ghost predicate Accounted(s: State, r: Resource) {
    Count(s.acquired, r) == Count(s.released, r) + Tally(Has, s.threads, r)
  }

  ghost predicate Inv(s: State) {
    && s.status == Tally(Has, s.threads, Flag)
    && s.status <= 1
    && (forall t :: 0 <= t < |s.threads| ==> Tidy(s.threads[t]))
    && forall r :: Accounted(s, r)
  }

  lemma NextIsTidy(t: Thread, ok: bool)
    requires Tidy(t) && !t.Outside?
    ensures Tidy(Next(t, ok))
  {
    if t.Leaving? && t.todo[1..] != [] {
      var rest := t.todo[1..];
      assert forall i :: 0 <= i < |rest| ==> rest[i] == t.todo[i + 1];
      forall r
        ensures r in rest <==> r in t.held - {t.todo[0]}
      {
        assert r in t.todo <==> r == t.todo[0] || r in rest;
      }
    }
  }

  /** What a caller holds changes by the one resource acquired or released. */
  lemma NextHolds(t: Thread, ok: bool, r: Resource)
    requires Tidy(t) && !t.Outside?
    ensures Has(Next(t, ok), r) ==
            if t.Leaving? then Has(t, r) - (if r == t.todo[0] then 1 else 0)
            else Has(t, r) + if ok && Asked(t) == Some(r) then 1 else 0
    ensures t.Leaving? && r == t.todo[0] ==> Has(t, r) == 1
    ensures t.Leaving? ==> (t.todo[0] == Flag <==> Next(t, ok).Outside?)
  {
    if t.Leaving? {
      assert t.todo[0] in t.todo;
      if t.todo[1..] == [] {
        assert |t.todo| == 1 && (r in t.held <==> r == Flag);
      } else {
        assert t.todo[|t.todo| - 1] != t.todo[0];
      }
    }
  }

  lemma StepKeepsAccounts(s: State, step: Step, r: Resource)
    requires Inv(s) && Enabled(s, step)
    ensures Accounted(Apply(s, step), r)
  {
    assert Accounted(s, r);
    var t := step.t;
    match step
    case Enter(_) =>
      TallyUpdate(Has, s.threads, t, Allocating, r);
      CountAppend(s.acquired, Flag, r);
    case Advance(_, ok) =>
      var thread := s.threads[t];
      NextHolds(thread, ok, r);
      TallyUpdate(Has, s.threads, t, Next(thread, ok), r);
      if thread.Leaving? {
        CountAppend(s.released, thread.todo[0], r);
      } else if ok && Asked(thread).Some? {
        CountAppend(s.acquired, Asked(thread).value, r);
      }
  }

  lemma StepKeepsFlag(s: State, step: Step)
    requires Inv(s) && Enabled(s, step)
    ensures Apply(s, step).status == Tally(Has, Apply(s, step).threads, Flag)
    ensures Apply(s, step).status <= 1
  {
    var t := step.t;
    match step
    case Enter(_) =>
      TallyUpdate(Has, s.threads, t, Allocating, Flag);
    case Advance(_, ok) =>
      NextHolds(s.threads[t], ok, Flag);
      TallyUpdate(Has, s.threads, t, Next(s.threads[t], ok), Flag);
  }

  lemma StepKeepsInv(s: State, step: Step)
    requires Inv(s) && Enabled(s, step)
    ensures Inv(Apply(s, step))
  {
    StepKeepsFlag(s, step);
    forall r
      ensures Accounted(Apply(s, step), r)
    {
      StepKeepsAccounts(s, step, r);
    }
    if step.Advance? {
      NextIsTidy(s.threads[step.t], step.ok);
    }
  }

  // ----- runs

  function Start(n: nat): State { State(0, seq(n, _ => Outside), [], []) }

  predicate Legal(s: State, steps: seq<Step>)
    decreases |steps|
  {
    steps == [] || (Enabled(s, steps[0]) && Legal(Apply(s, steps[0]), steps[1..]))
  }

  function Run(s: State, steps: seq<Step>): State
    requires Legal(s, steps)
    decreases |steps|
  {
    if steps == [] then s else Run(Apply(s, steps[0]), steps[1..])
  }

  lemma StartHoldsInv(n: nat)
    ensures Inv(Start(n))
  {
    forall r
      ensures Tally(Has, Start(n).threads, r) == 0
    {
      TallyZero(Has, Start(n).threads, r);
    }
  }

  lemma {:induction false} RunKeepsInv(s: State, steps: seq<Step>)
    requires Inv(s) && Legal(s, steps)
    ensures Inv(Run(s, steps))
    decreases |steps|
  {
    if steps != [] {
      StepKeepsInv(s, steps[0]);
      RunKeepsInv(Apply(s, steps[0]), steps[1..]);
    }
  }

  /**
   In every interleaving nmi_status is the number of callers inside, zero or one; every resource
   acquired has been released once or is held by a caller inside; and when nobody is inside, every
   acquisition has been matched by one release.
   */
  lemma NmiSectionIsExclusive(n: nat, steps: seq<Step>)
    requires Legal(Start(n), steps)
    ensures var s := Run(Start(n), steps);
            && s.status == Tally(Has, s.threads, Flag) && 0 <= s.status <= 1
            && (forall r :: Accounted(s, r))
            && (s.status == 0 ==> forall r :: Count(s.acquired, r) == Count(s.released, r))
  {
    StartHoldsInv(n);
    RunKeepsInv(Start(n), steps);
    var s := Run(Start(n), steps);
    if s.status == 0 {
      forall r
        ensures Count(s.acquired, r) == Count(s.released, r)
      {
        assert Accounted(s, r);
        NobodyInside(s, r);
      }
    }
  }

  lemma NobodyInside(s: State, r: Resource)
    requires Inv(s) && s.status == 0
    ensures Tally(Has, s.threads, r) == 0
  {
    forall t | 0 <= t < |s.threads|
      ensures Has(s.threads[t], r) == 0
    {
      TallyAtLeast(Has, s.threads, t, t, Flag);
      InsideHoldsFlag(s.threads[t]);
    }
    TallyZero(Has, s.threads, r);
  }

  lemma InsideHoldsFlag(t: Thread)
    requires Tidy(t)
    ensures t.Outside? <==> Flag !in Held(t)
  {
    if t.Leaving? {
      assert t.todo[|t.todo| - 1] in t.todo;
    }
  }

  /** How many steps a caller inside has left at most. */
  function Left(t: Thread): nat {
    match t
    case Outside => 0
    case Allocating => 8
    case Registering => 7
    case Querying => 6
    case Launching => 5
    case Leaving(todo, _) => |todo|
  }

  /** Every admitted caller gets out: each of its steps is possible, brings it closer, and the last one takes it outside. */
  lemma EveryCallerLeaves(s: State, t: nat, ok: bool)
    requires Inv(s) && t < |s.threads| && !s.threads[t].Outside?
    ensures Enabled(s, Advance(t, ok))
    ensures var thread := Apply(s, Advance(t, ok)).threads[t];
            Left(thread) < Left(s.threads[t]) && (Left(thread) == 0 <==> thread.Outside?)
  {
    NextIsTidy(s.threads[t], ok);
  }

  // ----- the callback against its context

  /** The registered callback writes to its context; it dangles once the context has been freed. */
  predicate Dangling(t: Thread) { Callback in Held(t) && Context !in Held(t) }

  /** How a caller on its way out came by its list of releases. */
  predicate OnAPath(t: Thread) {
    t.Leaving? ==>
      || t == Leaving([Flag], {Flag})
      || t == Leaving([Context, Flag], {Flag, Context})
      || t == Leaving([Callback, Context, Flag], {Flag, Context, Callback})
      || t == Leaving([Callback, Flag], {Flag, Callback})
      || t == Leaving([Context, Callback, Flag], {Flag, Context, Callback})
      || t == Leaving([Modules, Context, Callback, Flag], {Flag, Context, Callback, Modules})
      || t == Leaving([Callback, Modules, Context, Flag], {Flag, Context, Callback, Modules})
      || t == Leaving([Modules, Context, Flag], {Flag, Context, Modules})
  }

  lemma NextOnAPath(t: Thread, ok: bool)
    requires OnAPath(t) && !t.Outside? && (t.Leaving? ==> t.todo != [])
    ensures OnAPath(Next(t, ok))
  {
    if t.Leaving? {
      var held := t.held - {t.todo[0]};
      assert {Flag, Context} - {Context} == {Flag};
      assert {Flag, Callback} - {Callback} == {Flag};
      assert {Flag, Context, Callback} - {Callback} == {Flag, Context};
      assert {Flag, Context, Callback} - {Context} == {Flag, Callback};
      assert {Flag, Context, Modules} - {Modules} == {Flag, Context};
      assert {Flag, Context, Callback, Modules} - {Modules} == {Flag, Context, Callback};
      assert {Flag, Context, Callback, Modules} - {Callback} == {Flag, Context, Modules};
    }
  }

  lemma {:induction false} RunOnAPath(s: State, steps: seq<Step>)
    requires Legal(s, steps) && forall t :: 0 <= t < |s.threads| ==> OnAPath(s.threads[t])
    ensures forall t :: 0 <= t < |Run(s, steps).threads| ==> OnAPath(Run(s, steps).threads[t])
    decreases |steps|
  {
    if steps != [] {
      if steps[0].Advance? {
        NextOnAPath(s.threads[steps[0].t], steps[0].ok);
      }
      RunOnAPath(Apply(s, steps[0]), steps[1..]);
    }
  }

  /** The callback is registered on a freed context exactly at one point: between the last two releases of the successful path. */
  lemma DanglingExactly(n: nat, steps: seq<Step>, t: nat)
    requires Legal(Start(n), steps) && t < |Run(Start(n), steps).threads|
    ensures var thread := Run(Start(n), steps).threads[t];
            Dangling(thread) <==> thread.Leaving? && thread.todo == [Callback, Flag]
  {
    RunOnAPath(Start(n), steps);
  }

  /** That point is reached whenever everything succeeds. */
  lemma DanglingIsReached()
    ensures exists steps :: Legal(Start(1), steps) && Run(Start(1), steps).threads == [Leaving([Callback, Flag], {Flag, Callback})]
  {
    var s1 := Apply(Start(1), Enter(0));
    assert s1.threads == [Allocating];
    var s2 := Apply(s1, Advance(0, true));
    var s3 := Apply(s2, Advance(0, true));
    var s4 := Apply(s3, Advance(0, true));
    assert s4.threads == [Launching];
    var steps := AfterLaunch(s4);
    LegalStep(s3, Advance(0, true), steps);
    steps := [Advance(0, true)] + steps;
    LegalStep(s2, Advance(0, true), steps);
    steps := [Advance(0, true)] + steps;
    LegalStep(s1, Advance(0, true), steps);
    steps := [Advance(0, true)] + steps;
    LegalStep(Start(1), Enter(0), steps);
  }

  lemma AfterLaunch(s: State) returns (steps: seq<Step>)
    requires s.threads == [Launching]
    ensures Legal(s, steps) && Run(s, steps).threads == [Leaving([Callback, Flag], {Flag, Callback})]
  {
    var s5 := Apply(s, Advance(0, true));
    var s6 := Apply(s5, Advance(0, true));
    assert {Flag, Context, Callback, Modules} - {Modules} == {Flag, Context, Callback};
    assert s6.threads == [Leaving([Context, Callback, Flag], {Flag, Context, Callback})];
    assert {Flag, Context, Callback} - {Context} == {Flag, Callback};
    steps := [];
    LegalStep(s6, Advance(0, true), steps);
    steps := [Advance(0, true)] + steps;
    LegalStep(s5, Advance(0, true), steps);
    steps := [Advance(0, true)] + steps;
    LegalStep(s, Advance(0, true), steps);
    steps := [Advance(0, true)] + steps;
  }

  lemma LegalStep(s: State, step: Step, rest: seq<Step>)
    requires Enabled(s, step) && Legal(Apply(s, step), rest)
    ensures Legal(s, [step] + rest) && Run(s, [step] + rest) == Run(Apply(s, step), rest)
  {
    assert ([step] + rest)[1..] == rest;
  }

  // ----- one call, in order

  datatype Status = Success | AlreadyCommitted | Failure

  /** Where the machine takes a caller that nobody interrupts, when it turns to leave. */
  function Exit(contextOk: bool, callbackOk: bool, modulesOk: bool, launched: bool): (t: Thread)
    ensures t.Leaving?
  {
    var t1 := Next(Allocating, contextOk);
    if t1.Leaving? then t1
    else
      var t2 := Next(t1, callbackOk);
      if t2.Leaving? then t2
      else
        var t3 := Next(t2, modulesOk);
        if t3.Leaving? then t3 else Next(t3, launched)
  }

  /** The caller `n` releases further on. */
  function After(t: Thread, n: nat): Thread
    decreases n
  {
    if n == 0 || t.Outside? || (t.Leaving? && t.todo == []) then t else After(Next(t, true), n - 1)
  }

  /** On its way out of a failed call: the callback goes before its context. */
  predicate FailedPath(t: Thread) {
    || t.Outside?
    || t == Leaving([Flag], {Flag})
    || t == Leaving([Context, Flag], {Flag, Context})
    || t == Leaving([Callback, Context, Flag], {Flag, Context, Callback})
    || t == Leaving([Modules, Context, Flag], {Flag, Context, Modules})
    || t == Leaving([Callback, Modules, Context, Flag], {Flag, Context, Callback, Modules})
  }

  lemma NextOnFailedPath(t: Thread)
    requires FailedPath(t) && !t.Outside?
    ensures FailedPath(Next(t, true)) && !Dangling(t)
  {
    assert {Flag, Context} - {Context} == {Flag};
    assert {Flag, Context, Callback} - {Callback} == {Flag, Context};
    assert {Flag, Context, Modules} - {Modules} == {Flag, Context};
    assert {Flag, Context, Callback, Modules} - {Callback} == {Flag, Context, Modules};
  }

  /** A call that fails never leaves the callback registered on a freed context; a call that succeeds does. */
  lemma {:induction false} FailedPathNeverDangles(t: Thread, n: nat)
    requires FailedPath(t)
    ensures !Dangling(After(t, n))
    decreases n
  {
    if !t.Outside? {
      NextOnFailedPath(t);
      if n > 0 {
        FailedPathNeverDangles(Next(t, true), n - 1);
      }
    }
  }

  lemma DanglesOnlyOnSuccess(contextOk: bool, callbackOk: bool, modulesOk: bool, launched: bool)
    ensures var exit := Exit(contextOk, callbackOk, modulesOk, launched);
            CanDangle(exit) <==> contextOk && callbackOk && modulesOk && launched
  {
    var exit := Exit(contextOk, callbackOk, modulesOk, launched);
    if contextOk && callbackOk && modulesOk && launched {
      SuccessDangles(exit, 2);
    } else {
      forall n: nat
        ensures !Dangling(After(exit, n))
      {
        FailedPathNeverDangles(exit, n);
      }
    }
  }

  ghost predicate CanDangle(t: Thread) {
    exists n: nat :: Dangling(After(t, n))
  }

  lemma SuccessDangles(t0: Thread, n: nat)
    requires t0 == Exit(true, true, true, true) && n == 2
    ensures Dangling(After(t0, n))
  {
    var t1 := Next(t0, true);
    assert {Flag, Context, Callback, Modules} - {Modules} == {Flag, Context, Callback};
    assert t1 == Leaving([Context, Callback, Flag], {Flag, Context, Callback});
    var t2 := Next(t1, true);
    assert After(t2, 0) == t2 && After(t1, 1) == After(t2, 0);
  }

  ghost predicate Once(s: seq<Resource>) {
    forall i, j :: 0 <= i < j < |s| ==> s[i] != s[j]
  }

  class DriverConfig {
    var nmiStatus: int

    /** IsNmiInProgress: the compare-and-exchange takes the flag unless it is taken. */
    method IsNmiInProgress() returns (busy: bool)
      modifies this
      ensures busy <==> old(nmiStatus) != 0
      ensures nmiStatus == if busy then old(nmiStatus) else 1
    {
      busy := nmiStatus != 0;
      if !busy {
        nmiStatus := 1;
      }
    }

    method UnsetNmiInProgressFlag()
      modifies this
      ensures nmiStatus == old(nmiStatus) - 1
    {
      nmiStatus := nmiStatus - 1;
    }

    /**
     HandleNmiIOCTL without interference, which releases in the order of the machine's path: every path leaves the flag as it was and releases, once, each
     resource it acquired and no other.
     */
    method HandleNmiIOCTL(contextOk: bool, callbackOk: bool, modulesOk: bool, launched: bool, analysed: bool)
      returns (status: Status, acquired: seq<Resource>, released: seq<Resource>)
      modifies this
      ensures nmiStatus == old(nmiStatus)
      ensures status.AlreadyCommitted? <==> old(nmiStatus) != 0
      ensures status.Success? <==> old(nmiStatus) == 0 && contextOk && callbackOk && modulesOk && launched && analysed
      ensures !status.AlreadyCommitted? ==>
                var exit := Exit(contextOk, callbackOk, modulesOk, launched);
                released + [Flag] == exit.todo && forall r :: r in exit.held <==> r == Flag || r in acquired
      ensures Once(acquired) && Once(released) && forall r :: r in acquired <==> r in released
      ensures Context in acquired <==> old(nmiStatus) == 0 && contextOk
      ensures Callback in acquired <==> old(nmiStatus) == 0 && contextOk && callbackOk
      ensures Modules in acquired <==> old(nmiStatus) == 0 && contextOk && callbackOk && modulesOk
    {
      acquired, released := [], [];
      var busy := IsNmiInProgress();
      if busy {
        return AlreadyCommitted, [], [];
      }
      if !contextOk {
        UnsetNmiInProgressFlag();
        return Failure, [], [];
      }
      acquired := acquired + [Context];
      if !callbackOk {
        released := released + [Context];
        UnsetNmiInProgressFlag();
        return Failure, acquired, released;
      }
      acquired := acquired + [Callback];
      if !modulesOk {
        released := released + [Callback];
        released := released + [Context];
        UnsetNmiInProgressFlag();
        return Failure, acquired, released;
      }
      acquired := acquired + [Modules];
      if !launched {
        released := released + [Callback];
        released := released + [Modules];
        released := released + [Context];
        UnsetNmiInProgressFlag();
        return Failure, acquired, released;
      }
      status := if analysed then Success else Failure;
      released := released + [Modules];
      released := released + [Context];
      released := released + [Callback];
      UnsetNmiInProgressFlag();
    }
  }
}
