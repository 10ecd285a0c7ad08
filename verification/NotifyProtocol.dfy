/**
 The notify routines of one list (driver/callbacks.c), run by any number of threads at the grain of
 their locked sections and reference operations.  A deletion finds its entry under the lock, drops the
 entry's two references without it, and takes the lock again to remove the entry.

 `refs` are the references the driver holds on each object, `lookups` those of them that lookups took.
 */
module NotifyProtocol {
  import opened Wrappers
  import opened Tallies
  import Ledger = ReferenceLedger

  type Object = Ledger.Object

  type Listed = Ledger.Listed

  type Notice = Ledger.Notice

  /** A list entry; its address is its identity. */
  datatype Node = Node(address: nat, entry: Listed)

  datatype Thread =
    | Idle
    | Looked(n: Notice)                  // both lookups are done
    | Referenced(entry: Listed)          // the references of a new entry are taken, it is not listed yet
    | Holding(node: Node)                // an entry was found, the lock is dropped
    | Dropped(node: Node)                // the entry's references are dropped, it is not removed yet

  datatype State = State(
    nodes: seq<Node>, threads: seq<Thread>, refs: Object -> int, lookups: Object -> int, next: nat)

  datatype Action = Lookup(n: Notice) | GiveUp | Reference | Insert | Find | Drop | Remove

  datatype Step = Step(t: nat, a: Action) | DrainFirst

  function Holds(entry: Listed, o: Object): nat {
    (if entry.other == o then 1 else 0) + (if entry.key == o then 1 else 0)
  }

  function NodeHolds(node: Node, o: Object): nat { Holds(node.entry, o) }

  function LookedUp(n: Notice, o: Object): nat {
    (if n.other == Some(o) then 1 else 0) + (if n.key == Some(o) then 1 else 0)
  }

  /** The position of the first entry for `key`, or the length of the list. */
  function FirstFor(nodes: seq<Node>, key: Object): (k: nat)
    ensures k <= |nodes| && (k < |nodes| ==> nodes[k].entry.key == key)
  {
    if nodes == [] || nodes[0].entry.key == key then 0 else 1 + FirstFor(nodes[1..], key)
  }

  function IndexOf(nodes: seq<Node>, node: Node): (k: nat)
    ensures k <= |nodes| && (k < |nodes| ==> nodes[k] == node) && (k < |nodes| <==> node in nodes)
  {
    if nodes == [] || nodes[0] == node then 0 else 1 + IndexOf(nodes[1..], node)
  }

  function Cut(nodes: seq<Node>, k: nat): seq<Node>
    requires k < |nodes|
  {
    nodes[..k] + nodes[k + 1..]
  }

  predicate Can(th: Thread, a: Action) {
    match a
    case Lookup(_) => th.Idle?
    case GiveUp => th.Looked? && (!Ledger.Found(th.n) || (th.n.create && !th.n.allocOk))
    case Reference => th.Looked? && Ledger.Inserts(th.n)
    case Insert => th.Referenced?
    case Find => th.Looked? && Ledger.Found(th.n) && !th.n.create
    case Drop => th.Holding?
    case Remove => th.Dropped?
  }

  predicate Enabled(s: State, step: Step) {
    match step
    case Step(t, a) => t < |s.threads| && Can(s.threads[t], a)
    case DrainFirst => s.nodes != []
  }

  function ThreadAfter(nodes: seq<Node>, th: Thread, a: Action): Thread
    requires Can(th, a)
  {
    match a
    case Lookup(n) => Looked(n)
    case GiveUp => Idle
    case Reference => Referenced(Ledger.Listed(th.n.key.value, th.n.other.value))
    case Insert => Idle
    case Find =>
      var k := FirstFor(nodes, th.n.key.value);
      if k < |nodes| then Holding(nodes[k]) else Idle
    case Drop => Dropped(th.node)
    case Remove => Idle
  }

  function NodesAfter(nodes: seq<Node>, th: Thread, a: Action, next: nat): seq<Node>
    requires Can(th, a)
  {
    if a.Insert? then [Node(next, th.entry)] + nodes
    else if a.Remove? && th.node in nodes then Cut(nodes, IndexOf(nodes, th.node))
    else nodes
  }

  /** How the action changes the references to `o`. */
  function RefsBy(th: Thread, a: Action, o: Object): int
    requires Can(th, a)
  {
    match a
    case Lookup(n) => LookedUp(n, o)
    case Reference => Holds(Ledger.Listed(th.n.key.value, th.n.other.value), o)
    case Drop => 0 - NodeHolds(th.node, o) as int
    case _ => 0
  }

  function Apply(s: State, step: Step): State
    requires Enabled(s, step)
  {
    match step
    case Step(t, a) =>
      var th := s.threads[t];
      State(NodesAfter(s.nodes, th, a, s.next),
            s.threads[t := ThreadAfter(s.nodes, th, a)],
            (o: Object) => s.refs(o) + RefsBy(th, a, o),
            (o: Object) => s.lookups(o) + if a.Lookup? then LookedUp(a.n, o) else 0,
            if a.Insert? then s.next + 1 else s.next)
    case DrainFirst =>
      s.(nodes := s.nodes[1..], refs := (o: Object) => s.refs(o) - NodeHolds(s.nodes[0], o))
  }

  // ----- the balance

  /** Dropped references of an entry still listed. */
  function GapOf(th: Thread, o: Object): nat { if th.Dropped? then NodeHolds(th.node, o) else 0 }

  /** References taken for an entry not listed yet. */
  function PendingOf(th: Thread, o: Object): nat { if th.Referenced? then Holds(th.entry, o) else 0 }

  ghost predicate Balanced(s: State, o: Object) {
    s.refs(o) + Tally(GapOf, s.threads, o) ==
    Tally(NodeHolds, s.nodes, o) + s.lookups(o) + Tally(PendingOf, s.threads, o)
  }

  predicate Has(th: Thread, node: Node) { (th.Holding? || th.Dropped?) && th.node == node }

  /** Another deletion, or the drain, takes an entry that a deletion already has. */
  ghost predicate Conflict(s: State, step: Step)
    requires Enabled(s, step)
  {
    match step
    case Step(t, a) =>
      a.Find? && ThreadAfter(s.nodes, s.threads[t], a).Holding? &&
      exists u :: 0 <= u < |s.threads| && Has(s.threads[u], ThreadAfter(s.nodes, s.threads[t], a).node)
    case DrainFirst => exists u :: 0 <= u < |s.threads| && Has(s.threads[u], s.nodes[0])
  }

  /** Addresses in use are distinct, and below the next one. */
  ghost predicate Addressed(nodes: seq<Node>, next: nat) {
    && (forall i :: 0 <= i < |nodes| ==> nodes[i].address < next)
    && (forall i, j :: 0 <= i < j < |nodes| ==> nodes[i].address != nodes[j].address)
  }

  /** Every entry a deletion has is listed, and no other deletion has it. */
  ghost predicate HeldOnce(nodes: seq<Node>, threads: seq<Thread>) {
    && (forall t :: 0 <= t < |threads| && (threads[t].Holding? || threads[t].Dropped?) ==> threads[t].node in nodes)
    && (forall t, u :: 0 <= t < u < |threads| && (threads[t].Holding? || threads[t].Dropped?) ==> !Has(threads[u], threads[t].node))
  }

  /** Both objects of an entry have been looked up. */
  predicate Known(lookups: Object -> int, entry: Listed) {
    lookups(entry.key) >= 1 && lookups(entry.other) >= 1
  }

  predicate KnownTo(lookups: Object -> int, th: Thread) {
    && (th.Looked? && Ledger.Found(th.n) ==> Known(lookups, Ledger.Listed(th.n.key.value, th.n.other.value)))
    && (th.Referenced? ==> Known(lookups, th.entry))
  }

  /** Whatever is listed, or is to be, was looked up when it was created. */
  ghost predicate AllKnown(s: State) {
    && (forall o :: s.lookups(o) >= 0)
    && (forall i :: 0 <= i < |s.nodes| ==> Known(s.lookups, s.nodes[i].entry))
    && (forall t :: 0 <= t < |s.threads| ==> KnownTo(s.lookups, s.threads[t]))
  }

  ghost predicate Inv(s: State) {
    && Addressed(s.nodes, s.next) && HeldOnce(s.nodes, s.threads) && AllKnown(s)
    && forall o :: Balanced(s, o)
  }

  lemma CutMembers(nodes: seq<Node>, k: nat, node: Node)
    requires k < |nodes| && node != nodes[k]
    ensures node in Cut(nodes, k) <==> node in nodes
  {
    assert nodes == nodes[..k] + [nodes[k]] + nodes[k + 1..];
  }

  lemma StepKeepsBalance(s: State, step: Step, o: Object)
    requires Balanced(s, o) && Enabled(s, step)
    requires step.Step? && step.a.Remove? ==> s.threads[step.t].node in s.nodes
    ensures Balanced(Apply(s, step), o)
  {
    match step
    case Step(t, a) =>
      var th := s.threads[t];
      TallyUpdate<Thread, Object>(GapOf, s.threads, t, ThreadAfter(s.nodes, th, a), o);
      TallyUpdate<Thread, Object>(PendingOf, s.threads, t, ThreadAfter(s.nodes, th, a), o);
      if a.Insert? {
        assert ([Node(s.next, th.entry)] + s.nodes)[1..] == s.nodes;
      } else if a.Remove? {
        TallyRemove<Node, Object>(NodeHolds, s.nodes, IndexOf(s.nodes, th.node), o);
      }
    case DrainFirst =>
  }

  lemma StepKeepsAddressed(s: State, step: Step)
    requires Addressed(s.nodes, s.next) && Enabled(s, step)
    ensures Addressed(Apply(s, step).nodes, Apply(s, step).next)
  {
    if step.Step? && step.a.Remove? && s.threads[step.t].node in s.nodes {
      CutAddressed(s.nodes, IndexOf(s.nodes, s.threads[step.t].node), s.next);
    }
  }

  lemma CutAddressed(nodes: seq<Node>, k: nat, next: nat)
    requires Addressed(nodes, next) && k < |nodes|
    ensures Addressed(Cut(nodes, k), next)
  {
    var rest := Cut(nodes, k);
    assert forall i :: 0 <= i < |rest| ==> rest[i] == if i < k then nodes[i] else nodes[i + 1];
  }

  lemma StepKeepsHeld(s: State, step: Step)
    requires HeldOnce(s.nodes, s.threads) && Enabled(s, step) && !Conflict(s, step)
    ensures HeldOnce(Apply(s, step).nodes, Apply(s, step).threads)
  {
    var s' := Apply(s, step);
    forall t | 0 <= t < |s'.threads| && (s'.threads[t].Holding? || s'.threads[t].Dropped?)
      ensures s'.threads[t].node in s'.nodes
    {
      StillListed(s, step, t);
    }
    forall t, u | 0 <= t < u < |s'.threads| && (s'.threads[t].Holding? || s'.threads[t].Dropped?)
      ensures !Has(s'.threads[u], s'.threads[t].node)
    {
      StillApart(s, step, t, u);
    }
  }

  lemma StillListed(s: State, step: Step, t: nat)
    requires HeldOnce(s.nodes, s.threads) && Enabled(s, step) && !Conflict(s, step)
    requires t < |s.threads| && (Apply(s, step).threads[t].Holding? || Apply(s, step).threads[t].Dropped?)
    ensures Apply(s, step).threads[t].node in Apply(s, step).nodes
  {
    match step
    case Step(v, a) =>
      if a.Remove? && s.threads[v].node in s.nodes {
        assert t != v;
        assert !Has(s.threads[t], s.threads[v].node);
        CutMembers(s.nodes, IndexOf(s.nodes, s.threads[v].node), s.threads[t].node);
      }
    case DrainFirst =>
      assert !Has(s.threads[t], s.nodes[0]);
  }

  lemma StillApart(s: State, step: Step, t: nat, u: nat)
    requires HeldOnce(s.nodes, s.threads) && Enabled(s, step) && !Conflict(s, step)
    requires t < u < |s.threads| && (Apply(s, step).threads[t].Holding? || Apply(s, step).threads[t].Dropped?)
    ensures !Has(Apply(s, step).threads[u], Apply(s, step).threads[t].node)
  {
  }

  lemma StepKeepsKnown(s: State, step: Step)
    requires AllKnown(s) && Enabled(s, step)
    ensures AllKnown(Apply(s, step))
  {
    var s' := Apply(s, step);
    assert forall o :: s'.lookups(o) >= s.lookups(o);
    forall i | 0 <= i < |s'.nodes|
      ensures Known(s'.lookups, s'.nodes[i].entry)
    {
      NodeKnown(s, step, i);
    }
    forall t | 0 <= t < |s'.threads|
      ensures KnownTo(s'.lookups, s'.threads[t])
    {
      assert KnownTo(s.lookups, s.threads[t]);
    }
  }

  lemma NodeKnown(s: State, step: Step, i: nat)
    requires AllKnown(s) && Enabled(s, step) && i < |Apply(s, step).nodes|
    ensures Known(Apply(s, step).lookups, Apply(s, step).nodes[i].entry)
  {
    var s' := Apply(s, step);
    var node := s'.nodes[i];
    if step.Step? && step.a.Insert? && i == 0 {
      assert KnownTo(s.lookups, s.threads[step.t]);
    } else {
      assert node in s.nodes;
      var j :| 0 <= j < |s.nodes| && s.nodes[j] == node;
      assert Known(s.lookups, s.nodes[j].entry);
    }
  }

  // ----- runs

  predicate Possible(s: State, steps: seq<Step>)
    decreases |steps|
  {
    steps == [] || (Enabled(s, steps[0]) && Possible(Apply(s, steps[0]), steps[1..]))
  }

  /** Runs in which no entry is taken by two deletions, or by a deletion and the drain. */
  ghost predicate Legal(s: State, steps: seq<Step>)
    decreases |steps|
  {
    steps == [] || (Enabled(s, steps[0]) && !Conflict(s, steps[0]) && Legal(Apply(s, steps[0]), steps[1..]))
  }

  function Run(s: State, steps: seq<Step>): State
    requires Possible(s, steps)
    decreases |steps|
  {
    if steps == [] then s else Run(Apply(s, steps[0]), steps[1..])
  }

  ghost predicate Start(s: State) {
    && s.nodes == [] && (forall t :: 0 <= t < |s.threads| ==> s.threads[t].Idle?)
    && forall o :: s.refs(o) == 0 && s.lookups(o) == 0
  }

  lemma StepKeepsInv(s: State, step: Step)
    requires Inv(s) && Enabled(s, step) && !Conflict(s, step)
    ensures Inv(Apply(s, step))
  {
    var s' := Apply(s, step);
    StepKeepsAddressed(s, step);
    StepKeepsHeld(s, step);
    StepKeepsKnown(s, step);
    forall o
      ensures Balanced(s', o)
    {
      StepKeepsBalance(s, step, o);
    }
  }

  lemma {:induction false} RunKeepsInv(s: State, steps: seq<Step>)
    requires Inv(s) && Legal(s, steps)
    ensures Possible(s, steps) && Inv(Run(s, steps))
    decreases |steps|
  {
    if steps != [] {
      StepKeepsInv(s, steps[0]);
      RunKeepsInv(Apply(s, steps[0]), steps[1..]);
    }
  }

  lemma StartHoldsInv(s0: State)
    requires Start(s0)
    ensures Inv(s0)
  {
    forall x
      ensures Balanced(s0, x)
    {
      TallyZero<Thread, Object>(GapOf, s0.threads, x);
      TallyZero<Thread, Object>(PendingOf, s0.threads, x);
    }
  }

  /** Dropped references never outnumber those of the entries listed. */
  lemma {:induction false} GapBelow(nodes: seq<Node>, threads: seq<Thread>, o: Object)
    requires HeldOnce(nodes, threads)
    ensures Tally(GapOf, threads, o) <= Tally(NodeHolds, nodes, o)
    decreases |threads|
  {
    if threads != [] {
      var rest := threads[1..];
      if threads[0].Dropped? {
        var k := IndexOf(nodes, threads[0].node);
        forall t | 0 <= t < |rest| && (rest[t].Holding? || rest[t].Dropped?)
          ensures rest[t].node in Cut(nodes, k)
        {
          assert rest[t] == threads[t + 1] && !Has(threads[t + 1], threads[0].node);
          CutMembers(nodes, k, rest[t].node);
        }
        TallyRemove<Node, Object>(NodeHolds, nodes, k, o);
        GapBelow(Cut(nodes, k), rest, o);
      } else {
        GapBelow(nodes, rest, o);
      }
    }
  }

  /**
   In every interleaving in which no entry is taken twice: each object's references are those of the
   entries listed, of lookups and of entries about to be listed, less those an unfinished deletion has
   dropped; and an object never has fewer references than lookups found it.
   */
  lemma LedgerInEveryInterleaving(s0: State, steps: seq<Step>, o: Object)
    requires Start(s0) && Legal(s0, steps)
    ensures Possible(s0, steps) && Balanced(Run(s0, steps), o)
    ensures Run(s0, steps).refs(o) >= Run(s0, steps).lookups(o)
  {
    StartHoldsInv(s0);
    RunKeepsInv(s0, steps);
    var s := Run(s0, steps);
    GapBelow(s.nodes, s.threads, o);
  }

  /**
   So a listed object always keeps a reference, even while an unfinished deletion has dropped the
   entry's own: the lookup of its creation is never given back.
   */
  lemma ListedKeepsReference(s0: State, steps: seq<Step>, i: nat)
    requires Start(s0) && Legal(s0, steps)
    ensures Possible(s0, steps)
    ensures var s := Run(s0, steps);
            i < |s.nodes| ==> s.refs(s.nodes[i].entry.key) >= 1 && s.refs(s.nodes[i].entry.other) >= 1
  {
    StartHoldsInv(s0);
    RunKeepsInv(s0, steps);
    var s := Run(s0, steps);
    if i < |s.nodes| {
      assert Known(s.lookups, s.nodes[i].entry);
      LedgerInEveryInterleaving(s0, steps, s.nodes[i].entry.key);
      LedgerInEveryInterleaving(s0, steps, s.nodes[i].entry.other);
    }
  }

  /**
   The removal that ends a deletion keeps the balance of an object if and only
   if the entry is still listed, or does not hold the object.
   */
  lemma RemovalBalancesExactly(s: State, t: nat, o: Object)
    requires Balanced(s, o) && Enabled(s, Step(t, Remove))
    ensures Balanced(Apply(s, Step(t, Remove)), o) <==>
            s.threads[t].node in s.nodes || NodeHolds(s.threads[t].node, o) == 0
  {
    var th := s.threads[t];
    TallyUpdate<Thread, Object>(GapOf, s.threads, t, Idle, o);
    TallyUpdate<Thread, Object>(PendingOf, s.threads, t, Idle, o);
    if th.node in s.nodes {
      TallyRemove<Node, Object>(NodeHolds, s.nodes, IndexOf(s.nodes, th.node), o);
    }
  }

  /** What a thread inside a routine does next. */
  function NextAction(th: Thread): Action
    requires !th.Idle?
  {
    match th
    case Looked(n) => if Ledger.Inserts(n) then Reference else if Ledger.Found(n) && !n.create then Find else GiveUp
    case Referenced(_) => Insert
    case Holding(_) => Drop
    case Dropped(_) => Remove
  }

  function ToGo(th: Thread): nat {
    match th
    case Idle => 0
    case Looked(_) => 3
    case Referenced(_) => 1
    case Holding(_) => 2
    case Dropped(_) => 1
  }

  /** Every routine runs to its end: its next step is possible and brings it closer. */
  lemma EveryRoutineCanFinish(s: State, t: nat)
    requires t < |s.threads| && !s.threads[t].Idle?
    ensures Enabled(s, Step(t, NextAction(s.threads[t])))
    ensures ToGo(Apply(s, Step(t, NextAction(s.threads[t]))).threads[t]) < ToGo(s.threads[t])
  {
  }

  // ----- what a conflict leads to

  lemma Prefixed(s: State, step: Step, rest: seq<Step>)
    requires Enabled(s, step) && Possible(Apply(s, step), rest)
    ensures Possible(s, [step] + rest) && Run(s, [step] + rest) == Run(Apply(s, step), rest)
  {
    assert ([step] + rest)[1..] == rest;
  }

  /** What a deletion that has its entry still does. */
  function Finish(th: Thread, t: nat): seq<Step>
    requires th.Holding? || th.Dropped?
  {
    if th.Holding? then [Step(t, Drop), Step(t, Remove)] else [Step(t, Remove)]
  }

  lemma FinishRuns(s: State, t: nat)
    requires t < |s.threads| && (s.threads[t].Holding? || s.threads[t].Dropped?)
    ensures var steps := Finish(s.threads[t], t);
            && Possible(s, steps)
            && Run(s, steps) == (if s.threads[t].Holding? then Apply(Apply(s, Step(t, Drop)), Step(t, Remove))
                                 else Apply(s, Step(t, Remove)))
  {
    if s.threads[t].Holding? {
      var s1 := Apply(s, Step(t, Drop));
      Prefixed(s1, Step(t, Remove), []);
      Prefixed(s, Step(t, Drop), [Step(t, Remove)]);
      assert [Step(t, Drop)] + [Step(t, Remove)] == [Step(t, Drop), Step(t, Remove)];
      assert [Step(t, Remove)] + [] == [Step(t, Remove)];
    } else {
      Prefixed(s, Step(t, Remove), []);
      assert [Step(t, Remove)] + [] == [Step(t, Remove)];
    }
  }

  /** A deletion whose entry is gone drops references that nobody holds. */
  lemma StaleDeletionBreaksBalance(s: State, t: nat)
    requires t < |s.threads| && (s.threads[t].Holding? || s.threads[t].Dropped?)
    requires s.threads[t].node !in s.nodes && Balanced(s, s.threads[t].node.entry.key)
    ensures var steps := Finish(s.threads[t], t);
            Possible(s, steps) && !Balanced(Run(s, steps), s.threads[t].node.entry.key)
  {
    FinishRuns(s, t);
    var key := s.threads[t].node.entry.key;
    if s.threads[t].Holding? {
      StepKeepsBalance(s, Step(t, Drop), key);
      RemovalBalancesExactly(Apply(s, Step(t, Drop)), t, key);
    } else {
      RemovalBalancesExactly(s, t, key);
    }
  }

  /** A deletion that finishes with its entry listed keeps the balance, takes the entry out, and leaves the others alone. */
  lemma FinishRemoves(s: State, t: nat, o: Object)
    requires t < |s.threads| && (s.threads[t].Holding? || s.threads[t].Dropped?)
    requires Addressed(s.nodes, s.next) && s.threads[t].node in s.nodes && Balanced(s, o)
    ensures Possible(s, Finish(s.threads[t], t))
    ensures var s' := Run(s, Finish(s.threads[t], t));
            && Balanced(s', o) && s.threads[t].node !in s'.nodes && |s'.threads| == |s.threads|
            && forall u :: 0 <= u < |s.threads| && u != t ==> s'.threads[u] == s.threads[u]
  {
    FinishRuns(s, t);
    var s1 := if s.threads[t].Holding? then Apply(s, Step(t, Drop)) else s;
    if s.threads[t].Holding? {
      StepKeepsBalance(s, Step(t, Drop), o);
    }
    RemovalBalancesExactly(s1, t, o);
    CutLacks(s.nodes, IndexOf(s.nodes, s.threads[t].node), s.next);
  }

  lemma CutLacks(nodes: seq<Node>, k: nat, next: nat)
    requires Addressed(nodes, next) && k < |nodes|
    ensures nodes[k] !in Cut(nodes, k)
  {
    var rest := Cut(nodes, k);
    assert forall i :: 0 <= i < |rest| ==> rest[i] == if i < k then nodes[i] else nodes[i + 1];
  }

  lemma {:induction false} RunsCompose(s: State, xs: seq<Step>, ys: seq<Step>)
    requires Possible(s, xs) && Possible(Run(s, xs), ys)
    ensures Possible(s, xs + ys) && Run(s, xs + ys) == Run(Run(s, xs), ys)
    decreases |xs|
  {
    if xs == [] {
      assert xs + ys == ys;
    } else {
      RunsCompose(Apply(s, xs[0]), xs[1..], ys);
      Prefixed(s, xs[0], xs[1..] + ys);
      assert xs + ys == [xs[0]] + (xs[1..] + ys);
    }
  }

  /** The second deletion finds the entry, the first one finishes, then the second. */
  function BothFinish(s: State, t: nat, u: nat): seq<Step>
    requires u < |s.threads| && (s.threads[u].Holding? || s.threads[u].Dropped?)
  {
    [Step(t, Find)] + (Finish(s.threads[u], u) + Finish(Holding(s.threads[u].node), t))
  }

  /** A deletion that finds an entry another deletion has: when both finish, the entry's key is out of balance. */
  lemma DoubleDeletionBreaksBalance(s: State, t: nat, u: nat)
    requires Inv(s) && Enabled(s, Step(t, Find)) && ThreadAfter(s.nodes, s.threads[t], Find).Holding?
    requires u < |s.threads| && Has(s.threads[u], ThreadAfter(s.nodes, s.threads[t], Find).node)
    ensures Possible(s, BothFinish(s, t, u)) && !Balanced(Run(s, BothFinish(s, t, u)), s.threads[u].node.entry.key)
  {
    var node := s.threads[u].node;
    var s1 := Apply(s, Step(t, Find));
    StepKeepsBalance(s, Step(t, Find), node.entry.key);
    FinishRemoves(s1, u, node.entry.key);
    var xs := Finish(s1.threads[u], u);
    var s2 := Run(s1, xs);
    StaleDeletionBreaksBalance(s2, t);
    var ys := Finish(s2.threads[t], t);
    RunsCompose(s1, xs, ys);
    Prefixed(s, Step(t, Find), xs + ys);
  }

  /** The same when the drain takes an entry that a deletion has. */
  lemma DrainBreaksBalance(s: State, u: nat)
    requires Inv(s) && Enabled(s, DrainFirst) && u < |s.threads| && Has(s.threads[u], s.nodes[0])
    ensures var steps := [DrainFirst] + Finish(s.threads[u], u);
            Possible(s, steps) && !Balanced(Run(s, steps), s.threads[u].node.entry.key)
  {
    var s1 := Apply(s, DrainFirst);
    StepKeepsBalance(s, DrainFirst, s.nodes[0].entry.key);
    assert s.nodes[0] !in s1.nodes;
    StaleDeletionBreaksBalance(s1, u);
    Prefixed(s, DrainFirst, Finish(s1.threads[u], u));
  }

  /** The step can be continued so that some object is out of balance. */
  ghost predicate CanUnbalance(s: State, step: Step) {
    exists rest, o :: Possible(s, [step] + rest) && !Balanced(Run(s, [step] + rest), o)
  }

  /** Whatever takes an entry twice can be continued out of balance: the runs of LedgerInEveryInterleaving are those to ask for. */
  lemma ConflictBreaksBalance(s: State, step: Step)
    requires Inv(s) && Enabled(s, step) && Conflict(s, step)
    ensures CanUnbalance(s, step)
  {
    match step
    case Step(t, a) =>
      var u :| 0 <= u < |s.threads| && Has(s.threads[u], ThreadAfter(s.nodes, s.threads[t], a).node);
      DoubleDeletionBreaksBalance(s, t, u);
    case DrainFirst =>
      var u :| 0 <= u < |s.threads| && Has(s.threads[u], s.nodes[0]);
      DrainBreaksBalance(s, u);
  }

  /** One more step that takes no entry twice. */
  lemma Extended(s0: State, steps: seq<Step>, step: Step) returns (more: seq<Step>)
    requires Possible(s0, steps) && Inv(Run(s0, steps))
    requires Enabled(Run(s0, steps), step) && !Conflict(Run(s0, steps), step)
    ensures Possible(s0, more) && Run(s0, more) == Apply(Run(s0, steps), step) && Inv(Run(s0, more))
  {
    StepKeepsInv(Run(s0, steps), step);
    Prefixed(Run(s0, steps), step, []);
    assert [step] + [] == [step];
    RunsCompose(s0, steps, [step]);
    more := steps + [step];
  }

  /** One thread creates an entry. */
  lemma EntryIsReached(s0: State, l: Listed) returns (steps: seq<Step>)
    requires Start(s0) && |s0.threads| >= 2
    ensures Possible(s0, steps)
    ensures var s := Run(s0, steps);
            && Inv(s) && s.nodes == [Node(s0.next, l)] && |s.threads| == |s0.threads|
            && forall t :: 0 <= t < |s.threads| ==> s.threads[t].Idle?
  {
    StartHoldsInv(s0);
    steps := [];
    steps := Extended(s0, steps, Step(0, Lookup(Ledger.Notice(Some(l.key), Some(l.other), true, true))));
    steps := Extended(s0, steps, Step(0, Reference));
    steps := Extended(s0, steps, Step(0, Insert));
  }

  /** Two threads look its object up for deletion. */
  lemma TwoDeletersAreReached(s0: State, l: Listed) returns (steps: seq<Step>)
    requires Start(s0) && |s0.threads| >= 2
    ensures Possible(s0, steps)
    ensures var s := Run(s0, steps);
            var gone := Looked(Ledger.Notice(Some(l.key), Some(l.other), false, true));
            && Inv(s) && s.nodes == [Node(s0.next, l)] && |s.threads| == |s0.threads|
            && s.threads[0] == gone && s.threads[1] == gone
            && forall t :: 0 <= t < |s.threads| ==> !s.threads[t].Holding? && !s.threads[t].Dropped?
  {
    var gone := Ledger.Notice(Some(l.key), Some(l.other), false, true);
    steps := EntryIsReached(s0, l);
    steps := Extended(s0, steps, Step(0, Lookup(gone)));
    steps := Extended(s0, steps, Step(1, Lookup(gone)));
  }

  /** A run from the start in which two deletions find the same entry and leave its key out of balance. */
  lemma DoubleDeletionIsReached(s0: State, l: Listed) returns (steps: seq<Step>)
    requires Start(s0) && |s0.threads| >= 2
    ensures Possible(s0, steps) && !Balanced(Run(s0, steps), l.key)
  {
    var xs := TwoDeletersAreReached(s0, l);
    xs := Extended(s0, xs, Step(0, Find));
    DoubleDeletionBreaksBalance(Run(s0, xs), 1, 0);
    var ys := BothFinish(Run(s0, xs), 1, 0);
    RunsCompose(s0, xs, ys);
    steps := xs + ys;
  }

  /** And one in which the drain takes the entry that a deletion has found. */
  lemma DrainConflictIsReached(s0: State, l: Listed) returns (steps: seq<Step>)
    requires Start(s0) && |s0.threads| >= 2
    ensures Possible(s0, steps) && !Balanced(Run(s0, steps), l.key)
  {
    var xs := TwoDeletersAreReached(s0, l);
    xs := Extended(s0, xs, Step(0, Find));
    DrainBreaksBalance(Run(s0, xs), 0);
    var ys := [DrainFirst] + Finish(Run(s0, xs).threads[0], 0);
    RunsCompose(s0, xs, ys);
    steps := xs + ys;
  }
}
