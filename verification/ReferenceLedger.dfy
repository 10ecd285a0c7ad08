/**
 Object references taken and dropped by the process and thread notify routines (driver/callbacks.c).

 Processes and threads are kernel objects, named by numbers.  A list entry holds a reference to its own
 object and to a second one: the parent of a process, the owning process of a thread.  A successful
 lookup by id also takes a reference, which the routines never drop.
 */
module ReferenceLedger {
  import opened Wrappers
  import opened LinkedLists
  import opened Tallies

  type Object = nat

  /** A process with its parent, or a thread with its owning process. */
  datatype Listed = Listed(key: Object, other: Object)

  /** One notification: the outcome of the two lookups, the kind, and whether an entry can be allocated. */
  datatype Notice = Notice(key: Option<Object>, other: Option<Object>, create: bool, allocOk: bool)

  /** References taken and dropped so far, and the lookups among those taken. */
  datatype Books = Books(taken: seq<Object>, dropped: seq<Object>, lookups: seq<Object>)

  function ToSeq(o: Option<Object>): seq<Object> { if o.None? then [] else [o.value] }

  function Held(entry: Listed): seq<Object> { [entry.other, entry.key] }

  /** References the entries of a list hold. */
  function AllHeld(list: seq<Listed>): seq<Object> {
    if list == [] then [] else Held(list[0]) + AllHeld(list[1..])
  }

  // ----- one notification, on values

  /** The position of the first entry for `key`, or the length of the list. */
  function Position(list: seq<Listed>, key: Object): (k: nat)
    ensures k <= |list| && forall i :: 0 <= i < k ==> list[i].key != key
    ensures k < |list| ==> list[k].key == key
  {
    if list == [] || list[0].key == key then 0 else 1 + Position(list[1..], key)
  }

  predicate Found(n: Notice) { n.key.Some? && n.other.Some? }

  /** The notification inserts an entry. */
  predicate Inserts(n: Notice) { Found(n) && n.create && n.allocOk }

  /** The notification removes an entry of `list`. */
  predicate Removes(list: seq<Listed>, n: Notice) {
    Found(n) && !n.create && Position(list, n.key.value) < |list|
  }

  function ListAfter(list: seq<Listed>, n: Notice): seq<Listed> {
    if Inserts(n) then [Listed(n.key.value, n.other.value)] + list
    else if Removes(list, n) then
      var k := Position(list, n.key.value);
      list[..k] + list[k + 1..]
    else list
  }

  function BooksAfter(books: Books, list: seq<Listed>, n: Notice): Books {
    var looked := ToSeq(n.other) + ToSeq(n.key);
    Books(books.taken + looked + (if Inserts(n) then Held(Listed(n.key.value, n.other.value)) else []),
          books.dropped + (if Removes(list, n) then Held(list[Position(list, n.key.value)]) else []),
          books.lookups + looked)
  }

  // ----- runs

  datatype Ledger = Ledger(
    processes: seq<Listed>, threads: seq<Listed>,
    processesActive: bool, threadsActive: bool,
    books: Books)

  datatype Event =
    | ProcessNotice(n: Notice)
    | ThreadNotice(n: Notice)
    | UnregisterProcesses
    | UnregisterThreads
    | CleanupProcesses
    | CleanupThreads

  function Initial(): Ledger { Ledger([], [], true, true, Books([], [], [])) }

  function Apply(s: Ledger, e: Event): Ledger {
    match e
    case ProcessNotice(n) =>
      if !s.processesActive then s
      else s.(processes := ListAfter(s.processes, n), books := BooksAfter(s.books, s.processes, n))
    case ThreadNotice(n) =>
      if !s.threadsActive then s
      else s.(threads := ListAfter(s.threads, n), books := BooksAfter(s.books, s.threads, n))
    case UnregisterProcesses => s.(processesActive := false)
    case UnregisterThreads => s.(threadsActive := false)
    case CleanupProcesses =>
      s.(processes := [], books := s.books.(dropped := s.books.dropped + AllHeld(s.processes)))
    case CleanupThreads =>
      s.(threads := [], books := s.books.(dropped := s.books.dropped + AllHeld(s.threads)))
  }

  function Run(events: seq<Event>): Ledger {
    if events == [] then Initial() else Apply(Run(events[..|events| - 1]), events[|events| - 1])
  }

  /** References to `o` the driver has taken and not dropped. */
  function Outstanding(s: Ledger, o: Object): int {
    Count(s.books.taken, o) - Count(s.books.dropped, o)
  }

  /** The entries of both lists account for all outstanding references but those of lookups. */
  ghost predicate Balanced(s: Ledger, o: Object) {
    Outstanding(s, o) == Count(AllHeld(s.processes), o) + Count(AllHeld(s.threads), o) + Count(s.books.lookups, o)
  }

  // ----- every event keeps the balance

  lemma {:induction false} AllHeldConcat(a: seq<Listed>, b: seq<Listed>)
    ensures AllHeld(a + b) == AllHeld(a) + AllHeld(b)
  {
    if a == [] {
      assert a + b == b;
    } else {
      assert (a + b)[1..] == a[1..] + b;
      AllHeldConcat(a[1..], b);
      assert AllHeld(a + b) == Held(a[0]) + AllHeld(a[1..] + b);
    }
  }

  lemma HeldOne(entry: Listed)
    ensures AllHeld([entry]) == Held(entry)
  {
    assert AllHeld([entry][1..]) == [];
  }

  /** What a notification does to the references held by its list. */
  lemma ListAfterHeld(list: seq<Listed>, n: Notice, o: Object)
    ensures Count(AllHeld(ListAfter(list, n)), o) == Count(AllHeld(list), o)
              + (if Inserts(n) then Count(Held(Listed(n.key.value, n.other.value)), o) else 0)
              - (if Removes(list, n) then Count(Held(list[Position(list, n.key.value)]), o) else 0)
  {
    if Inserts(n) {
      var entry := Listed(n.key.value, n.other.value);
      AllHeldConcat([entry], list);
      HeldOne(entry);
      CountConcat(Held(entry), AllHeld(list), o);
    } else if Removes(list, n) {
      CutHeld(list, Position(list, n.key.value), o);
    }
  }

  lemma CutHeld(list: seq<Listed>, k: nat, o: Object)
    requires k < |list|
    ensures Count(AllHeld(list), o) == Count(AllHeld(list[..k] + list[k + 1..]), o) + Count(Held(list[k]), o)
  {
    assert list == list[..k] + ([list[k]] + list[k + 1..]);
    AllHeldConcat(list[..k], [list[k]] + list[k + 1..]);
    AllHeldConcat([list[k]], list[k + 1..]);
    AllHeldConcat(list[..k], list[k + 1..]);
    HeldOne(list[k]);
    CountConcat(AllHeld(list[..k]), Held(list[k]) + AllHeld(list[k + 1..]), o);
    CountConcat(Held(list[k]), AllHeld(list[k + 1..]), o);
    CountConcat(AllHeld(list[..k]), AllHeld(list[k + 1..]), o);
  }

  lemma BooksAfterCounts(books: Books, list: seq<Listed>, n: Notice, o: Object)
    ensures var after := BooksAfter(books, list, n);
            var looked := Count(after.lookups, o) - Count(books.lookups, o);
            && Count(after.taken, o) == Count(books.taken, o) + looked
                 + (if Inserts(n) then Count(Held(Listed(n.key.value, n.other.value)), o) else 0)
            && Count(after.dropped, o) == Count(books.dropped, o)
                 + (if Removes(list, n) then Count(Held(list[Position(list, n.key.value)]), o) else 0)
  {
    var looked := ToSeq(n.other) + ToSeq(n.key);
    CountConcat(books.lookups, looked, o);
    CountConcat(books.taken, looked, o);
    CountConcat(books.taken + looked, if Inserts(n) then Held(Listed(n.key.value, n.other.value)) else [], o);
    CountConcat(books.dropped, if Removes(list, n) then Held(list[Position(list, n.key.value)]) else [], o);
  }

  lemma ApplyKeepsBalance(s: Ledger, e: Event, o: Object)
    requires Balanced(s, o)
    ensures Balanced(Apply(s, e), o)
  {
    match e
    case ProcessNotice(n) =>
      ListAfterHeld(s.processes, n, o);
      BooksAfterCounts(s.books, s.processes, n, o);
    case ThreadNotice(n) =>
      ListAfterHeld(s.threads, n, o);
      BooksAfterCounts(s.books, s.threads, n, o);
    case UnregisterProcesses =>
    case UnregisterThreads =>
    case CleanupProcesses =>
      CountConcat(s.books.dropped, AllHeld(s.processes), o);
    case CleanupThreads =>
      CountConcat(s.books.dropped, AllHeld(s.threads), o);
  }

  /** In every run the books balance for every object. */
  lemma {:induction false} LedgerOverRuns(events: seq<Event>, o: Object)
    ensures Balanced(Run(events), o)
  {
    if events != [] {
      LedgerOverRuns(events[..|events| - 1], o);
      ApplyKeepsBalance(Run(events[..|events| - 1]), events[|events| - 1], o);
    }
  }

  /** An object named by any list entry keeps a reference of the driver's. */
  lemma ListedObjectKeepsReference(events: seq<Event>, entry: Listed)
    requires entry in Run(events).processes || entry in Run(events).threads
    ensures Outstanding(Run(events), entry.key) >= 1
    ensures Outstanding(Run(events), entry.other) >= 1
  {
    var s := Run(events);
    LedgerOverRuns(events, entry.key);
    LedgerOverRuns(events, entry.other);
    var list := if entry in s.processes then s.processes else s.threads;
    HeldPositive(list, entry);
  }

  lemma {:induction false} HeldPositive(list: seq<Listed>, entry: Listed)
    requires entry in list
    ensures Count(AllHeld(list), entry.key) >= 1 && Count(AllHeld(list), entry.other) >= 1
  {
    CountConcat(Held(list[0]), AllHeld(list[1..]), entry.key);
    CountConcat(Held(list[0]), AllHeld(list[1..]), entry.other);
    if list[0] == entry {
      assert Held(entry)[0] == entry.other && Held(entry)[1] == entry.key;
      CountPositive(Held(entry), entry.key);
      CountPositive(Held(entry), entry.other);
    } else {
      HeldPositive(list[1..], entry);
    }
  }

  /**
   Once both lists have been drained, an object is left with exactly one reference per lookup that
   found it: everything has been given back if and only if no lookup ever found it.
   */
  lemma DrainedLeavesLookups(events: seq<Event>, o: Object)
    requires Run(events).processes == [] && Run(events).threads == []
    ensures Outstanding(Run(events), o) == Count(Run(events).books.lookups, o)
    ensures Outstanding(Run(events), o) == 0 <==> o !in Run(events).books.lookups
  {
    LedgerOverRuns(events, o);
    CountPositive(Run(events).books.lookups, o);
  }

  // ----- what a notification lists, finds and looks up

  /**
   Creating `p`, with `q` as its parent or owner, and deleting it again restores the list and drops the two
   references of its entry, whatever the second lookup of the deletion finds and whatever else is listed.
   */
  lemma CreatedThenDeleted(list: seq<Listed>, books: Books, p: Object, q: Object, r: Object, ok: bool)
    ensures var made := ListAfter(list, Notice(Some(p), Some(q), true, true));
            var gone := Notice(Some(p), Some(r), false, ok);
            && made == [Listed(p, q)] + list
            && ListAfter(made, gone) == list
            && BooksAfter(books, made, gone).dropped == books.dropped + [q, p]
  {
    var made := [Listed(p, q)] + list;
    assert made[0] == Listed(p, q) && Position(made, p) == 0;
    assert made[..0] + made[1..] == list;
  }

  /** A deletion of an object that is not listed, a failed lookup and a failed allocation list, remove and drop nothing. */
  lemma NothingHappensWithout(list: seq<Listed>, books: Books, n: Notice)
    requires || n.key.None? || n.other.None?
             || (n.create && !n.allocOk)
             || (!n.create && forall i :: 0 <= i < |list| ==> list[i].key != n.key.value)
    ensures ListAfter(list, n) == list
    ensures BooksAfter(books, list, n).dropped == books.dropped
    ensures BooksAfter(books, list, n).taken == books.taken + (ToSeq(n.other) + ToSeq(n.key))
  {
  }

  /** What the lookups of a run find: both objects of every notification that reaches an active list. */
  function LookedUp(events: seq<Event>): seq<Object> {
    if events == [] then []
    else
      var before, e := events[..|events| - 1], events[|events| - 1];
      LookedUp(before) +
      if (e.ProcessNotice? && UnregisterProcesses !in before) || (e.ThreadNotice? && UnregisterThreads !in before)
      then ToSeq(e.n.other) + ToSeq(e.n.key) else []
  }

  lemma {:induction false} LookupsOverRuns(events: seq<Event>)
    ensures Run(events).books.lookups == LookedUp(events)
    ensures Run(events).processesActive <==> UnregisterProcesses !in events
    ensures Run(events).threadsActive <==> UnregisterThreads !in events
  {
    if events != [] {
      var before, e := events[..|events| - 1], events[|events| - 1];
      LookupsOverRuns(before);
      assert events == before + [e];
    }
  }

  /** Once a list is unregistered and drained, no notification fills it again. */
  lemma {:induction false} UnregisteredStaysEmpty(events: seq<Event>, more: seq<Event>)
    ensures !Run(events).processesActive && Run(events).processes == [] ==> Run(events + more).processes == []
    ensures !Run(events).threadsActive && Run(events).threads == [] ==> Run(events + more).threads == []
    ensures !Run(events).processesActive ==> !Run(events + more).processesActive
    ensures !Run(events).threadsActive ==> !Run(events + more).threadsActive
    decreases |more|
  {
    if more == [] {
      assert events + more == events;
    } else {
      var all, front := events + more, more[..|more| - 1];
      UnregisteredStaysEmpty(events, front);
      assert all[..|all| - 1] == events + front && all[|all| - 1] == more[|more| - 1];
    }
  }

  // ----- the routines, on the linked lists

  lemma {:induction false} PositionIsFirst(list: seq<Listed>, key: Object, k: nat)
    requires k <= |list| && (k < |list| ==> list[k].key == key)
    requires forall i :: 0 <= i < k ==> list[i].key != key
    ensures Position(list, key) == k
  {
    if k > 0 {
      PositionIsFirst(list[1..], key, k - 1);
    }
  }

  /** Removing the first node for `key` removes the first entry for it. */
  lemma RemovalSeen(nodes: seq<Entry<Listed>>, n: Notice, k: nat)
    requires Found(n) && !n.create && k < |nodes| && nodes[k].data.key == n.key.value
    requires forall i :: 0 <= i < k ==> nodes[i].data.key != n.key.value
    ensures Position(Data(nodes), n.key.value) == k && Removes(Data(nodes), n)
    ensures Data(Without(nodes, nodes[k])) == ListAfter(Data(nodes), n)
  {
    PositionIsFirst(Data(nodes), n.key.value, k);
    WithoutAt(nodes, k);
    CutData(nodes, k);
  }

  lemma CutData(nodes: seq<Entry<Listed>>, k: nat)
    requires k < |nodes|
    ensures Data(Cut(nodes, k)) == Data(nodes)[..k] + Data(nodes)[k + 1..]
  {
  }

  /** What a deletion drops. */
  ghost function DroppedBy(list: seq<Listed>, n: Notice): seq<Object> {
    if Removes(list, n) then Held(list[Position(list, n.key.value)]) else []
  }

  /** The deletion branch: find the entry, drop its two references, remove it. */
  method RemoveFound(list: ListHead<Listed>, key: Object, ghost n: Notice) returns (dropped: seq<Object>)
    requires list.Valid() && Found(n) && !n.create && n.key.value == key
    modifies list, list.nodes
    ensures list.Valid()
    ensures Data(list.nodes) == ListAfter(old(Data(list.nodes)), n)
    ensures dropped == DroppedBy(old(Data(list.nodes)), n)
    ensures old(list.Tracked()) ==> list.Tracked()
    ensures list.pools == old(list.pools) + if Removes(old(Data(list.nodes)), n) then [ThreadLookaside] else []
  {
    var entry := list.Find((d: Listed) => d.key == key);
    if entry == null {
      PositionIsFirst(Data(list.nodes), key, |list.nodes|);
      return [];
    }
    ghost var k :| 0 <= k < |list.nodes| && list.nodes[k] == entry && list.nodes[k].data.key == key &&
                   forall i :: 0 <= i < k ==> list.nodes[i].data.key != key;
    RemovalSeen(list.nodes, n, k);
    dropped := [entry.data.other, entry.data.key];
    list.LookasideListRemoveEntry(entry);
  }

  /** The creation branch: a new entry in front. */
  method InsertNew(list: ListHead<Listed>, listed: Listed)
    requires list.Valid()
    modifies list
    ensures list.Valid() && Data(list.nodes) == [listed] + old(Data(list.nodes))
    ensures old(list.Tracked()) ==> list.Tracked()
    ensures list.pools == old(list.pools)
  {
    var entry := new Entry<Listed>(listed, list.home);
    DataCons(list.nodes, entry);
    list.ListInsert(entry);
  }

  lemma DataCons(nodes: seq<Entry<Listed>>, entry: Entry<Listed>)
    ensures Data([entry] + nodes) == [entry.data] + Data(nodes)
  {
  }

  /**
   The body the two notify routines share.  An inactive list ignores the notification; a failed lookup or
   allocation returns early and leaves the references of the lookups behind.
   */
  method NotifyRoutine(list: ListHead<Listed>, active: bool, books: Books, n: Notice) returns (after: Books)
    requires list.Valid()
    modifies list, list.nodes
    ensures list.Valid()
    ensures Data(list.nodes) == if active then ListAfter(old(Data(list.nodes)), n) else old(Data(list.nodes))
    ensures after == if active then BooksAfter(books, old(Data(list.nodes)), n) else books
    ensures old(list.Tracked()) ==> list.Tracked()
    ensures list.pools == old(list.pools) + if active && Removes(old(Data(list.nodes)), n) then [ThreadLookaside] else []
  {
    after := books;
    if !active {
      return;
    }
    var looked := ToSeq(n.other) + ToSeq(n.key);
    after := Books(books.taken + looked, books.dropped, books.lookups + looked);
    if n.key.None? || n.other.None? {
      return;
    }
    if n.create {
      if !n.allocOk {
        return;
      }
      after := after.(taken := after.taken + [n.other.value, n.key.value]);
      InsertNew(list, Listed(n.key.value, n.other.value));
    } else {
      var dropped := RemoveFound(list, n.key.value, n);
      after := after.(dropped := after.dropped + dropped);
    }
  }

  /** All nodes freed so far were returned to the thread list's lookaside list. */
  ghost predicate OnlyThreadLookaside(list: ListHead<Listed>)
    reads list
  {
    forall i :: 0 <= i < |list.pools| ==> list.pools[i] == ThreadLookaside
  }

  /**
   ProcessCreateNotifyRoutine.  An entry it removes comes from the process list's lookaside list and goes
   to the thread list's: nodes stay where they belong if and only if none is ever removed.
   */
  method ProcessCreateNotifyRoutine(list: ListHead<Listed>, active: bool, books: Books, n: Notice) returns (after: Books)
    requires list.Valid() && list.Tracked() && list.home == ProcessLookaside && OnlyThreadLookaside(list)
    modifies list, list.nodes
    ensures list.Valid() && list.Tracked() && OnlyThreadLookaside(list)
    ensures Data(list.nodes) == if active then ListAfter(old(Data(list.nodes)), n) else old(Data(list.nodes))
    ensures after == if active then BooksAfter(books, old(Data(list.nodes)), n) else books
    ensures list.AllHome() <==> old(list.freed) == [] && !(active && Removes(old(Data(list.nodes)), n))
  {
    after := NotifyRoutine(list, active, books, n);
    list.HomeExactly(ThreadLookaside);
  }

  /** ThreadCreateNotifyRoutine: here the nodes removed go back where they came from. */
  method ThreadCreateNotifyRoutine(list: ListHead<Listed>, active: bool, books: Books, n: Notice) returns (after: Books)
    requires list.Valid() && list.Tracked() && list.home == ThreadLookaside && OnlyThreadLookaside(list)
    modifies list, list.nodes
    ensures list.Valid() && list.Tracked() && OnlyThreadLookaside(list)
    ensures Data(list.nodes) == if active then ListAfter(old(Data(list.nodes)), n) else old(Data(list.nodes))
    ensures after == if active then BooksAfter(books, old(Data(list.nodes)), n) else books
    ensures list.AllHome()
  {
    after := NotifyRoutine(list, active, books, n);
    list.HomeExactly(ThreadLookaside);
  }

  /** One drain loop: the free callback drops both references of each entry, front to back. */
  method DrainList(list: ListHead<Listed>, books: Books) returns (after: Books)
    requires list.Valid()
    modifies list
    ensures list.Valid() && list.nodes == []
    ensures after == books.(dropped := books.dropped + AllHeld(old(Data(list.nodes))))
    ensures old(list.Tracked()) ==> list.Tracked()
    ensures old(OnlyThreadLookaside(list)) ==> OnlyThreadLookaside(list)
  {
    after := books;
    ghost var done := 0;
    while true
      invariant list.Valid() && done <= |old(list.nodes)| && list.nodes == old(list.nodes)[done..]
      invariant after == books.(dropped := books.dropped + AllHeld(old(Data(list.nodes))[..done]))
      invariant old(list.Tracked()) ==> list.Tracked()
      invariant old(OnlyThreadLookaside(list)) ==> OnlyThreadLookaside(list)
      decreases |list.nodes|
    {
      if list.start == null {
        assert old(Data(list.nodes))[..done] == old(Data(list.nodes));
        return;
      }
      var entry := list.start.data;
      ghost var before := old(Data(list.nodes));
      HeldSnoc(before, done);
      assert before[done] == entry;
      ConcatAssociates(books.dropped, AllHeld(before[..done]), Held(entry));
      var more := list.FreeFirstEntry(true, ThreadLookaside);
      after := after.(dropped := after.dropped + [entry.other, entry.key]);
      done := done + 1;
    }
  }

  /** CleanupProcessListOnDriverUnload: the nodes are home afterwards if and only if there never were any to free. */
  method CleanupProcessListOnDriverUnload(list: ListHead<Listed>, books: Books) returns (after: Books)
    requires list.Valid() && list.Tracked() && list.home == ProcessLookaside && OnlyThreadLookaside(list)
    modifies list
    ensures list.Valid() && list.nodes == []
    ensures after == books.(dropped := books.dropped + AllHeld(old(Data(list.nodes))))
    ensures list.AllHome() <==> list.freed == []
  {
    after := DrainList(list, books);
    list.HomeExactly(ThreadLookaside);
  }

  method CleanupThreadListOnDriverUnload(list: ListHead<Listed>, books: Books) returns (after: Books)
    requires list.Valid() && list.Tracked() && list.home == ThreadLookaside && OnlyThreadLookaside(list)
    modifies list
    ensures list.Valid() && list.nodes == []
    ensures after == books.(dropped := books.dropped + AllHeld(old(Data(list.nodes))))
    ensures list.AllHome()
  {
    after := DrainList(list, books);
    list.HomeExactly(ThreadLookaside);
  }

  lemma HeldSnoc(list: seq<Listed>, k: nat)
    requires k < |list|
    ensures AllHeld(list[..k + 1]) == AllHeld(list[..k]) + Held(list[k])
  {
    assert list[..k + 1] == list[..k] + [list[k]];
    AllHeldConcat(list[..k], [list[k]]);
    HeldOne(list[k]);
  }
}
