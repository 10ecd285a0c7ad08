/**
 The driver's singly linked lists (driver/list.c), the loops over them (driver/callbacks.c) and the
 FIFO of driver/queue.c, as pointer structures that refine sequences.

 Every operation runs under its list's lock.  Freeing a node is recorded together with the pool the
 node is returned to; a node may be freed only once.
 */
module LinkedLists {
  import opened Wrappers

  /** Where nodes come from and are returned to: the pool, or the lookaside list of one of the lists. */
  datatype Pool = NonPaged | ProcessLookaside | ThreadLookaside

  class Entry<T> {
    var next: Entry?<T>
    const data: T
    /** Where the node was allocated. */
    const origin: Pool

    constructor (data: T, origin: Pool)
      ensures this.data == data && this.origin == origin && next == null
    {
      this.data, this.origin := data, origin;
      next := null;
    }
  }

  /** `start` and the `next` fields run through exactly `nodes`, and stop. */
  ghost predicate Linked<T>(start: Entry?<T>, nodes: seq<Entry<T>>)
    reads nodes
  {
    && start == At(nodes, 0)
    && forall i :: 0 <= i < |nodes| ==> nodes[i].next == At(nodes, i + 1)
  }

  ghost function At<T>(nodes: seq<Entry<T>>, i: nat): Entry?<T> {
    if i < |nodes| then nodes[i] else null
  }

  ghost predicate Distinct<T(!new)>(nodes: seq<Entry<T>>) {
    forall i, j :: 0 <= i < j < |nodes| ==> nodes[i] != nodes[j]
  }

  ghost predicate Apart<T(!new)>(nodes: seq<Entry<T>>, freed: seq<Entry<T>>) {
    forall i, j :: 0 <= i < |nodes| && 0 <= j < |freed| ==> nodes[i] != freed[j]
  }

  /** The data of the nodes, in list order. */
  ghost function Data<T>(nodes: seq<Entry<T>>): seq<T> {
    seq(|nodes|, i requires 0 <= i < |nodes| => nodes[i].data)
  }

  /** `nodes` without `entry`; unchanged if it is not there. */
  ghost function Without<T(!new)>(nodes: seq<Entry<T>>, entry: Entry<T>): seq<Entry<T>> {
    if nodes == [] then []
    else if nodes[0] == entry then nodes[1..]
    else [nodes[0]] + Without(nodes[1..], entry)
  }

  lemma {:induction false} WithoutAt<T(!new)>(nodes: seq<Entry<T>>, k: nat)
    requires k < |nodes| && forall i :: 0 <= i < k ==> nodes[i] != nodes[k]
    ensures Without(nodes, nodes[k]) == Cut(nodes, k)
  {
    if k > 0 {
      assert nodes[1..][k - 1] == nodes[k];
      WithoutAt(nodes[1..], k - 1);
      assert nodes[..k] == [nodes[0]] + nodes[1..][..k - 1];
      assert nodes[1..][k..] == nodes[k + 1..];
    }
  }

  lemma {:induction false} WithoutAbsent<T(!new)>(nodes: seq<Entry<T>>, entry: Entry<T>)
    requires entry !in nodes
    ensures Without(nodes, entry) == nodes
  {
    if nodes != [] {
      WithoutAbsent(nodes[1..], entry);
    }
  }

  /** `nodes` with position `k` taken out. */
  ghost function Cut<T(!new)>(nodes: seq<Entry<T>>, k: nat): (rest: seq<Entry<T>>)
    requires k < |nodes|
    ensures |rest| == |nodes| - 1
    ensures forall i :: 0 <= i < |rest| ==> rest[i] == if i < k then nodes[i] else nodes[i + 1]
  {
    nodes[..k] + nodes[k + 1..]
  }

  /** Taking a node out of an acyclic list and freeing it keeps nodes and freed nodes distinct. */
  lemma CutKeepsDistinct<T(!new)>(nodes: seq<Entry<T>>, freed: seq<Entry<T>>, k: nat)
    requires k < |nodes| && Distinct(nodes) && Distinct(freed) && Apart(nodes, freed)
    ensures Distinct(Cut(nodes, k)) && Distinct(freed + [nodes[k]])
    ensures Apart(Cut(nodes, k), freed + [nodes[k]])
  {
  }

  /** Removing a node of an acyclic list deletes that node and no other. */
  lemma WithoutDeletesOnly<T(!new)>(nodes: seq<Entry<T>>, entry: Entry<T>, other: Entry<T>)
    requires Distinct(nodes)
    ensures other in Without(nodes, entry) <==> other in nodes && other != entry
    ensures |Without(nodes, entry)| == |nodes| - if entry in nodes then 1 else 0
  {
    if k :| 0 <= k < |nodes| && nodes[k] == entry {
      WithoutAt(nodes, k);
      if other in nodes && other != entry {
        var j :| 0 <= j < |nodes| && nodes[j] == other;
        assert Cut(nodes, k)[if j < k then j else j - 1] == other;
      }
    } else {
      WithoutAbsent(nodes, entry);
    }
  }

  ghost function Repeat(pool: Pool, n: nat): seq<Pool> { seq(n, _ => pool) }

  lemma DrainedOneMore<T(!new)>(nodes: seq<Entry<T>>, done: nat, pool: Pool)
    requires done < |nodes|
    ensures nodes[done..][0] == nodes[done] && nodes[done..][1..] == nodes[done + 1..]
    ensures nodes[..done + 1] == nodes[..done] + [nodes[done]]
    ensures Data(nodes[..done + 1]) == Data(nodes[..done]) + [nodes[done].data]
    ensures Repeat(pool, done + 1) == Repeat(pool, done) + [pool]
  {
  }

  /** After a drain the freed nodes are home if and only if they were, and the drain returns them there. */
  lemma DrainedHome<T(!new)>(nodes: seq<Entry<T>>, freed: seq<Entry<T>>, pools: seq<Pool>, home: Pool, pool: Pool)
    ensures |pools| == |freed| && From(nodes, home) && From(freed, home) ==>
              && From(freed + nodes, home)
              && ((forall i :: 0 <= i < |freed| ==> pools[i] == freed[i].origin) ==>
                    ((forall i :: 0 <= i < |freed + nodes| ==> (pools + Repeat(pool, |nodes|))[i] == (freed + nodes)[i].origin) <==>
                     nodes == [] || pool == home))
  {
    if nodes != [] && |pools| == |freed| && From(nodes, home) {
      assert (pools + Repeat(pool, |nodes|))[|freed|] == pool && (freed + nodes)[|freed|] == nodes[0];
    }
  }

  lemma SeqsAssociate<T(!new)>(
      freed: seq<Entry<T>>, pools: seq<Pool>, released: seq<T>, nodes: seq<Entry<T>>, done: nat, pool: Pool)
    requires done < |nodes|
    ensures (freed + nodes[..done]) + [nodes[done]] == freed + (nodes[..done] + [nodes[done]])
    ensures (pools + Repeat(pool, done)) + [pool] == pools + (Repeat(pool, done) + [pool])
    ensures (released + Data(nodes[..done])) + [nodes[done].data] == released + (Data(nodes[..done]) + [nodes[done].data])
  {
  }

  /** Nodes all allocated in one place. */
  ghost predicate From<T(!new)>(nodes: seq<Entry<T>>, home: Pool) {
    forall i :: 0 <= i < |nodes| ==> nodes[i].origin == home
  }

  lemma {:induction false} WithoutKeepsFrom<T(!new)>(nodes: seq<Entry<T>>, entry: Entry<T>, home: Pool)
    requires From(nodes, home)
    ensures From(Without(nodes, entry), home) && (entry in nodes ==> entry.origin == home)
  {
    if nodes != [] && nodes[0] != entry {
      WithoutKeepsFrom(nodes[1..], entry, home);
    }
  }

  class ListHead<T(!new)> {
    /** Where the nodes of this list are allocated. */
    const home: Pool
    var start: Entry?<T>
    ghost var nodes: seq<Entry<T>>
    /** Every node freed so far, and the pool each was returned to. */
    ghost var freed: seq<Entry<T>>
    ghost var pools: seq<Pool>
    /** The data handed to the free callback, in order. */
    var released: seq<T>

    ghost predicate Valid()
      reads this, nodes
    {
      && Linked(start, nodes)
      && Distinct(nodes)
      && Distinct(freed)
      && Apart(nodes, freed)
    }

    /** Every node of the list was allocated in the list's own place. */
    ghost predicate Tracked()
      reads this
    {
      |pools| == |freed| && From(nodes, home) && From(freed, home)
    }

    /** Every node freed went back where it came from. */
    ghost predicate AllHome()
      reads this
    {
      |pools| == |freed| && forall i :: 0 <= i < |freed| ==> pools[i] == freed[i].origin
    }

    constructor (home: Pool)
      ensures Valid() && Tracked() && this.home == home && nodes == [] && freed == [] && pools == [] && released == []
    {
      this.home := home;
      start := null;
      nodes, freed, pools := [], [], [];
      released := [];
    }

    /** ListInsert: prepends. */
    method ListInsert(newEntry: Entry<T>)
      requires Valid() && newEntry !in nodes && newEntry !in freed && newEntry.origin == home
      modifies this`start, this`nodes, newEntry`next
      ensures Valid() && nodes == [newEntry] + old(nodes)
      ensures old(Tracked()) ==> Tracked()
    {
      var oldEntry := start;
      start := newEntry;
      newEntry.next := oldEntry;
      nodes := [newEntry] + nodes;
    }

    /** Unlinking the node at position `k`, whose predecessor is `previous`. */
    method UnlinkAfter(previous: Entry<T>, entry: Entry<T>, pool: Pool, ghost k: nat)
      requires Valid() && 0 < k < |nodes| && nodes[k - 1] == previous && nodes[k] == entry
      modifies this`nodes, this`freed, this`pools, previous`next
      ensures Valid() && nodes == Cut(old(nodes), k)
      ensures freed == old(freed) + [entry] && pools == old(pools) + [pool]
    {
      CutKeepsDistinct(nodes, freed, k);
      previous.next := entry.next;
      nodes, freed, pools := Cut(nodes, k), freed + [entry], pools + [pool];
    }

    /** The search and unlinking shared by the two removal routines; it visits each node at most once. */
    method Unlink(entry: Entry<T>, pool: Pool)
      requires Valid()
      modifies this`start, this`nodes, this`freed, this`pools, nodes
      ensures Valid()
      ensures nodes == Without(old(nodes), entry)
      ensures freed == old(freed) + (if entry in old(nodes) then [entry] else [])
      ensures pools == old(pools) + (if entry in old(nodes) then [pool] else [])
    {
      var current := start;
      if current == null {
        return;
      }
      if current == entry {
        CutKeepsDistinct(nodes, freed, 0);
        assert Cut(nodes, 0) == nodes[1..];
        start := current.next;
        nodes, freed, pools := nodes[1..], freed + [entry], pools + [pool];
        return;
      }
      ghost var k := 0;
      while current.next != null
        invariant k < |nodes| && current == nodes[k]
        invariant forall i :: 0 <= i <= k ==> nodes[i] != entry
        invariant nodes == old(nodes) && freed == old(freed) && pools == old(pools)
        invariant Valid()
        decreases |nodes| - k
      {
        if current.next == entry {
          WithoutAt(nodes, k + 1);
          UnlinkAfter(current, entry, pool, k + 1);
          return;
        }
        current := current.next;
        k := k + 1;
      }
      WithoutAbsent(nodes, entry);
    }

    /** Freed in one place only, the nodes are home if and only if the list's own place is that one, or nothing was freed. */
    lemma HomeExactly(pool: Pool)
      requires Tracked() && forall i :: 0 <= i < |pools| ==> pools[i] == pool
      ensures AllHome() <==> freed == [] || home == pool
    {
      if freed != [] {
        assert freed[0].origin == home && pools[0] == pool;
      }
    }

    /** ListRemoveEntry: deletes exactly the given node, or changes nothing. */
    method ListRemoveEntry(entry: Entry<T>)
      requires Valid()
      modifies this`start, this`nodes, this`freed, this`pools, nodes
      ensures Valid()
      ensures nodes == Without(old(nodes), entry)
      ensures freed == old(freed) + (if entry in old(nodes) then [entry] else [])
      ensures pools == old(pools) + (if entry in old(nodes) then [NonPaged] else [])
      ensures old(Tracked()) ==> Tracked()
      ensures old(Tracked()) && entry in old(nodes) ==> (pools[|pools| - 1] == entry.origin <==> home == NonPaged)
    {
      if Tracked() {
        WithoutKeepsFrom(nodes, entry, home);
      }
      Unlink(entry, NonPaged);
    }

    /** LookasideListRemoveEntry: whichever list it is called on, the node goes to the thread list's lookaside list. */
    method LookasideListRemoveEntry(entry: Entry<T>)
      requires Valid()
      modifies this`start, this`nodes, this`freed, this`pools, nodes
      ensures Valid()
      ensures nodes == Without(old(nodes), entry)
      ensures freed == old(freed) + (if entry in old(nodes) then [entry] else [])
      ensures pools == old(pools) + (if entry in old(nodes) then [ThreadLookaside] else [])
      ensures old(Tracked()) ==> Tracked()
      ensures old(Tracked()) && entry in old(nodes) ==> (pools[|pools| - 1] == entry.origin <==> home == ThreadLookaside)
    {
      if Tracked() {
        WithoutKeepsFrom(nodes, entry, home);
      }
      Unlink(entry, ThreadLookaside);
    }

    /** ListFreeFirstEntry and LookasideListFreeFirstEntry, which differ in the pool only. */
    method FreeFirstEntry(callback: bool, pool: Pool) returns (result: bool)
      requires Valid()
      modifies this
      ensures Valid()
      ensures result == (old(nodes) != [])
      ensures !result ==> nodes == [] && freed == old(freed) && pools == old(pools) && released == old(released)
      ensures result ==> nodes == old(nodes)[1..] && freed == old(freed) + [old(nodes)[0]] && pools == old(pools) + [pool]
      ensures old(Tracked()) ==> Tracked()
      ensures result ==> released == if callback then old(released) + [old(nodes)[0].data] else old(released)
    {
      result := false;
      if start != null {
        var entry := start;
        if callback {
          released := released + [entry.data];
        }
        start := start.next;
        nodes, freed, pools := nodes[1..], freed + [entry], pools + [pool];
        result := true;
      }
    }

    /** The drain loops of the unload path: they end, with one callback per node in list order. */
    method Drain(callback: bool, pool: Pool)
      requires Valid()
      modifies this
      ensures Valid() && nodes == []
      ensures released == if callback then old(released) + Data(old(nodes)) else old(released)
      ensures freed == old(freed) + old(nodes)
      ensures pools == old(pools) + Repeat(pool, |old(nodes)|)
      ensures old(Tracked()) ==> Tracked()
      ensures old(Tracked()) && old(AllHome()) ==> (AllHome() <==> old(nodes) == [] || pool == home)
    {
      ghost var done := 0;
      while true
        invariant Valid() && done <= |old(nodes)| && nodes == old(nodes)[done..]
        invariant released == if callback then old(released) + Data(old(nodes)[..done]) else old(released)
        invariant freed == old(freed) + old(nodes)[..done]
        invariant pools == old(pools) + Repeat(pool, done)
        decreases |nodes|
      {
        var more := FreeFirstEntry(callback, pool);
        if !more {
          assert old(nodes)[..done] == old(nodes);
          DrainedHome(old(nodes), old(freed), old(pools), home, pool);
          return;
        }
        DrainedOneMore(old(nodes), done, pool);
        SeqsAssociate(old(freed), old(pools), old(released), old(nodes), done, pool);
        done := done + 1;
      }
    }

    /** The Find* loops: the first node, in list order, whose data satisfies the test. */
    method Find(matching: T -> bool) returns (entry: Entry?<T>)
      requires Valid()
      ensures entry == null ==> forall i :: 0 <= i < |nodes| ==> !matching(nodes[i].data)
      ensures entry != null ==>
                exists k :: 0 <= k < |nodes| && nodes[k] == entry && matching(nodes[k].data) &&
                            forall i :: 0 <= i < k ==> !matching(nodes[i].data)
    {
      entry := start;
      ghost var k := 0;
      while entry != null
        invariant k <= |nodes| && entry == At(nodes, k)
        invariant forall i :: 0 <= i < k ==> !matching(nodes[i].data)
        decreases |nodes| - k
      {
        if matching(entry.data) {
          return;
        }
        entry := entry.next;
        k := k + 1;
      }
    }

    /** The Enumerate* loops: every node once, in list order. */
    method Enumerate() returns (visited: seq<T>)
      requires Valid()
      ensures visited == Data(nodes)
    {
      visited := [];
      var entry := start;
      ghost var k := 0;
      while entry != null
        invariant k <= |nodes| && entry == At(nodes, k)
        invariant visited == Data(nodes[..k])
        decreases |nodes| - k
      {
        visited := visited + [entry.data];
        assert Data(nodes[..k + 1]) == Data(nodes[..k]) + [nodes[k].data];
        entry := entry.next;
        k := k + 1;
      }
      assert nodes[..k] == nodes;
    }
  }

  // ----- the FIFO

  lemma AppendKeepsDistinct<T(!new)>(nodes: seq<Entry<T>>, freed: seq<Entry<T>>, node: Entry<T>)
    requires Distinct(nodes) && Apart(nodes, freed) && node !in nodes && node !in freed
    ensures Distinct(nodes + [node]) && Apart(nodes + [node], freed)
    ensures Data(nodes + [node]) == Data(nodes) + [node.data]
  {
  }

  class QueueHead<T(!new)> {
    var start: Entry?<T>
    var end: Entry?<T>
    var entries: int
    ghost var nodes: seq<Entry<T>>
    ghost var freed: seq<Entry<T>>

    ghost predicate Valid()
      reads this, nodes
    {
      && Linked(start, nodes)
      && Distinct(nodes)
      && end == (if nodes == [] then null else nodes[|nodes| - 1])
      && entries == |nodes|
      && Distinct(freed)
      && Apart(nodes, freed)
    }

    constructor ()
      ensures Valid() && Data(nodes) == [] && freed == []
    {
      start, end, entries := null, null, 0;
      nodes, freed := [], [];
    }

    /** QueuePush: appends at the end, or changes nothing when the node cannot be allocated. */
    method QueuePush(data: T, allocOk: bool)
      requires Valid()
      modifies this, nodes
      ensures Valid() && freed == old(freed)
      ensures Data(nodes) == old(Data(nodes)) + if allocOk then [data] else []
      ensures entries == |Data(nodes)|
    {
      if !allocOk {
        return;
      }
      var temp := new Entry<T>(data, NonPaged);
      AppendKeepsDistinct(nodes, freed, temp);
      Append(temp);
    }

    method Append(temp: Entry<T>)
      requires Valid() && temp.next == null && temp !in nodes
      requires Distinct(nodes + [temp]) && Apart(nodes + [temp], freed)
      modifies this`start, this`end, this`entries, this`nodes, nodes
      ensures Valid() && nodes == old(nodes) + [temp]
    {
      entries := entries + 1;
      if end != null {
        end.next := temp;
      }
      end := temp;
      if start == null {
        start := temp;
      }
      nodes := nodes + [temp];
    }

    /** QueuePop: takes the oldest, which is then freed; nothing from an empty queue. */
    method QueuePop() returns (data: Option<T>)
      requires Valid()
      modifies this
      ensures Valid()
      ensures data.None? <==> old(nodes) == []
      ensures data.None? ==> nodes == [] && freed == old(freed)
      ensures data.Some? ==> old(Data(nodes)) == [data.value] + Data(nodes)
      ensures data.Some? ==> freed == old(freed) + [old(nodes)[0]]
      ensures entries == |Data(nodes)|
    {
      var temp := start;
      if temp == null {
        return None;
      }
      entries := entries - 1;
      data := Some(temp.data);
      start := temp.next;
      if end == temp {
        end := null;
      }
      nodes, freed := nodes[1..], freed + [temp];
    }
  }
}
