/**
 The search for unlinked processes (driver/pool.c): recording candidates found by the page walk,
 comparing them with the process list, and reporting those left over.

 The signature scan of a page is an oracle that yields the page's candidates in the order found.
 Addresses are 64-bit: sums and differences are taken modulo 2^64.
 */
module UnlinkedScan {
  import opened Wrappers
  import opened PageWalk
  import opened PageTranslation
  import opened ScannedPages

  type Address = a: nat | a < 0x1_0000_0000_0000_0000

  function Plus(a: Address, b: Address): Address { (a + b) % 0x1_0000_0000_0000_0000 }

  function Minus(a: Address, b: Address): Address { (a - b) % 0x1_0000_0000_0000_0000 }

  // ----- comparing one slot with one process

  /** The comparison as the driver computes it, wrapping at both ends. */
  predicate Matches(process: Address, slot: Address) {
    process >= Minus(slot, 0x90) && process <= Plus(slot, 0x90)
  }

  /** At most 0x90 apart. */
  predicate Near(process: Address, slot: Address) {
    slot - 0x90 <= process <= slot + 0x90
  }

  /** The addresses whose window does not wrap. */
  predicate Inside(slot: Address) {
    0x90 <= slot < 0x1_0000_0000_0000_0000 - 0x90
  }

  /** A match is nearness for slots inside; a slot outside matches nothing, not even its own address. */
  lemma MatchesExactly(process: Address, slot: Address)
    ensures Matches(process, slot) <==> Inside(slot) && Near(process, slot)
  {
    if slot < 0x90 {
      assert Minus(slot, 0x90) == slot - 0x90 + 0x1_0000_0000_0000_0000;
    } else {
      assert Minus(slot, 0x90) == slot - 0x90;
    }
    if slot < 0x1_0000_0000_0000_0000 - 0x90 {
      assert Plus(slot, 0x90) == slot + 0x90;
    } else {
      assert Plus(slot, 0x90) == slot + 0x90 - 0x1_0000_0000_0000_0000;
    }
  }

  /** No listed process matches the slot; the order of the list is irrelevant. */
  ghost predicate Unmatched(slot: Address, listed: seq<Address>) {
    !Inside(slot) || forall p :: p in listed ==> !Near(p, slot)
  }

  // ----- recording candidates

  /** The first `count` candidates, in the order found, and zeroes up to `size`. */
  ghost function Recorded(candidates: seq<Address>, count: nat, size: nat): seq<Address>
    requires count <= size
  {
    seq(size, i requires 0 <= i < size => if i < count && i < |candidates| then candidates[i] else 0)
  }

  /** The recording step of ScanPageForKernelObjectAllocation: the first zero slot, if there is one. */
  method Record(buffer: array<Address>, count: nat, process: Address, ghost candidates: seq<Address>)
    requires count <= buffer.Length && process != 0
    requires NonNull(candidates)
    requires buffer[..] == Recorded(candidates, count, buffer.Length)
    modifies buffer
    ensures buffer[..] == Recorded(candidates + [process], count, buffer.Length)
  {
    assert forall k :: 0 <= k < buffer.Length ==> buffer[k] == buffer[..][k];
    for i := 0 to count
      invariant buffer[..] == old(buffer[..])
      invariant i <= |candidates|
    {
      assert buffer[i] == buffer[..][i];
      if buffer[i] == 0 {
        assert i == |candidates|;
        buffer[i] := process;
        assert forall k :: 0 <= k < buffer.Length ==> buffer[..][k] == Recorded(candidates + [process], count, buffer.Length)[k];
        return;
      }
    }
  }

  // ----- comparing with the process list

  /** What is left of a slot once every listed process has been compared with it. */
  ghost function Left(slot: Address, listed: seq<Address>): Address {
    if Unmatched(slot, listed) then slot else 0
  }

  /** CheckIfProcessAllocationIsInProcessList. */
  method CheckIfProcessAllocationIsInProcessList(
      buffer: array<Address>, count: nat, process: Address, ghost recorded: seq<Address>, ghost seen: seq<Address>)
    requires count <= buffer.Length == |recorded|
    requires forall i :: 0 <= i < count ==> buffer[i] == Left(recorded[i], seen)
    modifies buffer
    ensures forall i :: 0 <= i < count ==> buffer[i] == Left(recorded[i], seen + [process])
    ensures forall i :: count <= i < buffer.Length ==> buffer[i] == old(buffer[i])
  {
    for i := 0 to count
      invariant forall k :: 0 <= k < i ==> buffer[k] == Left(recorded[k], seen + [process])
      invariant forall k :: i <= k < count ==> buffer[k] == Left(recorded[k], seen)
      invariant forall k :: count <= k < buffer.Length ==> buffer[k] == old(buffer[k])
    {
      MatchesExactly(process, buffer[i]);
      LeftAfterOne(recorded[i], seen, process);
      if process >= Minus(buffer[i], 0x90) && process <= Plus(buffer[i], 0x90) {
        buffer[i] := 0;
      }
    }
  }

  lemma LeftAfterOne(slot: Address, seen: seq<Address>, process: Address)
    ensures var v := Left(slot, seen);
            Left(slot, seen + [process]) == if Inside(v) && Near(process, v) then 0 else v
  {
    assert process in seen + [process];
    assert forall p :: p in seen ==> p in seen + [process];
  }

  // ----- the whole search

  datatype Status = Success | Abandoned | MemoryNotAllocated

  /** The oracles of one search: what the scan of a page finds, and which allocations succeed. */
  datatype World = World(hits: nat -> seq<Address>, bufferOk: bool, reportOk: nat -> bool)

  /** The candidates of the pages scanned, in order. */
  ghost function Candidates(hits: nat -> seq<Address>, pages: seq<nat>): seq<Address> {
    if pages == [] then [] else Candidates(hits, pages[..|pages| - 1]) + hits(pages[|pages| - 1])
  }

  /** A candidate is never NULL. */
  ghost predicate NonNull(candidates: seq<Address>) {
    forall i :: 0 <= i < |candidates| ==> candidates[i] != 0
  }

  /**
   The objects to report: of the first `n` candidates found, those no listed process is near to and for
   which a report could be allocated, each as the address of its object header.
   */
  ghost function Unlinked(candidates: seq<Address>, reportOk: nat -> bool, listed: seq<Address>, n: nat): seq<Address> {
    if n == 0 then []
    else Unlinked(candidates, reportOk, listed, n - 1) +
         if n <= |candidates| && Unmatched(candidates[n - 1], listed) && reportOk(n - 1)
         then [Minus(candidates[n - 1], 0x30)] else []
  }

  /**
   FindUnlinkedProcesses: `counted` is the process list when it is counted and `listed` the list when
   it is compared.  The reports are exactly the unmatched ones among the first |counted| candidates of the
   pages the walk scans.
   */
  method FindUnlinkedProcesses(
      k: Kernel, cr3: nat, rangesKnown: bool, world: World, counted: seq<Address>, listed: seq<Address>, ghost phys: nat -> nat)
    returns (status: Status, reports: seq<Address>)
    requires rangesKnown ==> Terminated(k.ranges)
    requires forall page: nat :: NonNull(world.hits(page))
    ensures status == if counted == [] then Abandoned else if !world.bufferOk then MemoryNotAllocated else Success
    ensures var pages := if rangesKnown then AllPages(k, Pml4Of(k, cr3), 512) else [];
            reports == if status == Success
                       then Unlinked(Candidates(world.hits, pages), world.reportOk, listed, |counted|) else []
  {
    var count := 0;
    for i := 0 to |counted|
      invariant count == i
    {
      count := count + 1;
    }
    if count == 0 {
      return Abandoned, [];
    }
    if !world.bufferOk {
      return MemoryNotAllocated, [];
    }
    var pages := WalkKernelPageTables(k, cr3, rangesKnown, phys);
    reports := SearchPages(world, pages, count, listed);
    return Success, reports;
  }

  /** The search, given the pages of the walk. */
  method SearchPages(world: World, pages: seq<nat>, count: nat, listed: seq<Address>) returns (reports: seq<Address>)
    requires forall page: nat :: NonNull(world.hits(page))
    ensures reports == Unlinked(Candidates(world.hits, pages), world.reportOk, listed, count)
  {
    var buffer := RecordAll(world.hits, pages, count);
    CompareAll(buffer, count, listed);
    CandidatesNonNull(world.hits, pages);
    reports := ReportAll(world.reportOk, buffer, count, Candidates(world.hits, pages), listed);
  }

  lemma {:induction false} CandidatesNonNull(hits: nat -> seq<Address>, pages: seq<nat>)
    requires forall page: nat :: NonNull(hits(page))
    ensures NonNull(Candidates(hits, pages))
  {
    if pages != [] {
      CandidatesNonNull(hits, pages[..|pages| - 1]);
      assert NonNull(hits(pages[|pages| - 1]));
    }
  }

  /** The pages are scanned one after another into a buffer that holds twice the count. */
  method RecordAll(hits: nat -> seq<Address>, pages: seq<nat>, count: nat) returns (buffer: array<Address>)
    requires forall page: nat :: NonNull(hits(page))
    ensures fresh(buffer) && buffer.Length == 2 * count
    ensures buffer[..] == Recorded(Candidates(hits, pages), count, 2 * count)
  {
    buffer := new Address[2 * count](_ => 0);
    assert buffer[..] == Recorded([], count, 2 * count);
    for i := 0 to |pages|
      invariant buffer[..] == Recorded(Candidates(hits, pages[..i]), count, 2 * count)
    {
      CandidatesNonNull(hits, pages[..i]);
      assert NonNull(hits(pages[i]));
      RecordPage(buffer, count, hits(pages[i]), Candidates(hits, pages[..i]));
      assert pages[..i + 1][..i] == pages[..i];
    }
    assert pages[..|pages|] == pages;
  }

  /** The candidates of one page, recorded as they are found. */
  method RecordPage(buffer: array<Address>, count: nat, found: seq<Address>, ghost before: seq<Address>)
    requires count <= buffer.Length && NonNull(found) && NonNull(before)
    requires buffer[..] == Recorded(before, count, buffer.Length)
    modifies buffer
    ensures buffer[..] == Recorded(before + found, count, buffer.Length)
  {
    assert before + found[..0] == before;
    for i := 0 to |found|
      invariant buffer[..] == Recorded(before + found[..i], count, buffer.Length)
    {
      Record(buffer, count, found[i], before + found[..i]);
      assert before + found[..i] + [found[i]] == before + found[..i + 1];
    }
    assert found[..|found|] == found;
  }

  /** The pass over the process list. */
  method CompareAll(buffer: array<Address>, count: nat, listed: seq<Address>)
    requires count <= buffer.Length
    modifies buffer
    ensures forall i :: 0 <= i < count ==> buffer[i] == Left(old(buffer[i]), listed)
  {
    ghost var recorded := buffer[..];
    assert forall k :: 0 <= k < buffer.Length ==> recorded[k] == buffer[k];
    for i := 0 to |listed|
      invariant forall k :: 0 <= k < count ==> buffer[k] == Left(recorded[k], listed[..i])
    {
      CheckIfProcessAllocationIsInProcessList(buffer, count, listed[i], recorded, listed[..i]);
      assert listed[..i] + [listed[i]] == listed[..i + 1];
    }
    assert listed[..|listed|] == listed;
  }

  /** The reporting loop. */
  method ReportAll(reportOk: nat -> bool, buffer: array<Address>, count: nat, ghost candidates: seq<Address>, ghost listed: seq<Address>)
    returns (reports: seq<Address>)
    requires count <= buffer.Length && NonNull(candidates)
    requires forall i :: 0 <= i < count ==> buffer[i] == Left(if i < |candidates| then candidates[i] else 0, listed)
    ensures reports == Unlinked(candidates, reportOk, listed, count)
  {
    reports := [];
    for index := 0 to count
      invariant reports == Unlinked(candidates, reportOk, listed, index)
    {
      if buffer[index] == 0 {
        continue;
      }
      var allocation := Minus(buffer[index], 0x30);
      if !reportOk(index) {
        continue;
      }
      reports := reports + [allocation];
    }
  }

  // ----- what is reported, and what never is

  /** An object is reported exactly when it heads one of the first n candidates and nothing listed is near. */
  lemma {:induction false} ReportedExactly(
      candidates: seq<Address>, reportOk: nat -> bool, listed: seq<Address>, n: nat, header: Address)
    ensures header in Unlinked(candidates, reportOk, listed, n) <==>
            exists i :: 0 <= i < n && i < |candidates| && Unmatched(candidates[i], listed) &&
                        reportOk(i) && header == Minus(candidates[i], 0x30)
  {
    if n > 0 {
      ReportedExactly(candidates, reportOk, listed, n - 1, header);
    }
  }

  /** Candidates come page by page, in the order of the pages and, within a page, of the scan. */
  lemma {:induction false} CandidatesInOrder(hits: nat -> seq<Address>, xs: seq<nat>, ys: seq<nat>)
    ensures Candidates(hits, xs + ys) == Candidates(hits, xs) + Candidates(hits, ys)
    decreases |ys|
  {
    if ys == [] {
      assert xs + ys == xs;
    } else {
      var front, last := ys[..|ys| - 1], ys[|ys| - 1];
      assert (xs + ys)[..|xs + ys| - 1] == xs + front;
      CandidatesInOrder(hits, xs, front);
      assert Candidates(hits, xs) + Candidates(hits, front) + hits(last) == Candidates(hits, xs) + (Candidates(hits, front) + hits(last));
    }
  }

  lemma CandidatesOfPage(hits: nat -> seq<Address>, page: nat)
    ensures Candidates(hits, [page]) == hits(page)
  {
    assert [page][..0] == [];
    assert Candidates(hits, []) == [];
  }

  lemma {:induction false} CandidateHasPage(hits: nat -> seq<Address>, pages: seq<nat>, c: Address)
    ensures c in Candidates(hits, pages) <==> exists page :: page in pages && c in hits(page)
  {
    if pages != [] {
      var front, last := pages[..|pages| - 1], pages[|pages| - 1];
      CandidateHasPage(hits, front, c);
      assert forall page :: page in pages <==> page in front || page == last;
    }
  }

  /** A candidate on a page that translation gives to some linear address below the m-th PML4 entry. */
  ghost predicate OnTranslatedPage(k: Kernel, phys: nat -> nat, cr3: nat, m: nat, hits: nat -> seq<Address>, c: Address) {
    exists linear: nat, page: nat :: linear < m * 0x80_0000_0000 &&
      TranslatedPage(k, phys, Pml4Base(cr3), linear) == Some(page) && c in hits(page)
  }

  lemma CandidateIsTranslated(k: Kernel, phys: nat -> nat, cr3: nat, m: nat, hits: nat -> seq<Address>, c: Address)
    requires Faithful(k, phys, cr3) && m <= 512
    ensures c in Candidates(hits, AllPages(k, Pml4Of(k, cr3), m)) <==> OnTranslatedPage(k, phys, cr3, m, hits, c)
  {
    var pages := AllPages(k, Pml4Of(k, cr3), m);
    CandidateHasPage(hits, pages, c);
    if page :| page in pages && c in hits(page) {
      PageScannedExactly(k, phys, cr3, m, page);
    }
    if linear: nat, page: nat :|
      linear < m * 0x80_0000_0000 && TranslatedPage(k, phys, Pml4Base(cr3), linear) == Some(page) && c in hits(page)
    {
      PageScannedExactly(k, phys, cr3, m, page);
    }
  }

  /** The object at `header` heads an unmatched candidate on a page that translation gives. */
  ghost predicate Hidden(
      k: Kernel, phys: nat -> nat, cr3: nat, m: nat, hits: nat -> seq<Address>, listed: seq<Address>, header: Address, c: Address) {
    OnTranslatedPage(k, phys, cr3, m, hits, c) && Unmatched(c, listed) && header == Minus(c, 0x30)
  }

  /** The candidate behind a reported object. */
  lemma ReportedHasCandidate(
      candidates: seq<Address>, reportOk: nat -> bool, listed: seq<Address>, n: nat, header: Address) returns (c: Address)
    requires header in Unlinked(candidates, reportOk, listed, n)
    ensures c in candidates && Unmatched(c, listed) && header == Minus(c, 0x30)
  {
    ReportedExactly(candidates, reportOk, listed, n, header);
    var i :| 0 <= i < n && i < |candidates| && Unmatched(candidates[i], listed) && reportOk(i) &&
             header == Minus(candidates[i], 0x30);
    c := candidates[i];
  }

  /** With a slot for every candidate and memory for every report, every unmatched candidate is reported. */
  lemma CandidateIsReported(candidates: seq<Address>, reportOk: nat -> bool, listed: seq<Address>, n: nat, c: Address)
    requires c in candidates && Unmatched(c, listed) && |candidates| <= n && forall i: nat :: reportOk(i)
    ensures Minus(c, 0x30) in Unlinked(candidates, reportOk, listed, n)
  {
    var i :| 0 <= i < |candidates| && candidates[i] == c;
    ReportedExactly(candidates, reportOk, listed, n, Minus(c, 0x30));
  }

  /**
   From page tables to reports.  Every object reported heads an unmatched candidate on a page that
   translation gives; and if there are no more candidates than processes were counted and reports can
   be allocated, every such object is reported.
   */
  lemma ReportedFromPageTables(
      k: Kernel, phys: nat -> nat, cr3: nat, m: nat, world: World, listed: seq<Address>, n: nat, header: Address)
    requires Faithful(k, phys, cr3) && m <= 512
    ensures var candidates := Candidates(world.hits, AllPages(k, Pml4Of(k, cr3), m));
            var reported := header in Unlinked(candidates, world.reportOk, listed, n);
            var hidden := exists c :: Hidden(k, phys, cr3, m, world.hits, listed, header, c);
            && (reported ==> hidden)
            && (|candidates| <= n && (forall i: nat :: world.reportOk(i)) ==> (hidden ==> reported))
  {
    var candidates := Candidates(world.hits, AllPages(k, Pml4Of(k, cr3), m));
    if header in Unlinked(candidates, world.reportOk, listed, n) {
      var c := ReportedHasCandidate(candidates, world.reportOk, listed, n, header);
      CandidateIsTranslated(k, phys, cr3, m, world.hits, c);
      assert Hidden(k, phys, cr3, m, world.hits, listed, header, c);
    }
    if |candidates| <= n && forall i: nat :: world.reportOk(i) {
      if c :| Hidden(k, phys, cr3, m, world.hits, listed, header, c) {
        CandidateIsTranslated(k, phys, cr3, m, world.hits, c);
        CandidateIsReported(candidates, world.reportOk, listed, n, c);
      }
    }
  }

  /** The order of the process list, and repeats in it, do not matter. */
  lemma {:induction false} ListOrderIrrelevant(
      candidates: seq<Address>, reportOk: nat -> bool, a: seq<Address>, b: seq<Address>, n: nat)
    requires forall p :: p in a <==> p in b
    ensures Unlinked(candidates, reportOk, a, n) == Unlinked(candidates, reportOk, b, n)
  {
    if n > 0 {
      ListOrderIrrelevant(candidates, reportOk, a, b, n - 1);
    }
  }

  /**
   Candidates past the process count are dropped although the buffer has room for as many again: when
   the first `n` found are all listed processes, an unlinked one found later goes unreported.
   */
  lemma {:induction false} LateCandidatesAreLost(
      candidates: seq<Address>, reportOk: nat -> bool, listed: seq<Address>, n: nat)
    requires n <= |candidates|
    requires forall i :: 0 <= i < n ==> !Unmatched(candidates[i], listed)
    ensures Unlinked(candidates, reportOk, listed, n) == []
  {
    if n > 0 {
      LateCandidatesAreLost(candidates, reportOk, listed, n - 1);
    }
  }
}
