/**
 The kernel page-table walk (WalkKernelPageTables and EnumerateKernelLargePages in driver/pool.c).

 The kernel's address services are oracles: `virt` is MmGetVirtualForPhysical, `valid` is
 MmIsAddressValid and `read` is a 64-bit load.  The walk is described one 4 KB linear page at a time.

 Table sizes are written out as literals, which keeps the arithmetic linear: a table has 512 entries,
 a 2 MB page 512 blocks of 4 KB and a 1 GB page 0x40000.
 */
module PageWalk {
  import opened Wrappers

  /** How the fields of a page-table entry are read. */
  datatype Fields = Fields(
    present: nat -> bool, large: nat -> bool,
    pml4e: nat -> nat, pdpte: nat -> nat, pde: nat -> nat, pte: nat -> nat,
    page1GB: nat -> nat, page2MB: nat -> nat)

  datatype Kernel = Kernel(virt: nat -> nat, valid: nat -> bool, read: nat -> nat, ranges: seq<Range>, fields: Fields)

  /** PHYSICAL_MEMORY_RANGE. */
  datatype Range = Range(start: nat, bytes: nat)

  /** Addition modulo 2^64. */
  function Add64(a: nat, b: nat): nat { (a + b) % 0x1_0000_0000_0000_0000 }

  // ----- physical memory ranges

  predicate Covers(r: Range, pa: nat) {
    r.start <= pa <= Add64(r.start, r.bytes)
  }

  /** The list ends at the first range of zero bytes. */
  predicate InRange(ranges: seq<Range>, pa: nat) {
    ranges != [] && ranges[0].bytes != 0 && (Covers(ranges[0], pa) || InRange(ranges[1..], pa))
  }

  ghost predicate Terminated(ranges: seq<Range>) {
    exists i :: 0 <= i < |ranges| && ranges[i].bytes == 0
  }

  method IsPhysicalAddressInPhysicalMemoryRange(pa: nat, ranges: seq<Range>) returns (inside: bool)
    requires Terminated(ranges)
    ensures inside == InRange(ranges, pa)
  {
    var index := 0;
    ghost var end :| 0 <= end < |ranges| && ranges[end].bytes == 0;
    while ranges[index].bytes != 0
      invariant 0 <= index <= end
      invariant InRange(ranges, pa) == InRange(ranges[index..], pa)
      decreases end - index
    {
      assert ranges[index..][1..] == ranges[index + 1..];
      if Covers(ranges[index], pa) {
        return true;
      }
      index := index + 1;
    }
    return false;
  }

  /** Membership in a listed range, end included: the address one past a range is accepted. */
  lemma {:induction false} InRangeMeansListed(ranges: seq<Range>, pa: nat)
    ensures InRange(ranges, pa) <==>
            exists i :: 0 <= i < |ranges| && Covers(ranges[i], pa) && forall j :: 0 <= j <= i ==> ranges[j].bytes != 0
  {
    if ranges != [] && ranges[0].bytes != 0 && !Covers(ranges[0], pa) {
      InRangeMeansListed(ranges[1..], pa);
      if i :| 0 <= i < |ranges| && Covers(ranges[i], pa) && forall j :: 0 <= j <= i ==> ranges[j].bytes != 0 {
        assert ranges[1..][i - 1] == ranges[i];
        assert forall j :: 0 <= j <= i - 1 ==> ranges[1..][j] == ranges[j + 1];
      }
      if InRange(ranges[1..], pa) {
        var i :| 0 <= i < |ranges[1..]| && Covers(ranges[1..][i], pa) && forall j :: 0 <= j <= i ==> ranges[1..][j].bytes != 0;
        assert ranges[i + 1] == ranges[1..][i];
        forall j | 0 <= j <= i + 1
          ensures ranges[j].bytes != 0
        {
          if j > 0 {
            assert ranges[j] == ranges[1..][j - 1];
          }
        }
      }
    } else if ranges != [] && ranges[0].bytes != 0 {
      assert Covers(ranges[0], pa) && forall j :: 0 <= j <= 0 ==> ranges[j].bytes != 0;
    }
  }

  // ----- which page, if any, is scanned for a linear page

  /** The present entry `i` of the table at virtual address `table`. */
  function Entry(k: Kernel, table: nat, i: nat): Option<nat> {
    var address := Add64(table, i * 8);
    if !k.valid(address) || !k.fields.present(k.read(address)) then None else Some(k.read(address))
  }

  /** The usable virtual address of a physical address. */
  function Mapped(k: Kernel, pa: nat): Option<nat> {
    if k.virt(pa) == 0 || !k.valid(k.virt(pa)) then None else Some(k.virt(pa))
  }

  /** A page is scanned only if its base lies in a listed range. */
  function Leaf(k: Kernel, pa: nat): Option<nat> {
    if !InRange(k.ranges, pa) then None else Mapped(k, pa)
  }

  /** The 4 KB block with number `block` of a large page. */
  function Block(base: Option<nat>, block: nat): Option<nat> {
    if base.None? then None else Some(Add64(base.value, block * 0x1000))
  }

  function PtPage(k: Kernel, pt: nat, i1: nat): Option<nat> {
    var e := Entry(k, pt, i1);
    if e.None? then None else Leaf(k, k.fields.pte(e.value))
  }

  function PdPage(k: Kernel, pd: nat, i2: nat, i1: nat): Option<nat> {
    var e := Entry(k, pd, i2);
    if e.None? then None
    else if k.fields.large(e.value) then Block(Leaf(k, k.fields.page2MB(e.value)), i1)
    else
      var pt := Mapped(k, k.fields.pde(e.value));
      if pt.None? then None else PtPage(k, pt.value, i1)
  }

  function PdptPage(k: Kernel, pdpt: nat, i3: nat, i2: nat, i1: nat): Option<nat> {
    var e := Entry(k, pdpt, i3);
    if e.None? then None
    else if k.fields.large(e.value) then Block(Leaf(k, k.fields.page1GB(e.value)), i2 * 512 + i1)
    else
      var pd := Mapped(k, k.fields.pdpte(e.value));
      if pd.None? then None else PdPage(k, pd.value, i2, i1)
  }

  /** The page scanned for the linear page with the four table indices i4, i3, i2, i1. */
  function PageOf(k: Kernel, pml4: nat, i4: nat, i3: nat, i2: nat, i1: nat): Option<nat> {
    var e := Entry(k, pml4, i4);
    if e.None? then None
    else
      var pdpt := Mapped(k, k.fields.pml4e(e.value));
      if pdpt.None? then None else PdptPage(k, pdpt.value, i3, i2, i1)
  }

  // ----- all linear pages, in ascending order

  /** The page for each linear page, named by its four table indices. */
  type Pages = (nat, nat, nat, nat) -> Option<nat>

  function Single(p: Option<nat>): seq<nat> { if p.None? then [] else [p.value] }

  /** The pages of the first `n` linear pages under one page-directory entry. */
  ghost function UnderPde(f: Pages, i4: nat, i3: nat, i2: nat, n: nat): seq<nat>
    decreases n, f
  {
    if n == 0 then [] else UnderPde(f, i4, i3, i2, n - 1) + Single(f(i4, i3, i2, n - 1))
  }

  ghost function UnderPdpte(f: Pages, i4: nat, i3: nat, n: nat): seq<nat>
    decreases n, f
  {
    if n == 0 then [] else UnderPdpte(f, i4, i3, n - 1) + UnderPde(f, i4, i3, n - 1, 512)
  }

  ghost function UnderPml4e(f: Pages, i4: nat, n: nat): seq<nat>
    decreases n, f
  {
    if n == 0 then [] else UnderPml4e(f, i4, n - 1) + UnderPdpte(f, i4, n - 1, 512)
  }

  /** The pages of all linear pages under the first `n` PML4 entries, in ascending linear order. */
  ghost function InOrder(f: Pages, n: nat): seq<nat>
    decreases n, f
  {
    if n == 0 then [] else InOrder(f, n - 1) + UnderPml4e(f, n - 1, 512)
  }

  // ----- which part of a table's pages `f` describes

  ghost predicate PtAt(k: Kernel, f: Pages, i4: nat, i3: nat, i2: nat, pt: nat) {
    forall i1: nat :: i1 < 512 ==> f(i4, i3, i2, i1) == PtPage(k, pt, i1)
  }

  ghost predicate PdAt(k: Kernel, f: Pages, i4: nat, i3: nat, pd: nat) {
    forall i2: nat, i1: nat :: i2 < 512 && i1 < 512 ==> f(i4, i3, i2, i1) == PdPage(k, pd, i2, i1)
  }

  ghost predicate PdptAt(k: Kernel, f: Pages, i4: nat, pdpt: nat) {
    forall i3: nat, i2: nat, i1: nat :: i3 < 512 && i2 < 512 && i1 < 512 ==>
      f(i4, i3, i2, i1) == PdptPage(k, pdpt, i3, i2, i1)
  }

  ghost predicate Pml4At(k: Kernel, f: Pages, pml4: nat) {
    forall i4: nat, i3: nat, i2: nat, i1: nat :: i4 < 512 && i3 < 512 && i2 < 512 && i1 < 512 ==>
      f(i4, i3, i2, i1) == PageOf(k, pml4, i4, i3, i2, i1)
  }

  lemma {:induction false} NothingUnderPde(f: Pages, i4: nat, i3: nat, i2: nat, n: nat)
    requires n <= 512 && forall i1: nat :: i1 < 512 ==> f(i4, i3, i2, i1).None?
    ensures UnderPde(f, i4, i3, i2, n) == []
  {
    if n > 0 {
      NothingUnderPde(f, i4, i3, i2, n - 1);
    }
  }

  lemma {:induction false} NothingUnderPdpte(f: Pages, i4: nat, i3: nat, n: nat)
    requires n <= 512 && forall i2: nat, i1: nat :: i2 < 512 && i1 < 512 ==> f(i4, i3, i2, i1).None?
    ensures UnderPdpte(f, i4, i3, n) == []
  {
    if n > 0 {
      NothingUnderPdpte(f, i4, i3, n - 1);
      NothingUnderPde(f, i4, i3, n - 1, 512);
    }
  }

  lemma {:induction false} NothingUnderPml4e(f: Pages, i4: nat, n: nat)
    requires n <= 512
    requires forall i3: nat, i2: nat, i1: nat :: i3 < 512 && i2 < 512 && i1 < 512 ==> f(i4, i3, i2, i1).None?
    ensures UnderPml4e(f, i4, n) == []
  {
    if n > 0 {
      NothingUnderPml4e(f, i4, n - 1);
      NothingUnderPdpte(f, i4, n - 1, 512);
    }
  }

  // ----- large pages

  /** Consecutive 4 KB blocks, numbered from `start`. */
  ghost predicate IsTile(tile: seq<nat>, base: nat, start: nat) {
    forall n :: 0 <= n < |tile| ==> tile[n] == Add64(base, (start + n) * 0x1000)
  }

  /** EnumerateKernelLargePages: one scan per 4 KB block, in ascending order, none skipped. */
  method EnumerateKernelLargePages(pageBase: nat, pageSize: nat) returns (scanned: seq<nat>)
    ensures |scanned| == pageSize
    ensures IsTile(scanned, pageBase, 0)
  {
    scanned := [];
    for pageIndex := 0 to pageSize
      invariant |scanned| == pageIndex
      invariant IsTile(scanned, pageBase, 0)
    {
      scanned := scanned + [Add64(pageBase, pageIndex * 0x1000)];
    }
  }

  lemma {:induction false} TileUnderPde(f: Pages, i4: nat, i3: nat, i2: nat, base: nat, start: nat, tile: seq<nat>)
    requires |tile| <= 512 && IsTile(tile, base, start)
    requires forall i1: nat :: i1 < 512 ==> f(i4, i3, i2, i1) == Block(Some(base), start + i1)
    ensures UnderPde(f, i4, i3, i2, |tile|) == tile
    decreases |tile|
  {
    if tile != [] {
      var last := |tile| - 1;
      TileUnderPde(f, i4, i3, i2, base, start, tile[..last]);
      assert f(i4, i3, i2, last) == Block(Some(base), start + last);
      assert tile == tile[..last] + [tile[last]];
    }
  }

  lemma TileTail(tile: seq<nat>, base: nat, cut: nat)
    requires cut <= |tile| && IsTile(tile, base, 0)
    ensures IsTile(tile[cut..], base, cut) && IsTile(tile[..cut], base, 0)
  {
    forall m | 0 <= m < |tile| - cut
      ensures tile[cut..][m] == Add64(base, (cut + m) * 0x1000)
    {
      assert tile[cut..][m] == tile[cut + m];
    }
  }

  lemma {:induction false} TileUnderPdpte(f: Pages, i4: nat, i3: nat, base: nat, n: nat, tile: seq<nat>)
    requires n <= 512 && |tile| == n * 512 && IsTile(tile, base, 0)
    requires forall i2: nat, i1: nat :: i2 < 512 && i1 < 512 ==> f(i4, i3, i2, i1) == Block(Some(base), i2 * 512 + i1)
    ensures UnderPdpte(f, i4, i3, n) == tile
    decreases n
  {
    if n > 0 {
      var cut := (n - 1) * 512;
      var front, back := tile[..cut], tile[cut..];
      assert tile == front + back;
      TileUnderPdpte(f, i4, i3, base, n - 1, front);
      assert IsTile(back, base, cut) by {
        TileTail(tile, base, cut);
      }
      TileUnderPde(f, i4, i3, n - 1, base, cut, back);
    }
  }

  // ----- the loops

  method ScanLeaf(k: Kernel, pa: nat) returns (base: Option<nat>)
    requires Terminated(k.ranges)
    ensures base == Leaf(k, pa)
  {
    var inside := IsPhysicalAddressInPhysicalMemoryRange(pa, k.ranges);
    if !inside {
      return None;
    }
    base := MapTable(k, pa);
  }

  method MapTable(k: Kernel, pa: nat) returns (base: Option<nat>)
    ensures base == Mapped(k, pa)
  {
    var address := k.virt(pa);
    if address == 0 || !k.valid(address) {
      return None;
    }
    return Some(address);
  }

  method ReadEntry(k: Kernel, table: nat, index: nat) returns (e: Option<nat>)
    ensures e == Entry(k, table, index)
  {
    var address := Add64(table, index * 8);
    if !k.valid(address) {
      return None;
    }
    var entry := k.read(address);
    if !k.fields.present(entry) {
      return None;
    }
    return Some(entry);
  }

  method WalkPt(k: Kernel, pt: nat, ghost f: Pages, ghost i4: nat, ghost i3: nat, ghost i2: nat)
    returns (scanned: seq<nat>)
    requires Terminated(k.ranges)
    requires PtAt(k, f, i4, i3, i2, pt)
    ensures scanned == UnderPde(f, i4, i3, i2, 512)
  {
    scanned := [];
    for index := 0 to 512
      invariant scanned == UnderPde(f, i4, i3, i2, index)
    {
      assert f(i4, i3, i2, index) == PtPage(k, pt, index);
      var entry := ReadEntry(k, pt, index);
      if entry.None? {
        continue;
      }
      var page := ScanLeaf(k, k.fields.pte(entry.value));
      if page.Some? {
        scanned := scanned + [page.value];
      }
    }
  }

  /** The body of the loop over a page directory. */
  method WalkPdEntry(k: Kernel, pd: nat, index: nat, ghost f: Pages, ghost i4: nat, ghost i3: nat)
    returns (scanned: seq<nat>)
    requires Terminated(k.ranges) && index < 512
    requires PdAt(k, f, i4, i3, pd)
    ensures scanned == UnderPde(f, i4, i3, index, 512)
  {
    assert forall i1: nat :: i1 < 512 ==> f(i4, i3, index, i1) == PdPage(k, pd, index, i1);
    var entry := ReadEntry(k, pd, index);
    if entry.None? {
      NothingUnderPde(f, i4, i3, index, 512);
      return [];
    }
    if k.fields.large(entry.value) {
      var base := ScanLeaf(k, k.fields.page2MB(entry.value));
      if base.None? {
        NothingUnderPde(f, i4, i3, index, 512);
        return [];
      }
      scanned := EnumerateKernelLargePages(base.value, 512);
      TileUnderPde(f, i4, i3, index, base.value, 0, scanned);
      return;
    }
    var pt := MapTable(k, k.fields.pde(entry.value));
    if pt.None? {
      NothingUnderPde(f, i4, i3, index, 512);
      return [];
    }
    scanned := WalkPt(k, pt.value, f, i4, i3, index);
  }

  method WalkPd(k: Kernel, pd: nat, ghost f: Pages, ghost i4: nat, ghost i3: nat) returns (scanned: seq<nat>)
    requires Terminated(k.ranges)
    requires PdAt(k, f, i4, i3, pd)
    ensures scanned == UnderPdpte(f, i4, i3, 512)
  {
    scanned := [];
    for index := 0 to 512
      invariant scanned == UnderPdpte(f, i4, i3, index)
    {
      var pages := WalkPdEntry(k, pd, index, f, i4, i3);
      scanned := scanned + pages;
    }
  }

  /** The body of the loop over a page-directory-pointer table. */
  method WalkPdptEntry(k: Kernel, pdpt: nat, index: nat, ghost f: Pages, ghost i4: nat) returns (scanned: seq<nat>)
    requires Terminated(k.ranges) && index < 512
    requires PdptAt(k, f, i4, pdpt)
    ensures scanned == UnderPdpte(f, i4, index, 512)
  {
    assert forall i2: nat, i1: nat :: i2 < 512 && i1 < 512 ==> f(i4, index, i2, i1) == PdptPage(k, pdpt, index, i2, i1);
    var entry := ReadEntry(k, pdpt, index);
    if entry.None? {
      NothingUnderPdpte(f, i4, index, 512);
      return [];
    }
    if k.fields.large(entry.value) {
      var base := ScanLeaf(k, k.fields.page1GB(entry.value));
      if base.None? {
        NothingUnderPdpte(f, i4, index, 512);
        return [];
      }
      scanned := EnumerateKernelLargePages(base.value, 0x4_0000);
      TileUnderPdpte(f, i4, index, base.value, 512, scanned);
      return;
    }
    var pd := MapTable(k, k.fields.pdpte(entry.value));
    if pd.None? {
      NothingUnderPdpte(f, i4, index, 512);
      return [];
    }
    scanned := WalkPd(k, pd.value, f, i4, index);
  }

  method WalkPdpt(k: Kernel, pdpt: nat, ghost f: Pages, ghost i4: nat) returns (scanned: seq<nat>)
    requires Terminated(k.ranges)
    requires PdptAt(k, f, i4, pdpt)
    ensures scanned == UnderPml4e(f, i4, 512)
  {
    scanned := [];
    for index := 0 to 512
      invariant scanned == UnderPml4e(f, i4, index)
    {
      var pages := WalkPdptEntry(k, pdpt, index, f, i4);
      scanned := scanned + pages;
    }
  }

  /** The body of the loop over the PML4 table. */
  method WalkPml4Entry(k: Kernel, pml4: nat, index: nat, ghost f: Pages) returns (scanned: seq<nat>)
    requires Terminated(k.ranges) && index < 512
    requires Pml4At(k, f, pml4)
    ensures scanned == UnderPml4e(f, index, 512)
  {
    assert forall i3: nat, i2: nat, i1: nat :: i3 < 512 && i2 < 512 && i1 < 512 ==>
        f(index, i3, i2, i1) == PageOf(k, pml4, index, i3, i2, i1);
    var entry := ReadEntry(k, pml4, index);
    if entry.None? {
      NothingUnderPml4e(f, index, 512);
      return [];
    }
    var pdpt := MapTable(k, k.fields.pml4e(entry.value));
    if pdpt.None? {
      NothingUnderPml4e(f, index, 512);
      return [];
    }
    scanned := WalkPdpt(k, pdpt.value, f, index);
  }

  method WalkPml4(k: Kernel, pml4: nat, ghost f: Pages) returns (scanned: seq<nat>)
    requires Terminated(k.ranges)
    requires Pml4At(k, f, pml4)
    ensures scanned == InOrder(f, 512)
  {
    scanned := [];
    for index := 0 to 512
      invariant scanned == InOrder(f, index)
    {
      var pages := WalkPml4Entry(k, pml4, index, f);
      scanned := scanned + pages;
    }
  }

  /** The PML4 table CR3 names: its bits 47:12, if the kernel can map it. */
  function Pml4Of(k: Kernel, cr3: nat): Option<nat> {
    Mapped(k, cr3 / 0x1000 % 0x10_0000_0000 * 0x1000)
  }

  /** The pages of a Kernel's linear pages, as the walk finds them. */
  ghost function WalkedPages(k: Kernel, pml4: nat): Pages {
    (i4: nat, i3: nat, i2: nat, i1: nat) => PageOf(k, pml4, i4, i3, i2, i1)
  }

  /** The pages the walk finds under the first `n` PML4 entries. */
  ghost function AllPages(k: Kernel, pml4: Option<nat>, n: nat): seq<nat> {
    if pml4.None? then [] else InOrder(WalkedPages(k, pml4.value), n)
  }

  method WalkFromCr3(k: Kernel, cr3: nat) returns (scanned: seq<nat>)
    requires Terminated(k.ranges)
    ensures scanned == AllPages(k, Pml4Of(k, cr3), 512)
  {
    var pml4 := MapTable(k, cr3 / 0x1000 % 0x10_0000_0000 * 0x1000);
    if pml4.None? {
      return [];
    }
    scanned := WalkPml4(k, pml4.value, WalkedPages(k, pml4.value));
  }
}
