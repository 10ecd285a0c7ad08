/**
 Which pages the page-table walk scans: those of the linear addresses that translation takes somewhere, and
 no others; with an example of a page whose address the declared fields cannot hold.
 */
module ScannedPages {
  import opened Wrappers
  import opened PageWalk
  import opened PageTranslation

  // ----- membership: a page scanned, and the linear page behind it

  /** The parts g(0), ..., g(n - 1), joined. */
  ghost function Joined(g: nat -> seq<nat>, n: nat): seq<nat>
    decreases n, g
  {
    if n == 0 then [] else Joined(g, n - 1) + g(n - 1)
  }

  lemma {:induction false} FindJoined(g: nat -> seq<nat>, n: nat, p: nat) returns (i: nat)
    requires p in Joined(g, n)
    ensures i < n && p in g(i)
  {
    if p in g(n - 1) {
      i := n - 1;
    } else {
      i := FindJoined(g, n - 1, p);
    }
  }

  lemma {:induction false} FoundJoined(g: nat -> seq<nat>, n: nat, i: nat, p: nat)
    requires i < n && p in g(i)
    ensures p in Joined(g, n)
  {
    if i < n - 1 {
      FoundJoined(g, n - 1, i, p);
    }
  }

  lemma {:induction false} PdeJoined(f: Pages, i4: nat, i3: nat, i2: nat, g: nat -> seq<nat>, n: nat)
    requires forall i1: nat :: g(i1) == Single(f(i4, i3, i2, i1))
    ensures UnderPde(f, i4, i3, i2, n) == Joined(g, n)
  {
    if n > 0 {
      PdeJoined(f, i4, i3, i2, g, n - 1);
    }
  }

  lemma {:induction false} PdpteJoined(f: Pages, i4: nat, i3: nat, g: nat -> seq<nat>, n: nat)
    requires forall i2: nat :: g(i2) == UnderPde(f, i4, i3, i2, 512)
    ensures UnderPdpte(f, i4, i3, n) == Joined(g, n)
  {
    if n > 0 {
      PdpteJoined(f, i4, i3, g, n - 1);
    }
  }

  lemma {:induction false} Pml4eJoined(f: Pages, i4: nat, g: nat -> seq<nat>, n: nat)
    requires forall i3: nat :: g(i3) == UnderPdpte(f, i4, i3, 512)
    ensures UnderPml4e(f, i4, n) == Joined(g, n)
  {
    if n > 0 {
      Pml4eJoined(f, i4, g, n - 1);
    }
  }

  lemma {:induction false} OrderJoined(f: Pages, g: nat -> seq<nat>, n: nat)
    requires forall i4: nat :: g(i4) == UnderPml4e(f, i4, 512)
    ensures InOrder(f, n) == Joined(g, n)
  {
    if n > 0 {
      OrderJoined(f, g, n - 1);
    }
  }

  lemma InUnderPde(f: Pages, i4: nat, i3: nat, i2: nat, n: nat, p: nat)
    ensures p in UnderPde(f, i4, i3, i2, n) <==> exists i1: nat :: i1 < n && f(i4, i3, i2, i1) == Some(p)
  {
    var g := (i1: nat) => Single(f(i4, i3, i2, i1));
    PdeJoined(f, i4, i3, i2, g, n);
    if p in Joined(g, n) {
      var i1 := FindJoined(g, n, p);
      assert f(i4, i3, i2, i1) == Some(p);
    }
    if i1: nat :| i1 < n && f(i4, i3, i2, i1) == Some(p) {
      FoundJoined(g, n, i1, p);
    }
  }

  lemma InUnderPdpte(f: Pages, i4: nat, i3: nat, n: nat, p: nat)
    ensures p in UnderPdpte(f, i4, i3, n) <==> exists i2: nat :: i2 < n && p in UnderPde(f, i4, i3, i2, 512)
  {
    var g := (i2: nat) => UnderPde(f, i4, i3, i2, 512);
    PdpteJoined(f, i4, i3, g, n);
    MemberJoined(g, n, p);
  }

  lemma MemberJoined(g: nat -> seq<nat>, n: nat, p: nat)
    ensures p in Joined(g, n) <==> exists i: nat :: i < n && p in g(i)
  {
    if p in Joined(g, n) {
      var i := FindJoined(g, n, p);
    }
    if i: nat :| i < n && p in g(i) {
      FoundJoined(g, n, i, p);
    }
  }

  lemma InUnderPml4e(f: Pages, i4: nat, n: nat, p: nat)
    ensures p in UnderPml4e(f, i4, n) <==> exists i3: nat :: i3 < n && p in UnderPdpte(f, i4, i3, 512)
  {
    var g := (i3: nat) => UnderPdpte(f, i4, i3, 512);
    Pml4eJoined(f, i4, g, n);
    MemberJoined(g, n, p);
  }

  lemma InAscending(f: Pages, n: nat, p: nat)
    ensures p in InOrder(f, n) <==> exists i4: nat :: i4 < n && p in UnderPml4e(f, i4, 512)
  {
    var g := (i4: nat) => UnderPml4e(f, i4, 512);
    OrderJoined(f, g, n);
    MemberJoined(g, n, p);
  }

  lemma FindScanned(f: Pages, n: nat, p: nat) returns (i4: nat, i3: nat, i2: nat, i1: nat)
    requires p in InOrder(f, n)
    ensures i4 < n && i3 < 512 && i2 < 512 && i1 < 512 && f(i4, i3, i2, i1) == Some(p)
  {
    InAscending(f, n, p);
    i4 :| i4 < n && p in UnderPml4e(f, i4, 512);
    InUnderPml4e(f, i4, 512, p);
    i3 :| i3 < 512 && p in UnderPdpte(f, i4, i3, 512);
    InUnderPdpte(f, i4, i3, 512, p);
    i2 :| i2 < 512 && p in UnderPde(f, i4, i3, i2, 512);
    InUnderPde(f, i4, i3, i2, 512, p);
    i1 :| i1 < 512 && f(i4, i3, i2, i1) == Some(p);
  }

  lemma FoundScanned(f: Pages, n: nat, i4: nat, i3: nat, i2: nat, i1: nat, p: nat)
    requires i4 < n && i3 < 512 && i2 < 512 && i1 < 512 && f(i4, i3, i2, i1) == Some(p)
    ensures p in InOrder(f, n)
  {
    InUnderPde(f, i4, i3, i2, 512, p);
    InUnderPdpte(f, i4, i3, 512, p);
    InUnderPml4e(f, i4, 512, p);
    InAscending(f, n, p);
  }

  /** Translation looks at bits 47:12 only. */
  lemma OffsetIrrelevant(k: Kernel, phys: nat -> nat, pml4: nat, linear: nat)
    ensures var start := LinearOf(Pml4Index(linear), PdptIndex(linear), PdIndex(linear), PtIndex(linear));
            TranslatedPage(k, phys, pml4, start) == TranslatedPage(k, phys, pml4, linear)
  {
    var start := LinearOf(Pml4Index(linear), PdptIndex(linear), PdIndex(linear), PtIndex(linear));
    IndicesOfLinear(Pml4Index(linear), PdptIndex(linear), PdIndex(linear), PtIndex(linear));
    BlockIndex(linear);
    BlockIndex(start);
    SameIndices(k, phys, pml4, start, linear);
  }

  lemma SameIndices(k: Kernel, phys: nat -> nat, pml4: nat, a: nat, b: nat)
    requires Pml4Index(a) == Pml4Index(b) && PdptIndex(a) == PdptIndex(b) && PdIndex(a) == PdIndex(b) && PtIndex(a) == PtIndex(b)
    requires a / 0x1000 % 0x4_0000 == b / 0x1000 % 0x4_0000
    ensures TranslatedPage(k, phys, pml4, a) == TranslatedPage(k, phys, pml4, b)
  {
  }

  lemma Pml4IndexBelow(linear: nat, n: nat)
    requires n <= 512 && linear < n * 0x80_0000_0000
    ensures Pml4Index(linear) < n
  {
  }

  /** The page of a linear address, found by its indices. */
  lemma TranslatedAt(k: Kernel, phys: nat -> nat, pml4: nat, linear: nat, f: Pages)
    requires f == TranslatedPages(k, phys, pml4)
    ensures f(Pml4Index(linear), PdptIndex(linear), PdIndex(linear), PtIndex(linear)) == TranslatedPage(k, phys, pml4, linear)
  {
    OffsetIrrelevant(k, phys, pml4, linear);
  }

  lemma LinearIsScanned(k: Kernel, phys: nat -> nat, pml4: nat, n: nat, p: nat, linear: nat)
    requires n <= 512 && linear < n * 0x80_0000_0000 && TranslatedPage(k, phys, pml4, linear) == Some(p)
    ensures p in InOrder(TranslatedPages(k, phys, pml4), n)
  {
    var f := TranslatedPages(k, phys, pml4);
    TranslatedAt(k, phys, pml4, linear, f);
    Pml4IndexBelow(linear, n);
    FoundScanned(f, n, Pml4Index(linear), PdptIndex(linear), PdIndex(linear), PtIndex(linear), p);
  }

  lemma TranslatedScanExactly(k: Kernel, phys: nat -> nat, pml4: nat, n: nat, p: nat)
    requires n <= 512
    ensures p in TranslatedScan(k, phys, pml4, n) <==>
            exists linear: nat :: linear < n * 0x80_0000_0000 && TranslatedPage(k, phys, pml4, linear) == Some(p)
  {
    if p in TranslatedScan(k, phys, pml4, n) {
      var f := TranslatedPages(k, phys, pml4);
      var i4, i3, i2, i1 := FindScanned(f, n, p);
      assert f(i4, i3, i2, i1) == TranslatedPage(k, phys, pml4, LinearOf(i4, i3, i2, i1));
    }
    if linear: nat :| linear < n * 0x80_0000_0000 && TranslatedPage(k, phys, pml4, linear) == Some(p) {
      LinearIsScanned(k, phys, pml4, n, p, linear);
      assert CanRead(k, pml4, Pml4Index(linear));
    }
  }

  /**
   A page is scanned by the walk if and only if it is the page of some linear address, below the n-th
   PML4 entry, that translation takes to a mapped frame in a listed range along a readable path.
   */
  lemma PageScannedExactly(k: Kernel, phys: nat -> nat, cr3: nat, n: nat, p: nat)
    requires Faithful(k, phys, cr3) && n <= 512
    ensures p in AllPages(k, Pml4Of(k, cr3), n) <==>
            exists linear: nat :: linear < n * 0x80_0000_0000 && TranslatedPage(k, phys, Pml4Base(cr3), linear) == Some(p)
  {
    WalkMatchesArchitecture(k, phys, cr3, n);
    TranslatedScanExactly(k, phys, Pml4Base(cr3), n, p);
  }

  // ----- an address beyond the declared fields

  /** Four tables at 0x1000 to 0x4000, the last one mapping a page whose address has bit 51 set. */
  function WideEntry(a: nat): nat {
    if a == 0x1000 then 0x2001
    else if a == 0x2000 then 0x3001
    else if a == 0x3000 then 0x4001
    else if a == 0x4000 then 0x8_0000_0000_5001
    else 0
  }

  function WideKernel(): Kernel {
    Kernel(a => a, _ => true, WideEntry, [Range(0, 0x10_0000_0000_0000), Range(0, 0)], Declared())
  }

  lemma WideFields()
    ensures var k := WideKernel();
            && Entry(k, 0x1000, 0) == Some(0x2001) && Entry(k, 0x2000, 0) == Some(0x3001)
            && Entry(k, 0x3000, 0) == Some(0x4001) && Entry(k, 0x4000, 0) == Some(0x8_0000_0000_5001)
            && Leaf(k, 0x5000) == Some(0x5000) && Leaf(k, 0x8_0000_0000_5000) == Some(0x8_0000_0000_5000)
  {
    var k := WideKernel();
    assert Covers(k.ranges[0], 0x5000) && Covers(k.ranges[0], 0x8_0000_0000_5000);
  }

  lemma WideTranslation()
    ensures Translate(WideEntry, Architectural(), 0x1000, 0) == Some(Small(0x8_0000_0000_5000))
  {
    var w := Architectural();
    assert Fetched(WideEntry, w, 0x1000, 0) == Some(0x2001) && w.pml4e(0x2001) == 0x2000;
    assert Fetched(WideEntry, w, 0x2000, 0) == Some(0x3001) && w.pdpte(0x3001) == 0x3000;
    assert Fetched(WideEntry, w, 0x3000, 0) == Some(0x4001) && w.pde(0x4001) == 0x4000;
    assert Fetched(WideEntry, w, 0x4000, 0) == Some(0x8_0000_0000_5001);
  }

  lemma WideFieldsRead()
    ensures var w := Declared();
            && w.pml4e(0x2001) == 0x2000 && w.pdpte(0x3001) == 0x3000 && w.pde(0x4001) == 0x4000
            && !w.large(0x3001) && !w.large(0x4001) && w.pte(0x8_0000_0000_5001) == 0x5000
  {
  }

  /** A 4 KB page reached through small tables. */
  lemma SmallPath(k: Kernel)
    requires forall pa: nat :: pa != 0 ==> Mapped(k, pa) == Some(pa)
    requires Entry(k, 0x1000, 0) == Some(0x2001) && Entry(k, 0x2000, 0) == Some(0x3001)
    requires Entry(k, 0x3000, 0) == Some(0x4001) && Entry(k, 0x4000, 0) == Some(0x8_0000_0000_5001)
    requires var w := k.fields;
             && w.pml4e(0x2001) == 0x2000 && w.pdpte(0x3001) == 0x3000 && w.pde(0x4001) == 0x4000
             && !w.large(0x3001) && !w.large(0x4001)
    ensures PageOf(k, 0x1000, 0, 0, 0, 0) == Leaf(k, k.fields.pte(0x8_0000_0000_5001))
  {
    assert Mapped(k, 0x2000) == Some(0x2000) && Mapped(k, 0x3000) == Some(0x3000) && Mapped(k, 0x4000) == Some(0x4000);
  }

  /** Table addresses have 52 bits. */
  lemma TableAddress(e: nat)
    ensures Architectural().pml4e(e) < 0x10_0000_0000_0000
    ensures Architectural().pdpte(e) < 0x10_0000_0000_0000
    ensures Architectural().pde(e) < 0x10_0000_0000_0000
  {
  }

  /** The kernel has every table mapped at its own address, and reads there what physical memory holds. */
  lemma WideIsCoherent()
    ensures CoherentTables(WideKernel(), WideEntry, 0x1000)
  {
    forall linear: nat | linear < 0x1_0000_0000_0000
      ensures CoherentPath(WideKernel(), WideEntry, 0x1000, linear)
    {
      WidePath(linear);
    }
  }

  lemma WideEntryCoherent(table: nat, i: nat)
    requires table < 0x10_0000_0000_0000 && i < 512
    ensures EntryCoherent(WideKernel(), WideEntry, table, i)
  {
    var k := WideKernel();
    if CanRead(k, table, i) {
      assert Mapped(k, table).value == table && Add64(table, i * 8) == table + 8 * i;
    }
  }

  lemma WidePath(linear: nat)
    ensures CoherentPath(WideKernel(), WideEntry, 0x1000, linear)
  {
    var w := Architectural();
    WideEntryCoherent(0x1000, Pml4Index(linear));
    var e4 := Fetched(WideEntry, w, 0x1000, Pml4Index(linear));
    if e4.Some? {
      TableAddress(e4.value);
      WideEntryCoherent(w.pml4e(e4.value), PdptIndex(linear));
      var e3 := Fetched(WideEntry, w, w.pml4e(e4.value), PdptIndex(linear));
      if e3.Some? {
        WidePd(w.pdpte(e3.value), linear, e3.value);
      }
    }
  }

  lemma WidePd(pd: nat, linear: nat, e3: nat)
    requires pd == Architectural().pdpte(e3)
    ensures CoherentPd(WideKernel(), WideEntry, pd, linear)
  {
    var w := Architectural();
    TableAddress(e3);
    WideEntryCoherent(pd, PdIndex(linear));
    var e2 := Fetched(WideEntry, w, pd, PdIndex(linear));
    if e2.Some? {
      TableAddress(e2.value);
      WideEntryCoherent(w.pde(e2.value), PtIndex(linear));
    }
  }

  /** There the walk scans the page at 0x5000 in place of the one translation gives. */
  lemma WideAddressIsMisread(k: Kernel)
    requires k == WideKernel()
    ensures CoherentTables(k, WideEntry, 0x1000)
    ensures PageOf(k, 0x1000, 0, 0, 0, 0) == Some(0x5000)
    ensures PageAt(k, Translate(WideEntry, Architectural(), 0x1000, 0)) == Some(0x8_0000_0000_5000)
  {
    WideFields();
    WideFieldsRead();
    SmallPath(k);
    WideTranslation();
    WideIsCoherent();
  }
}
