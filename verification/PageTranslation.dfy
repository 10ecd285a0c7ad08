/**
 The page-table walk against 4-level paging as section 4.5 of the Intel SDM, Volume 3A, defines it: the
 declared bit fields, translation through physical memory, and the walk as a whole.
 */
module PageTranslation {
  import opened Wrappers
  import opened PageWalk

  // ----- the declared bit fields against the architecture

  /** A field of `width` values starting at bit value `low`, shifted into place. */
  function Field(e: nat, low: nat, width: nat): nat
    requires low > 0 && width > 0
  {
    e / low % width * low
  }

  /** The bit fields as driver/common.h declares them: 38-bit addresses in PDE and PTE, 29 bits in a 2 MB PDE. */
  function Declared(): Fields {
    Fields(e => e % 2 == 1, e => e / 0x80 % 2 == 1,
           e => Field(e, 0x1000, 0x100_0000_0000), e => Field(e, 0x1000, 0x100_0000_0000),
           e => Field(e, 0x1000, 0x40_0000_0000), e => Field(e, 0x1000, 0x40_0000_0000),
           e => Field(e, 0x4000_0000, 0x40_0000), e => Field(e, 0x20_0000, 0x2000_0000))
  }

  /** The bit fields of section 4.5: every address field extends to bit 51. */
  function Architectural(): Fields {
    Fields(e => e % 2 == 1, e => e / 0x80 % 2 == 1,
           e => Field(e, 0x1000, 0x100_0000_0000), e => Field(e, 0x1000, 0x100_0000_0000),
           e => Field(e, 0x1000, 0x100_0000_0000), e => Field(e, 0x1000, 0x100_0000_0000),
           e => Field(e, 0x4000_0000, 0x40_0000), e => Field(e, 0x20_0000, 0x8000_0000))
  }

  /**
   What these fields are: bit 0 marks a present entry and bit 7 a large page, and an address is the
   entry below bit 52 less the bits below its own page size.
   */
  lemma ArchitecturalBits(e: nat)
    ensures Architectural().present(e) <==> e % 2 != 0
    ensures Architectural().large(e) <==> e % 0x100 >= 0x80
    ensures Architectural().pml4e(e) == e % 0x10_0000_0000_0000 - e % 0x1000
    ensures Architectural().pdpte(e) == e % 0x10_0000_0000_0000 - e % 0x1000
    ensures Architectural().pde(e) == e % 0x10_0000_0000_0000 - e % 0x1000
    ensures Architectural().pte(e) == e % 0x10_0000_0000_0000 - e % 0x1000
    ensures Architectural().page2MB(e) == e % 0x10_0000_0000_0000 - e % 0x20_0000
    ensures Architectural().page1GB(e) == e % 0x10_0000_0000_0000 - e % 0x4000_0000
  {
    SmallFieldBits(e);
    MiddleFieldBits(e);
    LargeFieldBits(e);
    assert e % 0x100 == e / 0x80 % 2 * 0x80 + e % 0x80;
  }

  lemma SmallFieldBits(e: nat)
    ensures Field(e, 0x1000, 0x100_0000_0000) == e % 0x10_0000_0000_0000 - e % 0x1000
  {
    var q := e / 0x1000;
    assert e / 0x10_0000_0000_0000 == q / 0x100_0000_0000;
  }

  lemma MiddleFieldBits(e: nat)
    ensures Field(e, 0x20_0000, 0x8000_0000) == e % 0x10_0000_0000_0000 - e % 0x20_0000
  {
    var q := e / 0x20_0000;
    assert e / 0x10_0000_0000_0000 == q / 0x8000_0000;
  }

  lemma LargeFieldBits(e: nat)
    ensures Field(e, 0x4000_0000, 0x40_0000) == e % 0x10_0000_0000_0000 - e % 0x4000_0000
  {
    var q := e / 0x4000_0000;
    assert e / 0x10_0000_0000_0000 == q / 0x40_0000;
  }

  /** Bits 51:50 are clear. */
  predicate Narrow(e: nat) { e / 0x4_0000_0000_0000 % 4 == 0 }

  /** The declared fields drop bits 51:50, and nothing else. */
  lemma DeclaredFieldsExact(e: nat)
    ensures Declared().pde(e) == Architectural().pde(e) <==> Narrow(e)
    ensures Declared().pte(e) == Architectural().pte(e) <==> Narrow(e)
    ensures Declared().page2MB(e) == Architectural().page2MB(e) <==> Narrow(e)
    ensures Declared().pml4e(e) == Architectural().pml4e(e) && Declared().pdpte(e) == Architectural().pdpte(e)
    ensures Declared().page1GB(e) == Architectural().page1GB(e)
  {
    SplitField(e / 0x1000, 0x40_0000_0000);
    SplitField(e / 0x20_0000, 0x2000_0000);
    assert e / 0x1000 / 0x40_0000_0000 == e / 0x4_0000_0000_0000;
    assert e / 0x20_0000 / 0x2000_0000 == e / 0x4_0000_0000_0000;
  }

  lemma SplitField(x: nat, w: nat)
    requires w == 0x40_0000_0000 || w == 0x2000_0000
    ensures x % (4 * w) == x / w % 4 * w + x % w
  {
  }

  // ----- translation as the architecture defines it

  // The four table indices are bits 47:39, 38:30, 29:21 and 20:12 of a linear address.

  function Pml4Index(linear: nat): nat { linear / 0x80_0000_0000 % 512 }

  function PdptIndex(linear: nat): nat { linear / 0x4000_0000 % 512 }

  function PdIndex(linear: nat): nat { linear / 0x20_0000 % 512 }

  function PtIndex(linear: nat): nat { linear / 0x1000 % 512 }

  /** Where translation takes a linear page: a 4 KB page, or a block of a large page. */
  datatype Frame = Small(base: nat) | InLarge(base: nat, block: nat)

  /** The present entry `i` of the table at physical address `table`. */
  function Fetched(phys: nat -> nat, w: Fields, table: nat, i: nat): Option<nat> {
    var e := phys(table + 8 * i);
    if w.present(e) then Some(e) else None
  }

  /** 4-level translation of a linear address: physical memory is read, and nothing else consulted. */
  function Translate(phys: nat -> nat, w: Fields, pml4: nat, linear: nat): Option<Frame> {
    var e4 := Fetched(phys, w, pml4, Pml4Index(linear));
    if e4.None? then None
    else
      var e3 := Fetched(phys, w, w.pml4e(e4.value), PdptIndex(linear));
      if e3.None? then None
      else if w.large(e3.value) then Some(InLarge(w.page1GB(e3.value), linear / 0x1000 % 0x4_0000))
      else TranslatePd(phys, w, w.pdpte(e3.value), linear)
  }

  function TranslatePd(phys: nat -> nat, w: Fields, pd: nat, linear: nat): Option<Frame> {
    var e2 := Fetched(phys, w, pd, PdIndex(linear));
    if e2.None? then None
    else if w.large(e2.value) then Some(InLarge(w.page2MB(e2.value), linear / 0x1000 % 512))
    else
      var e1 := Fetched(phys, w, w.pde(e2.value), PtIndex(linear));
      if e1.None? then None else Some(Small(w.pte(e1.value)))
  }

  // ----- which entries must be narrow

  /** The present PDE and PTE that translation reads below the page directory `pd`. */
  predicate NarrowPd(phys: nat -> nat, pd: nat, linear: nat) {
    var w := Architectural();
    var e2 := Fetched(phys, w, pd, PdIndex(linear));
    e2.Some? ==>
      && Narrow(e2.value)
      && (!w.large(e2.value) ==>
            var e1 := Fetched(phys, w, w.pde(e2.value), PtIndex(linear));
            e1.Some? ==> Narrow(e1.value))
  }

  /** The present PDE and PTE, if any, on the path of a linear address keep bits 51:50 clear. */
  predicate NarrowPath(phys: nat -> nat, pml4: nat, linear: nat) {
    var w := Architectural();
    var e4 := Fetched(phys, w, pml4, Pml4Index(linear));
    e4.Some? ==>
      var e3 := Fetched(phys, w, w.pml4e(e4.value), PdptIndex(linear));
      e3.Some? && !w.large(e3.value) ==> NarrowPd(phys, w.pdpte(e3.value), linear)
  }

  /** Every path of the 48-bit linear address space. */
  ghost predicate NarrowTables(phys: nat -> nat, pml4: nat) {
    forall linear: nat :: linear < 0x1_0000_0000_0000 ==> NarrowPath(phys, pml4, linear)
  }

  /** The entry that maps the page, a 2 MB PDE or a PTE, is narrow. */
  predicate NarrowLeaf(phys: nat -> nat, pd: nat, linear: nat) {
    var w := Architectural();
    var e2 := Fetched(phys, w, pd, PdIndex(linear));
    e2.Some? ==>
      if w.large(e2.value) then Narrow(e2.value)
      else
        var e1 := Fetched(phys, w, w.pde(e2.value), PtIndex(linear));
        e1.Some? ==> Narrow(e1.value)
  }

  /** The PDE, if it points to a page table, is narrow. */
  predicate NarrowTable(phys: nat -> nat, pd: nat, linear: nat) {
    var e2 := Fetched(phys, Architectural(), pd, PdIndex(linear));
    e2.Some? && !Architectural().large(e2.value) ==> Narrow(e2.value)
  }

  /**
   Read with the declared fields, a page directory gives the architectural frame if and only if the
   entry that maps the page keeps bits 51:50 clear, given that the page table itself is found.
   */
  lemma TranslationsAgreeExactly(phys: nat -> nat, pd: nat, linear: nat)
    requires NarrowTable(phys, pd, linear)
    ensures TranslatePd(phys, Declared(), pd, linear) == TranslatePd(phys, Architectural(), pd, linear) <==>
            NarrowLeaf(phys, pd, linear)
  {
    var e2 := Fetched(phys, Architectural(), pd, PdIndex(linear));
    if e2.Some? {
      DeclaredFieldsExact(e2.value);
      if !Architectural().large(e2.value) {
        var e1 := Fetched(phys, Architectural(), Architectural().pde(e2.value), PtIndex(linear));
        if e1.Some? {
          DeclaredFieldsExact(e1.value);
        }
      }
    }
  }

  /** Above the page directory the two readings never differ: 1 GB pages and directories are the same. */
  lemma TranslationsAgreeAbove(phys: nat -> nat, pml4: nat, linear: nat)
    ensures var w := Architectural();
            var e4 := Fetched(phys, w, pml4, Pml4Index(linear));
            var e3 := if e4.None? then None else Fetched(phys, w, w.pml4e(e4.value), PdptIndex(linear));
            if e3.None? || w.large(e3.value)
            then Translate(phys, Declared(), pml4, linear) == Translate(phys, w, pml4, linear)
            else
              && Translate(phys, Declared(), pml4, linear) == TranslatePd(phys, Declared(), w.pdpte(e3.value), linear)
              && Translate(phys, w, pml4, linear) == TranslatePd(phys, w, w.pdpte(e3.value), linear)
  {
    var w := Architectural();
    var e4 := Fetched(phys, w, pml4, Pml4Index(linear));
    if e4.Some? {
      DeclaredFieldsExact(e4.value);
      var e3 := Fetched(phys, w, w.pml4e(e4.value), PdptIndex(linear));
      if e3.Some? {
        DeclaredFieldsExact(e3.value);
      }
    }
  }

  // ----- the kernel's view of physical memory

  /** The kernel has the table at physical address `table` mapped, and entry `i` of it can be read. */
  predicate CanRead(k: Kernel, table: nat, i: nat) {
    Mapped(k, table).Some? && k.valid(Add64(Mapped(k, table).value, i * 8))
  }

  /** If the kernel can read the entry, it reads what the table holds in physical memory. */
  predicate EntryCoherent(k: Kernel, phys: nat -> nat, table: nat, i: nat) {
    CanRead(k, table, i) ==> k.read(Add64(Mapped(k, table).value, i * 8)) == phys(table + 8 * i)
  }

  /** The entries that translation reads below the page directory `pd`. */
  predicate CoherentPd(k: Kernel, phys: nat -> nat, pd: nat, linear: nat) {
    var w := Architectural();
    && EntryCoherent(k, phys, pd, PdIndex(linear))
    && var e2 := Fetched(phys, w, pd, PdIndex(linear));
       CanRead(k, pd, PdIndex(linear)) && e2.Some? && !w.large(e2.value) ==>
         EntryCoherent(k, phys, w.pde(e2.value), PtIndex(linear))
  }

  predicate CoherentPdpt(k: Kernel, phys: nat -> nat, pdpt: nat, linear: nat) {
    var w := Architectural();
    && EntryCoherent(k, phys, pdpt, PdptIndex(linear))
    && var e3 := Fetched(phys, w, pdpt, PdptIndex(linear));
       CanRead(k, pdpt, PdptIndex(linear)) && e3.Some? && !w.large(e3.value) ==>
         CoherentPd(k, phys, w.pdpte(e3.value), linear)
  }

  /** The entries on the path of a linear address, as far as the kernel can follow it; the page itself is not among them. */
  predicate CoherentPath(k: Kernel, phys: nat -> nat, pml4: nat, linear: nat) {
    var w := Architectural();
    && EntryCoherent(k, phys, pml4, Pml4Index(linear))
    && var e4 := Fetched(phys, w, pml4, Pml4Index(linear));
       CanRead(k, pml4, Pml4Index(linear)) && e4.Some? ==> CoherentPdpt(k, phys, w.pml4e(e4.value), linear)
  }

  /** Every path of the 48-bit linear address space. */
  ghost predicate CoherentTables(k: Kernel, phys: nat -> nat, pml4: nat) {
    forall linear: nat :: linear < 0x1_0000_0000_0000 ==> CoherentPath(k, phys, pml4, linear)
  }

  /** Every table entry that translation reads below the page directory `pd` can be read by the kernel. */
  predicate ReadablePd(k: Kernel, phys: nat -> nat, pd: nat, linear: nat) {
    var w := Architectural();
    && CanRead(k, pd, PdIndex(linear))
    && var e2 := Fetched(phys, w, pd, PdIndex(linear));
       e2.Some? && !w.large(e2.value) ==> CanRead(k, w.pde(e2.value), PtIndex(linear))
  }

  predicate ReadablePath(k: Kernel, phys: nat -> nat, pml4: nat, linear: nat) {
    var w := Architectural();
    && CanRead(k, pml4, Pml4Index(linear))
    && var e4 := Fetched(phys, w, pml4, Pml4Index(linear));
       e4.Some? ==>
         && CanRead(k, w.pml4e(e4.value), PdptIndex(linear))
         && var e3 := Fetched(phys, w, w.pml4e(e4.value), PdptIndex(linear));
            e3.Some? && !w.large(e3.value) ==> ReadablePd(k, phys, w.pdpte(e3.value), linear)
  }

  /** The virtual page of a frame whose leaf lies in a listed range and can be mapped. */
  function PageAt(k: Kernel, frame: Option<Frame>): Option<nat> {
    if frame.None? then None
    else if frame.value.Small? then Leaf(k, frame.value.base)
    else Block(Leaf(k, frame.value.base), frame.value.block)
  }

  /** The page translation gives a linear address, if the kernel can follow the path. */
  function TranslatedPage(k: Kernel, phys: nat -> nat, pml4: nat, linear: nat): Option<nat> {
    if ReadablePath(k, phys, pml4, linear) then PageAt(k, Translate(phys, Architectural(), pml4, linear)) else None
  }

  /** An entry the kernel can read is the entry in physical memory. */
  lemma EntryIsFetched(k: Kernel, phys: nat -> nat, table: nat, i: nat)
    requires k.fields == Declared() && EntryCoherent(k, phys, table, i) && Mapped(k, table).Some?
    ensures Entry(k, Mapped(k, table).value, i) ==
            if CanRead(k, table, i) then Fetched(phys, Architectural(), table, i) else None
  {
  }

  lemma PdPageIsTranslated(k: Kernel, phys: nat -> nat, pd: nat, linear: nat)
    requires k.fields == Declared() && CoherentPd(k, phys, pd, linear) && NarrowPd(phys, pd, linear) && Mapped(k, pd).Some?
    ensures PdPage(k, Mapped(k, pd).value, PdIndex(linear), PtIndex(linear)) ==
            if ReadablePd(k, phys, pd, linear) then PageAt(k, TranslatePd(phys, Architectural(), pd, linear)) else None
  {
    EntryIsFetched(k, phys, pd, PdIndex(linear));
    var e2 := Fetched(phys, Architectural(), pd, PdIndex(linear));
    if CanRead(k, pd, PdIndex(linear)) && e2.Some? {
      DeclaredFieldsExact(e2.value);
      var pt := Architectural().pde(e2.value);
      if !Architectural().large(e2.value) && Mapped(k, pt).Some? {
        EntryIsFetched(k, phys, pt, PtIndex(linear));
        var e1 := Fetched(phys, Architectural(), pt, PtIndex(linear));
        if e1.Some? {
          DeclaredFieldsExact(e1.value);
        }
      }
    }
  }

  lemma BlockIndex(linear: nat)
    ensures linear / 0x1000 % 0x4_0000 == PdIndex(linear) * 512 + PtIndex(linear)
  {
    var q := linear / 0x1000;
    assert linear / 0x20_0000 == q / 512;
    assert q % 0x4_0000 == q / 512 % 512 * 512 + q % 512;
  }

  lemma PdptPageIsTranslated(k: Kernel, phys: nat -> nat, pdpt: nat, linear: nat)
    requires k.fields == Declared() && CoherentPdpt(k, phys, pdpt, linear) && Mapped(k, pdpt).Some?
    requires var e3 := Fetched(phys, Architectural(), pdpt, PdptIndex(linear));
             e3.Some? && !Architectural().large(e3.value) ==> NarrowPd(phys, Architectural().pdpte(e3.value), linear)
    ensures var w := Architectural();
            var page := PdptPage(k, Mapped(k, pdpt).value, PdptIndex(linear), PdIndex(linear), PtIndex(linear));
            var e3 := Fetched(phys, w, pdpt, PdptIndex(linear));
            page == if !CanRead(k, pdpt, PdptIndex(linear)) || e3.None? then None
                    else if w.large(e3.value) then PageAt(k, Some(InLarge(w.page1GB(e3.value), linear / 0x1000 % 0x4_0000)))
                    else if ReadablePd(k, phys, w.pdpte(e3.value), linear)
                    then PageAt(k, TranslatePd(phys, w, w.pdpte(e3.value), linear))
                    else None
  {
    EntryIsFetched(k, phys, pdpt, PdptIndex(linear));
    BlockIndex(linear);
    var e3 := Fetched(phys, Architectural(), pdpt, PdptIndex(linear));
    if CanRead(k, pdpt, PdptIndex(linear)) && e3.Some? {
      DeclaredFieldsExact(e3.value);
      var pd := Architectural().pdpte(e3.value);
      if !Architectural().large(e3.value) && Mapped(k, pd).Some? {
        PdPageIsTranslated(k, phys, pd, linear);
      }
    }
  }

  /** The page the walk scans for a linear address is the one translation gives. */
  lemma PageIsTranslated(k: Kernel, phys: nat -> nat, pml4: nat, linear: nat)
    requires k.fields == Declared() && CoherentPath(k, phys, pml4, linear) && NarrowPath(phys, pml4, linear)
    requires Mapped(k, pml4).Some?
    ensures PageOf(k, Mapped(k, pml4).value, Pml4Index(linear), PdptIndex(linear), PdIndex(linear), PtIndex(linear)) ==
            TranslatedPage(k, phys, pml4, linear)
  {
    EntryIsFetched(k, phys, pml4, Pml4Index(linear));
    var e4 := Fetched(phys, Architectural(), pml4, Pml4Index(linear));
    if CanRead(k, pml4, Pml4Index(linear)) && e4.Some? {
      DeclaredFieldsExact(e4.value);
      var pdpt := Architectural().pml4e(e4.value);
      if Mapped(k, pdpt).Some? {
        PdptPageIsTranslated(k, phys, pdpt, linear);
      }
    }
  }

  /**
   A page is scanned for a linear address if and only if translation yields a frame, the kernel can read
   every entry on the path, and the leaf lies in a listed range and is mapped; the page is then the leaf's mapping,
   or the block of it that the address selects.
   */
  lemma ScannedExactly(k: Kernel, phys: nat -> nat, pml4: nat, linear: nat, p: nat)
    requires k.fields == Declared() && CoherentPath(k, phys, pml4, linear) && NarrowPath(phys, pml4, linear)
    requires Mapped(k, pml4).Some?
    ensures var frame := Translate(phys, Architectural(), pml4, linear);
            PageOf(k, Mapped(k, pml4).value, Pml4Index(linear), PdptIndex(linear), PdIndex(linear), PtIndex(linear)) == Some(p) <==>
              && frame.Some? && ReadablePath(k, phys, pml4, linear)
              && InListedRange(k.ranges, frame.value.base)
              && k.virt(frame.value.base) != 0 && k.valid(k.virt(frame.value.base))
              && p == if frame.value.Small? then k.virt(frame.value.base)
                      else Add64(k.virt(frame.value.base), frame.value.block * 0x1000)
  {
    PageIsTranslated(k, phys, pml4, linear);
    var frame := Translate(phys, Architectural(), pml4, linear);
    if frame.Some? {
      InRangeMeansListed(k.ranges, frame.value.base);
    }
  }

  /** The address lies in a range listed before the first empty one. */
  ghost predicate InListedRange(ranges: seq<Range>, pa: nat) {
    exists i :: 0 <= i < |ranges| && Covers(ranges[i], pa) && forall j :: 0 <= j <= i ==> ranges[j].bytes != 0
  }

  /** A range runs from its start to its start plus its size, both included and the sum taken modulo 2^64. */
  lemma CoversExactly(r: Range, pa: nat)
    ensures Covers(r, pa) <==> r.start <= pa && pa <= (r.start + r.bytes) % 0x1_0000_0000_0000_0000
  {
  }

  /** An entry of a table can be read: the table is mapped at a valid address, and so is the entry in it. */
  lemma CanReadExactly(k: Kernel, table: nat, i: nat)
    ensures CanRead(k, table, i) <==>
            && k.virt(table) != 0 && k.valid(k.virt(table))
            && k.valid((k.virt(table) + i * 8) % 0x1_0000_0000_0000_0000)
  {
  }

  // ----- the whole walk

  /** The linear address of the page with the four given table indices. */
  function LinearOf(i4: nat, i3: nat, i2: nat, i1: nat): nat {
    i4 * 0x80_0000_0000 + i3 * 0x4000_0000 + i2 * 0x20_0000 + i1 * 0x1000
  }

  lemma LowIndex(high: nat, i: nat)
    requires i < 512
    ensures (high * 512 + i) / 512 == high && (high * 512 + i) % 512 == i
  {
  }

  lemma IndicesOfLinear(i4: nat, i3: nat, i2: nat, i1: nat)
    requires i4 < 512 && i3 < 512 && i2 < 512 && i1 < 512
    ensures var linear := LinearOf(i4, i3, i2, i1);
            && linear < 0x1_0000_0000_0000
            && Pml4Index(linear) == i4 && PdptIndex(linear) == i3 && PdIndex(linear) == i2 && PtIndex(linear) == i1
  {
    var linear := LinearOf(i4, i3, i2, i1);
    var q3 := i4 * 512 + i3;
    var q2 := q3 * 512 + i2;
    var q1 := q2 * 512 + i1;
    assert linear == q1 * 0x1000;
    assert linear / 0x1000 == q1;
    LowIndex(q2, i1);
    assert linear / 0x20_0000 == q1 / 512;
    LowIndex(q3, i2);
    assert linear / 0x4000_0000 == q2 / 512;
    LowIndex(i4, i3);
    assert linear / 0x80_0000_0000 == q3 / 512;
  }

  /** The pages of all linear pages, as translation gives them. */
  ghost function TranslatedPages(k: Kernel, phys: nat -> nat, pml4: nat): Pages {
    (i4: nat, i3: nat, i2: nat, i1: nat) => TranslatedPage(k, phys, pml4, LinearOf(i4, i3, i2, i1))
  }

  /** Equal for all table indices. */
  ghost predicate Same(f: Pages, g: Pages) {
    forall i4: nat, i3: nat, i2: nat, i1: nat :: i4 < 512 && i3 < 512 && i2 < 512 && i1 < 512 ==>
      f(i4, i3, i2, i1) == g(i4, i3, i2, i1)
  }

  lemma {:induction false} SameUnderPde(f: Pages, g: Pages, i4: nat, i3: nat, i2: nat, n: nat)
    requires Same(f, g) && i4 < 512 && i3 < 512 && i2 < 512 && n <= 512
    ensures UnderPde(f, i4, i3, i2, n) == UnderPde(g, i4, i3, i2, n)
  {
    if n > 0 {
      SameUnderPde(f, g, i4, i3, i2, n - 1);
    }
  }

  lemma {:induction false} SameUnderPdpte(f: Pages, g: Pages, i4: nat, i3: nat, n: nat)
    requires Same(f, g) && i4 < 512 && i3 < 512 && n <= 512
    ensures UnderPdpte(f, i4, i3, n) == UnderPdpte(g, i4, i3, n)
  {
    if n > 0 {
      SameUnderPdpte(f, g, i4, i3, n - 1);
      SameUnderPde(f, g, i4, i3, n - 1, 512);
    }
  }

  lemma {:induction false} SameUnderPml4e(f: Pages, g: Pages, i4: nat, n: nat)
    requires Same(f, g) && i4 < 512 && n <= 512
    ensures UnderPml4e(f, i4, n) == UnderPml4e(g, i4, n)
  {
    if n > 0 {
      SameUnderPml4e(f, g, i4, n - 1);
      SameUnderPdpte(f, g, i4, n - 1, 512);
    }
  }

  lemma {:induction false} SameInOrder(f: Pages, g: Pages, n: nat)
    requires Same(f, g) && n <= 512
    ensures InOrder(f, n) == InOrder(g, n)
  {
    if n > 0 {
      SameInOrder(f, g, n - 1);
      SameUnderPml4e(f, g, n - 1, 512);
    }
  }

  /** The PML4 table by the architecture: bits 51:12 of CR3. */
  function Pml4Base(cr3: nat): nat { cr3 / 0x1000 % 0x100_0000_0000 * 0x1000 }

  /** CR3 fits the driver's field, which ends at bit 47. */
  predicate NarrowCr3(cr3: nat) { cr3 / 0x1_0000_0000_0000 % 16 == 0 }

  lemma Cr3FieldExact(cr3: nat)
    ensures cr3 / 0x1000 % 0x10_0000_0000 * 0x1000 == Pml4Base(cr3) <==> NarrowCr3(cr3)
  {
    var x := cr3 / 0x1000;
    assert x % 0x100_0000_0000 == x / 0x10_0000_0000 % 16 * 0x10_0000_0000 + x % 0x10_0000_0000;
    assert cr3 / 0x1_0000_0000_0000 == x / 0x10_0000_0000;
  }

  lemma PagesAreTranslated(k: Kernel, phys: nat -> nat, pml4: nat)
    requires k.fields == Declared() && CoherentTables(k, phys, pml4) && NarrowTables(phys, pml4) && Mapped(k, pml4).Some?
    ensures Same(WalkedPages(k, Mapped(k, pml4).value), TranslatedPages(k, phys, pml4))
  {
    var f, g := WalkedPages(k, Mapped(k, pml4).value), TranslatedPages(k, phys, pml4);
    forall i4: nat, i3: nat, i2: nat, i1: nat | i4 < 512 && i3 < 512 && i2 < 512 && i1 < 512
      ensures f(i4, i3, i2, i1) == g(i4, i3, i2, i1)
    {
      IndicesOfLinear(i4, i3, i2, i1);
      PageIsTranslated(k, phys, pml4, LinearOf(i4, i3, i2, i1));
    }
  }

  /** The pages of architectural translation under the first `n` PML4 entries. */
  ghost function TranslatedScan(k: Kernel, phys: nat -> nat, pml4: nat, n: nat): seq<nat> {
    if Mapped(k, pml4).None? then [] else InOrder(TranslatedPages(k, phys, pml4), n)
  }

  lemma ScanIsTranslated(k: Kernel, phys: nat -> nat, pml4: nat, n: nat)
    requires k.fields == Declared() && CoherentTables(k, phys, pml4) && NarrowTables(phys, pml4) && n <= 512
    ensures AllPages(k, Mapped(k, pml4), n) == TranslatedScan(k, phys, pml4, n)
  {
    if Mapped(k, pml4).Some? {
      PagesAreTranslated(k, phys, pml4);
      SameInOrder(WalkedPages(k, Mapped(k, pml4).value), TranslatedPages(k, phys, pml4), n);
    }
  }

  /** CR3 and the PDEs and PTEs on the paths fit the declared fields, and the kernel reads the table entries that are there. */
  ghost predicate Faithful(k: Kernel, phys: nat -> nat, cr3: nat) {
    && k.fields == Declared() && NarrowCr3(cr3)
    && CoherentTables(k, phys, Pml4Base(cr3)) && NarrowTables(phys, Pml4Base(cr3))
  }

  /**
   The pages of WalkKernelPageTables are those of architectural translation, in ascending linear order
   and with multiplicity.
   */
  lemma WalkMatchesArchitecture(k: Kernel, phys: nat -> nat, cr3: nat, n: nat)
    requires Faithful(k, phys, cr3) && n <= 512
    ensures AllPages(k, Pml4Of(k, cr3), n) == TranslatedScan(k, phys, Pml4Base(cr3), n)
  {
    Cr3FieldExact(cr3);
    ScanIsTranslated(k, phys, Pml4Base(cr3), n);
  }

  /**
   WalkKernelPageTables: the pages scanned are those of the pass over all 512^4 linear pages in
   ascending order, each translated on its own by its four table indices.  So every page reached
   through present entries is scanned once per linear page, large pages are tiled by 4 KB blocks
   without gap or overlap, and nothing else is scanned; nothing at all if the memory ranges are unknown.
   */
  method WalkKernelPageTables(k: Kernel, cr3: nat, rangesKnown: bool, ghost phys: nat -> nat) returns (scanned: seq<nat>)
    requires rangesKnown ==> Terminated(k.ranges)
    ensures scanned == if rangesKnown then AllPages(k, Pml4Of(k, cr3), 512) else []
    ensures rangesKnown && Faithful(k, phys, cr3) ==> scanned == TranslatedScan(k, phys, Pml4Base(cr3), 512)
  {
    if !rangesKnown {
      return [];
    }
    scanned := WalkFromCr3(k, cr3);
    if Faithful(k, phys, cr3) {
      WalkMatchesArchitecture(k, phys, cr3, 512);
    }
  }
}
