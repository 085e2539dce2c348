/**
 The kernel page tables of the boot image: how they are built, and what the processor
 finds when it walks them. A table is read as 64-bit entries.
 */
module PageTables {
  import opened Bits
  import opened Collections
  import opened Pages

  // ---- entries ----

  datatype PteType = SelfMap | Pxe | RwLarge | RwData | RoData | Executable

  function Flags(pteType: PteType): nat
  {
    match pteType
    case SelfMap => 0x80000000_00000063
    case Pxe => 0x063
    case RwLarge => 0x80000000_000001e3
    case RwData => 0x80000000_00000163
    case RoData => 0x80000000_00000121
    case Executable => 0x121
  }

  function Pte(paddr: nat, pteType: PteType): nat
  {
    Or(paddr, Flags(pteType))
  }

  /** A page address the processor can form: page-aligned and at most 52 bits. */
  ghost predicate PageAddress(paddr: nat)
  {
    paddr % 0x1000 == 0 && paddr < 0x10_0000_0000_0000
  }

  // What the processor reads out of an entry.

  ghost predicate Present(entry: nat)
  {
    entry % 2 == 1
  }

  ghost predicate Writable(entry: nat)
  {
    (entry / 2) % 2 == 1
  }

  ghost predicate LargePage(entry: nat)
  {
    (entry / 0x80) % 2 == 1
  }

  ghost predicate NoExecute(entry: nat)
  {
    (entry / 0x8000_0000_0000_0000) % 2 == 1
  }

  ghost function AddressIn(entry: nat): nat
  {
    entry % 0x10_0000_0000_0000 - entry % 0x1000
  }

  lemma FlagsSplit(pteType: PteType)
    ensures var low := Flags(pteType) % 0x8000_0000_0000_0000;
      && low < 0x1000
      && Flags(pteType) in {low, 0x8000_0000_0000_0000 + low}
  {
  }

  lemma FlagBits(low: nat, k: nat)
    requires low < 0x1000
    ensures Bit(low, k) ==> k < 12
    ensures Bit(0x8000_0000_0000_0000 + low, k) ==> k < 12 || k == 63
  {
    WordSizes();
    if k >= 12 {
      BitHigh(low, 12, k);
    }
    assert Pow2(63) == 0x8000_0000_0000_0000 by {
      assert Pow2(64) == 2 * Pow2(63);
    }
    Pow2Monotone(12, 63);
    AlignedAndLow(Pow2(63), low, 63);
    OrIsAdd(Pow2(63), low);
    BitOr(Pow2(63), low, k);
    BitPow2(63, k);
  }

  lemma AddressBits(paddr: nat, k: nat)
    requires PageAddress(paddr) && Bit(paddr, k)
    ensures 12 <= k < 52
  {
    WordSizes();
    assert paddr < Pow2(52) by {
      Pow2Product(32, 20);
      Pow2Product(12, 8);
      assert Pow2(8) == 256;
    }
    if k >= 52 {
      BitHigh(paddr, 52, k);
    }
    if k < 12 {
      LowBitsClear(paddr, k);
    }
  }

  lemma LowBitsClear(paddr: nat, k: nat)
    requires paddr % 0x1000 == 0 && k < 12
    ensures !Bit(paddr, k)
  {
    WordSizes();
    MaskIsMod(paddr, 12);
    BitAnd(paddr, 0xFFF, k);
    BitOfZero(k);
    LowBitsSet(12, k);
  }

  lemma NoCommonBit(paddr: nat, pteType: PteType)
    requires PageAddress(paddr)
    ensures And(paddr, Flags(pteType)) == 0
  {
    var common := And(paddr, Flags(pteType));
    if common != 0 {
      AndLe(paddr, Flags(pteType));
      WordSizes();
      LowestBitIsLowest(common, 64);
      var k := LowestBit(common);
      BitAnd(paddr, Flags(pteType), k);
      AddressBits(paddr, k);
      FlagsSplit(pteType);
      FlagBits(Flags(pteType) % 0x8000_0000_0000_0000, k);
      assert false;
    }
  }

  /** The processor reads `entry` as present, leading to `paddr`, with the rights of `pteType`. */
  ghost predicate ReadAs(entry: nat, paddr: nat, pteType: PteType, seal: Seal)
  {
    && Present(entry)
    && AddressIn(entry) == paddr
    && (Writable(entry) <==> pteType in {SelfMap, Pxe, RwLarge, RwData})
    && (NoExecute(entry) <==> pteType !in {Pxe, Executable})
    && (LargePage(entry) <==> pteType.RwLarge?)
  }

  ghost predicate Grants(entry: nat, paddr: nat, pteType: PteType)
  {
    forall seal: Seal :: ReadAs(entry, paddr, pteType, seal)
  }

  lemma LowBits(q: nat, low: nat)
    requires low < 0x1000
    ensures var entry := 0x1000 * q + low;
      entry % 0x1000 == low && entry % 2 == low % 2
      && (entry / 2) % 2 == (low / 2) % 2 && (entry / 0x80) % 2 == (low / 0x80) % 2
  {
    assert (0x1000 * q + low) / 2 == 0x800 * q + low / 2;
    assert (0x1000 * q + low) / 0x80 == 0x20 * q + low / 0x80;
  }

  lemma HighBits(page: nat, low: nat, nx: nat)
    requires low < 0x1000 && page < 0x100_0000_0000 && nx < 2
    ensures var entry := 0x1000 * page + low + 0x8000_0000_0000_0000 * nx;
      entry % 0x10_0000_0000_0000 == 0x1000 * page + low && entry / 0x8000_0000_0000_0000 == nx
  {
  }

  lemma SumDecodes(paddr: nat, pteType: PteType, entry: nat)
    requires PageAddress(paddr) && entry == paddr + Flags(pteType)
    ensures ReadAs(entry, paddr, pteType, Seal)
  {
    var page := paddr / 0x1000;
    var low := Flags(pteType) % 0x8000_0000_0000_0000;
    var nx := Flags(pteType) / 0x8000_0000_0000_0000;
    HighBits(page, low, nx);
    LowBits(page + 0x8_0000_0000_0000 * nx, low);
  }

  /** An entry gives back the address and the rights it was made from. */
  lemma PteDecodes(paddr: nat, pteType: PteType)
    requires PageAddress(paddr)
    ensures Grants(Pte(paddr, pteType), paddr, pteType)
  {
    var entry := Pte(paddr, pteType);
    NoCommonBit(paddr, pteType);
    OrIsAdd(paddr, Flags(pteType));
    SumDecodes(paddr, pteType, entry);
    forall seal: Seal ensures ReadAs(entry, paddr, pteType, seal) {
      assert seal == Seal;
    }
  }

  // ---- walking ----

  /** A virtual address as the processor splits it: an index for each of the four levels, and an offset. */
  datatype Virtual = Virtual(root: nat, pointer: nat, directory: nat, leaf: nat, offset: nat)
  {
    ghost predicate Valid()
    {
      root < 512 && pointer < 512 && directory < 512 && leaf < 512 && offset < 0x1000
    }

    /** The offset into a 2 MB page. */
    ghost function LargeOffset(): nat
    {
      0x1000 * leaf + offset
    }
  }

  /** Nine bits of index for each level, from bit 39 down, and twelve bits of offset. */
  function Split(vaddr: nat): Virtual
  {
    Virtual(vaddr / 0x80_0000_0000 % 512, vaddr / 0x4000_0000 % 512, vaddr / 0x200000 % 512,
            vaddr / 0x1000 % 512, vaddr % 0x1000)
  }

  ghost predicate SplitsTo(vaddr: nat, v: Virtual, seal: Seal)
  {
    v == Split(vaddr)
  }

  /** `v` is how the processor splits `vaddr`. */
  ghost predicate Splits(vaddr: nat, v: Virtual)
  {
    forall seal: Seal :: SplitsTo(vaddr, v, seal)
  }

  lemma SplitSplits(vaddr: nat, v: Virtual)
    requires v == Split(vaddr)
    ensures Splits(vaddr, v) && v.Valid()
  {
  }

  /** An address is its 2 MB page, its leaf index and its offset. */
  lemma Parts(vaddr: nat, v: Virtual)
    requires Splits(vaddr, v)
    ensures v.Valid()
    ensures vaddr == 0x200000 * LargeNumber(vaddr) + v.LargeOffset()
    ensures PageNumber(vaddr) == 512 * LargeNumber(vaddr) + v.leaf
  {
    assert SplitsTo(vaddr, v, Seal);
    PageDivision(vaddr);
    var page := vaddr / 0x1000;
    assert page / 512 == vaddr / 0x200000;
  }

  /** `d` directory slots further under the same upper entries. */
  lemma SameTable(a: nat, v: Virtual, b: nat, w: Virtual, d: nat)
    requires Splits(a, v) && Splits(b, w)
    requires LargeNumber(b) == LargeNumber(a) + d && v.directory + d < 512
    ensures w.directory == v.directory + d && w.root == v.root && w.pointer == v.pointer
  {
    assert SplitsTo(a, v, Seal) && SplitsTo(b, w, Seal);
    PageDivision(a);
    PageDivision(b);
    var p, q := a / 0x200000, b / 0x200000;
    assert q == 512 * (p / 512) + (p % 512 + d);
    assert q / 512 == p / 512;
    assert p / 512 == a / 0x4000_0000 && q / 512 == b / 0x4000_0000;
    assert a / 0x4000_0000 / 512 == a / 0x80_0000_0000 && b / 0x4000_0000 / 512 == b / 0x80_0000_0000;
  }

  /** The emitted tables: root, PDPT and page directory in consecutive pages, then the leaf entries. */
  datatype Tables = Tables(root: nat, pml4: seq<nat>, pdpt: seq<nat>, pd: seq<nat>, ptes: seq<nat>)

  ghost predicate TablesShape(t: Tables)
  {
    && |t.pml4| == 512 && |t.pdpt| == 512 && |t.pd| == 512
    && t.root % 0x1000 == 0
    && t.root + 0x3000 + 0x1000 * RoundToPages(8 * |t.ptes|) <= 0x10_0000_0000_0000
  }

  /** The entry at a physical address. The last leaf page is zero behind the leaf entries. */
  ghost function EntryAt(t: Tables, paddr: nat): Option<nat>
    requires TablesShape(t)
  {
    if paddr < t.root then None
    else if paddr < t.root + 0x1000 then Some(t.pml4[(paddr - t.root) / 8])
    else if paddr < t.root + 0x2000 then Some(t.pdpt[(paddr - t.root - 0x1000) / 8])
    else if paddr < t.root + 0x3000 then Some(t.pd[(paddr - t.root - 0x2000) / 8])
    else if paddr < t.root + 0x3000 + 0x1000 * RoundToPages(8 * |t.ptes|) then
      var i := (paddr - t.root - 0x3000) / 8;
      Some(if i < |t.ptes| then t.ptes[i] else 0)
    else None
  }

  /** What an access may do besides reading. */
  datatype Rights = Rights(writable: bool, executable: bool)

  ghost function RightsIn(entry: nat): Rights
  {
    Rights(Writable(entry), !NoExecute(entry))
  }

  /** What each kind of entry is meant to allow. */
  function RightsOf(pteType: PteType): Rights
  {
    match pteType
    case SelfMap => Rights(true, false)
    case Pxe => Rights(true, true)
    case RwLarge => Rights(true, false)
    case RwData => Rights(true, false)
    case RoData => Rights(false, false)
    case Executable => Rights(false, true)
  }

  /** Where an address leads, and with which rights: those that every entry on the way allows. */
  datatype Translation = Translation(paddr: nat, rights: Rights)

  /** An entry above the last one can only take rights away. */
  ghost function Under(entry: nat, r: Option<Translation>): Option<Translation>
  {
    match r
    case None => None
    case Some(Translation(paddr, Rights(w, x))) =>
      Some(Translation(paddr, Rights(w && Writable(entry), x && !NoExecute(entry))))
  }

  lemma FullRights(entry: nat, paddr: nat, r: Option<Translation>)
    requires Grants(entry, paddr, Pxe)
    ensures Under(entry, r) == r
  {
    assert ReadAs(entry, paddr, Pxe, Seal);
  }

  ghost function LeafWalk(t: Tables, table: nat, v: Virtual, seal: Seal): Option<Translation>
    requires TablesShape(t)
  {
    match EntryAt(t, table + 8 * v.leaf)
    case Some(e) => if Present(e) then Some(Translation(AddressIn(e) + v.offset, RightsIn(e))) else None
    case None => None
  }

  ghost function DirectoryWalk(t: Tables, table: nat, v: Virtual, seal: Seal): Option<Translation>
    requires TablesShape(t)
  {
    match EntryAt(t, table + 8 * v.directory)
    case Some(e) =>
      if !Present(e) then None
      else if LargePage(e) then Some(Translation(AddressIn(e) + v.LargeOffset(), RightsIn(e)))
      else Under(e, LeafWalk(t, AddressIn(e), v, seal))
    case None => None
  }

  ghost function PointerWalk(t: Tables, table: nat, v: Virtual, seal: Seal): Option<Translation>
    requires TablesShape(t)
  {
    match EntryAt(t, table + 8 * v.pointer)
    case Some(e) => if Present(e) then Under(e, DirectoryWalk(t, AddressIn(e), v, seal)) else None
    case None => None
  }

  ghost function RootWalk(t: Tables, v: Virtual, seal: Seal): Option<Translation>
    requires TablesShape(t)
  {
    match EntryAt(t, t.root + 8 * v.root)
    case Some(e) => if Present(e) then Under(e, PointerWalk(t, AddressIn(e), v, seal)) else None
    case None => None
  }

  /** The processor's four-level walk for `v` ends in `r`, `None` being a page fault. */
  ghost predicate Walks(t: Tables, v: Virtual, r: Option<Translation>)
    requires TablesShape(t)
  {
    forall seal: Seal :: RootWalk(t, v, seal) == r
  }

  ghost predicate WalksFromPointers(t: Tables, table: nat, v: Virtual, r: Option<Translation>)
    requires TablesShape(t)
  {
    forall seal: Seal :: PointerWalk(t, table, v, seal) == r
  }

  ghost predicate WalksFromDirectory(t: Tables, table: nat, v: Virtual, r: Option<Translation>)
    requires TablesShape(t)
  {
    forall seal: Seal :: DirectoryWalk(t, table, v, seal) == r
  }

  ghost predicate WalksFromLeaf(t: Tables, table: nat, v: Virtual, r: Option<Translation>)
    requires TablesShape(t)
  {
    forall seal: Seal :: LeafWalk(t, table, v, seal) == r
  }

  // ---- the layout ----

  /** The kernel span and the direct map, and where they fall in the tables. */
  datatype Layout = Layout(
    virtBase: nat,
    directMap: nat,
    regionStart: nat,
    base: Virtual,
    pteCount: nat,
    pdeCount: nat,
    largePageCount: nat)
  {
    ghost predicate Derived(seal: Seal)
    {
      && virtBase <= directMap && IsLargeAligned(directMap) && IsLargeAligned(regionStart)
      && Splits(virtBase, base)
      && pteCount == RoundToPages(directMap - virtBase)
      && pdeCount == RoundToPages(8 * (base.leaf + pteCount))
    }

    function EndPte(): nat
    {
      base.leaf + pteCount
    }

    function EndPde(): nat
    {
      base.directory + pdeCount + largePageCount
    }

    /** The numbers are the builder's, and the span fits in one gigabyte and in physical memory. */
    ghost predicate Valid()
    {
      && (forall seal: Seal :: Derived(seal))
      && base.Valid()
      && EndPde() <= 512
      && EndPte() <= 512 * pdeCount
      && regionStart + 0x200000 * largePageCount <= 0x10_0000_0000_0000
    }
  }

  /** The layout the builder computes. */
  function LayoutFor(virtBase: nat, directMap: nat, regionStart: nat, regionLength: nat): Layout
    requires virtBase <= directMap
  {
    var base := Split(virtBase);
    var pteCount := RoundToPages(directMap - virtBase);
    Layout(virtBase, directMap, regionStart, base, pteCount, RoundToPages(8 * (base.leaf + pteCount)),
           RoundToLargePages(regionLength))
  }

  ghost predicate LaidOutAs(l: Layout, virtBase: nat, directMap: nat, regionStart: nat, regionLength: nat, seal: Seal)
  {
    virtBase <= directMap && l == LayoutFor(virtBase, directMap, regionStart, regionLength)
  }

  ghost predicate LaidOut(l: Layout, virtBase: nat, directMap: nat, regionStart: nat, regionLength: nat)
  {
    forall seal: Seal :: LaidOutAs(l, virtBase, directMap, regionStart, regionLength, seal)
  }

  lemma LayoutExists(virtBase: nat, directMap: nat, regionStart: nat, regionLength: nat, l: Layout)
    requires virtBase <= directMap && l == LayoutFor(virtBase, directMap, regionStart, regionLength)
    ensures LaidOut(l, virtBase, directMap, regionStart, regionLength)
  {
  }

  lemma LayoutUnique(l: Layout, m: Layout, virtBase: nat, directMap: nat, regionStart: nat, regionLength: nat)
    requires LaidOut(l, virtBase, directMap, regionStart, regionLength)
    requires LaidOut(m, virtBase, directMap, regionStart, regionLength)
    ensures l == m
  {
    assert LaidOutAs(l, virtBase, directMap, regionStart, regionLength, Seal);
    assert LaidOutAs(m, virtBase, directMap, regionStart, regionLength, Seal);
  }

  lemma LayoutValid(l: Layout, virtBase: nat, directMap: nat, regionStart: nat, regionLength: nat)
    requires LaidOut(l, virtBase, directMap, regionStart, regionLength)
    requires IsLargeAligned(directMap) && IsLargeAligned(regionStart)
    requires regionStart + 0x200000 * RoundToLargePages(regionLength) <= 0x10_0000_0000_0000
    ensures l.virtBase == virtBase && l.directMap == directMap && l.regionStart == regionStart
    ensures l.Valid() <==> l.EndPde() <= 512
  {
    assert LaidOutAs(l, virtBase, directMap, regionStart, regionLength, Seal);
    SplitSplits(virtBase, l.base);
  }

  /** The leaf tables end where the direct map starts, whatever the alignment of the kernel base. */
  lemma LeafTablesMeetDirectMap(l: Layout)
    requires l.Derived(Seal)
    ensures l.EndPte() == 512 * l.pdeCount
    ensures LargeNumber(l.virtBase) + l.pdeCount == LargeNumber(l.directMap)
  {
    Parts(l.virtBase, l.base);
    var top, base := LargeNumber(l.directMap), LargeNumber(l.virtBase);
    RoundsTo(l.directMap - l.virtBase, 512 * top - PageNumber(l.virtBase));
    assert l.EndPte() == 512 * (top - base);
    RoundsTo(8 * l.EndPte(), top - base);
  }

  // ---- what the tables hold ----

  ghost function Zeros(n: nat): seq<nat>
  {
    seq(n, _ => 0)
  }

  ghost function SetAt(s: seq<nat>, i: nat, entry: nat): seq<nat>
  {
    if i < |s| then s[i := entry] else s
  }

  ghost function RootTable(l: Layout, root: nat): seq<nat>
  {
    SetAt(SetAt(Zeros(512), 493, Pte(root, SelfMap)), l.base.root, Pte(root + 0x1000, Pxe))
  }

  ghost function DirectoryPointers(l: Layout, root: nat): seq<nat>
  {
    SetAt(Zeros(512), l.base.pointer, Pte(root + 0x2000, Pxe))
  }

  ghost function DirectoryEntry(root: nat, region: nat, startPde: nat, pdeCount: nat, largePageCount: nat, i: nat): nat
  {
    if i < startPde then 0
    else if i < startPde + pdeCount then Pte(root + 0x3000 + 0x1000 * (i - startPde), Pxe)
    else if i < startPde + pdeCount + largePageCount then
      Pte(region + 0x200000 * (i - startPde - pdeCount), RwLarge)
    else 0
  }

  /** First the leaf tables, then the large pages of the direct map. */
  ghost function DirectoryTable(root: nat, region: nat, startPde: nat, pdeCount: nat, largePageCount: nat): seq<nat>
  {
    seq(512, i requires 0 <= i < 512 => DirectoryEntry(root, region, startPde, pdeCount, largePageCount, i))
  }

  ghost function Directory(l: Layout, root: nat): seq<nat>
  {
    DirectoryTable(root, l.regionStart, l.base.directory, l.pdeCount, l.largePageCount)
  }

  /** The tables set up for a layout, with given leaf entries. */
  ghost predicate Built(t: Tables, l: Layout)
  {
    && TablesShape(t)
    && l.Valid()
    && |t.ptes| == l.EndPte()
    && forall seal: Seal :: UpperTables(t, l, seal)
  }

  ghost predicate UpperTables(t: Tables, l: Layout, seal: Seal)
  {
    && t.pml4 == RootTable(l, t.root)
    && t.pdpt == DirectoryPointers(l, t.root)
    && t.pd == Directory(l, t.root)
  }

  lemma RootEntryAt(t: Tables, i: nat)
    requires TablesShape(t) && i < 512
    ensures EntryAt(t, t.root + 8 * i) == Some(t.pml4[i])
  {
  }

  lemma PointerEntryAt(t: Tables, i: nat)
    requires TablesShape(t) && i < 512
    ensures EntryAt(t, t.root + 0x1000 + 8 * i) == Some(t.pdpt[i])
  {
  }

  lemma DirectoryEntryAt(t: Tables, i: nat)
    requires TablesShape(t) && i < 512
    ensures EntryAt(t, t.root + 0x2000 + 8 * i) == Some(t.pd[i])
  {
  }

  lemma LeafEntryAt(t: Tables, i: nat)
    requires TablesShape(t) && i < |t.ptes|
    ensures EntryAt(t, t.root + 0x3000 + 8 * i) == Some(t.ptes[i])
  {
  }

  lemma WalkPointers(t: Tables, table: nat, v: Virtual, e: nat, directory: nat, r: Option<Translation>)
    requires TablesShape(t) && Grants(e, directory, Pxe)
    requires EntryAt(t, table + 8 * v.pointer) == Some(e) && WalksFromDirectory(t, directory, v, r)
    ensures WalksFromPointers(t, table, v, r)
  {
    assert ReadAs(e, directory, Pxe, Seal);
    FullRights(e, directory, r);
  }

  lemma WalkRoot(t: Tables, v: Virtual, e: nat, pointers: nat, r: Option<Translation>)
    requires TablesShape(t) && Grants(e, pointers, Pxe)
    requires EntryAt(t, t.root + 8 * v.root) == Some(e) && WalksFromPointers(t, pointers, v, r)
    ensures Walks(t, v, r)
  {
    assert ReadAs(e, pointers, Pxe, Seal);
    FullRights(e, pointers, r);
  }

  lemma UpperEntries(t: Tables, l: Layout)
    requires Built(t, l)
    ensures Grants(t.pml4[l.base.root], t.root + 0x1000, Pxe)
    ensures Grants(t.pdpt[l.base.pointer], t.root + 0x2000, Pxe)
  {
    assert UpperTables(t, l, Seal);
    PteDecodes(t.root + 0x1000, Pxe);
    PteDecodes(t.root + 0x2000, Pxe);
  }

  /** Below the upper levels there is one page directory for the whole span. */
  lemma WalkReachesDirectory(t: Tables, l: Layout, v: Virtual, r: Option<Translation>)
    requires Built(t, l) && v.Valid()
    requires v.root == l.base.root && v.pointer == l.base.pointer
    requires WalksFromDirectory(t, t.root + 0x2000, v, r)
    ensures Walks(t, v, r)
  {
    UpperEntries(t, l);
    RootEntryAt(t, v.root);
    PointerEntryAt(t, v.pointer);
    WalkPointers(t, t.root + 0x1000, v, t.pdpt[v.pointer], t.root + 0x2000, r);
    WalkRoot(t, v, t.pml4[v.root], t.root + 0x1000, r);
  }

  lemma WalkLarge(t: Tables, directory: nat, v: Virtual, e: nat, paddr: nat)
    requires TablesShape(t) && Grants(e, paddr, RwLarge)
    requires EntryAt(t, directory + 8 * v.directory) == Some(e)
    ensures WalksFromDirectory(t, directory, v, Some(Translation(paddr + v.LargeOffset(), RightsOf(RwLarge))))
  {
    assert ReadAs(e, paddr, RwLarge, Seal);
  }

  /** The place of a direct-map address in the page directory. */
  lemma DirectMapSlot(l: Layout, vaddr: nat, v: Virtual) returns (j: nat)
    requires l.Valid() && l.directMap <= vaddr < l.directMap + 0x200000 * l.largePageCount && Splits(vaddr, v)
    ensures v.Valid() && j < l.largePageCount
    ensures v.directory == l.base.directory + l.pdeCount + j && v.root == l.base.root && v.pointer == l.base.pointer
    ensures 0x200000 * j + v.LargeOffset() == vaddr - l.directMap
  {
    assert l.Derived(Seal);
    Parts(vaddr, v);
    LeafTablesMeetDirectMap(l);
    var top, large := LargeNumber(l.directMap), LargeNumber(vaddr);
    assert top <= large < top + l.largePageCount;
    j := large - top;
    SameTable(l.virtBase, l.base, vaddr, v, l.pdeCount + j);
  }

  lemma LargePageAddress(start: nat, j: nat, count: nat)
    requires IsLargeAligned(start) && j < count && start + 0x200000 * count <= 0x10_0000_0000_0000
    ensures PageAddress(start + 0x200000 * j)
  {
    var q := LargeNumber(start);
    assert start + 0x200000 * j == 0x1000 * (512 * (q + j));
  }

  lemma DirectMapEntry(t: Tables, l: Layout, j: nat)
    requires Built(t, l) && j < l.largePageCount
    ensures l.base.directory + l.pdeCount + j < 512
    ensures Grants(t.pd[l.base.directory + l.pdeCount + j], l.regionStart + 0x200000 * j, RwLarge)
  {
    assert UpperTables(t, l, Seal);
    var slot := l.base.directory + l.pdeCount + j;
    assert l.Derived(Seal);
    LargePageAddress(l.regionStart, j, l.largePageCount);
    assert t.pd[slot] ==
      DirectoryEntry(t.root, l.regionStart, l.base.directory, l.pdeCount, l.largePageCount, slot);
    PteDecodes(l.regionStart + 0x200000 * j, RwLarge);
  }

  lemma LargePageWalk(t: Tables, l: Layout, v: Virtual, j: nat)
    requires Built(t, l) && v.Valid() && j < l.largePageCount
    requires v.root == l.base.root && v.pointer == l.base.pointer
    requires v.directory == l.base.directory + l.pdeCount + j
    ensures Walks(t, v, Some(Translation(l.regionStart + 0x200000 * j + v.LargeOffset(), RightsOf(RwLarge))))
  {
    DirectMapEntry(t, l, j);
    DirectoryEntryAt(t, v.directory);
    var page, e := l.regionStart + 0x200000 * j, t.pd[v.directory];
    WalkLarge(t, t.root + 0x2000, v, e, page);
    WalkReachesDirectory(t, l, v, Some(Translation(page + v.LargeOffset(), RightsOf(RwLarge))));
  }

  /** Every direct-map address translates to the region's start plus its offset, as data that can be written. */
  lemma DirectMapWalk(t: Tables, l: Layout, vaddr: nat, v: Virtual)
    requires Built(t, l) && Splits(vaddr, v)
    requires l.directMap <= vaddr < l.directMap + 0x200000 * l.largePageCount
    ensures Walks(t, v, Some(Translation(l.regionStart + (vaddr - l.directMap), Rights(true, false))))
  {
    var j := DirectMapSlot(l, vaddr, v);
    assert l.regionStart + 0x200000 * j + v.LargeOffset() == l.regionStart + (vaddr - l.directMap);
    LargePageWalk(t, l, v, j);
  }

  // ---- the kernel span ----

  /** Page `i` of the kernel span is counted from the page of the kernel base. */
  datatype Range = Range(first: nat, count: nat, paddr: nat, pteType: PteType)
  {
    ghost predicate Covers(i: nat)
    {
      first <= i < first + count
    }

    ghost predicate Valid()
    {
      paddr % 0x1000 == 0 && paddr + 0x1000 * count <= 0x10_0000_0000_0000
    }
  }

  /** The leaf entry for page `i` after mapping the ranges in order. */
  ghost function EntryFor(ranges: seq<Range>, i: nat): nat
  {
    if ranges == [] then 0
    else
      var r := ranges[|ranges| - 1];
      if r.Covers(i) then Pte(r.paddr + 0x1000 * (i - r.first), r.pteType)
      else EntryFor(ranges[..|ranges| - 1], i)
  }

  ghost predicate Holds(ptes: seq<nat>, ranges: seq<Range>)
  {
    forall i :: 0 <= i < |ptes| ==> ptes[i] == EntryFor(ranges, i)
  }

  ghost predicate RangesApart(ranges: seq<Range>)
  {
    forall a, b, i :: 0 <= a < b < |ranges| && ranges[a].Covers(i) ==> !ranges[b].Covers(i)
  }

  lemma {:induction false} EntryOfCovered(ranges: seq<Range>, a: nat, i: nat)
    requires RangesApart(ranges) && a < |ranges| && ranges[a].Covers(i)
    ensures EntryFor(ranges, i) == Pte(ranges[a].paddr + 0x1000 * (i - ranges[a].first), ranges[a].pteType)
    decreases |ranges|
  {
    if a < |ranges| - 1 {
      EntryOfCovered(ranges[..|ranges| - 1], a, i);
    }
  }

  lemma {:induction false} EntryOfUncovered(ranges: seq<Range>, i: nat)
    requires forall a :: 0 <= a < |ranges| ==> !ranges[a].Covers(i)
    ensures EntryFor(ranges, i) == 0
    decreases |ranges|
  {
    if ranges != [] {
      EntryOfUncovered(ranges[..|ranges| - 1], i);
    }
  }

  /** The leaf entry `f` takes `v` to `r`. */
  ghost predicate LeadsTo(f: nat, v: Virtual, r: Option<Translation>)
  {
    forall seal: Seal :: LeadsAs(f, v, r, seal)
  }

  ghost predicate LeadsAs(f: nat, v: Virtual, r: Option<Translation>, seal: Seal)
  {
    r == if Present(f) then Some(Translation(AddressIn(f) + v.offset, RightsIn(f))) else None
  }

  lemma AbsentLeads(v: Virtual)
    ensures LeadsTo(0, v, None)
  {
  }

  lemma PresentLeads(f: nat, v: Virtual, paddr: nat, pteType: PteType)
    requires Grants(f, paddr, pteType)
    ensures LeadsTo(f, v, Some(Translation(paddr + v.offset, RightsOf(pteType))))
  {
    assert ReadAs(f, paddr, pteType, Seal);
  }

  lemma WalkLeaf(t: Tables, table: nat, v: Virtual, f: nat, r: Option<Translation>)
    requires TablesShape(t) && EntryAt(t, table + 8 * v.leaf) == Some(f) && LeadsTo(f, v, r)
    ensures WalksFromLeaf(t, table, v, r)
  {
    assert LeadsAs(f, v, r, Seal);
  }

  lemma WalkSmall(t: Tables, directory: nat, v: Virtual, e: nat, table: nat, r: Option<Translation>)
    requires TablesShape(t) && Grants(e, table, Pxe)
    requires EntryAt(t, directory + 8 * v.directory) == Some(e)
    requires WalksFromLeaf(t, table, v, r)
    ensures WalksFromDirectory(t, directory, v, r)
  {
    assert ReadAs(e, table, Pxe, Seal);
    FullRights(e, table, r);
  }

  /** The leaf entry a walk for an address of the kernel span ends at. */
  ghost function SpanIndex(l: Layout, vaddr: nat): nat
    requires l.virtBase <= vaddr
  {
    l.base.leaf + (PageNumber(vaddr) - PageNumber(l.virtBase))
  }

  /** The place of an address of the kernel span in the page directory and the leaf entries. */
  lemma SpanSlot(l: Layout, vaddr: nat, v: Virtual) returns (k: nat)
    requires l.Valid() && l.virtBase <= vaddr < l.directMap && Splits(vaddr, v)
    ensures v.Valid() && k < l.pdeCount
    ensures v.directory == l.base.directory + k && v.root == l.base.root && v.pointer == l.base.pointer
    ensures SpanIndex(l, vaddr) == 512 * k + v.leaf < l.EndPte()
  {
    assert l.Derived(Seal);
    Parts(vaddr, v);
    Parts(l.virtBase, l.base);
    LeafTablesMeetDirectMap(l);
    assert LargeNumber(l.virtBase) <= LargeNumber(vaddr) < LargeNumber(l.directMap);
    k := LargeNumber(vaddr) - LargeNumber(l.virtBase);
    SameTable(l.virtBase, l.base, vaddr, v, k);
  }

  lemma SmallPageAddress(start: nat, k: nat, count: nat)
    requires start % 0x1000 == 0 && k < count && start + 0x1000 * count <= 0x10_0000_0000_0000
    ensures PageAddress(start + 0x1000 * k)
  {
  }

  lemma SpanDirectoryEntry(t: Tables, l: Layout, k: nat)
    requires Built(t, l) && k < l.pdeCount
    ensures l.base.directory + k < 512
    ensures Grants(t.pd[l.base.directory + k], t.root + 0x3000 + 0x1000 * k, Pxe)
  {
    assert UpperTables(t, l, Seal);
    var slot := l.base.directory + k;
    assert l.Derived(Seal);
    SmallPageAddress(t.root + 0x3000, k, l.pdeCount);
    assert t.pd[slot] ==
      DirectoryEntry(t.root, l.regionStart, l.base.directory, l.pdeCount, l.largePageCount, slot);
    PteDecodes(t.root + 0x3000 + 0x1000 * k, Pxe);
  }

  lemma LeafWalks(t: Tables, l: Layout, v: Virtual, k: nat, r: Option<Translation>)
    requires Built(t, l) && v.Valid() && k < l.pdeCount
    requires v.root == l.base.root && v.pointer == l.base.pointer
    requires v.directory == l.base.directory + k && 512 * k + v.leaf < |t.ptes|
    requires LeadsTo(t.ptes[512 * k + v.leaf], v, r)
    ensures Walks(t, v, r)
  {
    SpanDirectoryEntry(t, l, k);
    DirectoryEntryAt(t, v.directory);
    LeafEntryAt(t, 512 * k + v.leaf);
    WalkLeaf(t, t.root + 0x3000 + 0x1000 * k, v, t.ptes[512 * k + v.leaf], r);
    WalkSmall(t, t.root + 0x2000, v, t.pd[v.directory], t.root + 0x3000 + 0x1000 * k, r);
    WalkReachesDirectory(t, l, v, r);
  }

  lemma SpanWalk(t: Tables, l: Layout, vaddr: nat, v: Virtual, r: Option<Translation>)
    requires Built(t, l) && l.virtBase <= vaddr < l.directMap && Splits(vaddr, v)
    requires SpanIndex(l, vaddr) < |t.ptes| ==> LeadsTo(t.ptes[SpanIndex(l, vaddr)], v, r)
    ensures SpanIndex(l, vaddr) < |t.ptes|
    ensures Walks(t, v, r)
  {
    var k := SpanSlot(l, vaddr, v);
    LeafWalks(t, l, v, k, r);
  }

  lemma MappedEntry(ranges: seq<Range>, a: nat, i: nat)
    requires RangesApart(ranges) && a < |ranges| && ranges[a].Valid() && ranges[a].Covers(i)
    ensures Grants(EntryFor(ranges, i), ranges[a].paddr + 0x1000 * (i - ranges[a].first), ranges[a].pteType)
  {
    var r := ranges[a];
    EntryOfCovered(ranges, a, i);
    SmallPageAddress(r.paddr, i - r.first, r.count);
    PteDecodes(r.paddr + 0x1000 * (i - r.first), r.pteType);
  }

  /**
   A walk finds the range that was mapped over the leaf entry it ends at. That is the entry of
   the page itself exactly when the kernel base is the first page of a leaf table.
   */
  lemma MappedWalk(t: Tables, l: Layout, ranges: seq<Range>, a: nat, vaddr: nat, v: Virtual)
    requires Built(t, l) && Holds(t.ptes, ranges) && RangesApart(ranges)
    requires l.virtBase <= vaddr < l.directMap && Splits(vaddr, v)
    requires a < |ranges| && ranges[a].Valid() && ranges[a].Covers(SpanIndex(l, vaddr))
    ensures var page := ranges[a].paddr + 0x1000 * (SpanIndex(l, vaddr) - ranges[a].first);
      Walks(t, v, Some(Translation(page + v.offset, RightsOf(ranges[a].pteType))))
  {
    var i, r := SpanIndex(l, vaddr), ranges[a];
    var page := r.paddr + 0x1000 * (i - r.first);
    MappedEntry(ranges, a, i);
    PresentLeads(EntryFor(ranges, i), v, page, r.pteType);
    SpanWalk(t, l, vaddr, v, Some(Translation(page + v.offset, RightsOf(r.pteType))));
  }

  lemma UnmappedWalk(t: Tables, l: Layout, ranges: seq<Range>, vaddr: nat, v: Virtual)
    requires Built(t, l) && Holds(t.ptes, ranges)
    requires l.virtBase <= vaddr < l.directMap && Splits(vaddr, v)
    requires forall a :: 0 <= a < |ranges| ==> !ranges[a].Covers(SpanIndex(l, vaddr))
    ensures Walks(t, v, None)
  {
    EntryOfUncovered(ranges, SpanIndex(l, vaddr));
    AbsentLeads(v);
    SpanWalk(t, l, vaddr, v, None);
  }

  lemma AlignedBase(l: Layout)
    requires l.Valid()
    ensures l.base.leaf == 0 <==> PageNumber(l.virtBase) == 512 * LargeNumber(l.virtBase)
  {
    assert l.Derived(Seal);
    Parts(l.virtBase, l.base);
  }

  lemma WalkIsUnique(t: Tables, v: Virtual, r: Option<Translation>, q: Option<Translation>)
    requires TablesShape(t) && Walks(t, v, r) && Walks(t, v, q)
    ensures r == q
  {
    assert RootWalk(t, v, Seal) == r;
  }

  /** `vaddr` leads to the page that the range mapped for it, with the rights it asked for. */
  ghost predicate LeadsRight(t: Tables, l: Layout, range: Range, vaddr: nat, v: Virtual)
    requires TablesShape(t) && l.virtBase <= vaddr
  {
    var index := PageNumber(vaddr) - PageNumber(l.virtBase);
    && range.Covers(index)
    && Walks(t, v, Some(Translation(range.paddr + 0x1000 * (index - range.first) + v.offset, RightsOf(range.pteType))))
  }

  /** Every address of the kernel span that was mapped leads where it was mapped. */
  ghost predicate MapsRight(t: Tables, l: Layout, ranges: seq<Range>)
    requires TablesShape(t)
  {
    forall a, vaddr, v ::
      && 0 <= a < |ranges| && l.virtBase <= vaddr < l.directMap && Splits(vaddr, v)
      && ranges[a].Covers(PageNumber(vaddr) - PageNumber(l.virtBase))
      ==> LeadsRight(t, l, ranges[a], vaddr, v)
  }

  /** The highest page any range covers. */
  lemma {:induction false} HighestCovered(ranges: seq<Range>) returns (a: nat, i: nat)
    requires exists b, k: nat :: 0 <= b < |ranges| && ranges[b].Covers(k)
    ensures a < |ranges| && ranges[a].Covers(i)
    ensures forall b, k: nat :: 0 <= b < |ranges| && ranges[b].Covers(k) ==> k <= i
  {
    var rest, last := ranges[..|ranges| - 1], |ranges| - 1;
    if exists b, k: nat :: 0 <= b < |rest| && rest[b].Covers(k) {
      a, i := HighestCovered(rest);
      assert forall b, k: nat :: 0 <= b < last && ranges[b].Covers(k) ==> rest[b].Covers(k);
    } else {
      a, i := last, ranges[last].first;
      assert forall b, k: nat :: 0 <= b < last ==> (ranges[b].Covers(k) <==> rest[b].Covers(k));
    }
    if ranges[last].count > 0 && ranges[last].first + ranges[last].count - 1 > i {
      a, i := last, ranges[last].first + ranges[last].count - 1;
    }
  }

  /**
   The mapped ranges of the kernel span, as long as there are any, are all reachable at their own
   addresses if and only if the kernel base is in the first page of a leaf table; for a
   page-aligned base that means 2 MB-aligned.
   */
  lemma MapsRightExactly(t: Tables, l: Layout, ranges: seq<Range>)
    requires Built(t, l) && Holds(t.ptes, ranges) && RangesApart(ranges)
    requires forall a :: 0 <= a < |ranges| ==> ranges[a].Valid() && ranges[a].first + ranges[a].count <= l.pteCount
    requires exists a, i: nat :: 0 <= a < |ranges| && ranges[a].Covers(i)
    ensures MapsRight(t, l, ranges) <==> PageNumber(l.virtBase) == 512 * LargeNumber(l.virtBase)
  {
    AlignedBase(l);
    if l.base.leaf == 0 {
      forall a, vaddr, v |
        && 0 <= a < |ranges| && l.virtBase <= vaddr < l.directMap && Splits(vaddr, v)
        && ranges[a].Covers(PageNumber(vaddr) - PageNumber(l.virtBase))
        ensures LeadsRight(t, l, ranges[a], vaddr, v)
      {
        MappedWalk(t, l, ranges, a, vaddr, v);
      }
    } else {
      var a, vaddr, v := Unreachable(t, l, ranges);
    }
  }

  /** With any other base, the highest page mapped is not reachable. */
  lemma Unreachable(t: Tables, l: Layout, ranges: seq<Range>) returns (a: nat, vaddr: nat, v: Virtual)
    requires Built(t, l) && Holds(t.ptes, ranges) && l.base.leaf > 0
    requires forall a :: 0 <= a < |ranges| ==> ranges[a].first + ranges[a].count <= l.pteCount
    requires exists a, i: nat :: 0 <= a < |ranges| && ranges[a].Covers(i)
    ensures a < |ranges| && l.virtBase <= vaddr < l.directMap && Splits(vaddr, v)
    ensures ranges[a].Covers(PageNumber(vaddr) - PageNumber(l.virtBase))
    ensures Walks(t, v, None) && !LeadsRight(t, l, ranges[a], vaddr, v)
  {
    var i;
    a, i := HighestCovered(ranges);
    assert l.Derived(Seal);
    vaddr := l.virtBase + 0x1000 * i;
    v := Split(vaddr);
    SplitSplits(vaddr, v);
    assert PageNumber(vaddr) == PageNumber(l.virtBase) + i;
    UnmappedWalk(t, l, ranges, vaddr, v);
    forall r: Option<Translation> | Walks(t, v, r) ensures r == None {
      WalkIsUnique(t, v, r, None);
    }
  }

  lemma SplitOnePage()
    ensures Split(0x1000) == Virtual(0, 0, 0, 1, 0)
  {
  }

  /** A layout whose kernel base is one page above a 2 MB boundary. */
  lemma OnePageUp() returns (l: Layout)
    ensures LaidOut(l, 0x1000, 0x200000, 0, 0x200000) && l.Valid()
    ensures l.virtBase == 0x1000 && l.directMap == 0x200000 && l.base.leaf == 1 && l.pteCount == 511 && l.pdeCount == 1
  {
    SplitOnePage();
    RoundsTo(0x1FF000, 511);
    RoundsTo(8 * 512, 1);
    l := LayoutFor(0x1000, 0x200000, 0, 0x200000);
    assert l == Layout(0x1000, 0x200000, 0, Virtual(0, 0, 0, 1, 0), 511, 1, RoundToLargePages(0x200000));
    LayoutExists(0x1000, 0x200000, 0, 0x200000, l);
    LayoutValid(l, 0x1000, 0x200000, 0, 0x200000);
  }

  /** For every layout and ranges there are tables that hold them. */
  lemma TablesExist(l: Layout, ranges: seq<Range>) returns (t: Tables)
    requires l.Valid()
    ensures Built(t, l) && Holds(t.ptes, ranges)
  {
    t := Tables(0, RootTable(l, 0), DirectoryPointers(l, 0), Directory(l, 0),
                seq(l.EndPte(), i requires 0 <= i => EntryFor(ranges, i)));
  }

  /** It happens: with such a base, the page mapped at the base is absent. */
  lemma MisalignedBaseFails() returns (t: Tables, l: Layout, ranges: seq<Range>)
    ensures LaidOut(l, 0x1000, 0x200000, 0, 0x200000)
    ensures Built(t, l) && Holds(t.ptes, ranges) && ranges == [Range(0, 1, 0x5000, RwData)]
    ensures Walks(t, l.base, None) && !MapsRight(t, l, ranges)
  {
    l := OnePageUp();
    ranges := [Range(0, 1, 0x5000, RwData)];
    t := TablesExist(l, ranges);
    assert ranges[0].Covers(0);
    assert l.Derived(Seal);
    UnmappedWalk(t, l, ranges, 0x1000, l.base);
    var a, vaddr, v := Unreachable(t, l, ranges);
  }
}
