/** Building the kernel page tables into the boot image. */
module KernelTables {
  import opened Bits
  import opened Collections
  import opened Pages
  import opened PageTables
  import opened BootHeap

  lemma HoldsEmpty(ptes: seq<nat>)
    requires forall i :: 0 <= i < |ptes| ==> ptes[i] == 0
    ensures Holds(ptes, [])
  {
  }

  /** Setting one more entry extends the range by one page. */
  lemma HoldsStep(ptes: seq<nat>, ranges: seq<Range>, r: Range, ptes': seq<nat>)
    requires r.first + r.count < |ptes| && Holds(ptes, ranges + [r])
    requires ptes' == ptes[r.first + r.count := Pte(r.paddr + 0x1000 * r.count, r.pteType)]
    ensures Holds(ptes', ranges + [r.(count := r.count + 1)])
  {
    var r' := r.(count := r.count + 1);
    assert (ranges + [r])[..|ranges|] == ranges && (ranges + [r'])[..|ranges|] == ranges;
  }

  lemma HoldsStart(ptes: seq<nat>, ranges: seq<Range>, r: Range)
    requires Holds(ptes, ranges) && r.count == 0
    ensures Holds(ptes, ranges + [r])
  {
    assert (ranges + [r])[..|ranges|] == ranges;
  }

  /** The leaf tables as emitted. */
  ghost function LeafEmission(root: nat, ptes: seq<nat>): Emission
  {
    Emission(root + 0x3000, Entries(ptes), 0x1000 * RoundToPages(8 * |ptes|))
  }

  class KernelPageTables {
    const ptes: array<nat>
    const startingIndex: nat
    const startingPaddr: nat
    const pteCount: nat
    const totalPtPages: nat
    const pagingRoot: nat
    const rootVaddr: nat
    const kernelPdptPaddr: nat
    const kernelPml4eIndex: nat
    ghost const layout: Layout
    /** The ranges mapped so far. */
    ghost var ranges: seq<Range>

    ghost predicate Sound(seal: Seal)
      reads this, ptes
    {
      && layout.Valid()
      && startingIndex == PageNumber(layout.virtBase)
      && pteCount == layout.pteCount
      && ptes.Length == layout.EndPte()
      && startingPaddr == pagingRoot + 0x3000
      && totalPtPages == layout.pdeCount + 3
      && kernelPdptPaddr == pagingRoot + 0x1000
      && kernelPml4eIndex == layout.base.root
      && Holds(ptes[..], ranges)
    }

    ghost predicate Valid()
      reads this, ptes
    {
      forall seal: Seal :: Sound(seal)
    }

    lemma Unseal()
      requires Valid()
      ensures Sound(Seal)
    {
    }

    /** The tables as they are emitted. */
    ghost function Emitted(): Tables
      reads this, ptes
      requires layout.Valid()
    {
      Tables(pagingRoot, RootTable(layout, pagingRoot), DirectoryPointers(layout, pagingRoot),
             Directory(layout, pagingRoot), ptes[..])
    }

    constructor (layout: Layout, pagingRoot: nat, rootVaddr: nat)
      requires layout.Valid()
      ensures Valid() && ranges == [] && fresh(ptes)
      ensures this.layout == layout && this.pagingRoot == pagingRoot && this.rootVaddr == rootVaddr
    {
      ptes := new nat[layout.EndPte()](_ => 0);
      startingIndex := PageNumber(layout.virtBase);
      startingPaddr := pagingRoot + 0x3000;
      pteCount := layout.pteCount;
      totalPtPages := layout.pdeCount + 3;
      this.pagingRoot := pagingRoot;
      this.rootVaddr := rootVaddr;
      kernelPdptPaddr := pagingRoot + 0x1000;
      kernelPml4eIndex := layout.base.root;
      this.layout := layout;
      ranges := [];
      new;
      HoldsEmpty(ptes[..]);
    }

    /** Maps whole pages; fails exactly when some page lies outside the kernel span. */
    method MapRange(vaddr: nat, len: nat, paddr: nat, pteType: PteType) returns (r: Result<()>)
      requires Valid() && IsPageAligned(vaddr) && IsPageAligned(paddr) && len != 0
      modifies ptes, this`ranges
      ensures Valid()
      ensures r.Ok? <==>
        && startingIndex <= PageNumber(vaddr)
        && PageNumber(vaddr) - startingIndex + RoundToPages(len) <= pteCount
      ensures r.Ok? ==>
        ranges == old(ranges) + [Range(PageNumber(vaddr) - startingIndex, RoundToPages(len), paddr, pteType)]
      ensures r.Err? ==> r.error == BadKernelAddress
    {
      Unseal();
      var startingPteIndex := PageNumber(vaddr);
      if startingPteIndex < startingIndex {
        return Err(BadKernelAddress);
      }
      var index := startingPteIndex - startingIndex;
      ghost var range := Range(index, 0, paddr, pteType);
      HoldsStart(ptes[..], ranges, range);
      ranges := ranges + [range];
      var remaining, page := len, paddr;
      while true
        invariant Sound(Seal) && ranges == old(ranges) + [range]
        invariant range == Range(PageNumber(vaddr) - startingIndex, range.count, paddr, pteType)
        invariant index == range.first + range.count
        invariant page == paddr + 0x1000 * range.count
        invariant 0 < remaining && RoundToPages(len) == range.count + RoundToPages(remaining)
        decreases remaining
      {
        if index >= pteCount {
          return Err(BadKernelAddress);
        }
        HoldsStep(ptes[..], old(ranges), range, ptes[..][index := Pte(page, pteType)]);
        ptes[index] := Pte(page, pteType);
        range := range.(count := range.count + 1);
        ranges := old(ranges) + [range];
        if remaining <= 0x1000 {
          return Ok(());
        }
        remaining := remaining - 0x1000;
        index := index + 1;
        page := page + 0x1000;
      }
    }

    method AddToImage(image: Image) returns (r: Result<()>)
      requires Valid()
      modifies image
      ensures r.Ok? ==>
        image.emitted == old(image.emitted) + [LeafEmission(pagingRoot, ptes[..])]
      ensures r.Err? ==> r.error == Host
    {
      Unseal();
      r := image.AddPageData(startingPaddr, Entries(ptes[..]), PageAlignUp(8 * ptes.Length));
    }
  }

  /** The three upper tables as emitted. */
  ghost function UpperEmissions(l: Layout, root: nat): seq<Emission>
  {
    [Emission(root, Entries(RootTable(l, root)), 0x1000),
     Emission(root + 0x1000, Entries(DirectoryPointers(l, root)), 0x1000),
     Emission(root + 0x2000, Entries(Directory(l, root)), 0x1000)]
  }

  lemma NextLeafTable(root: nat, region: nat, startPde: nat, i: nat, entry: nat)
    requires startPde + i < 512 && entry == Pte(root + 0x3000 + 0x1000 * i, Pxe)
    ensures DirectoryTable(root, region, startPde, i + 1, 0) ==
      DirectoryTable(root, region, startPde, i, 0)[startPde + i := entry]
  {
  }

  lemma NextLargePage(root: nat, region: nat, startPde: nat, pdeCount: nat, i: nat, entry: nat)
    requires startPde + pdeCount + i < 512 && entry == Pte(region + 0x200000 * i, RwLarge)
    ensures DirectoryTable(root, region, startPde, pdeCount, i + 1) ==
      DirectoryTable(root, region, startPde, pdeCount, i)[startPde + pdeCount + i := entry]
  {
  }

  lemma EmptyDirectory(root: nat, region: nat, startPde: nat, table: seq<nat>)
    requires |table| == 512 && forall k :: 0 <= k < 512 ==> table[k] == 0
    ensures table == DirectoryTable(root, region, startPde, 0, 0)
  {
  }

  method FillDirectory(root: nat, region: nat, startPde: nat, pdeCount: nat, largePageCount: nat) returns (pd: seq<nat>)
    requires startPde + pdeCount + largePageCount <= 512
    ensures pd == DirectoryTable(root, region, startPde, pdeCount, largePageCount)
  {
    var table := new nat[512](_ => 0);
    EmptyDirectory(root, region, startPde, table[..]);
    for i := 0 to pdeCount
      invariant table[..] == DirectoryTable(root, region, startPde, i, 0)
    {
      var entry := Pte(root + 0x3000 + i * 0x1000, Pxe);
      NextLeafTable(root, region, startPde, i, entry);
      table[startPde + i] := entry;
    }
    for i := 0 to largePageCount
      invariant table[..] == DirectoryTable(root, region, startPde, pdeCount, i)
    {
      var entry := Pte(region + i * 0x200000, RwLarge);
      NextLargePage(root, region, startPde, pdeCount, i, entry);
      table[startPde + pdeCount + i] := entry;
    }
    pd := table[..];
  }

  /** Lays out and emits the upper tables, and reserves pages for the leaf tables. */
  method SetupKernelPageTables(virtBase: nat, directMap: nat, regionStart: nat, regionLength: nat,
                               heap: KernelPageHeap, image: Image)
      returns (r: Result<KernelPageTables>, ghost l: Layout)
    requires heap.Valid()
    requires virtBase <= directMap && IsLargeAligned(directMap) && IsLargeAligned(regionStart)
    requires regionStart + 0x200000 * RoundToLargePages(regionLength) <= 0x10_0000_0000_0000
    modifies heap, image
    ensures heap.Valid()
    ensures LaidOut(l, virtBase, directMap, regionStart, regionLength)
    ensures l.EndPde() > 512 ==> r == Err(KernelRangeTooLarge)
    ensures l.EndPde() <= 512 && l.base.root == 493 ==> r.Err? && r.error in {HeapTooSmall, SelfMapConflict}
    ensures r.Ok? ==>
      && fresh(r.value) && fresh(r.value.ptes)
      && r.value.Valid() && r.value.layout == l && r.value.ranges == []
      && r.value.pagingRoot == old(heap.Frontier())
      && heap.Frontier() == r.value.pagingRoot + 0x1000 * (l.pdeCount + 3)
      && image.emitted == old(image.emitted) + UpperEmissions(l, r.value.pagingRoot)
  {
    var layout := LayoutFor(virtBase, directMap, regionStart, regionLength);
    l := layout;
    LayoutExists(virtBase, directMap, regionStart, regionLength, l);
    r := SetupTables(layout, heap, image, virtBase, directMap, regionStart, regionLength);
  }

  method SetupTables(layout: Layout, heap: KernelPageHeap, image: Image,
                     ghost virtBase: nat, ghost directMap: nat, ghost regionStart: nat, ghost regionLength: nat)
      returns (r: Result<KernelPageTables>)
    requires heap.Valid()
    requires LaidOut(layout, virtBase, directMap, regionStart, regionLength)
    requires IsLargeAligned(directMap) && IsLargeAligned(regionStart)
    requires regionStart + 0x200000 * RoundToLargePages(regionLength) <= 0x10_0000_0000_0000
    modifies heap, image
    ensures heap.Valid()
    ensures layout.EndPde() > 512 ==> r == Err(KernelRangeTooLarge)
    ensures layout.EndPde() <= 512 && layout.base.root == 493 ==> r.Err? && r.error in {HeapTooSmall, SelfMapConflict}
    ensures r.Ok? ==>
      && fresh(r.value) && fresh(r.value.ptes)
      && r.value.Valid() && r.value.layout == layout && r.value.ranges == []
      && r.value.pagingRoot == old(heap.Frontier())
      && heap.Frontier() == r.value.pagingRoot + 0x1000 * (layout.pdeCount + 3)
      && image.emitted == old(image.emitted) + UpperEmissions(layout, r.value.pagingRoot)
  {
    LayoutValid(layout, virtBase, directMap, regionStart, regionLength);
    if layout.EndPde() > 512 {
      return Err(KernelRangeTooLarge);
    }
    var allocation := heap.AllocatePages(layout.pdeCount + 3);
    if allocation.Err? {
      return Err(allocation.error);
    }
    var root := allocation.value.paddr;
    var done := EmitUpperTables(layout, root, image);
    if done.Err? {
      return Err(done.error);
    }
    var tables := new KernelPageTables(layout, root, allocation.value.vaddr);
    r := Ok(tables);
  }

  method EmitUpperTables(l: Layout, root: nat, image: Image) returns (r: Result<()>)
    requires l.base.Valid() && l.EndPde() <= 512
    modifies image
    ensures l.base.root == 493 ==> r == Err(SelfMapConflict)
    ensures r.Ok? ==> image.emitted == old(image.emitted) + UpperEmissions(l, root)
  {
    var pml4 := seq(512, _ => 0)[493 := Pte(root, SelfMap)];
    PteNonZero(root, SelfMap);
    if pml4[l.base.root] != 0 {
      return Err(SelfMapConflict);
    }
    pml4 := pml4[l.base.root := Pte(root + 0x1000, Pxe)];
    r := image.AddPageData(root, Entries(pml4), 0x1000);
    if r.Err? {
      return;
    }
    var pdpt := seq(512, _ => 0)[l.base.pointer := Pte(root + 0x2000, Pxe)];
    r := image.AddPageData(root + 0x1000, Entries(pdpt), 0x1000);
    if r.Err? {
      return;
    }
    var pd := FillDirectory(root, l.regionStart, l.base.directory, l.pdeCount, l.largePageCount);
    r := image.AddPageData(root + 0x2000, Entries(pd), 0x1000);
  }

  lemma PteNonZero(paddr: nat, pteType: PteType)
    ensures Pte(paddr, pteType) != 0
  {
    BitOr(paddr, Flags(pteType), 0);
    assert Bit(Flags(pteType), 0);
    BitOfZero(0);
  }
}
