/** The boot image builder: the physical and virtual layout of the kernel image. */
module BootImage {
  import opened Collections
  import opened Pages
  import opened BootHeap
  import opened PageTables
  import opened KernelTables
  import opened PageCursor
  import E = Elf

  /** A load segment at its final address. */
  datatype Segment = Segment(begin: nat, end: nat, contents: seq<nat>, executable: bool, writable: bool)

  /** The load segments of the kernel ELF and the aligned base of its address range. */
  datatype ElfImage = ElfImage(base: nat, segments: seq<Segment>)
  {
    /** The end of the address range. */
    function End(): nat
    {
      if segments == [] then base else segments[|segments| - 1].end
    }

    ghost predicate Ordered()
    {
      && (forall i :: 0 <= i < |segments| ==> base <= segments[i].begin < segments[i].end)
      && (forall i, j :: 0 <= i < j < |segments| ==> segments[i].end <= segments[j].begin)
    }

    /** The base is the first segment's address rounded down to the largest segment alignment. */
    ghost predicate Valid()
    {
      && Ordered()
      && (segments == [] || IsPageAligned(segments[0].begin) ==> IsPageAligned(base))
    }
  }

  /** Why `ElfImage.Valid` holds: the index is sorted, and the base comes from rounding down. */
  lemma IndexGivesImage(segments: seq<E.Entry>, maxAlign: nat, elf: ElfImage)
    requires E.Sorted(segments) && (maxAlign == 0 || E.PowerOfTwo(maxAlign))
    requires forall i :: 0 <= i < |segments| ==> segments[i].range.NonEmpty()
    requires elf.base == E.AllocBase(E.Total(segments).begin, maxAlign)
    requires |elf.segments| == |segments|
    requires forall i :: 0 <= i < |segments| ==>
      elf.segments[i].begin == segments[i].range.begin && elf.segments[i].end == segments[i].range.end
    ensures elf.Valid()
  {
    var begin := E.Total(segments).begin;
    E.AllocBaseBelow(begin, maxAlign);
    PageDivision(begin);
    PageDivision(elf.base);
    if begin % 4096 == 0 {
      E.AllocBaseKeepsAlignment(begin, maxAlign);
    }
    forall i | 0 <= i < |segments| ensures elf.base <= elf.segments[i].begin {
      assert i == 0 || segments[0].range.end <= segments[i].range.begin;
      assert segments[0].range.Valid();
    }
  }

  /** Every segment starts on a page, and so does the base. */
  ghost predicate Aligned(elf: ElfImage)
  {
    IsPageAligned(elf.base) && forall i :: 0 <= i < |elf.segments| ==> IsPageAligned(elf.segments[i].begin)
  }

  ghost function SegmentPages(s: Segment): nat
    requires s.begin <= s.end
  {
    RoundToPages(s.end - s.begin)
  }

  /** The pages taken by the first `n` segments. */
  ghost function PagesBefore(elf: ElfImage, n: nat): nat
    requires elf.Ordered() && n <= |elf.segments|
  {
    if n == 0 then 0 else PagesBefore(elf, n - 1) + SegmentPages(elf.segments[n - 1])
  }

  function SegmentType(s: Segment): PteType
  {
    if s.executable then Executable else if s.writable then RwData else RoData
  }

  ghost function SegmentRange(base: nat, s: Segment, paddr: nat): Range
    requires base <= s.begin <= s.end
  {
    PageOrder(base, s.begin);
    Range(PageNumber(s.begin) - PageNumber(base), SegmentPages(s), paddr, SegmentType(s))
  }

  ghost function SegmentEmission(s: Segment, paddr: nat): Emission
    requires s.begin <= s.end
  {
    Emission(paddr, Bytes(s.contents), 4096 * SegmentPages(s))
  }

  /** Where segment `i` is loaded, from `paddr` on. */
  ghost function SegmentPaddr(elf: ElfImage, i: nat, paddr: nat): nat
    requires elf.Ordered() && i <= |elf.segments|
  {
    paddr + 4096 * PagesBefore(elf, i)
  }

  /** The ranges mapped for the first `n` segments. */
  ghost function SegmentRanges(elf: ElfImage, n: nat, paddr: nat): (r: seq<Range>)
    requires elf.Ordered() && n <= |elf.segments|
    ensures |r| == n
  {
    if n == 0 then []
    else
      SegmentRanges(elf, n - 1, paddr) +
      [SegmentRange(elf.base, elf.segments[n - 1], SegmentPaddr(elf, n - 1, paddr))]
  }

  ghost function SegmentEmissions(elf: ElfImage, n: nat, paddr: nat): (r: seq<Emission>)
    requires elf.Ordered() && n <= |elf.segments|
    ensures |r| == n
  {
    if n == 0 then []
    else
      SegmentEmissions(elf, n - 1, paddr) +
      [SegmentEmission(elf.segments[n - 1], SegmentPaddr(elf, n - 1, paddr))]
  }

  lemma PageOrder(a: nat, b: nat)
    requires a <= b
    ensures PageNumber(a) <= PageNumber(b)
  {
  }

  datatype ElfSizes = ElfSizes(virtBase: nat, virtLen: nat, physPageCount: nat)

  method GetElfSizes(elf: ElfImage) returns (r: ElfSizes)
    requires elf.Ordered()
    ensures r.virtBase == elf.base && r.virtLen == PageAlignUp(elf.End() - elf.base)
    ensures r.physPageCount == PagesBefore(elf, |elf.segments|)
  {
    var pageCount := 0;
    for i := 0 to |elf.segments|
      invariant pageCount == PagesBefore(elf, i)
    {
      var size := elf.segments[i].end - elf.segments[i].begin;
      pageCount := pageCount + RoundToPages(size);
    }
    r := ElfSizes(elf.base, PageAlignUp(elf.End() - elf.base), pageCount);
  }

  /** The page span of a segment lies between the base and the end of the kernel's address range. */
  lemma SegmentInSpan(elf: ElfImage, i: nat)
    requires elf.Ordered() && IsPageAligned(elf.base) && i < |elf.segments| && IsPageAligned(elf.segments[i].begin)
    ensures var s := elf.segments[i];
      && PageNumber(elf.base) <= PageNumber(s.begin)
      && PageAlignUp(s.end) - s.begin == 4096 * SegmentPages(s) > 0
      && PageNumber(s.begin) - PageNumber(elf.base) + SegmentPages(s) <= RoundToPages(elf.End() - elf.base)
  {
    var s := elf.segments[i];
    assert s.end <= elf.End();
    PageOrder(elf.base, s.begin);
  }

  /** Loads a segment at `paddr` and returns its length. */
  method LoadElfSegment(ghost elf: ElfImage, ghost i: nat, segment: Segment, paddr: nat, tables: KernelPageTables, image: Image)
      returns (r: Result<nat>)
    requires elf.Valid() && i < |elf.segments| && segment == elf.segments[i]
    requires i > 0 ==> IsPageAligned(elf.segments[0].begin)
    requires tables.Valid() && IsPageAligned(paddr)
    requires tables.layout.virtBase == elf.base && elf.End() <= tables.layout.directMap
    modifies tables`ranges, tables.ptes, image
    ensures tables.Valid()
    ensures !IsPageAligned(segment.begin) ==> r == Err(ElfAlignment)
    ensures r.Ok? ==>
      && IsPageAligned(segment.begin)
      && r.value == 4096 * SegmentPages(segment)
      && tables.ranges == old(tables.ranges) + [SegmentRange(elf.base, segment, paddr)]
      && image.emitted == old(image.emitted) + [SegmentEmission(segment, paddr)]
    ensures r.Err? ==> r.error in {ElfAlignment, Host}
  {
    var segmentStart := segment.begin;
    var segmentEnd := PageAlignUp(segment.end);
    var segmentLen := segmentEnd - segmentStart;
    if !IsPageAligned(segmentStart) {
      return Err(ElfAlignment);
    }
    tables.Unseal();
    SegmentInSpan(elf, i);
    SegmentMappable(elf, i, tables.layout);
    var mapped := tables.MapRange(segmentStart, segmentLen, paddr, SegmentType(segment));
    assert mapped.Ok?;
    var done := image.AddPageData(paddr, Bytes(segment.contents), segmentLen);
    if done.Err? {
      return Err(done.error);
    }
    r := Ok(segmentLen);
  }

  /** Every page of an aligned segment has a leaf entry, so mapping it cannot fail. */
  lemma SegmentMappable(elf: ElfImage, i: nat, l: Layout)
    requires elf.Ordered() && IsPageAligned(elf.base) && i < |elf.segments| && IsPageAligned(elf.segments[i].begin)
    requires l.Valid() && l.virtBase == elf.base && elf.End() <= l.directMap
    ensures var s := elf.segments[i];
      && RoundToPages(PageAlignUp(s.end) - s.begin) == SegmentPages(s)
      && PageNumber(s.begin) - PageNumber(elf.base) + SegmentPages(s) <= l.pteCount
  {
    assert l.Derived(Seal);
    SegmentInSpan(elf, i);
    RoundsTo(4096 * SegmentPages(elf.segments[i]), SegmentPages(elf.segments[i]));
    PagesMonotone(elf.End() - elf.base, l.directMap - elf.base);
  }

  method LoadKernelElf(elf: ElfImage, paddrBase: nat, expectedPageCount: nat, tables: KernelPageTables, image: Image)
      returns (r: Result<()>)
    requires elf.Valid() && IsPageAligned(paddrBase)
    requires expectedPageCount == PagesBefore(elf, |elf.segments|)
    requires tables.Valid() && tables.ranges == []
    requires tables.layout.virtBase == elf.base && elf.End() <= tables.layout.directMap
    modifies tables`ranges, tables.ptes, image
    ensures tables.Valid()
    ensures r.Ok? ==>
      && Aligned(elf)
      && tables.ranges == SegmentRanges(elf, |elf.segments|, paddrBase)
      && image.emitted == old(image.emitted) + SegmentEmissions(elf, |elf.segments|, paddrBase)
    ensures r.Err? ==> r.error in {ElfAlignment, Host}
    ensures !Aligned(elf) ==> r.Err?
  {
    var physAddr := paddrBase;
    for i := 0 to |elf.segments|
      invariant tables.Valid() && physAddr == SegmentPaddr(elf, i, paddrBase) && IsPageAligned(physAddr)
      invariant forall k :: 0 <= k < i ==> IsPageAligned(elf.segments[k].begin)
      invariant tables.ranges == SegmentRanges(elf, i, paddrBase)
      invariant image.emitted == old(image.emitted) + SegmentEmissions(elf, i, paddrBase)
    {
      var loaded := LoadElfSegment(elf, i, elf.segments[i], physAddr, tables, image);
      if loaded.Err? {
        return Err(loaded.error);
      }
      AlignedPlus(physAddr, SegmentPages(elf.segments[i]));
      physAddr := physAddr + loaded.value;
    }
    // The memory consumed is the memory set aside.
    assert physAddr - paddrBase == expectedPageCount * 4096;
    r := Ok(());
  }

  // ---- the whole image ----

  datatype Symbols = Symbols(records: seq<seq<nat>>, strtab: seq<nat>)

  /** The inputs that decide the layout; `bootParams` and `launchInfo` are the encoded blocks. */
  datatype Params = Params(
    regionStart: nat,
    regionPages: nat,
    paramAreaSize: nat,
    bootParams: seq<nat>,
    launchInfo: seq<nat>,
    symbols: Option<Symbols>)
  {
    /** The region is usable as a direct map. */
    ghost predicate Valid()
    {
      && IsLargeAligned(regionStart)
      && regionStart + 0x200000 * RoundToLargePages(4096 * regionPages) <= 0x10_0000_0000_0000
    }

    /** The parameter area has the pages that the parameter block needs. */
    predicate AreaHoldsParams()
    {
      RoundToPages(|bootParams|) <= RoundToPages(paramAreaSize)
    }
  }

  /** Kernel image, stack with its guard page, and IDT; the direct map starts at the next 2 MB. */
  function DirectMapBase(elf: ElfImage): nat
    requires elf.base <= elf.End()
  {
    AlignUp2M(elf.base + (PageAlignUp(elf.End() - elf.base) + 8 * 4096 + 2 * 4096))
  }

  ghost function SymbolBytes(p: Params): seq<nat>
  {
    if p.symbols.Some? then Flatten(p.symbols.value.records) else []
  }

  ghost function StrtabPages(p: Params): nat
  {
    if p.symbols.Some? then RoundToPages(|p.symbols.value.strtab|) else 0
  }

  /** Where everything the heap hands out ends up. */
  datatype Plan = Plan(
    layout: Layout, root: nat, stack: nat, idt: nat, params: nat, cpuid: nat, secrets: nat,
    symbols: nat, strtab: nat, launch: nat, end: nat)

  /** What follows the page tables, in the order the heap hands it out. */
  ghost predicate Follows(p: Params, plan: Plan)
  {
    && plan.idt == plan.stack + 8 * 4096
    && plan.params == plan.idt + 4096
    && plan.cpuid == plan.params + 4096 * RoundToPages(p.paramAreaSize)
    && plan.secrets == plan.cpuid + 4096
    && plan.symbols == plan.secrets + 4096
    && plan.strtab == plan.symbols + 4096 * RoundToPages(|SymbolBytes(p)|)
    && plan.launch == plan.strtab + 4096 * StrtabPages(p)
    && plan.end == plan.launch + 4096 * RoundToPages(|p.launchInfo|)
  }

  ghost predicate Placed(elf: ElfImage, p: Params, plan: Plan, seal: Seal)
    requires elf.Ordered() && elf.base <= elf.End()
  {
    && plan.root == SegmentPaddr(elf, |elf.segments|, p.regionStart)
    && LaidOut(plan.layout, elf.base, DirectMapBase(elf), p.regionStart, p.regionPages * 4096)
    && plan.stack == plan.root + 4096 * (plan.layout.pdeCount + 3)
    && Follows(p, plan)
  }

  /** The kernel at the start of the region, then the page tables, then the rest. */
  ghost predicate Planned(elf: ElfImage, p: Params, plan: Plan)
    requires elf.Ordered() && elf.base <= elf.End()
  {
    forall seal: Seal :: Placed(elf, p, plan, seal)
  }

  lemma PlanExists(elf: ElfImage, p: Params) returns (plan: Plan)
    requires elf.Ordered() && elf.base <= elf.End()
    ensures Planned(elf, p, plan)
  {
    var root := SegmentPaddr(elf, |elf.segments|, p.regionStart);
    var layout := LayoutFor(elf.base, DirectMapBase(elf), p.regionStart, p.regionPages * 4096);
    LayoutExists(elf.base, DirectMapBase(elf), p.regionStart, p.regionPages * 4096, layout);
    var stack := root + 4096 * (layout.pdeCount + 3);
    var params := stack + 9 * 4096;
    var cpuid := params + 4096 * RoundToPages(p.paramAreaSize);
    var symbols := cpuid + 2 * 4096;
    var strtab := symbols + 4096 * RoundToPages(|SymbolBytes(p)|);
    var launch := strtab + 4096 * StrtabPages(p);
    plan := Plan(layout, root, stack, stack + 8 * 4096, params, cpuid, cpuid + 4096, symbols, strtab, launch,
                 launch + 4096 * RoundToPages(|p.launchInfo|));
  }

  lemma PlanFacts(elf: ElfImage, p: Params, plan: Plan)
    requires elf.Ordered() && elf.base <= elf.End() && Planned(elf, p, plan)
    ensures Placed(elf, p, plan, Seal)
  {
  }

  lemma EndAboveBase(elf: ElfImage)
    requires elf.Ordered()
    ensures elf.base <= elf.End()
  {
  }

  /** The emissions, in order. */
  ghost function SymbolPart(p: Params, plan: Plan): seq<Emission>
  {
    if p.symbols.Some? then SymbolEmissions(p.symbols.value.records, p.symbols.value.strtab, plan.symbols) else []
  }

  ghost function ParamsPart(p: Params, plan: Plan): seq<Emission>
  {
    [Emission(plan.params, Bytes(p.bootParams), 4096 * RoundToPages(|p.bootParams|))]
  }

  ghost function LaunchPart(p: Params, plan: Plan): seq<Emission>
  {
    [Emission(plan.launch, Bytes(p.launchInfo), 4096 * RoundToPages(|p.launchInfo|))]
  }

  /** Seven zero pages, then the page that holds the launch state at its top. */
  ghost function StackPart(plan: Plan, launchVaddr: nat, stackBase: nat): seq<Emission>
  {
    [Emission(plan.stack, Contents.Zeros, 7 * 4096),
     Emission(plan.stack + 7 * 4096, Entries(StackPage(plan.root, launchVaddr, stackBase)), 4096)]
  }

  function StackPage(root: nat, launchVaddr: nat, stackBase: nat): seq<nat>
  {
    seq(509, _ => 0) + [root, launchVaddr, stackBase]
  }

  ghost function PlanEmissions(elf: ElfImage, p: Params, plan: Plan, ptes: seq<nat>, launchVaddr: nat, stackBase: nat)
      : seq<Emission>
    requires elf.Ordered()
  {
    UpperEmissions(plan.layout, plan.root)
    + SegmentEmissions(elf, |elf.segments|, p.regionStart)
    + ParamsPart(p, plan)
    + SymbolPart(p, plan)
    + [LeafEmission(plan.root, ptes)]
    + LaunchPart(p, plan)
    + StackPart(plan, launchVaddr, stackBase)
  }

  // ---- disjointness ----

  ghost function Extents(emissions: seq<Emission>): seq<Interval>
  {
    seq(|emissions|, i requires 0 <= i < |emissions| => emissions[i].Extent())
  }

  /** The emissions stay in `[lo, hi)` and do not meet each other. */
  ghost predicate Fits(emissions: seq<Emission>, lo: nat, hi: nat)
  {
    AllApart(Extents(emissions)) && AllWithin(Extents(emissions), lo, hi)
  }

  ghost predicate ClearOf(emissions: seq<Emission>, lo: nat, hi: nat)
  {
    forall i :: 0 <= i < |emissions| ==> Apart(emissions[i].Extent(), Interval(lo, hi))
  }

  lemma ExtentsJoin(a: seq<Emission>, b: seq<Emission>)
    ensures Extents(a + b) == Extents(a) + Extents(b)
  {
  }

  lemma FitsClear(emissions: seq<Emission>, lo: nat, hi: nat, from: nat, to: nat)
    requires Fits(emissions, lo, hi) && (hi <= from || to <= lo)
    ensures ClearOf(emissions, from, to)
  {
    forall i | 0 <= i < |emissions| ensures Apart(emissions[i].Extent(), Interval(from, to)) {
      assert emissions[i].Extent() == Extents(emissions)[i];
    }
  }

  lemma ClearJoin(a: seq<Emission>, b: seq<Emission>, lo: nat, hi: nat)
    requires ClearOf(a, lo, hi) && ClearOf(b, lo, hi)
    ensures ClearOf(a + b, lo, hi)
  {
  }

  lemma JoinApart(a: seq<Emission>, b: seq<Emission>, lo: nat, hi: nat)
    requires AllApart(Extents(a)) && ClearOf(a, lo, hi) && Fits(b, lo, hi)
    ensures AllApart(Extents(a + b))
  {
    ExtentsJoin(a, b);
    var x, y := Extents(a), Extents(b);
    forall i, j | 0 <= i < |x| && 0 <= j < |y| ensures Apart(x[i], y[j]) {
      assert x[i] == a[i].Extent() && Apart(a[i].Extent(), Interval(lo, hi));
      assert lo <= y[j].start <= y[j].end <= hi;
    }
  }

  lemma JoinWithin(a: seq<Emission>, b: seq<Emission>, lo: nat, hi: nat)
    requires AllWithin(Extents(a), lo, hi) && AllWithin(Extents(b), lo, hi)
    ensures AllWithin(Extents(a + b), lo, hi)
  {
    ExtentsJoin(a, b);
  }

  lemma {:induction false} SegmentsFit(elf: ElfImage, n: nat, paddr: nat)
    requires elf.Ordered() && n <= |elf.segments|
    ensures Fits(SegmentEmissions(elf, n, paddr), paddr, SegmentPaddr(elf, n, paddr))
  {
    if n > 0 {
      SegmentsFit(elf, n - 1, paddr);
      var before := SegmentEmissions(elf, n - 1, paddr);
      var lo, hi := SegmentPaddr(elf, n - 1, paddr), SegmentPaddr(elf, n, paddr);
      var last := [SegmentEmission(elf.segments[n - 1], lo)];
      FitsClear(before, paddr, lo, lo, hi);
      JoinApart(before, last, lo, hi);
      JoinWithin(before, last, paddr, hi);
    }
  }

  lemma {:induction false} SheetsFit(bytes: seq<nat>, paddr: nat)
    ensures Fits(Sheets(bytes, paddr), paddr, paddr + 4096 * RoundToPages(|bytes|))
  {
    var sheets := Sheets(bytes, paddr);
    SheetsCount(bytes, paddr);
    forall k | 0 <= k < |sheets| ensures Extents(sheets)[k] == Interval(paddr + 4096 * k, paddr + 4096 * k + 4096) {
      SheetsLayout(bytes, paddr, k);
    }
  }

  /** A part of the image and the interval it keeps to. */
  datatype Part = Part(emissions: seq<Emission>, lo: nat, hi: nat)

  ghost function Joined(parts: seq<Part>): seq<Emission>
  {
    if parts == [] then [] else Joined(parts[..|parts| - 1]) + parts[|parts| - 1].emissions
  }

  ghost predicate PartsApart(parts: seq<Part>)
  {
    forall i, j :: 0 <= i < j < |parts| ==> parts[i].hi <= parts[j].lo || parts[j].hi <= parts[i].lo
  }

  lemma {:induction false} JoinedClear(parts: seq<Part>, lo: nat, hi: nat)
    requires forall i :: 0 <= i < |parts| ==>
      && Fits(parts[i].emissions, parts[i].lo, parts[i].hi)
      && (parts[i].hi <= lo || hi <= parts[i].lo)
    ensures ClearOf(Joined(parts), lo, hi)
    decreases |parts|
  {
    if parts != [] {
      var n := |parts| - 1;
      JoinedClear(parts[..n], lo, hi);
      FitsClear(parts[n].emissions, parts[n].lo, parts[n].hi, lo, hi);
      ClearJoin(Joined(parts[..n]), parts[n].emissions, lo, hi);
    }
  }

  /** Parts that keep to disjoint intervals make a disjoint image. */
  lemma {:induction false} JoinedApart(parts: seq<Part>, lo: nat, hi: nat)
    requires PartsApart(parts)
    requires forall i :: 0 <= i < |parts| ==>
      && Fits(parts[i].emissions, parts[i].lo, parts[i].hi)
      && lo <= parts[i].lo <= parts[i].hi <= hi
    ensures Fits(Joined(parts), lo, hi)
    decreases |parts|
  {
    if parts != [] {
      var n := |parts| - 1;
      JoinedApart(parts[..n], lo, hi);
      JoinedClear(parts[..n], parts[n].lo, parts[n].hi);
      JoinApart(Joined(parts[..n]), parts[n].emissions, parts[n].lo, parts[n].hi);
      JoinWithin(Joined(parts[..n]), parts[n].emissions, lo, hi);
    }
  }

  lemma SymbolPartFits(p: Params, plan: Plan)
    requires plan.strtab == plan.symbols + 4096 * RoundToPages(|SymbolBytes(p)|)
    requires plan.launch == plan.strtab + 4096 * StrtabPages(p)
    ensures Fits(SymbolPart(p, plan), plan.symbols, plan.launch)
  {
    if p.symbols.Some? {
      var bytes, strtab := Flatten(p.symbols.value.records), p.symbols.value.strtab;
      var sheets := Sheets(bytes, plan.symbols);
      var last := [Emission(plan.strtab, Bytes(strtab), 4096 * RoundToPages(|strtab|))];
      SheetsFit(bytes, plan.symbols);
      FitsClear(sheets, plan.symbols, plan.strtab, plan.strtab, plan.launch);
      JoinApart(sheets, last, plan.strtab, plan.launch);
      JoinWithin(sheets, last, plan.symbols, plan.launch);
    }
  }

  ghost function PlanParts(elf: ElfImage, p: Params, plan: Plan, ptes: seq<nat>, launchVaddr: nat, stackBase: nat)
      : seq<Part>
    requires elf.Ordered() && elf.base <= elf.End()
  {
    [Part(UpperEmissions(plan.layout, plan.root), plan.root, plan.root + 0x3000),
     Part(SegmentEmissions(elf, |elf.segments|, p.regionStart), p.regionStart, plan.root),
     Part(ParamsPart(p, plan), plan.params, plan.cpuid),
     Part(SymbolPart(p, plan), plan.symbols, plan.launch),
     Part([LeafEmission(plan.root, ptes)], plan.root + 0x3000, plan.stack),
     Part(LaunchPart(p, plan), plan.launch, plan.end),
     Part(StackPart(plan, launchVaddr, stackBase), plan.stack, plan.idt)]
  }

  lemma PlanJoined(elf: ElfImage, p: Params, plan: Plan, ptes: seq<nat>, launchVaddr: nat, stackBase: nat)
    requires elf.Ordered() && elf.base <= elf.End()
    ensures Joined(PlanParts(elf, p, plan, ptes, launchVaddr, stackBase)) == PlanEmissions(elf, p, plan, ptes, launchVaddr, stackBase)
  {
    var parts := PlanParts(elf, p, plan, ptes, launchVaddr, stackBase);
    assert parts[..7] == parts;
    assert parts[..6][..5] == parts[..5] && parts[..5][..4] == parts[..4] && parts[..4][..3] == parts[..3];
    assert parts[..3][..2] == parts[..2] && parts[..2][..1] == parts[..1] && parts[..1][..0] == [];
    assert Joined(parts[..1]) == parts[0].emissions;
    assert Joined(parts[..2]) == parts[0].emissions + parts[1].emissions;
    assert Joined(parts[..3]) == Joined(parts[..2]) + parts[2].emissions;
    assert Joined(parts[..4]) == Joined(parts[..3]) + parts[3].emissions;
    assert Joined(parts[..5]) == Joined(parts[..4]) + parts[4].emissions;
    assert Joined(parts[..6]) == Joined(parts[..5]) + parts[5].emissions;
  }

  lemma ThreeFit(a: Emission, b: Emission, c: Emission, root: nat)
    requires a.paddr == root && b.paddr == root + 0x1000 && c.paddr == root + 0x2000
    requires a.size == b.size == c.size == 0x1000
    ensures Fits([a, b, c], root, root + 0x3000)
  {
    assert Extents([a, b, c]) == [a.Extent(), b.Extent(), c.Extent()];
  }

  lemma UpperFits(l: Layout, root: nat)
    ensures Fits(UpperEmissions(l, root), root, root + 0x3000)
  {
    var e := UpperEmissions(l, root);
    assert e == [e[0], e[1], e[2]];
    ThreeFit(e[0], e[1], e[2], root);
  }

  lemma StackFits(plan: Plan, launchVaddr: nat, stackBase: nat)
    requires plan.idt == plan.stack + 8 * 4096
    ensures Fits(StackPart(plan, launchVaddr, stackBase), plan.stack, plan.idt)
  {
    var e := Extents(StackPart(plan, launchVaddr, stackBase));
    assert e == [Interval(plan.stack, plan.stack + 7 * 4096), Interval(plan.stack + 7 * 4096, plan.idt)];
  }

  lemma OneFits(e: Emission, lo: nat, hi: nat)
    requires lo <= e.paddr && e.paddr + e.size <= hi
    ensures Fits([e], lo, hi)
  {
    assert Extents([e]) == [e.Extent()];
  }

  ghost predicate AllFit(parts: seq<Part>)
  {
    forall i :: 0 <= i < |parts| ==> Fits(parts[i].emissions, parts[i].lo, parts[i].hi)
  }

  lemma PlanPartsFit(elf: ElfImage, p: Params, plan: Plan, ptes: seq<nat>, launchVaddr: nat, stackBase: nat)
    requires elf.Ordered() && elf.base <= elf.End() && Placed(elf, p, plan, Seal) && p.AreaHoldsParams()
    requires |ptes| == plan.layout.EndPte()
    ensures AllFit(PlanParts(elf, p, plan, ptes, launchVaddr, stackBase))
  {
    UpperFits(plan.layout, plan.root);
    SegmentsFit(elf, |elf.segments|, p.regionStart);
    OneFits(ParamsPart(p, plan)[0], plan.params, plan.cpuid);
    SymbolPartFits(p, plan);
    assert LaidOutAs(plan.layout, elf.base, DirectMapBase(elf), p.regionStart, p.regionPages * 4096, Seal);
    OneFits(LeafEmission(plan.root, ptes), plan.root + 0x3000, plan.stack);
    OneFits(LaunchPart(p, plan)[0], plan.launch, plan.end);
    StackFits(plan, launchVaddr, stackBase);
  }

  ghost predicate Rises(plan: Plan, start: nat)
  {
    && start <= plan.root && plan.root + 0x3000 <= plan.stack
    && plan.stack <= plan.idt <= plan.params <= plan.cpuid <= plan.symbols <= plan.launch <= plan.end
  }

  ghost predicate Bounded(parts: seq<Part>, plan: Plan, start: nat)
  {
    && |parts| == 7
    && parts[0].lo == plan.root && parts[0].hi == plan.root + 0x3000
    && parts[1].lo == start && parts[1].hi == plan.root
    && parts[2].lo == plan.params && parts[2].hi == plan.cpuid
    && parts[3].lo == plan.symbols && parts[3].hi == plan.launch
    && parts[4].lo == plan.root + 0x3000 && parts[4].hi == plan.stack
    && parts[5].lo == plan.launch && parts[5].hi == plan.end
    && parts[6].lo == plan.stack && parts[6].hi == plan.idt
  }

  lemma BoundsApart(parts: seq<Part>, plan: Plan, start: nat)
    requires Rises(plan, start) && Bounded(parts, plan, start)
    ensures PartsApart(parts)
    ensures forall i :: 0 <= i < |parts| ==>
      && start <= parts[i].lo <= parts[i].hi <= plan.end
      && (parts[i].hi <= plan.idt || plan.params <= parts[i].lo)
      && (parts[i].hi <= plan.cpuid || plan.symbols <= parts[i].lo)
  {
  }

  /**
   The emitted pages are pairwise disjoint and inside the kernel region, and leave alone the
   pages handed out for the IDT and for the host to fill, CPUID and secrets.
   */
  ghost predicate Undisturbed(emissions: seq<Emission>, p: Params, plan: Plan)
  {
    && Fits(emissions, p.regionStart, p.regionStart + 4096 * p.regionPages)
    && ClearOf(emissions, plan.idt, plan.params)
    && ClearOf(emissions, plan.cpuid, plan.symbols)
  }

  lemma PartsUndisturbed(parts: seq<Part>, p: Params, plan: Plan)
    requires AllFit(parts) && Rises(plan, p.regionStart) && Bounded(parts, plan, p.regionStart)
    requires plan.end <= p.regionStart + 4096 * p.regionPages
    ensures Undisturbed(Joined(parts), p, plan)
  {
    BoundsApart(parts, plan, p.regionStart);
    JoinedApart(parts, p.regionStart, p.regionStart + 4096 * p.regionPages);
    JoinedClear(parts, plan.idt, plan.params);
    JoinedClear(parts, plan.cpuid, plan.symbols);
  }

  lemma EmissionsApart(elf: ElfImage, p: Params, plan: Plan, ptes: seq<nat>, launchVaddr: nat, stackBase: nat)
    requires elf.Ordered() && elf.base <= elf.End() && p.Valid() && p.AreaHoldsParams()
    requires Planned(elf, p, plan) && plan.end <= p.regionStart + 4096 * p.regionPages
    requires |ptes| == plan.layout.EndPte()
    ensures Undisturbed(PlanEmissions(elf, p, plan, ptes, launchVaddr, stackBase), p, plan)
  {
    var parts := PlanParts(elf, p, plan, ptes, launchVaddr, stackBase);
    assert AllFit(parts) && Rises(plan, p.regionStart) by {
      PlanFacts(elf, p, plan);
      PlanPartsFit(elf, p, plan, ptes, launchVaddr, stackBase);
    }
    PartsUndisturbed(parts, p, plan);
    PlanJoined(elf, p, plan, ptes, launchVaddr, stackBase);
  }

  /** A parameter block that needs more pages than its area has runs into the CPUID page. */
  lemma ParamsOverrun(elf: ElfImage, p: Params, plan: Plan, ptes: seq<nat>, launchVaddr: nat, stackBase: nat)
    requires elf.Ordered() && elf.base <= elf.End() && Planned(elf, p, plan) && !p.AreaHoldsParams()
    ensures !ClearOf(PlanEmissions(elf, p, plan, ptes, launchVaddr, stackBase), plan.cpuid, plan.symbols)
  {
    PlanFacts(elf, p, plan);
    var emissions := PlanEmissions(elf, p, plan, ptes, launchVaddr, stackBase);
    var block := ParamsPart(p, plan)[0];
    assert block in emissions;
    assert !Apart(block.Extent(), Interval(plan.cpuid, plan.symbols));
  }

  /** It happens: one byte of parameters, and no area for it. */
  lemma ParamsOverrunHappens(ptes: seq<nat>, launchVaddr: nat, stackBase: nat)
      returns (elf: ElfImage, p: Params, plan: Plan)
    ensures elf == ElfImage(0x200000, [Segment(0x200000, 0x201000, [], false, true)]) && elf.Valid()
    ensures p == Params(0, 4096, 0, [1], [0], None) && p.Valid()
    ensures elf.base <= elf.End() && Planned(elf, p, plan)
    ensures !Undisturbed(PlanEmissions(elf, p, plan, ptes, launchVaddr, stackBase), p, plan)
  {
    elf := ElfImage(0x200000, [Segment(0x200000, 0x201000, [], false, true)]);
    p := Params(0, 4096, 0, [1], [0], None);
    plan := PlanExists(elf, p);
    ParamsOverrun(elf, p, plan, ptes, launchVaddr, stackBase);
  }

  /** The parameter area alone decides whether the image comes out undisturbed. */
  lemma UndisturbedExactly(elf: ElfImage, p: Params, plan: Plan, ptes: seq<nat>, launchVaddr: nat, stackBase: nat)
    requires elf.Ordered() && elf.base <= elf.End() && p.Valid()
    requires Planned(elf, p, plan) && plan.end <= p.regionStart + 4096 * p.regionPages
    requires |ptes| == plan.layout.EndPte()
    ensures Undisturbed(PlanEmissions(elf, p, plan, ptes, launchVaddr, stackBase), p, plan) <==> p.AreaHoldsParams()
  {
    if p.AreaHoldsParams() {
      EmissionsApart(elf, p, plan, ptes, launchVaddr, stackBase);
    } else {
      ParamsOverrun(elf, p, plan, ptes, launchVaddr, stackBase);
    }
  }

  // ---- the virtual layout ----

  /** Ascending ranges that end at or below `bound`. */
  ghost predicate Ascending(ranges: seq<Range>, bound: nat)
  {
    && (forall a :: 0 <= a < |ranges| ==> ranges[a].first + ranges[a].count <= bound)
    && (forall a, b :: 0 <= a < b < |ranges| ==> ranges[a].first + ranges[a].count <= ranges[b].first)
  }

  lemma AscendingAdd(ranges: seq<Range>, r: Range, bound: nat)
    requires Ascending(ranges, r.first) && r.first + r.count <= bound
    ensures Ascending(ranges + [r], bound)
  {
  }

  lemma AscendingApart(ranges: seq<Range>, bound: nat)
    requires Ascending(ranges, bound)
    ensures RangesApart(ranges)
  {
  }

  lemma SegmentsBefore(elf: ElfImage, i: nat)
    requires elf.Ordered() && Aligned(elf) && i + 1 < |elf.segments|
    ensures var s := elf.segments[i];
      PageNumber(s.begin) + SegmentPages(s) <= PageNumber(elf.segments[i + 1].begin)
  {
    assert elf.segments[i].end <= elf.segments[i + 1].begin;
  }

  /** The kernel's pages ascend and end with the image. */
  lemma {:induction false} SegmentRangesAscend(elf: ElfImage, n: nat, paddr: nat)
    requires elf.Valid() && Aligned(elf) && n <= |elf.segments|
    ensures Ascending(SegmentRanges(elf, n, paddr),
      if n < |elf.segments| then PageNumber(elf.segments[n].begin) - PageNumber(elf.base)
      else RoundToPages(elf.End() - elf.base))
  {
    if n > 0 {
      SegmentRangesAscend(elf, n - 1, paddr);
      var last := SegmentRange(elf.base, elf.segments[n - 1], SegmentPaddr(elf, n - 1, paddr));
      if n < |elf.segments| {
        SegmentsBefore(elf, n - 1);
        AscendingAdd(SegmentRanges(elf, n - 1, paddr), last, PageNumber(elf.segments[n].begin) - PageNumber(elf.base));
      } else {
        SegmentInSpan(elf, n - 1);
        AscendingAdd(SegmentRanges(elf, n - 1, paddr), last, RoundToPages(elf.End() - elf.base));
      }
    }
  }

  /** The kernel image, then a guard page, then the stack and the IDT. */
  ghost function AllRanges(elf: ElfImage, p: Params, plan: Plan): seq<Range>
    requires elf.Ordered() && elf.base <= elf.End()
  {
    var guard := RoundToPages(elf.End() - elf.base);
    SegmentRanges(elf, |elf.segments|, p.regionStart)
    + [Range(guard + 1, 8, plan.stack, RwData)]
    + [Range(guard + 9, 1, plan.idt, RwData)]
  }

  /** Image, stack and IDT never overlap, and no range covers the guard page between image and stack. */
  lemma RangesLaidOut(elf: ElfImage, p: Params, plan: Plan)
    requires elf.Valid() && Aligned(elf) && elf.base <= elf.End()
    ensures RangesApart(AllRanges(elf, p, plan))
    ensures forall a :: 0 <= a < |AllRanges(elf, p, plan)| ==>
      !AllRanges(elf, p, plan)[a].Covers(RoundToPages(elf.End() - elf.base))
  {
    var guard := RoundToPages(elf.End() - elf.base);
    var segments := SegmentRanges(elf, |elf.segments|, p.regionStart);
    SegmentRangesAscend(elf, |elf.segments|, p.regionStart);
    var stack, idt := Range(guard + 1, 8, plan.stack, RwData), Range(guard + 9, 1, plan.idt, RwData);
    AscendingAdd(segments, stack, guard + 9);
    AscendingAdd(segments + [stack], idt, guard + 10);
    AscendingApart(segments + [stack] + [idt], guard + 10);
  }

  // ---- the builder ----

  /** The heap takes what follows the loaded kernel in the region. */
  method CreateKernelHeap(physBase: nat, pageCount: nat, sizes: ElfSizes, directMapBase: nat)
      returns (r: Result<KernelPageHeap>)
    requires IsPageAligned(physBase)
    ensures r.Err? <==> sizes.physPageCount > pageCount
    ensures r.Err? ==> r.error == KernelTooBig
    ensures r.Ok? ==>
      && fresh(r.value) && r.value.Valid() && r.value.nextFree == 0
      && r.value.physBase == physBase + 4096 * sizes.physPageCount
      && r.value.virtBase - directMapBase == r.value.physBase - physBase
      && r.value.physBase + 4096 * r.value.pageCount == physBase + 4096 * pageCount
  {
    var kernelSize := sizes.physPageCount * 4096;
    if sizes.physPageCount > pageCount {
      return Err(KernelTooBig);
    }
    var heap := new KernelPageHeap(physBase + kernelSize, pageCount - sizes.physPageCount, directMapBase + kernelSize);
    r := Ok(heap);
  }

  lemma RoomBehindKernel(elf: ElfImage)
    requires elf.base <= elf.End()
    ensures RoundToPages(elf.End() - elf.base) + 10 <= RoundToPages(DirectMapBase(elf) - elf.base)
    ensures elf.End() <= DirectMapBase(elf)
    ensures PageAlignUp(elf.End() - elf.base) == 4096 * RoundToPages(elf.End() - elf.base)
  {
    var n := RoundToPages(elf.End() - elf.base);
    RoundsTo(4096 * (n + 10), n + 10);
    PagesMonotone(4096 * (n + 10), DirectMapBase(elf) - elf.base);
  }

  datatype StackAndIdt = StackAndIdt(stackPaddr: nat, stackBase: nat, idtVaddr: nat)

  /** The stack behind a guard page, and the IDT behind the stack. */
  method MapStackAndIdt(elf: ElfImage, p: Params, ghost plan: Plan, sizes: ElfSizes, tables: KernelPageTables, heap: KernelPageHeap)
      returns (r: Result<StackAndIdt>)
    requires elf.Valid() && Aligned(elf) && elf.base <= elf.End()
    requires sizes.virtBase == elf.base && sizes.virtLen == PageAlignUp(elf.End() - elf.base)
    requires tables.Valid() && tables.layout == plan.layout
    requires tables.ranges == SegmentRanges(elf, |elf.segments|, p.regionStart)
    requires plan.layout.virtBase == elf.base && plan.layout.directMap == DirectMapBase(elf)
    requires heap.Valid() && heap.Frontier() == plan.stack && Follows(p, plan)
    modifies tables`ranges, tables.ptes, heap
    ensures tables.Valid() && heap.Valid()
    ensures r.Ok? ==>
      && tables.ranges == AllRanges(elf, p, plan)
      && heap.Frontier() == plan.params
      && r.value.stackPaddr == plan.stack
      && r.value.stackBase == elf.base + sizes.virtLen + 4096
      && r.value.idtVaddr == r.value.stackBase + 8 * 4096
    ensures r.Err? ==> r.error == HeapTooSmall
  {
    ghost var guard := RoundToPages(elf.End() - elf.base);
    tables.Unseal();
    assert plan.layout.Derived(Seal);
    RoomBehindKernel(elf);
    AlignedPlus(elf.base, guard + 1);
    AlignedPlus(elf.base, guard + 9);
    var stackBase := sizes.virtBase + sizes.virtLen + 4096;
    var stack := MapHeapPages(stackBase, 8, guard + 1, tables, heap);
    if stack.Err? {
      return Err(stack.error);
    }
    var idtVaddr := stackBase + 8 * 4096;
    var idt := MapHeapPages(idtVaddr, 1, guard + 9, tables, heap);
    if idt.Err? {
      return Err(idt.error);
    }
    r := Ok(StackAndIdt(stack.value, stackBase, idtVaddr));
  }

  /** Takes pages from the heap and maps them at `vaddr`, the page `first` of the kernel span. */
  method MapHeapPages(vaddr: nat, count: nat, ghost first: nat, tables: KernelPageTables, heap: KernelPageHeap)
      returns (r: Result<nat>)
    requires tables.Valid() && heap.Valid() && IsPageAligned(vaddr) && count > 0
    requires PageNumber(vaddr) == PageNumber(tables.layout.virtBase) + first
    requires first + count <= tables.layout.pteCount
    modifies tables`ranges, tables.ptes, heap
    ensures tables.Valid() && heap.Valid()
    ensures r.Ok? ==>
      && r.value == old(heap.Frontier()) && heap.Frontier() == r.value + 4096 * count
      && tables.ranges == old(tables.ranges) + [Range(first, count, r.value, RwData)]
    ensures r.Err? ==> r.error == HeapTooSmall
  {
    tables.Unseal();
    var allocation := heap.AllocatePages(count);
    if allocation.Err? {
      return Err(allocation.error);
    }
    AlignedPlus(heap.physBase, heap.nextFree - count);
    RoundsTo(4096 * count, count);
    var mapped := tables.MapRange(vaddr, 4096 * count, allocation.value.paddr, RwData);
    assert mapped.Ok?;
    r := Ok(allocation.value.paddr);
  }

  datatype Data = Data(bootParams: Allocation, cpuid: Allocation, secrets: Allocation, symtab: Span, strtab: Span)

  /** The boot parameters, and pages for CPUID and secrets. */
  method AddParams(p: Params, ghost plan: Plan, heap: KernelPageHeap, image: Image)
      returns (r: Result<(Allocation, Allocation, Allocation)>)
    requires heap.Valid() && heap.Frontier() == plan.params && Follows(p, plan)
    modifies heap, image
    ensures r.Ok? ==>
      && heap.Valid() && heap.Frontier() == plan.symbols
      && image.emitted == old(image.emitted) + ParamsPart(p, plan)
      && r.value.0.paddr == plan.params && r.value.1.paddr == plan.cpuid && r.value.2.paddr == plan.secrets
  {
    var bootParams := heap.AllocatePages(RoundToPages(p.paramAreaSize));
    if bootParams.Err? {
      return Err(bootParams.error);
    }
    var done := image.AddPageData(bootParams.value.paddr, Bytes(p.bootParams), PageAlignUp(|p.bootParams|));
    if done.Err? {
      return Err(done.error);
    }
    var cpuid := heap.AllocatePages(1);
    if cpuid.Err? {
      return Err(cpuid.error);
    }
    var secrets := heap.AllocatePages(1);
    if secrets.Err? {
      return Err(secrets.error);
    }
    r := Ok((bootParams.value, cpuid.value, secrets.value));
  }

  /** The kernel's symbol tables, if it has any. */
  method AddSymbols(p: Params, ghost plan: Plan, heap: KernelPageHeap, image: Image) returns (r: Result<(Span, Span)>)
    requires heap.Valid() && heap.Frontier() == plan.symbols && Follows(p, plan)
    modifies heap, image
    ensures r.Ok? ==>
      && heap.Valid() && heap.Frontier() == plan.launch
      && image.emitted == old(image.emitted) + SymbolPart(p, plan)
  {
    if p.symbols.None? {
      return Ok((Span(0, 0), Span(0, 0)));
    }
    r := AllocateKernelSymbols(p.symbols.value.records, p.symbols.value.strtab, heap, image);
  }

  /** The boot parameters, the CPUID and secrets pages, and the symbol tables. */
  method AddData(p: Params, ghost plan: Plan, heap: KernelPageHeap, image: Image) returns (r: Result<Data>)
    requires heap.Valid() && heap.Frontier() == plan.params && Follows(p, plan)
    modifies heap, image
    ensures r.Ok? ==>
      && heap.Valid() && heap.Frontier() == plan.launch
      && image.emitted == old(image.emitted) + ParamsPart(p, plan) + SymbolPart(p, plan)
      && r.value.bootParams.paddr == plan.params
      && r.value.cpuid.paddr == plan.cpuid && r.value.secrets.paddr == plan.secrets
  {
    var params := AddParams(p, plan, heap, image);
    if params.Err? {
      return Err(params.error);
    }
    var spans := AddSymbols(p, plan, heap, image);
    if spans.Err? {
      return Err(spans.error);
    }
    r := Ok(Data(params.value.0, params.value.1, params.value.2, spans.value.0, spans.value.1));
  }

  /** The leaf tables, the launch information and the initial stack. */
  method Finish(p: Params, ghost plan: Plan, tables: KernelPageTables, stackPaddr: nat, stackBase: nat,
                heap: KernelPageHeap, image: Image) returns (r: Result<Allocation>)
    requires tables.Valid() && tables.pagingRoot == plan.root && Follows(p, plan)
    requires stackPaddr == plan.stack
    requires heap.Valid() && heap.Frontier() == plan.launch
    modifies heap, image
    ensures heap.Valid()
    ensures r.Ok? ==>
      && r.value.vaddr - heap.virtBase == plan.launch - heap.physBase
      && heap.Frontier() == plan.end
      && image.emitted == old(image.emitted) + [LeafEmission(tables.pagingRoot, tables.ptes[..])]
        + LaunchPart(p, plan) + StackPart(plan, r.value.vaddr, stackBase)
  {
    var done := tables.AddToImage(image);
    if done.Err? {
      return Err(done.error);
    }
    var launch := heap.AllocatePages(RoundToPages(|p.launchInfo|));
    if launch.Err? {
      return Err(launch.error);
    }
    done := image.AddPageData(launch.value.paddr, Bytes(p.launchInfo), PageAlignUp(|p.launchInfo|));
    if done.Err? {
      return Err(done.error);
    }
    done := image.AddPageData(stackPaddr, Contents.Zeros, 7 * 4096);
    if done.Err? {
      return Err(done.error);
    }
    done := image.AddPageData(
      stackPaddr + 7 * 4096, Entries(StackPage(tables.pagingRoot, launch.value.vaddr, stackBase)), 4096);
    if done.Err? {
      return Err(done.error);
    }
    r := launch;
  }

  datatype Loaded = Loaded(sizes: ElfSizes, tables: KernelPageTables, heap: KernelPageHeap)

  /** The layout the tables are set up with is the planned one. */
  lemma MeetsPlan(elf: ElfImage, p: Params, plan: Plan, layout: Layout, directMap: nat)
    requires elf.Valid() && p.Valid() && elf.base <= elf.End() && Planned(elf, p, plan)
    requires directMap == DirectMapBase(elf)
    requires LaidOut(layout, elf.base, directMap, p.regionStart, p.regionPages * 4096)
    ensures plan.layout == layout && plan.stack == plan.root + 4096 * (layout.pdeCount + 3)
    ensures plan.root == SegmentPaddr(elf, |elf.segments|, p.regionStart)
    ensures layout.virtBase == elf.base && layout.directMap == directMap
  {
    PlanFacts(elf, p, plan);
    LayoutUnique(plan.layout, layout, elf.base, directMap, p.regionStart, p.regionPages * 4096);
    LayoutValid(layout, elf.base, directMap, p.regionStart, p.regionPages * 4096);
  }

  /** Sizes, heap and page tables. */
  method SetUp(elf: ElfImage, p: Params, ghost plan: Plan, image: Image) returns (r: Result<Loaded>)
    requires elf.Valid() && p.Valid() && elf.base <= elf.End() && Planned(elf, p, plan)
    modifies image
    ensures r.Ok? ==>
      && r.value.sizes == ElfSizes(elf.base, PageAlignUp(elf.End() - elf.base), PagesBefore(elf, |elf.segments|))
      && fresh(r.value.tables) && fresh(r.value.tables.ptes) && fresh(r.value.heap)
      && r.value.tables.Valid() && r.value.tables.layout == plan.layout && r.value.tables.ranges == []
      && plan.layout.virtBase == elf.base && plan.layout.directMap == DirectMapBase(elf)
      && r.value.tables.pagingRoot == plan.root
      && r.value.heap.Valid() && r.value.heap.Frontier() == plan.stack
      && r.value.heap.physBase + 4096 * r.value.heap.pageCount == p.regionStart + 4096 * p.regionPages
      && image.emitted == old(image.emitted) + UpperEmissions(plan.layout, plan.root)
  {
    var sizes := GetElfSizes(elf);
    var virtualSpan := sizes.virtLen + 8 * 4096 + 2 * 4096;
    var directMapBase := AlignUp2M(sizes.virtBase + virtualSpan);
    LargeIsSmallAligned(p.regionStart);
    var created := CreateKernelHeap(p.regionStart, p.regionPages, sizes, directMapBase);
    if created.Err? {
      return Err(created.error);
    }
    var heap := created.value;
    var setup, layout := SetupKernelPageTables(
      sizes.virtBase, directMapBase, p.regionStart, p.regionPages * 4096, heap, image);
    if setup.Err? {
      return Err(setup.error);
    }
    var tables := setup.value;
    MeetsPlan(elf, p, plan, layout, directMapBase);
    r := Ok(Loaded(sizes, tables, heap));
  }

  /** The kernel loaded at the start of the region and mapped. */
  method LoadKernel(elf: ElfImage, p: Params, ghost plan: Plan, image: Image) returns (r: Result<Loaded>)
    requires elf.Valid() && p.Valid() && elf.base <= elf.End() && Planned(elf, p, plan)
    modifies image
    ensures r.Ok? ==>
      && Aligned(elf)
      && r.value.sizes == ElfSizes(elf.base, PageAlignUp(elf.End() - elf.base), PagesBefore(elf, |elf.segments|))
      && fresh(r.value.tables) && fresh(r.value.tables.ptes) && fresh(r.value.heap)
      && r.value.tables.Valid() && r.value.tables.layout == plan.layout
      && plan.layout.virtBase == elf.base && plan.layout.directMap == DirectMapBase(elf)
      && r.value.tables.pagingRoot == plan.root
      && r.value.tables.ranges == SegmentRanges(elf, |elf.segments|, p.regionStart)
      && r.value.heap.Valid() && r.value.heap.Frontier() == plan.stack
      && r.value.heap.physBase + 4096 * r.value.heap.pageCount == p.regionStart + 4096 * p.regionPages
      && image.emitted == old(image.emitted) + UpperEmissions(plan.layout, plan.root)
        + SegmentEmissions(elf, |elf.segments|, p.regionStart)
  {
    r := SetUp(elf, p, plan, image);
    if r.Err? {
      return;
    }
    LargeIsSmallAligned(p.regionStart);
    RoomBehindKernel(elf);
    var loaded := LoadKernelElf(elf, p.regionStart, r.value.sizes.physPageCount, r.value.tables, image);
    if loaded.Err? {
      return Err(loaded.error);
    }
  }

  datatype Info = Info(tables: KernelPageTables, data: Data, launch: Allocation, stack: StackAndIdt)

  /**
   A successful build emits exactly the planned pieces. They are disjoint, inside the region and
   clear of the reserved pages just when the parameter area holds the parameter block.
   */
  method PrepareBootImage(elf: ElfImage, p: Params, image: Image) returns (r: Result<Info>, ghost plan: Plan)
    requires elf.Valid() && p.Valid()
    modifies image
    ensures elf.base <= elf.End() && Planned(elf, p, plan)
    ensures r.Ok? ==>
      && Aligned(elf)
      && plan.end <= p.regionStart + 4096 * p.regionPages
      && r.value.tables.Valid() && r.value.tables.layout == plan.layout
      && r.value.tables.pagingRoot == plan.root
      && r.value.tables.ranges == AllRanges(elf, p, plan)
      && image.emitted == old(image.emitted) + PlanEmissions(
          elf, p, plan, r.value.tables.ptes[..], r.value.launch.vaddr, r.value.stack.stackBase)
      && (Undisturbed(image.emitted[|old(image.emitted)|..], p, plan) <==> p.AreaHoldsParams())
      && r.value.tables.layout.Valid() && Finished(elf, p, plan, r.value.tables.Emitted())
  {
    EndAboveBase(elf);
    plan := PlanExists(elf, p);
    var loaded := LoadKernel(elf, p, plan, image);
    if loaded.Err? {
      r := Err(loaded.error);
      return;
    }
    assert Follows(p, plan) by {
      PlanFacts(elf, p, plan);
    }
    var tables, heap := loaded.value.tables, loaded.value.heap;
    var stack := MapStackAndIdt(elf, p, plan, loaded.value.sizes, tables, heap);
    if stack.Err? {
      r := Err(stack.error);
      return;
    }
    var data := AddData(p, plan, heap, image);
    if data.Err? {
      r := Err(data.error);
      return;
    }
    var launch := Finish(p, plan, tables, stack.value.stackPaddr, stack.value.stackBase, heap, image);
    if launch.Err? {
      r := Err(launch.error);
      return;
    }
    InOrder(elf, p, plan, old(image.emitted), tables.ptes[..], launch.value.vaddr, stack.value.stackBase);
    PlanCarriedOut(elf, p, plan, tables, old(image.emitted), image.emitted, launch.value.vaddr, stack.value.stackBase);
    r := Ok(Info(tables, data.value, launch.value, stack.value));
  }

  lemma PlanCarriedOut(elf: ElfImage, p: Params, plan: Plan, tables: KernelPageTables,
                       before: seq<Emission>, after: seq<Emission>, launchVaddr: nat, stackBase: nat)
    requires elf.Valid() && p.Valid() && elf.base <= elf.End()
    requires Planned(elf, p, plan) && plan.end <= p.regionStart + 4096 * p.regionPages
    requires tables.Valid() && tables.layout == plan.layout && tables.pagingRoot == plan.root
    requires tables.ranges == AllRanges(elf, p, plan)
    requires after == before + PlanEmissions(elf, p, plan, tables.ptes[..], launchVaddr, stackBase)
    ensures Undisturbed(after[|before|..], p, plan) <==> p.AreaHoldsParams()
    ensures tables.layout.Valid() && Finished(elf, p, plan, tables.Emitted())
  {
    assert |tables.ptes[..]| == plan.layout.EndPte() by {
      tables.Unseal();
    }
    UndisturbedExactly(elf, p, plan, tables.ptes[..], launchVaddr, stackBase);
    assert after[|before|..] == PlanEmissions(elf, p, plan, tables.ptes[..], launchVaddr, stackBase);
    TablesFinished(elf, p, plan, tables);
  }

  lemma InOrder(elf: ElfImage, p: Params, plan: Plan, start: seq<Emission>, ptes: seq<nat>, launchVaddr: nat, stackBase: nat)
    requires elf.Ordered()
    ensures start + PlanEmissions(elf, p, plan, ptes, launchVaddr, stackBase) ==
      start + UpperEmissions(plan.layout, plan.root) + SegmentEmissions(elf, |elf.segments|, p.regionStart)
      + ParamsPart(p, plan) + SymbolPart(p, plan)
      + [LeafEmission(plan.root, ptes)] + LaunchPart(p, plan) + StackPart(plan, launchVaddr, stackBase)
  {
    AppendSeven(start, UpperEmissions(plan.layout, plan.root), SegmentEmissions(elf, |elf.segments|, p.regionStart),
      ParamsPart(p, plan), SymbolPart(p, plan), [LeafEmission(plan.root, ptes)], LaunchPart(p, plan),
      StackPart(plan, launchVaddr, stackBase));
  }

  lemma AppendSeven<T>(s: seq<T>, a: seq<T>, b: seq<T>, c: seq<T>, d: seq<T>, e: seq<T>, f: seq<T>, g: seq<T>)
    ensures s + (a + b + c + d + e + f + g) == s + a + b + c + d + e + f + g
  {
  }

  lemma LargeIsSmallAligned(addr: nat)
    requires IsLargeAligned(addr)
    ensures IsPageAligned(addr)
  {
    AlignedPlus(0, 512 * LargeNumber(addr));
  }

  // ---- what the finished image maps ----

  /** The tables of a finished image have the shape that the walks are proved for. */
  ghost predicate Finished(elf: ElfImage, p: Params, plan: Plan, t: Tables)
    requires elf.Ordered() && elf.base <= elf.End()
  {
    && Planned(elf, p, plan) && plan.end <= p.regionStart + 4096 * p.regionPages
    && Built(t, plan.layout) && t.root == plan.root
    && Holds(t.ptes, AllRanges(elf, p, plan))
  }

  lemma RegionBound(p: Params)
    requires p.Valid()
    ensures IsPageAligned(p.regionStart)
    ensures p.regionStart + 4096 * p.regionPages <= 0x10_0000_0000_0000
  {
    LargeIsSmallAligned(p.regionStart);
  }

  lemma TablesFinished(elf: ElfImage, p: Params, plan: Plan, tables: KernelPageTables)
    requires elf.Valid() && p.Valid() && elf.base <= elf.End()
    requires Planned(elf, p, plan) && plan.end <= p.regionStart + 4096 * p.regionPages
    requires tables.Valid() && tables.layout == plan.layout && tables.pagingRoot == plan.root
    requires tables.ranges == AllRanges(elf, p, plan)
    ensures tables.layout.Valid() && Finished(elf, p, plan, tables.Emitted())
  {
    tables.Unseal();
    RegionBound(p);
    assert IsPageAligned(plan.root) && plan.root + 4096 * (plan.layout.pdeCount + 3) <= plan.end by {
      PlanFacts(elf, p, plan);
      AlignedPlus(p.regionStart, PagesBefore(elf, |elf.segments|));
    }
    PageDivision(plan.root);
    assert plan.layout.Derived(Seal);
    assert TablesShape(tables.Emitted());
  }

  lemma {:induction false} PagesBeforeGrows(elf: ElfImage, i: nat, n: nat)
    requires elf.Ordered() && i <= n <= |elf.segments|
    ensures PagesBefore(elf, i) <= PagesBefore(elf, n)
  {
    if i < n {
      PagesBeforeGrows(elf, i, n - 1);
    }
  }

  /** The layout's addresses, and that an aligned base is the first page of a leaf table. */
  lemma LayoutFacts(elf: ElfImage, p: Params, plan: Plan)
    requires elf.Ordered() && elf.base <= elf.End() && p.Valid() && Planned(elf, p, plan) && plan.layout.Valid()
    ensures plan.layout.virtBase == elf.base && plan.layout.directMap == DirectMapBase(elf)
    ensures IsLargeAligned(elf.base) ==> plan.layout.base.leaf == 0
    ensures p.regionStart <= plan.root == SegmentPaddr(elf, |elf.segments|, p.regionStart) <= plan.end
  {
    PlanFacts(elf, p, plan);
    LayoutValid(plan.layout, elf.base, DirectMapBase(elf), p.regionStart, p.regionPages * 4096);
    AlignedBase(plan.layout);
    if IsLargeAligned(elf.base) {
      AlignedPlus(0, 512 * LargeNumber(elf.base));
    }
  }

  /** With a 2 MB-aligned base, nothing is mapped in the guard page between image and stack. */
  lemma GuardPageAbsent(elf: ElfImage, p: Params, plan: Plan, t: Tables, vaddr: nat, v: Virtual)
    requires elf.Valid() && p.Valid() && Aligned(elf) && elf.base <= elf.End() && Finished(elf, p, plan, t)
    requires IsLargeAligned(elf.base) && Splits(vaddr, v)
    requires var guard := elf.base + PageAlignUp(elf.End() - elf.base); guard <= vaddr < guard + 4096
    ensures Walks(t, v, None)
  {
    LayoutFacts(elf, p, plan);
    RangesLaidOut(elf, p, plan);
    RoomBehindKernel(elf);
    assert SpanIndex(plan.layout, vaddr) == RoundToPages(elf.End() - elf.base);
    UnmappedWalk(t, plan.layout, AllRanges(elf, p, plan), vaddr, v);
  }

  lemma {:induction false} SegmentRangeAt(elf: ElfImage, n: nat, paddr: nat, i: nat)
    requires elf.Ordered() && i < n <= |elf.segments|
    ensures SegmentRanges(elf, n, paddr)[i] ==
      SegmentRange(elf.base, elf.segments[i], SegmentPaddr(elf, i, paddr))
  {
    if i < n - 1 {
      SegmentRangeAt(elf, n - 1, paddr, i);
    }
  }

  /** What the range of a segment covers, and where it leads. */
  lemma RangeCovers(base: nat, s: Segment, paddr: nat, vaddr: nat)
    requires IsPageAligned(base) && IsPageAligned(s.begin) && base <= s.begin <= s.end
    requires s.begin <= vaddr < PageAlignUp(s.end)
    ensures PageNumber(base) <= PageNumber(vaddr)
    ensures var r, page := SegmentRange(base, s, paddr), PageNumber(vaddr) - PageNumber(base);
      r.Covers(page) && r.paddr + 4096 * (page - r.first) == paddr + (4096 * PageNumber(vaddr) - s.begin)
  {
    PageOrder(base, vaddr);
  }

  lemma SegmentRangeValid(elf: ElfImage, p: Params, i: nat, r: Range, end: nat)
    requires elf.Ordered() && p.Valid() && i < |elf.segments|
    requires SegmentPaddr(elf, |elf.segments|, p.regionStart) <= end <= p.regionStart + 4096 * p.regionPages
    requires r.paddr == SegmentPaddr(elf, i, p.regionStart) && r.count == SegmentPages(elf.segments[i])
    ensures r.Valid()
  {
    RegionBound(p);
    PagesBeforeGrows(elf, i + 1, |elf.segments|);
    AlignedPlus(p.regionStart, PagesBefore(elf, i));
    PageDivision(r.paddr);
  }

  lemma SegmentTarget(elf: ElfImage, p: Params, plan: Plan, i: nat, vaddr: nat) returns (page: nat)
    requires elf.Valid() && p.Valid() && Aligned(elf) && elf.base <= elf.End() && i < |elf.segments|
    requires SegmentPaddr(elf, |elf.segments|, p.regionStart) <= plan.end <= p.regionStart + 4096 * p.regionPages
    requires elf.segments[i].begin <= vaddr < PageAlignUp(elf.segments[i].end)
    ensures page == SegmentPaddr(elf, i, p.regionStart) + (4096 * PageNumber(vaddr) - elf.segments[i].begin)
    ensures PageNumber(elf.base) <= PageNumber(vaddr) && i < |AllRanges(elf, p, plan)|
    ensures var r, index := AllRanges(elf, p, plan)[i], PageNumber(vaddr) - PageNumber(elf.base);
      && r.Valid() && r.Covers(index) && r.pteType == SegmentType(elf.segments[i])
      && r.paddr + 0x1000 * (index - r.first) == page
  {
    var n := |elf.segments|;
    var paddr := SegmentPaddr(elf, i, p.regionStart);
    var r := SegmentRange(elf.base, elf.segments[i], paddr);
    assert AllRanges(elf, p, plan)[i] == SegmentRanges(elf, n, p.regionStart)[i] == r by {
      SegmentRangeAt(elf, n, p.regionStart, i);
    }
    SegmentRangeValid(elf, p, i, r, plan.end);
    RangeCovers(elf.base, elf.segments[i], paddr, vaddr);
    page := paddr + (4096 * PageNumber(vaddr) - elf.segments[i].begin);
  }

  lemma SegmentBelowDirectMap(elf: ElfImage, i: nat, vaddr: nat)
    requires elf.Ordered() && Aligned(elf) && elf.base <= elf.End() && i < |elf.segments|
    requires elf.segments[i].begin <= vaddr < PageAlignUp(elf.segments[i].end)
    ensures elf.base <= vaddr < DirectMapBase(elf)
  {
    SegmentInSpan(elf, i);
    RoomBehindKernel(elf);
  }

  /** Executable segments cannot be written, and no other can be executed. */
  function SegmentRights(s: Segment): Rights
  {
    Rights(s.writable && !s.executable, s.executable)
  }

  /** With a 2 MB-aligned base, every page of a segment leads to where the segment was loaded. */
  lemma SegmentWalk(elf: ElfImage, p: Params, plan: Plan, t: Tables, i: nat, vaddr: nat, v: Virtual)
      returns (page: nat)
    requires elf.Valid() && p.Valid() && Aligned(elf) && elf.base <= elf.End() && Finished(elf, p, plan, t)
    requires IsLargeAligned(elf.base) && i < |elf.segments| && Splits(vaddr, v)
    requires elf.segments[i].begin <= vaddr < PageAlignUp(elf.segments[i].end)
    ensures page == SegmentPaddr(elf, i, p.regionStart) + (4096 * PageNumber(vaddr) - elf.segments[i].begin)
    ensures Walks(t, v, Some(Translation(page + v.offset, SegmentRights(elf.segments[i]))))
  {
    LayoutFacts(elf, p, plan);
    assert RangesApart(AllRanges(elf, p, plan)) by {
      RangesLaidOut(elf, p, plan);
    }
    SegmentBelowDirectMap(elf, i, vaddr);
    page := SegmentTarget(elf, p, plan, i, vaddr);
    MappedWalk(t, plan.layout, AllRanges(elf, p, plan), i, vaddr, v);
  }

  lemma StackRangesValid(elf: ElfImage, p: Params, plan: Plan)
    requires elf.Ordered() && elf.base <= elf.End() && p.Valid() && Planned(elf, p, plan)
    requires plan.end <= p.regionStart + 4096 * p.regionPages
    ensures var ranges, n := AllRanges(elf, p, plan), |elf.segments|;
      ranges[n].Valid() && ranges[n + 1].Valid()
  {
    PlanFacts(elf, p, plan);
    RegionBound(p);
    var n := PagesBefore(elf, |elf.segments|) + plan.layout.pdeCount + 3;
    AlignedPlus(p.regionStart, n);
    AlignedPlus(p.regionStart, n + 8);
    PageDivision(plan.stack);
    PageDivision(plan.idt);
  }

  /** The range that covers an address of the stack or the IDT, and the page it leads to. */
  lemma StackTarget(elf: ElfImage, p: Params, plan: Plan, vaddr: nat) returns (a: nat, page: nat)
    requires elf.Ordered() && IsPageAligned(elf.base) && elf.base <= elf.End()
    requires plan.idt == plan.stack + 8 * 4096
    requires var stackBase := elf.base + PageAlignUp(elf.End() - elf.base) + 4096;
      stackBase <= vaddr < stackBase + 9 * 4096
    ensures var stackBase := elf.base + PageAlignUp(elf.End() - elf.base) + 4096;
      page == plan.stack + 4096 * (PageNumber(vaddr) - PageNumber(stackBase))
    ensures page < plan.idt <==> vaddr < elf.base + PageAlignUp(elf.End() - elf.base) + 9 * 4096
    ensures |elf.segments| <= a < |elf.segments| + 2 == |AllRanges(elf, p, plan)|
    ensures PageNumber(elf.base) <= PageNumber(vaddr)
    ensures var r, index := AllRanges(elf, p, plan)[a], PageNumber(vaddr) - PageNumber(elf.base);
      r.Covers(index) && r.pteType == RwData && r.paddr + 0x1000 * (index - r.first) == page
  {
    var guard := RoundToPages(elf.End() - elf.base);
    AlignedPlus(elf.base, guard + 1);
    var pages := PageNumber(vaddr) - PageNumber(elf.base + 4096 * (guard + 1));
    page := plan.stack + 4096 * pages;
    a := if pages < 8 then |elf.segments| else |elf.segments| + 1;
  }

  /** With a 2 MB-aligned base, the stack and the IDT are where they were said to be, and writable data. */
  lemma StackWalk(elf: ElfImage, p: Params, plan: Plan, t: Tables, vaddr: nat, v: Virtual) returns (page: nat)
    requires elf.Valid() && p.Valid() && Aligned(elf) && elf.base <= elf.End() && Finished(elf, p, plan, t)
    requires IsLargeAligned(elf.base) && Splits(vaddr, v)
    requires var stackBase := elf.base + PageAlignUp(elf.End() - elf.base) + 4096;
      stackBase <= vaddr < stackBase + 9 * 4096
    ensures var stackBase := elf.base + PageAlignUp(elf.End() - elf.base) + 4096;
      page == plan.stack + 4096 * (PageNumber(vaddr) - PageNumber(stackBase))
    ensures page < plan.idt <==> vaddr < elf.base + PageAlignUp(elf.End() - elf.base) + 9 * 4096
    ensures Walks(t, v, Some(Translation(page + v.offset, Rights(true, false))))
  {
    var ranges, n := AllRanges(elf, p, plan), |elf.segments|;
    assert RangesApart(ranges) by {
      RangesLaidOut(elf, p, plan);
    }
    StackRangesValid(elf, p, plan);
    assert plan.idt == plan.stack + 8 * 4096 by {
      PlanFacts(elf, p, plan);
    }
    LayoutFacts(elf, p, plan);
    RoomBehindKernel(elf);
    var a;
    a, page := StackTarget(elf, p, plan, vaddr);
    MappedWalk(t, plan.layout, ranges, a, vaddr, v);
  }
}
