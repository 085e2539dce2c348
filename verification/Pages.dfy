/** Page arithmetic, and disjoint address intervals. */
module Pages {
  import opened Bits

  /** `addr >> 12` */
  function PageNumber(addr: nat): (r: nat)
    ensures 4096 * r <= addr < 4096 * r + 4096
  {
    assert 4096 * (addr / 4096) <= addr < 4096 * (addr / 4096) + 4096;
    var r: nat :| 4096 * r <= addr < 4096 * r + 4096;
    r
  }

  predicate IsPageAligned(addr: nat)
  {
    4096 * PageNumber(addr) == addr
  }

  /** `addr >> 21` */
  function LargeNumber(addr: nat): (r: nat)
    ensures 0x200000 * r <= addr < 0x200000 * r + 0x200000
  {
    assert 0x200000 * (addr / 0x200000) <= addr < 0x200000 * (addr / 0x200000) + 0x200000;
    var r: nat :| 0x200000 * r <= addr < 0x200000 * r + 0x200000;
    r
  }

  predicate IsLargeAligned(addr: nat)
  {
    0x200000 * LargeNumber(addr) == addr
  }

  lemma PageDivision(addr: nat)
    ensures PageNumber(addr) == addr / 4096 && LargeNumber(addr) == addr / 0x200000
    ensures IsPageAligned(addr) <==> addr % 4096 == 0
    ensures IsLargeAligned(addr) <==> addr % 0x200000 == 0
  {
  }

  /** The least number of pages that hold `size` bytes. */
  function RoundToPages(size: nat): (r: nat)
    ensures size <= 4096 * r < size + 4096
  {
    PageNumber(size + 4095)
  }

  /** The least page boundary not below `size`. */
  function PageAlignUp(size: nat): nat
  {
    4096 * RoundToPages(size)
  }

  function RoundToLargePages(size: nat): (r: nat)
    ensures size <= 0x200000 * r < size + 0x200000
  {
    LargeNumber(size + 0x1FFFFF)
  }

  function AlignUp2M(addr: nat): (r: nat)
    ensures IsLargeAligned(r) && addr <= r < addr + 0x200000
  {
    0x200000 * RoundToLargePages(addr)
  }

  lemma SmallMask(addr: nat)
    ensures IsPageAligned(addr) <==> And(addr, 0xFFF) == 0
    ensures AndNot(addr, 0xFFF) == 4096 * PageNumber(addr)
  {
    WordSizes();
    MaskIsMod(addr, 12);
    MaskIsFloor(addr, 12);
    PageDivision(addr);
  }

  lemma LargeMask(addr: nat)
    ensures AndNot(addr, 0x1FFFFF) == 0x200000 * LargeNumber(addr)
  {
    WordSizes();
    MaskIsFloor(addr, 21);
    PageDivision(addr);
  }

  /** The masks the builder computes with are these alignments. */
  lemma MasksAlign(addr: nat)
    ensures IsPageAligned(addr) <==> And(addr, 0xFFF) == 0
    ensures PageAlignUp(addr) == AndNot(addr + 0xFFF, 0xFFF)
    ensures AlignUp2M(addr) == AndNot(addr + 0x1FFFFF, 0x1FFFFF)
  {
    SmallMask(addr);
    SmallMask(addr + 0xFFF);
    LargeMask(addr + 0x1FFFFF);
  }

  lemma RoundsTo(size: nat, pages: nat)
    requires size <= 4096 * pages < size + 4096
    ensures RoundToPages(size) == pages
  {
  }

  lemma PagesMonotone(a: nat, b: nat)
    requires a <= b
    ensures RoundToPages(a) <= RoundToPages(b)
  {
  }

  /** Whole pages on top of an aligned address. */
  lemma AlignedPlus(base: nat, pages: nat)
    requires IsPageAligned(base)
    ensures IsPageAligned(base + 4096 * pages)
    ensures PageNumber(base + 4096 * pages) == PageNumber(base) + pages
  {
  }

  /** An address interval, `end` excluded. */
  datatype Interval = Interval(start: nat, end: nat)

  ghost predicate Apart(a: Interval, b: Interval)
  {
    a.end <= b.start || b.end <= a.start || a.end <= a.start || b.end <= b.start
  }

  ghost predicate AllApart(s: seq<Interval>)
  {
    forall i, j :: 0 <= i < j < |s| ==> Apart(s[i], s[j])
  }

  ghost predicate AllWithin(s: seq<Interval>, lo: nat, hi: nat)
  {
    forall i :: 0 <= i < |s| ==> lo <= s[i].start <= s[i].end <= hi
  }
}
