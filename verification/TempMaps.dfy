/**
 The boot loader's window of temporary mappings. A page table entry can be cleared without
 telling the processor, which may have cached it; a slot is used again only after a flush.
 */
module TempMaps {
  import opened Bits

  predicate Present(pte: nat)
  {
    pte % 2 == 1
  }

  /** The physical page an entry leads to. */
  function PageOf(pte: nat, mask: nat): nat
  {
    AndNot(AndNot(pte, mask), 0xFFF)
  }

  /** Valid, writable, accessed and dirty, with the confidentiality mask. */
  function PteFor(paddr: nat, mask: nat): nat
  {
    Or(Or(0x63, paddr), mask)
  }

  lemma PageBits(k: nat)
    ensures Bit(0xFFF, k) <==> k < 12
    ensures Bit(0x63, k) ==> k < 12
  {
    WordSizes();
    if k < 12 {
      LowBitsSet(12, k);
    } else {
      BitHigh(0xFFF, 12, k);
      BitHigh(0x63, 12, k);
    }
  }

  /** An entry is present, and leads to the page it was made for exactly when the mask leaves the address alone. */
  lemma PteLeadsToPage(paddr: nat, mask: nat)
    requires And(paddr, 0xFFF) == 0
    ensures Present(PteFor(paddr, mask))
    ensures PageOf(PteFor(paddr, mask), mask) == paddr <==> And(paddr, mask) == 0
  {
    var page := PageOf(PteFor(paddr, mask), mask);
    forall k: nat ensures Bit(page, k) <==> Bit(paddr, k) && !Bit(mask, k) {
      PageBit(paddr, mask, k);
    }
    if And(paddr, mask) == 0 {
      forall k: nat ensures Bit(page, k) <==> Bit(paddr, k) {
        BitAnd(paddr, mask, k);
        BitOfZero(k);
      }
      SameBits(page, paddr);
    } else if page == paddr {
      forall k: nat ensures Bit(And(paddr, mask), k) <==> Bit(0, k) {
        BitAnd(paddr, mask, k);
        BitOfZero(k);
      }
      SameBits(And(paddr, mask), 0);
    }
    BitOr(Or(0x63, paddr), mask, 0);
    BitOr(0x63, paddr, 0);
    assert Bit(0x63, 0);
  }

  lemma PageBit(paddr: nat, mask: nat, k: nat)
    requires And(paddr, 0xFFF) == 0
    ensures Bit(PageOf(PteFor(paddr, mask), mask), k) <==> Bit(paddr, k) && !Bit(mask, k)
  {
    var pte := PteFor(paddr, mask);
    BitAndNot(AndNot(pte, mask), 0xFFF, k);
    BitAndNot(pte, mask, k);
    BitOr(Or(0x63, paddr), mask, k);
    BitOr(0x63, paddr, k);
    PageBits(k);
    BitAnd(paddr, 0xFFF, k);
    BitOfZero(k);
  }

  /** Physical memory: 512 entries for each page. */
  class Memory {
    var pages: map<nat, seq<nat>>
  }

  /** The processor may cache any present entry at any time, and drop what it has cached. */
  predicate MayCache(ptes: seq<nat>, tlb: map<nat, nat>, tlb': map<nat, nat>)
  {
    forall s :: s in tlb' ==>
      (s in tlb && tlb'[s] == tlb[s]) || (s < |ptes| && Present(ptes[s]) && tlb'[s] == ptes[s])
  }

  /** Before its first use, a stale entry can be cached for a slot exactly when the slot holds a present one. */
  lemma FreshSlotExact(ptes: seq<nat>, slot: nat)
    ensures (exists cached: map<nat, nat> :: MayCache(ptes, map[], cached) && slot in cached) <==>
      slot < |ptes| && Present(ptes[slot])
  {
    if slot < |ptes| && Present(ptes[slot]) {
      var cached := map[slot := ptes[slot]];
      assert MayCache(ptes, map[], cached) && slot in cached;
    }
  }

  class TempMappings {
    const ptes: array<nat>
    const mask: nat
    var index: nat
    var active: bool
    /** What the processor has cached of the window, by slot. */
    var tlb: map<nat, nat>

    /**
     Slots from `index` on are neither present nor cached; a slot that is handed out is cached,
     if at all, as it now is.
     */
    ghost predicate Valid()
      reads this, ptes
    {
      && ptes.Length == 512 && index <= 512
      && (active ==> 0 < index)
      && (forall s :: 0 <= s < 512 && !(active && s == index - 1) ==> !Present(ptes[s]))
      && (forall s :: s in tlb ==> s < index)
      && (active && index - 1 in tlb ==> tlb[index - 1] == ptes[index - 1])
    }

    /** The window starts out not present and not cached. */
    constructor (ptes: array<nat>, mask: nat, tlb: map<nat, nat>)
      requires ptes.Length == 512 && (forall s :: 0 <= s < 512 ==> !Present(ptes[s])) && tlb == map[]
      ensures Valid() && !active && this.ptes == ptes && this.mask == mask
    {
      this.ptes := ptes;
      this.mask := mask;
      index := 0;
      active := false;
      this.tlb := tlb;
    }

    /** The processor goes over to caching `cached`, if it can. */
    method Speculate(cached: map<nat, nat>)
      requires Valid()
      modifies this`tlb
      ensures Valid()
      ensures tlb == if MayCache(ptes[..], old(tlb), cached) then cached else old(tlb)
    {
      if MayCache(ptes[..], tlb, cached) {
        tlb := cached;
      }
    }

    /** The entry an access through `slot` uses: the cached one if there is one. */
    function Used(slot: nat): nat
      reads this, ptes
      requires slot < ptes.Length
    {
      if slot in tlb then tlb[slot] else ptes[slot]
    }

    /** Hands out a slot that no stale entry is cached for. */
    method MapPage(paddr: nat) returns (slot: nat)
      requires Valid() && !active && And(paddr, 0xFFF) == 0
      modifies this, ptes
      ensures Valid() && active && slot == index - 1 && slot !in tlb
      ensures Present(Used(slot)) && (PageOf(Used(slot), mask) == paddr <==> And(paddr, mask) == 0)
    {
      if index == ptes.Length {
        tlb := map[];
        index := 0;
      }
      slot := index;
      assert slot !in tlb;
      PteLeadsToPage(paddr, mask);
      ptes[slot] := PteFor(paddr, mask);
      index := index + 1;
      active := true;
    }

    method Release(slot: nat)
      requires Valid() && active && slot == index - 1
      modifies this`active, ptes
      ensures Valid() && !active
    {
      ptes[slot] := 0;
      active := false;
    }

  }

  function Masked(pte: nat, mask: nat): nat
  {
    if Present(pte) then Or(pte, mask) else pte
  }

  function MaskedPage(page: seq<nat>, mask: nat): seq<nat>
  {
    seq(|page|, i requires 0 <= i < |page| => Masked(page[i], mask))
  }

  /** One read and, for a present entry, one write, each going where the processor takes it. */
  method MaskEntry(maps: TempMappings, slot: nat, i: nat, memory: Memory)
    requires maps.Valid() && slot < 512
    requires var p := PageOf(maps.Used(slot), maps.mask); p in memory.pages && i < |memory.pages[p]|
    modifies memory
    ensures var p := PageOf(maps.Used(slot), maps.mask);
      && memory.pages.Keys == old(memory.pages).Keys
      && (forall q :: q in memory.pages && q != p ==> memory.pages[q] == old(memory.pages)[q])
      && |memory.pages[p]| == |old(memory.pages)[p]|
      && (forall k :: 0 <= k < |memory.pages[p]| ==>
          (memory.pages[p][k] ==
           if k == i then Masked(old(memory.pages)[p][k], maps.mask) else old(memory.pages)[p][k]))
  {
    var p := PageOf(maps.Used(slot), maps.mask);
    var page := memory.pages[p];
    if Present(page[i]) {
      var updated: seq<nat> := page[..i] + [Or(page[i], maps.mask)] + page[i + 1..];
      memory.pages := memory.pages[p := updated];
    }
  }

  /** The first `n` entries masked. */
  ghost predicate MaskedUpTo(page: seq<nat>, n: nat, mask: nat, page': seq<nat>)
  {
    && |page'| == |page|
    && forall k :: 0 <= k < |page| ==> page'[k] == if k < n then Masked(page[k], mask) else page[k]
  }

  ghost predicate OthersKept(before: map<nat, seq<nat>>, after: map<nat, seq<nat>>, paddr: nat)
  {
    && after.Keys == before.Keys
    && forall q :: q in after && q != paddr ==> after[q] == before[q]
  }

  /** Masks the page behind the slot, whatever the processor caches in between. */
  method MaskPage(maps: TempMappings, slot: nat, ghost paddr: nat, memory: Memory, cached: nat -> map<nat, nat>)
    requires maps.Valid() && maps.active && slot == maps.index - 1
    requires PageOf(maps.Used(slot), maps.mask) == paddr && paddr in memory.pages && |memory.pages[paddr]| == 512
    modifies memory, maps`tlb
    ensures maps.Valid()
    ensures OthersKept(old(memory.pages), memory.pages, paddr) && paddr in memory.pages
    ensures memory.pages[paddr] == MaskedPage(old(memory.pages)[paddr], maps.mask)
  {
    ghost var page := memory.pages[paddr];
    for i := 0 to 512
      invariant maps.Valid() && PageOf(maps.ptes[slot], maps.mask) == paddr
      invariant OthersKept(old(memory.pages), memory.pages, paddr) && paddr in memory.pages
      invariant MaskedUpTo(page, i, maps.mask, memory.pages[paddr])
    {
      maps.Speculate(cached(i));
      MaskEntry(maps, slot, i, memory);
    }
    assert memory.pages[paddr] == MaskedPage(page, maps.mask);
  }

  /** The first `n` table pages masked, every other page as before. */
  ghost predicate TablesMasked(before: map<nat, seq<nat>>, after: map<nat, seq<nat>>, start: nat, n: nat, mask: nat)
  {
    && after.Keys == before.Keys
    && forall p :: p in before ==> after[p] == if IsTable(p, start, n) then MaskedPage(before[p], mask) else before[p]
  }

  ghost predicate IsTable(p: nat, start: nat, n: nat)
  {
    exists i: nat :: i < n && p == start + 4096 * i
  }

  lemma OneMoreTable(before: map<nat, seq<nat>>, mid: map<nat, seq<nat>>, after: map<nat, seq<nat>>,
                     start: nat, n: nat, mask: nat)
    requires TablesMasked(before, mid, start, n, mask) && start + 4096 * n in before
    requires OthersKept(mid, after, start + 4096 * n)
    requires after[start + 4096 * n] == MaskedPage(mid[start + 4096 * n], mask)
    ensures TablesMasked(before, after, start, n + 1, mask)
  {
    var q := start + 4096 * n;
    assert !IsTable(q, start, n);
    assert IsTable(q, start, n + 1);
    forall p | p in before ensures IsTable(p, start, n + 1) <==> IsTable(p, start, n) || p == q {
      if IsTable(p, start, n) {
        var i: nat :| i < n && p == start + 4096 * i;
        assert i < n + 1;
      }
    }
  }

  /** One round of the update: the table page at `paddr` is mapped, masked and released. */
  method MaskTable(maps: TempMappings, paddr: nat, memory: Memory, cached: nat -> map<nat, nat>)
    requires maps.Valid() && !maps.active && TablePage(memory.pages, paddr, maps.mask)
    modifies maps, maps.ptes, memory
    ensures maps.Valid() && !maps.active
    ensures OthersKept(old(memory.pages), memory.pages, paddr) && paddr in memory.pages
    ensures memory.pages[paddr] == MaskedPage(old(memory.pages)[paddr], maps.mask)
  {
    maps.Speculate(cached(512));
    var slot := maps.MapPage(paddr);
    MaskPage(maps, slot, paddr, memory, cached);
    maps.Release(slot);
    maps.Speculate(cached(513));
  }

  /** Every present entry of every kernel table page gets the mask; all else stays, for any page count. */
  method UpdateKernelPageTables(window: array<nat>, mask: nat, start: nat, count: nat, memory: Memory,
                                cached: (nat, nat) -> map<nat, nat>)
    requires window.Length == 512 && forall s :: 0 <= s < 512 ==> !Present(window[s])
    requires forall i: nat :: i < count ==> TablePage(memory.pages, start + 4096 * i, mask)
    modifies window, memory
    ensures TablesMasked(old(memory.pages), memory.pages, start, count, mask)
  {
    var maps := new TempMappings(window, mask, map[]);
    for i := 0 to count
      invariant maps.Valid() && !maps.active && maps.ptes == window && maps.mask == mask && fresh(maps)
      invariant TablesMasked(old(memory.pages), memory.pages, start, i, mask)
    {
      assert TablePage(old(memory.pages), start + 4096 * i, mask);
      NotYetMasked(old(memory.pages), memory.pages, start, i, mask);
      ghost var before := memory.pages;
      MaskTable(maps, start + 4096 * i, memory, j => cached(i, j));
      OneMoreTable(old(memory.pages), before, memory.pages, start, i, mask);
    }
  }

  ghost predicate TablePage(pages: map<nat, seq<nat>>, paddr: nat, mask: nat)
  {
    paddr in pages && |pages[paddr]| == 512 && And(paddr, 0xFFF) == 0 && And(paddr, mask) == 0
  }

  lemma NotYetMasked(before: map<nat, seq<nat>>, mid: map<nat, seq<nat>>, start: nat, n: nat, mask: nat)
    requires TablesMasked(before, mid, start, n, mask) && start + 4096 * n in before
    ensures start + 4096 * n in mid && mid[start + 4096 * n] == before[start + 4096 * n]
  {
    assert !IsTable(start + 4096 * n, start, n);
  }
}
