/** The boot image being emitted, and the page heap its contents are allocated from. */
module BootHeap {
  import opened Pages

  datatype BootImageError =
    | Elf | ElfRelocs | ElfAlignment | ElfSymbols | SelfMapConflict
    | KernelRangeTooLarge | BadKernelAddress | KernelTooBig | HeapTooSmall | Host

  datatype Result<+T> = Ok(value: T) | Err(error: BootImageError)

  /** Page tables are kept as 64-bit entries, everything else as bytes. */
  datatype Contents = Zeros | Bytes(bytes: seq<nat>) | Entries(entries: seq<nat>)

  /** One call of the emitting callback: `contents`, zero-filled to `size` bytes, at `paddr`. */
  datatype Emission = Emission(paddr: nat, contents: Contents, size: nat)
  {
    function Extent(): Interval
    {
      Interval(paddr, paddr + size)
    }
  }

  class Image {
    var emitted: seq<Emission>
    /** How many more pieces the host accepts before it reports an error. */
    var budget: nat

    method AddPageData(paddr: nat, contents: Contents, size: nat) returns (r: Result<()>)
      modifies this
      ensures r.Ok? || r == Err(Host)
      ensures emitted ==
        if r.Ok? then old(emitted) + [Emission(paddr, contents, size)] else old(emitted)
    {
      if budget == 0 {
        return Err(Host);
      }
      budget := budget - 1;
      emitted := emitted + [Emission(paddr, contents, size)];
      return Ok(());
    }
  }

  datatype Allocation = Allocation(paddr: nat, vaddr: nat)

  class KernelPageHeap {
    const virtBase: nat
    const physBase: nat
    const pageCount: nat
    var nextFree: nat

    ghost predicate Valid()
      reads this
    {
      nextFree <= pageCount && IsPageAligned(physBase)
    }

    /** The end of what has been allocated. */
    ghost function Frontier(): nat
      reads this
    {
      physBase + 4096 * nextFree
    }

    constructor (physBase: nat, pageCount: nat, virtBase: nat)
      requires IsPageAligned(physBase)
      ensures this.physBase == physBase && this.pageCount == pageCount && this.virtBase == virtBase
      ensures Valid() && Frontier() == physBase && nextFree == 0
    {
      this.virtBase := virtBase;
      this.physBase := physBase;
      this.pageCount := pageCount;
      nextFree := 0;
    }

    /** Succeeds exactly when enough pages are left, and hands out the next ones. */
    method AllocatePages(count: nat) returns (r: Result<Allocation>)
      requires Valid()
      modifies this
      ensures Valid()
      ensures r.Ok? <==> old(nextFree) + count <= pageCount
      ensures r.Ok? ==>
        && r.value.paddr == old(Frontier())
        && r.value.vaddr - virtBase == r.value.paddr - physBase
        && Frontier() == r.value.paddr + 4096 * count
      ensures r.Err? ==> r.error == HeapTooSmall && nextFree == old(nextFree)
    {
      if nextFree + count <= pageCount {
        var offset := nextFree * 4096;
        r := Ok(Allocation(physBase + offset, virtBase + offset));
        nextFree := nextFree + count;
      } else {
        r := Err(HeapTooSmall);
      }
    }
  }
}
