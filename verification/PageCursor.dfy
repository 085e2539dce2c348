/** Writing a stream of bytes into consecutive heap pages of the boot image. */
module PageCursor {
  import opened Collections
  import opened Pages
  import opened BootHeap

  /** An address span: base and length. */
  datatype Span = Span(start: nat, length: nat)

  /** `bytes` on consecutive pages from `paddr`, all full but the last. */
  ghost function Sheets(bytes: seq<nat>, paddr: nat): seq<Emission>
    decreases |bytes|
  {
    if bytes == [] then []
    else if |bytes| <= 4096 then [Emission(paddr, Bytes(bytes), 4096)]
    else [Emission(paddr, Bytes(bytes[..4096]), 4096)] + Sheets(bytes[4096..], paddr + 4096)
  }

  ghost function Contents(sheets: seq<Emission>): seq<nat>
  {
    if sheets == [] then []
    else (if sheets[0].contents.Bytes? then sheets[0].contents.bytes else []) + Contents(sheets[1..])
  }

  /** Reading the pages in order gives the bytes back. */
  lemma {:induction false} SheetsReadBack(bytes: seq<nat>, paddr: nat)
    ensures Contents(Sheets(bytes, paddr)) == bytes
    decreases |bytes|
  {
    if |bytes| > 4096 {
      SheetsReadBack(bytes[4096..], paddr + 4096);
      assert bytes == bytes[..4096] + bytes[4096..];
      assert Sheets(bytes, paddr)[1..] == Sheets(bytes[4096..], paddr + 4096);
    }
  }

  /** Page `k` is the `k`th from `paddr` and holds the `k`th 4 KB of the bytes. */
  lemma {:induction false} SheetsLayout(bytes: seq<nat>, paddr: nat, k: nat)
    requires k < RoundToPages(|bytes|)
    ensures |Sheets(bytes, paddr)| == RoundToPages(|bytes|)
    ensures Sheets(bytes, paddr)[k].paddr == paddr + 4096 * k && Sheets(bytes, paddr)[k].size == 4096
    ensures Sheets(bytes, paddr)[k].contents ==
      Bytes(bytes[4096 * k .. if k + 1 < RoundToPages(|bytes|) then 4096 * (k + 1) else |bytes|])
    decreases |bytes|
  {
    if |bytes| > 4096 {
      var rest := bytes[4096..];
      RoundsTo(|rest|, RoundToPages(|bytes|) - 1);
      SheetsLayout(rest, paddr + 4096, if k == 0 then 0 else k - 1);
      if k > 0 {
        assert Sheets(bytes, paddr)[k] == Sheets(rest, paddr + 4096)[k - 1];
        var end := if k + 1 < RoundToPages(|bytes|) then 4096 * (k + 1) else |bytes|;
        assert rest[4096 * (k - 1) .. end - 4096] == bytes[4096 * k .. end];
      }
    } else {
      assert bytes[0..|bytes|] == bytes;
    }
  }

  lemma {:induction false} SheetsCount(bytes: seq<nat>, paddr: nat)
    ensures |Sheets(bytes, paddr)| == RoundToPages(|bytes|)
  {
    if bytes != [] {
      SheetsLayout(bytes, paddr, 0);
    }
  }

  lemma {:induction false} SheetsAppend(full: seq<nat>, more: seq<nat>, paddr: nat)
    requires |full| % 4096 == 0 && 0 < |more| <= 4096
    ensures Sheets(full + more, paddr) ==
      Sheets(full, paddr) + [Emission(paddr + |full|, Bytes(more), 4096)]
    decreases |full|
  {
    if full == [] {
      assert full + more == more;
    } else {
      var rest := full[4096..];
      assert (full + more)[..4096] == full[..4096] && (full + more)[4096..] == rest + more;
      SheetsAppend(rest, more, paddr + 4096);
      if rest == [] {
        assert full == full[..4096];
      }
    }
  }

  lemma OneMorePage(n: nat, m: nat)
    requires n % 4096 == 0 && 0 < m <= 4096
    ensures 4096 * RoundToPages(n) == n && RoundToPages(n + m) == RoundToPages(n) + 1
    ensures (n + m) % 4096 != 0 <==> m != 4096
  {
    var q := n / 4096;
    RoundsTo(n, q);
    RoundsTo(n + m, q + 1);
  }

  lemma WrittenMore(start: seq<nat>, val: seq<nat>, i: nat, j: nat)
    requires i <= j <= |val|
    ensures start + val[..i] + val[i..j] == start + val[..j]
  {
  }

  class PageCursor {
    var span: Span
    var data: seq<nat>
    const heap: KernelPageHeap
    const image: Image
    var closed: bool
    /** What has been written to pages, and where the pages start. */
    ghost var flushed: seq<nat>
    ghost const first: Allocation
    ghost const before: seq<Emission>

    ghost predicate Paged(seal: Seal)
      reads this`span, this`closed, this`flushed, heap, image
    {
      && heap.Valid()
      && first.vaddr - heap.virtBase == first.paddr - heap.physBase
      && (closed <==> |flushed| % 4096 != 0)
      && heap.Frontier() == first.paddr + 4096 * RoundToPages(|flushed|)
      && image.emitted == before + Sheets(flushed, first.paddr)
      && span.length == |flushed| && (flushed != [] ==> span.start == first.vaddr)
    }

    ghost predicate Consistent()
      reads this`span, this`closed, this`flushed, heap, image
    {
      forall seal: Seal :: Paged(seal)
    }

    ghost predicate Valid()
      reads this, heap, image
    {
      Consistent() && |data| < 4096
    }

    /** All that has been written. */
    ghost function Written(): seq<nat>
      reads this
    {
      flushed + data
    }

    constructor (heap: KernelPageHeap, image: Image)
      requires heap.Valid()
      ensures Valid() && !closed && Written() == []
      ensures this.heap == heap && this.image == image && before == image.emitted
      ensures first == Allocation(heap.Frontier(), heap.virtBase + 4096 * heap.nextFree)
    {
      span := Span(0, 0);
      data := [];
      this.heap := heap;
      this.image := image;
      closed := false;
      flushed := [];
      first := Allocation(heap.Frontier(), heap.virtBase + 4096 * heap.nextFree);
      before := image.emitted;
    }

    /** Commits the buffer to the next page; a partial page closes the cursor. */
    method Flush() returns (r: Result<()>)
      requires Consistent() && |data| <= 4096 && !closed
      modifies this, heap, image
      ensures r.Ok? ==> Valid() && data == [] && flushed == old(Written())
      ensures r.Ok? ==> (closed <==> 0 < old(|data|) < 4096)
    {
      assert Paged(Seal);
      if data == [] {
        assert flushed + data == flushed;
        return Ok(());
      }
      var allocation := heap.AllocatePages(1);
      if allocation.Err? {
        return Err(allocation.error);
      }
      if span.length == 0 {
        span := span.(start := allocation.value.vaddr);
      }
      var done := image.AddPageData(allocation.value.paddr, Bytes(data), 4096);
      if done.Err? {
        return Err(done.error);
      }
      span := span.(length := allocation.value.vaddr + |data| - span.start);
      if |data| != 4096 {
        closed := true;
      }
      SheetsAppend(flushed, data, first.paddr);
      OneMorePage(|flushed|, |data|);
      flushed := flushed + data;
      data := [];
      r := Ok(());
    }

    method Write(val: seq<nat>) returns (r: Result<()>)
      requires Valid() && !closed
      modifies this, heap, image
      ensures r.Ok? ==> Valid() && !closed && Written() == old(Written()) + val
    {
      var offset := 0;
      while true
        invariant Valid() && !closed && offset <= |val|
        invariant Written() == old(Written()) + val[..offset]
        decreases |val| - offset
      {
        var bytesToWrite := |val| - offset;
        var bytesAvailable := 4096 - |data|;
        if bytesToWrite < bytesAvailable {
          ghost var start := Written();
          data := data + val[offset..offset + bytesToWrite];
          WrittenMore(old(Written()), val, offset, |val|);
          assert Written() == start + val[offset..|val|] && val[..|val|] == val;
          return Ok(());
        }
        ghost var start := Written();
        data := data + val[offset..offset + bytesAvailable];
        WrittenMore(old(Written()), val, offset, offset + bytesAvailable);
        assert Written() == start + val[offset..offset + bytesAvailable];
        r := Flush();
        if r.Err? {
          return;
        }
        offset := offset + bytesAvailable;
      }
    }
  }

  ghost function Flatten(records: seq<seq<nat>>): seq<nat>
  {
    if records == [] then [] else Flatten(records[..|records| - 1]) + records[|records| - 1]
  }

  /** What the symbol tables add to the image. */
  ghost function SymbolEmissions(symbols: seq<seq<nat>>, strtab: seq<nat>, paddr: nat): seq<Emission>
  {
    Sheets(Flatten(symbols), paddr) +
    [Emission(paddr + 4096 * RoundToPages(|Flatten(symbols)|), Bytes(strtab), 4096 * RoundToPages(|strtab|))]
  }

  method AllocateAndAddPages(data: seq<nat>, heap: KernelPageHeap, image: Image) returns (r: Result<Span>)
    requires heap.Valid()
    modifies heap, image
    ensures heap.Valid()
    ensures r.Ok? ==>
      && r.value.length == |data|
      && r.value.start - heap.virtBase == old(heap.Frontier()) - heap.physBase
      && heap.Frontier() == old(heap.Frontier()) + 4096 * RoundToPages(|data|)
      && image.emitted == old(image.emitted) +
        [Emission(old(heap.Frontier()), Bytes(data), 4096 * RoundToPages(|data|))]
  {
    var allocation := heap.AllocatePages(RoundToPages(|data|));
    if allocation.Err? {
      return Err(allocation.error);
    }
    var done := image.AddPageData(allocation.value.paddr, Bytes(data), PageAlignUp(|data|));
    if done.Err? {
      return Err(done.error);
    }
    r := Ok(Span(allocation.value.vaddr, |data|));
  }

  /** One record per symbol through a cursor, then the string table. */
  method AllocateKernelSymbols(symbols: seq<seq<nat>>, strtab: seq<nat>, heap: KernelPageHeap, image: Image)
      returns (r: Result<(Span, Span)>)
    requires heap.Valid()
    modifies heap, image
    ensures r.Ok? ==>
      && heap.Valid()
      && image.emitted == old(image.emitted) + SymbolEmissions(symbols, strtab, old(heap.Frontier()))
      && heap.Frontier() == old(heap.Frontier()) +
        4096 * RoundToPages(|Flatten(symbols)|) + 4096 * RoundToPages(|strtab|)
      && r.value.0.length == |Flatten(symbols)| && r.value.1.length == |strtab|
      && (Flatten(symbols) != [] ==>
          r.value.0.start - heap.virtBase == old(heap.Frontier()) - heap.physBase)
  {
    var cursor := new PageCursor(heap, image);
    for i := 0 to |symbols|
      invariant cursor.heap == heap && cursor.image == image && cursor.before == old(image.emitted)
      invariant cursor.first.paddr == old(heap.Frontier())
      invariant fresh(cursor) && cursor.Valid() && !cursor.closed
      invariant cursor.Written() == Flatten(symbols[..i])
    {
      var done := cursor.Write(symbols[i]);
      if done.Err? {
        return Err(done.error);
      }
      assert symbols[..i + 1][..i] == symbols[..i];
    }
    assert symbols[..|symbols|] == symbols;
    var done := cursor.Flush();
    if done.Err? {
      return Err(done.error);
    }
    assert cursor.Paged(Seal);
    var symtabSpan := cursor.span;
    var strtabSpan := AllocateAndAddPages(strtab, heap, image);
    if strtabSpan.Err? {
      return Err(strtabSpan.error);
    }
    r := Ok((symtabSpan, strtabSpan.value));
  }
}
