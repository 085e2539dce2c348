/** The ELF load-segment index, program headers, and where an image is loaded. */
module Elf {
  import opened Bits
  import opened Collections

  datatype ElfError =
    | InvalidAddressRange | InvalidSegmentSize | InvalidAddressAlignment | UnalignedSegmentAddress
    | InvalidFileRange | FileTooShort | LoadSegmentConflict | DynamicPhdrConflict
    | UnmappedVaddrRange | UnbackedVaddrRange

  datatype Result<+T> = Ok(value: T) | Err(error: ElfError)

  // ---- address ranges ----

  datatype Ordering = Less | Equal | Greater

  datatype AddrRange = AddrRange(begin: nat, end: nat)
  {
    ghost predicate Valid()
    {
      begin <= end
    }

    ghost predicate NonEmpty()
    {
      begin < end
    }

    function PartialCmp(other: AddrRange): Option<Ordering>
    {
      if end <= other.begin then Some(Less)
      else if begin >= other.end then Some(Greater)
      else if this == other then Some(Equal)
      else None
    }

    ghost predicate Overlaps(other: AddrRange)
    {
      begin < other.end && other.begin < end
    }

    ghost predicate Contains(other: AddrRange)
    {
      begin <= other.begin && other.end <= end
    }
  }

  /** Ranges compare exactly as positions on a line: unordered means overlapping. */
  lemma PartialCmpExact(a: AddrRange, b: AddrRange)
    requires a.NonEmpty() && b.NonEmpty()
    ensures a.Overlaps(b) <==> a.PartialCmp(b) !in {Some(Less), Some(Greater)}
    ensures a.PartialCmp(b) == Some(Less) <==> b.PartialCmp(a) == Some(Greater)
    ensures a.PartialCmp(b) == Some(Equal) <==> a == b
  {
  }

  // ---- the index ----

  datatype Entry = Entry(range: AddrRange, phdr: nat)

  /** Sorted, and no two ranges meet. */
  ghost predicate Sorted(segments: seq<Entry>)
  {
    && (forall i :: 0 <= i < |segments| ==> segments[i].range.Valid())
    && (forall i, j :: 0 <= i < j < |segments| ==> segments[i].range.end <= segments[j].range.begin)
  }

  /** A linear search for a segment that contains the range: header index and offset. */
  ghost function LinearLookup(segments: seq<Entry>, range: AddrRange): Option<(nat, nat)>
  {
    if segments == [] then None
    else if segments[0].range.Contains(range) then
      Some((segments[0].phdr, range.begin - segments[0].range.begin))
    else LinearLookup(segments[1..], range)
  }

  lemma {:induction false} LinearFinds(segments: seq<Entry>, range: AddrRange, k: nat)
    requires k < |segments| && segments[k].range.Contains(range)
    requires forall i :: 0 <= i < k ==> !segments[i].range.Contains(range)
    ensures LinearLookup(segments, range) == Some((segments[k].phdr, range.begin - segments[k].range.begin))
    decreases k
  {
    if k > 0 {
      LinearFinds(segments[1..], range, k - 1);
    }
  }

  lemma {:induction false} LinearMisses(segments: seq<Entry>, range: AddrRange)
    requires forall i :: 0 <= i < |segments| ==> !segments[i].range.Contains(range)
    ensures LinearLookup(segments, range) == None
    decreases |segments|
  {
    if segments != [] {
      LinearMisses(segments[1..], range);
    }
  }

  /** `i` splits the segments into those before the range and the rest. */
  ghost predicate Splits(segments: seq<Entry>, range: AddrRange, i: nat)
  {
    && i <= |segments|
    && (forall k :: 0 <= k < i ==> segments[k].range.end <= range.begin)
    && (forall k :: i <= k < |segments| ==> range.begin < segments[k].range.end)
  }

  class LoadSegments {
    var segments: seq<Entry>

    constructor ()
      ensures segments == []
    {
      segments := [];
    }

    /** The first segment that is not entirely before the range, by binary search. */
    method FindFirstNotBefore(range: AddrRange) returns (r: Option<nat>)
      requires Sorted(segments)
      ensures r.Some? ==> r.value < |segments| && Splits(segments, range, r.value)
      ensures r.None? ==> Splits(segments, range, |segments|)
    {
      var lo, hi := 0, |segments|;
      while lo < hi
        invariant lo <= hi <= |segments|
        invariant forall k :: 0 <= k < lo ==> segments[k].range.end <= range.begin
        invariant forall k :: hi <= k < |segments| ==> range.begin < segments[k].range.end
      {
        var mid := lo + (hi - lo) / 2;
        if segments[mid].range.PartialCmp(range) == Some(Less) {
          lo := mid + 1;
        } else {
          hi := mid;
        }
      }
      r := if lo != |segments| then Some(lo) else None;
    }

    /** Succeeds exactly when the range meets no segment, and keeps the index sorted. */
    method TryInsert(segment: AddrRange, phdr: nat) returns (r: Result<()>)
      requires Sorted(segments) && segment.Valid()
      modifies this
      ensures Sorted(segments)
      ensures r.Ok? <==> forall i :: 0 <= i < |old(segments)| ==> !old(segments)[i].range.Overlaps(segment)
      ensures r.Ok? ==> exists i ::
        && 0 <= i <= |old(segments)|
        && segments == old(segments)[..i] + [Entry(segment, phdr)] + old(segments)[i..]
      ensures r.Err? ==> r.error == LoadSegmentConflict && segments == old(segments)
    {
      var i := FindFirstNotBefore(segment);
      match i {
        case Some(i) =>
          if segment.PartialCmp(segments[i].range) == Some(Less) {
            segments := segments[..i] + [Entry(segment, phdr)] + segments[i..];
            r := Ok(());
          } else {
            assert segments[i].range.Overlaps(segment);
            r := Err(LoadSegmentConflict);
          }
        case None =>
          segments := segments + [Entry(segment, phdr)];
          assert segments == old(segments)[..|old(segments)|] + [Entry(segment, phdr)] + old(segments)[|old(segments)|..];
          r := Ok(());
      }
    }

    /** Binary search finds what a linear search would, for every non-empty range. */
    method LookupVaddrRange(range: AddrRange) returns (r: Option<(nat, nat)>)
      requires Sorted(segments)
      ensures r == IndexedLookup(segments, range)
      ensures range.NonEmpty() ==> r == LinearLookup(segments, range)
    {
      var i := FindFirstNotBefore(range);
      match i {
        case None =>
          IndexedLookupAt(segments, range, |segments|);
          r := None;
        case Some(i) =>
          IndexedLookupAt(segments, range, i);
          var segment := segments[i];
          if segment.range.begin <= range.begin && range.end <= segment.range.end {
            r := Some((segment.phdr, range.begin - segment.range.begin));
          } else {
            r := None;
          }
      }
      if range.NonEmpty() {
        LookupAgrees(segments, range);
      }
    }

    /** The hull of the segments. */
    method TotalVaddrRange() returns (r: AddrRange)
      requires Sorted(segments)
      ensures r == Total(segments)
    {
      if |segments| == 0 {
        return AddrRange(0, 0);
      }
      r := AddrRange(segments[0].range.begin, segments[|segments| - 1].range.end);
    }
  }

  function Total(segments: seq<Entry>): AddrRange
  {
    if segments == [] then AddrRange(0, 0)
    else AddrRange(segments[0].range.begin, segments[|segments| - 1].range.end)
  }

  /** The total range contains every segment and is the smallest that does. */
  lemma TotalIsHull(segments: seq<Entry>, other: AddrRange)
    requires Sorted(segments) && segments != []
    ensures (forall i :: 0 <= i < |segments| ==> other.Contains(segments[i].range)) <==>
      other.Contains(Total(segments))
    ensures forall i :: 0 <= i < |segments| ==> Total(segments).Contains(segments[i].range)
  {
    var n := |segments| - 1;
    assert segments[0].range.Valid() && segments[n].range.Valid();
    forall i | 0 <= i < |segments| ensures Total(segments).Contains(segments[i].range) {
      assert i == 0 || segments[0].range.end <= segments[i].range.begin;
      assert i == n || segments[i].range.end <= segments[n].range.begin;
    }
  }

  /** What the search on the index returns. */
  ghost function IndexedLookup(segments: seq<Entry>, range: AddrRange): Option<(nat, nat)>
    decreases |segments|
  {
    if segments == [] then None
    else if segments[0].range.end <= range.begin then IndexedLookup(segments[1..], range)
    else if segments[0].range.Contains(range) then
      Some((segments[0].phdr, range.begin - segments[0].range.begin))
    else None
  }

  lemma {:induction false} IndexedLookupAt(segments: seq<Entry>, range: AddrRange, i: nat)
    requires Splits(segments, range, i)
    ensures i == |segments| ==> IndexedLookup(segments, range) == None
    ensures i < |segments| ==>
      (IndexedLookup(segments, range) ==
       if segments[i].range.Contains(range) then Some((segments[i].phdr, range.begin - segments[i].range.begin)) else None)
    decreases i
  {
    if i > 0 {
      IndexedLookupAt(segments[1..], range, i - 1);
    }
  }

  lemma {:induction false} SplitExists(segments: seq<Entry>, range: AddrRange) returns (i: nat)
    requires Sorted(segments)
    ensures Splits(segments, range, i)
    decreases |segments|
  {
    if segments == [] || range.begin < segments[0].range.end {
      i := 0;
      forall k | 0 < k < |segments| ensures range.begin < segments[k].range.end {
        assert segments[0].range.end <= segments[k].range.begin <= segments[k].range.end;
      }
    } else {
      i := SplitExists(segments[1..], range);
      i := i + 1;
      assert forall k :: 0 < k < |segments| ==> segments[k] == segments[1..][k - 1];
    }
  }

  lemma LookupAgrees(segments: seq<Entry>, range: AddrRange)
    requires Sorted(segments) && range.NonEmpty()
    ensures IndexedLookup(segments, range) == LinearLookup(segments, range)
  {
    var i := SplitExists(segments, range);
    IndexedLookupAt(segments, range, i);
    assert forall k :: 0 <= k < i ==> !segments[k].range.Contains(range);
    if i < |segments| && segments[i].range.Contains(range) {
      LinearFinds(segments, range, i);
    } else {
      assert forall k :: i < k < |segments| ==> !segments[k].range.Contains(range);
      LinearMisses(segments, range);
    }
  }

  /** For an empty range the two differ exactly when some segment ends where the range is. */
  lemma EmptyLookupExact(segments: seq<Entry>, range: AddrRange)
    requires Sorted(segments) && range.begin == range.end
    requires forall i :: 0 <= i < |segments| ==> segments[i].range.NonEmpty()
    ensures IndexedLookup(segments, range) == LinearLookup(segments, range) <==>
      forall i :: 0 <= i < |segments| ==> segments[i].range.end != range.begin
  {
    var i := SplitExists(segments, range);
    IndexedLookupAt(segments, range, i);
    if i > 0 && segments[i - 1].range.end == range.begin {
      assert forall k :: 0 <= k < i - 1 ==> segments[k].range.end <= segments[i - 1].range.begin;
      LinearFinds(segments, range, i - 1);
    } else {
      assert forall k :: 0 <= k < i ==> segments[k].range.end < range.begin by {
        forall k | 0 <= k < i ensures segments[k].range.end < range.begin {
          assert k == i - 1 || segments[k].range.end <= segments[i - 1].range.begin;
        }
      }
      if i < |segments| && segments[i].range.Contains(range) {
        LinearFinds(segments, range, i);
      } else {
        assert forall k :: i < k < |segments| ==> segments[i].range.end <= segments[k].range.begin;
        LinearMisses(segments, range);
      }
    }
  }

  /** They do differ: at the end of a segment the linear search answers and the index does not. */
  lemma EmptyLookupDiffers()
    ensures var segments, range := [Entry(AddrRange(0, 4096), 0)], AddrRange(4096, 4096);
      Sorted(segments) && IndexedLookup(segments, range) == None && LinearLookup(segments, range) == Some((0, 4096))
  {
    var segments, range := [Entry(AddrRange(0, 4096), 0)], AddrRange(4096, 4096);
    IndexedLookupAt(segments, range, 1);
    LinearFinds(segments, range, 0);
  }

  // ---- program headers ----

  datatype SegmentType = Null | Load | Dynamic | Other

  datatype Phdr = Phdr(
    pType: SegmentType, offset: nat, vaddr: nat, filesz: nat, memsz: nat, align: nat)
  {
    function VaddrRange(): AddrRange
    {
      AddrRange(vaddr, vaddr + memsz)
    }

    /** The end of the file range. */
    function FileEnd(): nat
    {
      offset + filesz
    }

    predicate IsLoaded()
    {
      pType.Load? && memsz != 0
    }
  }

  ghost predicate IsPowerOfTwo(n: nat)
  {
    exists k: nat :: Pow2(k) == n
  }

  /** `n.is_power_of_two()` by repeated halving. */
  predicate PowerOfTwo(n: nat)
  {
    n != 0 && (n == 1 || (n % 2 == 0 && PowerOfTwo(n / 2)))
  }

  lemma {:induction false} PowerOfTwoExact(n: nat)
    ensures PowerOfTwo(n) <==> IsPowerOfTwo(n)
  {
    if PowerOfTwo(n) {
      var k := PowerOfTwoExponent(n);
    } else if IsPowerOfTwo(n) {
      var k: nat :| Pow2(k) == n;
      PowersAre(k);
    }
  }

  lemma {:induction false} PowerOfTwoExponent(n: nat) returns (k: nat)
    requires PowerOfTwo(n)
    ensures Pow2(k) == n
    decreases n
  {
    if n == 1 {
      k := 0;
    } else {
      k := PowerOfTwoExponent(n / 2);
      k := k + 1;
    }
  }

  lemma {:induction false} PowersAre(k: nat)
    ensures PowerOfTwo(Pow2(k))
  {
    if k > 0 {
      PowersAre(k - 1);
    }
  }

  function Verify(p: Phdr): Result<()>
  {
    if p.pType.Null? then Ok(())
    else if p.pType.Load? && p.memsz < p.filesz then Err(InvalidSegmentSize)
    else if p.align > 1 && !PowerOfTwo(p.align) then Err(InvalidAddressAlignment)
    else if p.align > 1 && p.vaddr % p.align != p.offset % p.align then Err(UnalignedSegmentAddress)
    else if p.filesz != 0 && p.offset + p.filesz >= 0x1_0000_0000_0000_0000 then Err(InvalidFileRange)
    else if p.memsz != 0 && p.vaddr + p.memsz >= 0x1_0000_0000_0000_0000 then Err(InvalidAddressRange)
    else Ok(())
  }

  /** Also checks that file contents, if any, lie in the file. */
  function VerifyInFile(p: Phdr, fileLen: nat): Result<()>
  {
    if p.pType.Null? then Ok(())
    else if Verify(p).Err? then Verify(p)
    else if p.filesz != 0 && p.FileEnd() > fileLen then Err(FileTooShort)
    else Ok(())
  }

  // ---- reading the headers ----

  /** The loaded headers among the first `n` and their entries agree. */
  ghost predicate Indexes(segments: seq<Entry>, phdrs: seq<Phdr>, n: nat)
    requires n <= |phdrs|
  {
    && (forall k :: 0 <= k < |segments| ==>
        segments[k].phdr < n && phdrs[segments[k].phdr].IsLoaded()
        && segments[k].range == phdrs[segments[k].phdr].VaddrRange())
    && (forall i :: 0 <= i < n && phdrs[i].IsLoaded() ==> Indexed(segments, i))
  }

  ghost predicate Indexed(segments: seq<Entry>, i: nat)
  {
    exists k :: 0 <= k < |segments| && segments[k].phdr == i
  }

  /** No two of the first `n` loaded headers overlap. */
  ghost predicate LoadsApart(phdrs: seq<Phdr>, n: nat)
    requires n <= |phdrs|
  {
    forall i, j :: 0 <= i < j < n && phdrs[i].IsLoaded() && phdrs[j].IsLoaded() ==>
      !phdrs[i].VaddrRange().Overlaps(phdrs[j].VaddrRange())
  }

  ghost predicate AllVerified(phdrs: seq<Phdr>, n: nat, fileLen: nat)
    requires n <= |phdrs|
  {
    forall i :: 0 <= i < n ==> VerifyInFile(phdrs[i], fileLen).Ok?
  }

  ghost predicate IsDynamic(phdrs: seq<Phdr>, i: nat)
  {
    i < |phdrs| && phdrs[i].pType.Dynamic?
  }

  ghost predicate OneDynamic(phdrs: seq<Phdr>, n: nat)
    requires n <= |phdrs|
  {
    forall i, j :: 0 <= i < j < n && IsDynamic(phdrs, i) ==> !IsDynamic(phdrs, j)
  }

  /** The largest alignment of the loaded headers among the first `n`. */
  ghost predicate IsMaxAlign(phdrs: seq<Phdr>, n: nat, align: nat)
    requires n <= |phdrs|
  {
    && (forall i :: 0 <= i < n && phdrs[i].IsLoaded() ==> phdrs[i].align <= align)
    && (align == 0 || exists i :: 0 <= i < n && phdrs[i].IsLoaded() && phdrs[i].align == align)
  }

  lemma InsertIndexes(before: seq<Entry>, after: seq<Entry>, phdrs: seq<Phdr>, n: nat, at: nat)
    requires n < |phdrs| && phdrs[n].IsLoaded() && Indexes(before, phdrs, n) && at <= |before|
    requires after == before[..at] + [Entry(phdrs[n].VaddrRange(), n)] + before[at..]
    ensures Indexes(after, phdrs, n + 1)
  {
    assert after[at] == Entry(phdrs[n].VaddrRange(), n);
    assert Indexed(after, n);
    forall i | 0 <= i < n && phdrs[i].IsLoaded() ensures Indexed(after, i) {
      assert Indexed(before, i);
      var k :| 0 <= k < |before| && before[k].phdr == i;
      assert after[if k < at then k else k + 1] == before[k];
    }
  }

  /** A new range that meets no entry meets none of the headers they stand for, and conversely. */
  lemma ApartExtends(segments: seq<Entry>, phdrs: seq<Phdr>, n: nat)
    requires n < |phdrs| && phdrs[n].IsLoaded() && Indexes(segments, phdrs, n) && LoadsApart(phdrs, n)
    ensures LoadsApart(phdrs, n + 1) <==>
      forall k :: 0 <= k < |segments| ==> !segments[k].range.Overlaps(phdrs[n].VaddrRange())
  {
    if forall k :: 0 <= k < |segments| ==> !segments[k].range.Overlaps(phdrs[n].VaddrRange()) {
      forall i | 0 <= i < n && phdrs[i].IsLoaded()
        ensures !phdrs[i].VaddrRange().Overlaps(phdrs[n].VaddrRange())
      {
        assert Indexed(segments, i);
        var k :| 0 <= k < |segments| && segments[k].phdr == i;
        assert segments[k].range == phdrs[i].VaddrRange();
      }
    }
  }

  datatype Loads = Loads(segments: LoadSegments, maxAlign: nat, dynamic: Option<nat>)

  /** What must hold of the first `n` headers. */
  ghost predicate Acceptable(phdrs: seq<Phdr>, n: nat, fileLen: nat)
    requires n <= |phdrs|
  {
    AllVerified(phdrs, n, fileLen) && LoadsApart(phdrs, n) && OneDynamic(phdrs, n)
  }

  ghost predicate DynamicFound(phdrs: seq<Phdr>, n: nat, dynamic: Option<nat>)
    requires n <= |phdrs|
  {
    match dynamic
    case None => forall k :: 0 <= k < n ==> !IsDynamic(phdrs, k)
    case Some(d) => d < n && IsDynamic(phdrs, d)
  }

  lemma AcceptableStays(phdrs: seq<Phdr>, i: nat, n: nat, fileLen: nat)
    requires i <= n <= |phdrs| && Acceptable(phdrs, n, fileLen)
    ensures Acceptable(phdrs, i, fileLen)
  {
  }

  lemma DynamicStep(phdrs: seq<Phdr>, i: nat, dynamic: Option<nat>)
    requires i < |phdrs| && OneDynamic(phdrs, i) && DynamicFound(phdrs, i, dynamic)
    ensures OneDynamic(phdrs, i + 1) <==> !(phdrs[i].pType.Dynamic? && dynamic.Some?)
    ensures OneDynamic(phdrs, i + 1) ==>
      DynamicFound(phdrs, i + 1, if phdrs[i].pType.Dynamic? then Some(i) else dynamic)
  {
    assert IsDynamic(phdrs, i) <==> phdrs[i].pType.Dynamic?;
  }

  lemma SkipUnloaded(segments: seq<Entry>, phdrs: seq<Phdr>, i: nat)
    requires i < |phdrs| && !phdrs[i].IsLoaded() && Indexes(segments, phdrs, i) && LoadsApart(phdrs, i)
    ensures Indexes(segments, phdrs, i + 1) && LoadsApart(phdrs, i + 1)
  {
  }

  lemma MaxAlignStep(phdrs: seq<Phdr>, i: nat, align: nat)
    requires i < |phdrs| && IsMaxAlign(phdrs, i, align)
    ensures IsMaxAlign(phdrs, i + 1,
      if phdrs[i].IsLoaded() && align < phdrs[i].align then phdrs[i].align else align)
  {
  }

  /**
   Reading succeeds exactly when every header is valid, no two load ranges overlap and at most
   one header is dynamic; the index then holds exactly the non-empty load segments.
   */
  method ReadHeaders(phdrs: seq<Phdr>, fileLen: nat) returns (r: Result<Loads>)
    ensures r.Ok? <==> Acceptable(phdrs, |phdrs|, fileLen)
    ensures r.Ok? ==>
      && Sorted(r.value.segments.segments) && Indexes(r.value.segments.segments, phdrs, |phdrs|)
      && IsMaxAlign(phdrs, |phdrs|, r.value.maxAlign)
  {
    var index := new LoadSegments();
    var maxAlign: nat := 0;
    var dynamic: Option<nat> := None;
    for i := 0 to |phdrs|
      invariant fresh(index) && Acceptable(phdrs, i, fileLen)
      invariant Sorted(index.segments) && Indexes(index.segments, phdrs, i)
      invariant IsMaxAlign(phdrs, i, maxAlign) && DynamicFound(phdrs, i, dynamic)
    {
      var added := ReadHeader(index, phdrs, i, fileLen, dynamic);
      if added.Err? {
        if Acceptable(phdrs, |phdrs|, fileLen) {
          AcceptableStays(phdrs, i + 1, |phdrs|, fileLen);
        }
        return Err(added.error);
      }
      MaxAlignStep(phdrs, i, maxAlign);
      if phdrs[i].IsLoaded() && maxAlign < phdrs[i].align {
        maxAlign := phdrs[i].align;
      }
      if phdrs[i].pType.Dynamic? {
        dynamic := Some(i);
      }
    }
    r := Ok(Loads(index, maxAlign, dynamic));
  }

  /** Takes in one more header; fails exactly when the headers so far are not acceptable with it. */
  method ReadHeader(index: LoadSegments, phdrs: seq<Phdr>, i: nat, fileLen: nat, dynamic: Option<nat>)
      returns (r: Result<()>)
    requires i < |phdrs| && Acceptable(phdrs, i, fileLen)
    requires Sorted(index.segments) && Indexes(index.segments, phdrs, i) && DynamicFound(phdrs, i, dynamic)
    modifies index
    ensures r.Ok? <==> Acceptable(phdrs, i + 1, fileLen)
    ensures r.Ok? ==>
      && Sorted(index.segments) && Indexes(index.segments, phdrs, i + 1)
      && DynamicFound(phdrs, i + 1, if phdrs[i].pType.Dynamic? then Some(i) else dynamic)
  {
    var phdr := phdrs[i];
    DynamicStep(phdrs, i, dynamic);
    var verified := VerifyInFile(phdr, fileLen);
    if verified.Err? {
      return Err(verified.error);
    }
    if phdr.pType.Load? && phdr.memsz != 0 {
      r := AddLoad(index, phdrs, i);
      return;
    }
    SkipUnloaded(index.segments, phdrs, i);
    if phdr.pType.Dynamic? && dynamic.Some? {
      return Err(DynamicPhdrConflict);
    }
    r := Ok(());
  }

  method AddLoad(index: LoadSegments, phdrs: seq<Phdr>, i: nat) returns (r: Result<()>)
    requires i < |phdrs| && phdrs[i].IsLoaded() && LoadsApart(phdrs, i)
    requires Sorted(index.segments) && Indexes(index.segments, phdrs, i)
    modifies index
    ensures Sorted(index.segments)
    ensures r.Ok? <==> LoadsApart(phdrs, i + 1)
    ensures r.Ok? ==> Indexes(index.segments, phdrs, i + 1)
  {
    ApartExtends(index.segments, phdrs, i);
    var inserted := index.TryInsert(phdrs[i].VaddrRange(), i);
    if inserted.Err? {
      return Err(LoadSegmentConflict);
    }
    ghost var at :| 0 <= at <= |old(index.segments)| &&
      index.segments == old(index.segments)[..at] + [Entry(phdrs[i].VaddrRange(), i)] + old(index.segments)[at..];
    InsertIndexes(old(index.segments), index.segments, phdrs, i, at);
    r := Ok(());
  }

  // ---- from addresses to file offsets ----

  /** Loaded header `i` maps the range, and the file backs all of it. */
  ghost predicate Maps(phdrs: seq<Phdr>, i: nat, range: AddrRange)
  {
    i < |phdrs| && phdrs[i].IsLoaded() && phdrs[i].VaddrRange().Contains(range)
  }

  ghost predicate Backs(phdrs: seq<Phdr>, i: nat, range: AddrRange)
  {
    Maps(phdrs, i, range) && range.end - phdrs[i].vaddr <= phdrs[i].filesz
  }

  datatype FileRange = FileRange(begin: nat, end: nat)

  ghost function FileOffset(p: Phdr, vaddr: nat): nat
  {
    if p.vaddr <= vaddr then p.offset + (vaddr - p.vaddr) else 0
  }

  /** The lookup finds the one loaded header that maps a non-empty range. */
  lemma LookupFindsHeader(segments: seq<Entry>, phdrs: seq<Phdr>, range: AddrRange)
    requires Sorted(segments) && Indexes(segments, phdrs, |phdrs|) && range.NonEmpty()
    ensures LinearLookup(segments, range).None? ==> forall j :: !Maps(phdrs, j, range)
    ensures LinearLookup(segments, range).Some? ==>
      var found := LinearLookup(segments, range).value;
      && Maps(phdrs, found.0, range) && found.1 == range.begin - phdrs[found.0].vaddr
      && forall j :: Maps(phdrs, j, range) ==> j == found.0
  {
    if k :| 0 <= k < |segments| && segments[k].range.Contains(range) {
      assert forall m :: 0 <= m < |segments| && segments[m].range.Contains(range) ==> m == k;
      LinearFinds(segments, range, k);
      forall j | Maps(phdrs, j, range) ensures j == segments[k].phdr {
        assert Indexed(segments, j);
        var m :| 0 <= m < |segments| && segments[m].phdr == j;
        assert segments[m].range.Contains(range);
      }
    } else {
      LinearMisses(segments, range);
      forall j: nat | j < |phdrs| && phdrs[j].IsLoaded() ensures !Maps(phdrs, j, range) {
        assert Indexed(segments, j);
        var m :| 0 <= m < |segments| && segments[m].phdr == j;
        assert !segments[m].range.Contains(range);
      }
    }
  }

  /** Whatever the range, a header the index finds maps it. */
  lemma FoundHeaderMaps(segments: seq<Entry>, phdrs: seq<Phdr>, range: AddrRange)
    requires Sorted(segments) && Indexes(segments, phdrs, |phdrs|) && IndexedLookup(segments, range).Some?
    ensures var found := IndexedLookup(segments, range).value;
      Maps(phdrs, found.0, range) && found.1 == range.begin - phdrs[found.0].vaddr
  {
    var i := SplitExists(segments, range);
    IndexedLookupAt(segments, range, i);
  }

  /**
   For a non-empty range with an end: succeeds exactly when one header maps and the file backs
   it, with the bytes in the file. Without an end the answer runs to the end of the segment's
   file contents.
   */
  method MapVaddrToFileOff(index: LoadSegments, phdrs: seq<Phdr>, fileLen: nat, begin: nat, end: Option<nat>)
      returns (r: Result<FileRange>)
    requires Sorted(index.segments) && Indexes(index.segments, phdrs, |phdrs|)
    requires Acceptable(phdrs, |phdrs|, fileLen)
    requires begin < 0x1_0000_0000_0000_0000 && (end.Some? ==> begin <= end.value < 0x1_0000_0000_0000_0000)
    ensures end.Some? && begin < end.value ==>
      (r.Ok? <==> exists i: nat :: Backs(phdrs, i, AddrRange(begin, end.value)))
    ensures end.Some? && begin < end.value && r.Ok? ==> r.value.end <= fileLen
    ensures end.Some? && r.Ok? ==>
      && r.value.end - r.value.begin == end.value - begin
      && (exists i: nat :: Backs(phdrs, i, AddrRange(begin, end.value)) && r.value.begin == FileOffset(phdrs[i], begin))
    ensures end.None? ==>
      (r.Ok? <==> exists i: nat :: Maps(phdrs, i, AddrRange(begin, begin + 1)) && FileOffset(phdrs[i], begin) < 0x1_0000_0000_0000_0000)
    ensures end.None? && r.Ok? ==>
      (exists i: nat :: Maps(phdrs, i, AddrRange(begin, begin + 1)) &&
        r.value == FileRange(FileOffset(phdrs[i], begin), phdrs[i].FileEnd()))
  {
    if begin == 0xFFFF_FFFF_FFFF_FFFF {
      return Err(UnmappedVaddrRange);
    }
    var range := AddrRange(begin, if end.Some? then end.value else begin + 1);
    var found := index.LookupVaddrRange(range);
    if begin < range.end {
      LookupFindsHeader(index.segments, phdrs, range);
    }
    if found.None? {
      return Err(UnmappedVaddrRange);
    }
    FoundHeaderMaps(index.segments, phdrs, range);
    var (i, offset) := found.value;
    var phdr := phdrs[i];
    assert VerifyInFile(phdr, fileLen).Ok?;
    var offsetBegin := phdr.offset + offset;
    if offsetBegin >= 0x1_0000_0000_0000_0000 {
      return Err(InvalidFileRange);
    }
    if end.None? {
      return Ok(FileRange(offsetBegin, phdr.FileEnd()));
    }
    var offsetEnd := offsetBegin + (end.value - begin);
    if offsetEnd >= 0x1_0000_0000_0000_0000 {
      return Err(InvalidFileRange);
    }
    if offsetEnd > phdr.FileEnd() {
      return Err(UnbackedVaddrRange);
    }
    assert Backs(phdrs, i, range);
    r := Ok(FileRange(offsetBegin, offsetEnd));
  }

  /** Without an end, the answer is a range at all exactly when the address is not past the file contents. */
  lemma OpenEndedExact(p: Phdr, begin: nat)
    requires p.vaddr <= begin
    ensures FileOffset(p, begin) <= p.FileEnd() <==> begin - p.vaddr <= p.filesz
  {
  }

  /** It can be past them: a segment with no file contents maps its second byte to an inverted range. */
  lemma OpenEndedInverted()
    ensures var p := Phdr(Load, 0, 0x1000, 0, 0x1000, 1);
      && VerifyInFile(p, 0).Ok? && Maps([p], 0, AddrRange(0x1001, 0x1002))
      && FileOffset(p, 0x1001) > p.FileEnd()
  {
  }

  // ---- the load base ----

  /** `begin & !(align - 1)`, the base an allocation for the image starts at. */
  function AllocBase(begin: nat, align: nat): nat
  {
    if align == 0 then begin else AndNot(begin, align - 1)
  }

  function ImageLoadAddr(addr: nat, begin: nat, align: nat): nat
  {
    if align == 0 then addr else AndNot(addr, align - 1) + And(begin, align - 1)
  }

  /** In two's complement, as the source computes it. */
  function LoadBase(addr: nat, begin: nat, align: nat): nat
  {
    var moved := ImageLoadAddr(addr, begin, align) - begin;
    moved % 0x1_0000_0000_0000_0000
  }

  lemma MultipleIsMod(x: nat, m: nat, q: int)
    requires m > 0 && x == q * m
    ensures x % m == 0
  {
    ModUnique(x, m, q, 0);
  }

  lemma DivMod(x: nat, m: nat)
    requires m > 0
    ensures x == (x / m) * m + x % m && x % m < m
  {
  }

  lemma Distribute(a: int, b: int, m: int)
    ensures a * m - b * m == (a - b) * m
  {
  }

  lemma MulAssoc(a: int, b: int, c: int)
    ensures a * (b * c) == (a * b) * c
  {
  }

  /** Reducing modulo a multiple of `m` keeps multiples of `m`. */
  lemma WrapKeepsMultiple(q: int, m: nat, c: nat, w: nat)
    requires m > 0 && c > 0 && w == c * m && w > 0
    ensures ((q * m) % w) % m == 0
  {
    var d := (q * m) / w;
    assert (q * m) % w == q * m - d * w;
    MulAssoc(d, c, m);
    Distribute(q, d * c, m);
    MultipleIsMod((q * m) % w, m, q - d * c);
  }

  lemma DividesOn(x: nat, a: nat, c: nat, m: nat)
    requires a > 0 && m > 0 && m == c * a && x % m == 0
    ensures x % a == 0
  {
    DivMod(x, m);
    MulAssoc(x / m, c, a);
    MultipleIsMod(x, a, (x / m) * c);
  }

  /** Masking splits an address into a multiple of the power of two and a rest. */
  lemma Floors(x: nat, k: nat) returns (q: nat)
    ensures AndNot(x, Pow2(k) - 1) == q * Pow2(k) <= x
    ensures And(x, Pow2(k) - 1) == x - q * Pow2(k)
  {
    MaskIsFloor(x, k);
    MaskIsMod(x, k);
    q := x / Pow2(k);
    DivMod(x, Pow2(k));
  }

  /** At every load address the load base is a multiple of the largest segment alignment. */
  lemma LoadBaseMultiple(addr: nat, begin: nat, k: nat)
    requires k < 64
    ensures LoadBase(addr, begin, Pow2(k)) % Pow2(k) == 0
  {
    var m, c := Pow2(k), Pow2(64 - k);
    var a: int := Floors(addr, k);
    var b: int := Floors(begin, k);
    MovedByMultiple(ImageLoadAddr(addr, begin, m), begin, a, b, m);
    assert 0x1_0000_0000_0000_0000 == c * m by {
      Pow2Product(64 - k, k);
      WordSizes();
    }
    WrapKeepsMultiple(a - b, m, c, 0x1_0000_0000_0000_0000);
  }

  lemma MovedByMultiple(moved: nat, begin: nat, a: int, b: int, m: int)
    requires moved == a * m + (begin - b * m)
    ensures moved - begin == (a - b) * m
  {
    Distribute(a, b, m);
  }

  lemma ExponentBound(n: nat, k: nat)
    requires Pow2(k) == n < 0x1_0000_0000_0000_0000
    ensures k < 64
  {
    WordSizes();
    if k >= 64 {
      Pow2Monotone(64, k);
    }
  }

  /** So it is 0 modulo every segment's alignment. */
  lemma LoadBaseAligned(addr: nat, begin: nat, maxAlign: nat, align: nat)
    requires maxAlign < 0x1_0000_0000_0000_0000
    requires PowerOfTwo(maxAlign) && PowerOfTwo(align) && align <= maxAlign
    ensures LoadBase(addr, begin, maxAlign) % align == 0
  {
    var k := PowerOfTwoExponent(maxAlign);
    var j := PowerOfTwoExponent(align);
    ExponentBound(maxAlign, k);
    assert j <= k by {
      if j > k {
        Pow2Monotone(k, j);
      }
    }
    LoadBaseMultiple(addr, begin, k);
    Pow2Product(k - j, j);
    DividesOn(LoadBase(addr, begin, maxAlign), align, Pow2(k - j), maxAlign);
  }

  /** At the allocated base, and at the first segment's own address, nothing moves. */
  lemma LoadBaseAtAllocation(begin: nat, align: nat)
    requires align == 0 || PowerOfTwo(align)
    ensures LoadBase(AllocBase(begin, align), begin, align) == 0
    ensures LoadBase(begin, begin, align) == 0
  {
    if align != 0 {
      var k := PowerOfTwoExponent(align);
      var q := Floors(begin, k);
      var base := q * align;
      MaskIsFloor(base, k);
      MultipleIsMod(base, align, q);
      assert AllocBase(begin, align) == base;
      assert ImageLoadAddr(base, begin, align) == begin;
      assert ImageLoadAddr(begin, begin, align) == begin;
    }
  }

  lemma AllocBaseBelow(begin: nat, align: nat)
    requires align == 0 || PowerOfTwo(align)
    ensures AllocBase(begin, align) <= begin
  {
    if align != 0 {
      AndNotBound(begin, align - 1);
    }
  }

  /** A page-aligned first segment gives a page-aligned allocation base. */
  lemma AllocBaseKeepsAlignment(begin: nat, align: nat)
    requires begin % 4096 == 0 && (align == 0 || PowerOfTwo(align))
    ensures AllocBase(begin, align) % 4096 == 0
  {
    if align != 0 {
      var k := PowerOfTwoExponent(align);
      WordSizes();
      if k >= 12 {
        var q := Floors(begin, k);
        Pow2Product(k - 12, 12);
        MulAssoc(q, Pow2(k - 12), 4096);
        MultipleIsMod(AllocBase(begin, align), 4096, q * Pow2(k - 12));
      } else {
        MaskIsFloor(begin, k);
        Pow2Product(12 - k, k);
        DividesOn(begin, align, Pow2(12 - k), 4096);
      }
    }
  }

  /** For an image that was read, the load base is 0 modulo the alignment of each of its segments. */
  lemma EverySegmentStaysAligned(phdrs: seq<Phdr>, fileLen: nat, maxAlign: nat, i: nat, addr: nat, begin: nat)
    requires Acceptable(phdrs, |phdrs|, fileLen) && IsMaxAlign(phdrs, |phdrs|, maxAlign)
    requires maxAlign < 0x1_0000_0000_0000_0000
    requires i < |phdrs| && phdrs[i].IsLoaded() && phdrs[i].align > 0
    ensures LoadBase(addr, begin, maxAlign) % phdrs[i].align == 0
  {
    assert VerifyInFile(phdrs[i], fileLen).Ok?;
    if phdrs[i].align > 1 {
      var k :| 0 <= k < |phdrs| && phdrs[k].IsLoaded() && phdrs[k].align == maxAlign;
      assert VerifyInFile(phdrs[k], fileLen).Ok?;
      LoadBaseAligned(addr, begin, maxAlign, phdrs[i].align);
    }
  }

  /** So a shifted segment address stays congruent to its file offset. */
  lemma ShiftKeepsCongruence(p: Phdr, loadBase: nat, k: nat)
    requires p.align == Pow2(k) && k < 64 && loadBase % p.align == 0
    requires p.vaddr % p.align == p.offset % p.align
    ensures ((p.vaddr + loadBase) % 0x1_0000_0000_0000_0000) % p.align == p.offset % p.align
  {
    var m, c := p.align, Pow2(64 - k);
    assert 0x1_0000_0000_0000_0000 == c * m by {
      Pow2Product(64 - k, k);
      WordSizes();
    }
    ShiftCongruent(p.vaddr, loadBase, m, c, 0x1_0000_0000_0000_0000);
  }

  lemma ShiftCongruent(v: nat, shift: nat, m: nat, c: nat, w: nat)
    requires m > 0 && c > 0 && w == c * m && w > 0 && shift % m == 0
    ensures ((v + shift) % w) % m == v % m
  {
    var d := (v + shift) / w;
    DivMod(v + shift, w);
    DivMod(v, m);
    DivMod(shift, m);
    MulAssoc(d, c, m);
    var q: int := v / m + shift / m - d * c;
    assert (v + shift) % w == q * m + v % m by {
      Gather(v / m, shift / m, d * c, m);
    }
    ModUnique((v + shift) % w, m, q, v % m);
  }

  lemma Gather(a: int, b: int, c: int, m: int)
    ensures (a + b - c) * m == a * m + b * m - c * m
  {
  }
}
