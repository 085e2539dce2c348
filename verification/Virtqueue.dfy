/** The driver side of a split virtqueue, with the device as its environment. */
module Virtqueue {
  import opened Bits
  import opened Collections
  import opened VirtqueueModel
  import opened VirtqueueLedger
  import opened VirtqueueRings

  datatype Error = InvalidParam | QueueFull | NotReady | WrongToken | AlreadyUsed | DmaError

  datatype Result<+T> = Ok(value: T) | Err(error: Error)

  /** The HAL's record of what is shared with the device, by physical address. */
  class Hal {
    var live: map<nat, Shared>

    constructor ()
      ensures live == map[]
    {
      live := map[];
    }

    /** `Hal::share`: some address that is not in use. */
    method Share(s: Shared) returns (p: nat)
      modifies this
      ensures p !in old(live)
      ensures live == old(live)[p := s]
    {
      FreshAddress(live.Keys);
      p :| p !in live.Keys;
      live := live[p := s];
    }

    /** `Hal::unshare`: the address must come from the corresponding `share`. */
    method Unshare(p: nat, s: Shared)
      requires p in live && live[p] == s
      modifies this
      ensures live == old(live) - {p}
    {
      live := live - {p};
    }
  }

  lemma FreshAddress(s: set<nat>)
    ensures exists p: nat :: p !in s
  {
    var p := AboveAll(s);
    assert p !in s;
  }

  ghost function AboveAll(s: set<nat>): (p: nat)
    ensures forall q :: q in s ==> q < p
  {
    if s == {} then 0
    else
      var x :| x in s;
      var p := AboveAll(s - {x});
      assert forall q :: q in s ==> q == x || q in s - {x};
      if x < p then p else x + 1
  }

  /** The loop of `new` that threads the free list through both tables. */
  method LinkFree(shadow: array<Descriptor>, desc: array<Descriptor>)
    requires shadow != desc && shadow.Length == desc.Length > 0
    requires forall j :: 0 <= j < shadow.Length ==> shadow[j] == desc[j] == ZERO_DESCRIPTOR
    modifies shadow, desc
    ensures forall j :: 0 <= j < shadow.Length ==>
              shadow[j] == desc[j] == ZERO_DESCRIPTOR.(next := if j < shadow.Length - 1 then j + 1 else 0)
  {
    for i := 0 to shadow.Length - 1
      invariant forall j :: 0 <= j < shadow.Length ==>
                  shadow[j] == desc[j] == ZERO_DESCRIPTOR.(next := if j < i then j + 1 else 0)
    {
      shadow[i] := shadow[i].(next := i + 1);
      desc[i] := desc[i].(next := i + 1);
    }
  }

  class VirtQueue {
    const size: nat
    const indirect: bool
    const eventIdx: bool
    const hal: Hal

    // Memory shared with the device.
    const desc: array<Descriptor>
    const availRing: array<nat>
    const usedRing: array<UsedElem>
    var availIdxShared: nat
    var usedEvent: nat
    var usedIdx: nat

    // Trusted memory.
    const shadow: array<Descriptor>
    const lists: array<Option<seq<Descriptor>>>
    var numUsed: nat
    var freeHead: nat
    var availIdx: nat
    var lastUsedIdx: nat

    // Abstract state.
    ghost var ledger: Ledger
    ghost var traffic: Traffic

    ghost function Trusted(): Driver
      reads this, hal, shadow, lists
    {
      Driver(size, shadow[..], freeHead, numUsed, lists[..], hal.live)
    }

    ghost predicate Shape()
      reads this
    {
      && desc.Length == shadow.Length == lists.Length == availRing.Length == usedRing.Length == size
      && desc != shadow && QueueSize(size) && size <= 0x8000
    }

    /** The driver's invariant. It does not mention anything the device can write. */
    ghost predicate Valid()
      reads this, hal, shadow, lists
    {
      && Shape() && availIdx < 0x1_0000 && lastUsedIdx < 0x1_0000
      && numUsed + |ledger.free| == size
      && Inv(Trusted(), ledger)
    }

    ghost function RingState(): Rings
      reads this, availRing, usedRing
    {
      Rings(size, availRing[..], availIdx, availIdxShared, usedRing[..], usedIdx, lastUsedIdx)
    }

    /** What holds in addition while the device writes only the used ring, as it should. */
    ghost predicate Honest()
      reads this, desc, shadow, availRing, usedRing
    {
      && (forall h :: h in ledger.chains ==> Shown(desc[..], shadow[..], ledger.chains[h]))
      && RingInv(RingState(), ledger.chains.Keys, traffic)
    }

    /** The part of `new` after the transport checks: zeroed memory and a linked free list. */
    constructor (size: nat, indirect: bool, eventIdx: bool)
      requires QueueSize(size)
      ensures Valid() && Honest()
      ensures this.size == size && this.indirect == indirect && this.eventIdx == eventIdx
      ensures ledger.chains == map[] && numUsed == 0 && fresh(hal) && hal.live == map[]
      ensures fresh(desc) && fresh(shadow) && fresh(lists) && fresh(availRing) && fresh(usedRing)
    {
      this.size, this.indirect, this.eventIdx := size, indirect, eventIdx;
      hal := new Hal();
      desc := new Descriptor[size](_ => ZERO_DESCRIPTOR);
      shadow := new Descriptor[size](_ => ZERO_DESCRIPTOR);
      lists := new Option<seq<Descriptor>>[size](_ => None);
      availRing := new nat[size](_ => 0);
      usedRing := new UsedElem[size](_ => UsedElem(0, 0));
      availIdxShared, usedEvent, usedIdx := 0, 0, 0;
      numUsed, freeHead, availIdx, lastUsedIdx := 0, 0, 0, 0;
      ledger := Ledger(seq(size, i => i), map[], seq(size, i requires 0 <= i => Free(i)), map[]);
      traffic := Traffic(0, 0, 0, 0, [], {}, []);
      new;
      LinkFree(shadow, desc);
      assert 0 < size <= 0x8000 by { SlotExact(0, size); }
      InitialInv(Trusted(), ledger);
    }

    /** `available_desc` */
    function Available(): (n: nat)
      requires numUsed <= size
      reads this
    {
      if indirect then (if numUsed == size then 0 else size) else size - numUsed
    }

    /** `write_desc` */
    method WriteDesc(index: nat)
      requires index < desc.Length == shadow.Length && desc != shadow
      modifies desc
      ensures desc[..] == old(desc[..])[index := shadow[index]]
    {
      desc[index] := shadow[index];
    }

    /** One round of the loop of `add_direct`: the first free descriptor takes the buffer `io`. */
    method TakeFree(io: IoBuffer) returns (last: nat, p: nat)
      requires desc.Length == shadow.Length && desc != shadow && freeHead < shadow.Length
      modifies this`freeHead, shadow, desc, hal
      ensures last == old(freeHead) && freeHead == old(shadow[freeHead].next)
      ensures p !in old(hal.live) && hal.live == old(hal.live)[p := SharedBuffer(io)]
      ensures shadow[..] == old(shadow[..])[last := SetBuf(old(shadow[freeHead]), p, io, true)]
      ensures desc[..] == old(desc[..])[last := shadow[last]]
    {
      p := hal.Share(SharedBuffer(io));
      shadow[freeHead] := SetBuf(shadow[freeHead], p, io, true);
      last := freeHead;
      freeHead := shadow[freeHead].next;
      WriteDesc(last);
    }

    /** The loop of `add_direct`: the buffers go into the first free descriptors, in order. */
    method FillChain(bufs: seq<IoBuffer>) returns (last: nat, ghost addrs: seq<nat>)
      requires desc.Length == shadow.Length && desc != shadow
      requires FreeLinked(shadow[..], freeHead, ledger.free) && Distinct(ledger.free)
      requires 1 <= |bufs| <= |ledger.free|
      modifies this`freeHead, shadow, desc, hal
      ensures |addrs| == |bufs| && last == ledger.free[|bufs| - 1]
      ensures freeHead == old(shadow[ledger.free[|bufs| - 1]].next)
      ensures shadow[..] == Filled(old(shadow[..]), ledger.free, bufs, addrs)
      ensures desc[..] == Copied(old(desc[..]), shadow[..], ledger.free[..|bufs|])
      ensures FreshAddresses(old(hal.live), addrs) && hal.live == ShareAll(old(hal.live), bufs, addrs)
    {
      ghost var free := ledger.free;
      last := freeHead;
      addrs := [];
      for k := 0 to |bufs|
        invariant |addrs| == k
        invariant k > 0 ==> last == free[k - 1] && freeHead == old(shadow[free[k - 1]].next)
        invariant k < |free| ==> freeHead == free[k]
        invariant shadow[..] == Filled(old(shadow[..]), free, bufs, addrs)
        invariant desc[..] == Copied(old(desc[..]), shadow[..], free[..k])
        invariant FreshAddresses(old(hal.live), addrs) && hal.live == ShareAll(old(hal.live), bufs, addrs)
      {
        ghost var p, t := 0, shadow[..];
        FilledNext(old(shadow[..]), free, bufs, addrs);
        last, p := TakeFree(bufs[k]);
        FilledStep(old(shadow[..]), free, bufs, addrs, p);
        CopiedNext(old(desc[..]), t, free, k, SetBuf(t[free[k]], p, bufs[k], true));
        ShareAllStep(old(hal.live), bufs, addrs, p);
        addrs := addrs + [p];
      }
    }

    /** `add_direct`: the first free descriptors become the new chain. */
    method AddDirect(inputs: seq<Buffer>, outputs: seq<Buffer>) returns (head: nat)
      requires Valid()
      requires 1 <= |inputs| + |outputs| <= |ledger.free|
      requires forall j :: 0 <= j < |InputOutput(inputs, outputs)| ==> InputOutput(inputs, outputs)[j].buf.len > 0
      modifies this`freeHead, this`numUsed, this`ledger, shadow, desc, hal
      ensures head == old(ledger.free[0])
      ensures ChainAdded(old(Trusted()), old(ledger), old(desc[..]), Trusted(), ledger, desc[..],
                         InputOutput(inputs, outputs), |inputs| + |outputs|)
    {
      ghost var l, bufs := ledger, InputOutput(inputs, outputs);
      Unseal(Trusted(), l);
      FreeDistinct(l);
      head := freeHead;
      var last; ghost var addrs;
      last, addrs := FillChain(InputOutput(inputs, outputs));
      ghost var table := shadow[..];
      shadow[last] := shadow[last].(flags := shadow[last].flags.(next := false));
      WriteDesc(last);
      numUsed := numUsed + (|inputs| + |outputs|);
      CopiedAgain(old(desc[..]), table, l.free[..|bufs|], last, shadow[last]);
      ledger := Added(l, Chain(l.free[..|bufs|], bufs, addrs, None), TagAll(l.tags, l.free[0], addrs));
      DirectAdded(old(Trusted()), l, old(desc[..]), Trusted(), desc[..], bufs, addrs, ledger);
    }

    /** `add_indirect`: the buffers go into a table of their own, and one free descriptor points to it. */
    method AddIndirect(inputs: seq<Buffer>, outputs: seq<Buffer>) returns (head: nat)
      requires Valid()
      requires |inputs| + |outputs| > 0 && |ledger.free| > 0
      requires forall j :: 0 <= j < |InputOutput(inputs, outputs)| ==> InputOutput(inputs, outputs)[j].buf.len > 0
      modifies this`freeHead, this`numUsed, this`ledger, shadow, desc, lists, hal
      ensures head == old(ledger.free[0])
      ensures ChainAdded(old(Trusted()), old(ledger), old(desc[..]), Trusted(), ledger, desc[..], InputOutput(inputs, outputs), 1)
    {
      ghost var l := ledger;
      Unseal(Trusted(), l);
      FreeHeadHasNoList(Trusted(), l);
      head := freeHead;
      var bufs := InputOutput(inputs, outputs);
      var list; ghost var addrs;
      list, addrs := FillIndirect(bufs);
      assert lists[head].None?;
      lists[head] := Some(list);
      freeHead := shadow[head].next;
      var table := hal.Share(SharedTable(list));
      shadow[head] := Descriptor(table, 16 * |list|, DescFlags(false, false, true), shadow[head].next);
      WriteDesc(head);
      numUsed := numUsed + 1;
      ledger := Added(l, Chain([head], bufs, addrs, Some(table)), TagAll(l.tags, head, addrs)[table := TableTag(head)]);
      IndirectAdded(old(Trusted()), l, old(desc[..]), Trusted(), desc[..], bufs, addrs, table, ledger);
    }

    /** One round of the loop of `add_indirect`: entry `i` of the list takes the buffer `io`. */
    method SetEntry(list: array<Descriptor>, i: nat, io: IoBuffer) returns (p: nat)
      requires i < list.Length
      modifies list, hal
      ensures p !in old(hal.live) && hal.live == old(hal.live)[p := SharedBuffer(io)]
      ensures list[..] == old(list[..])[i := SetBuf(old(list[i]), p, io, true).(next := i + 1)]
    {
      p := hal.Share(SharedBuffer(io));
      list[i] := SetBuf(list[i], p, io, true).(next := i + 1);
    }

    /** The loop of `add_indirect`. */
    method FillIndirect(bufs: seq<IoBuffer>) returns (list: seq<Descriptor>, ghost addrs: seq<nat>)
      requires |bufs| > 0
      modifies hal
      ensures |addrs| == |bufs| && list == IndirectList(bufs, addrs)
      ensures FreshAddresses(old(hal.live), addrs) && hal.live == ShareAll(old(hal.live), bufs, addrs)
    {
      var indirectList := new Descriptor[|bufs|](_ => ZERO_DESCRIPTOR);
      addrs := [];
      for i := 0 to |bufs|
        invariant |addrs| == i && indirectList[..] == LinkedList(bufs, addrs, |bufs|)
        invariant FreshAddresses(old(hal.live), addrs) && hal.live == ShareAll(old(hal.live), bufs, addrs)
      {
        var p := SetEntry(indirectList, i, bufs[i]);
        LinkedStep(bufs, addrs, |bufs|, p);
        ShareAllStep(old(hal.live), bufs, addrs, p);
        addrs := addrs + [p];
      }
      var last := |bufs| - 1;
      LinkedDone(bufs, addrs);
      indirectList[last] := indirectList[last].(flags := indirectList[last].flags.(next := false));
      list := indirectList[..];
    }

    /** `add`: carves a chain for the buffers off the free list and publishes its head. */
    method Add(inputs: seq<Buffer>, outputs: seq<Buffer>) returns (r: Result<nat>)
      requires Valid()
      requires 1 <= |inputs| + |outputs| <= Available() ==>
                 forall j :: 0 <= j < |InputOutput(inputs, outputs)| ==> 0 < InputOutput(inputs, outputs)[j].buf.len < 0x1_0000_0000
      modifies this, shadow, desc, lists, availRing, hal
      ensures Valid() && (old(Honest()) ==> Honest())
      ensures r == Err(InvalidParam) <==> |inputs| + |outputs| == 0
      ensures r == Err(QueueFull) <==> |inputs| + |outputs| > old(Available())
      ensures r.Ok? <==> 1 <= |inputs| + |outputs| <= old(Available())
      ensures r.Err? ==> ledger == old(ledger) && traffic == old(traffic) && Trusted() == old(Trusted())
      ensures r.Ok? ==>
                && r.value !in old(ledger.chains) && r.value in ledger.chains
                && ledger.chains == old(ledger.chains)[r.value := ledger.chains[r.value]]
                && ledger.chains[r.value].bufs == InputOutput(inputs, outputs)
                && traffic == Published(old(traffic), r.value)
                && DeviceSees(desc[..], hal.live, r.value, InputOutput(inputs, outputs))
    {
      if |inputs| == 0 && |outputs| == 0 {
        return Err(InvalidParam);
      }
      var needed := |inputs| + |outputs|;
      if numUsed + 1 > size || needed > size || (!indirect && numUsed + needed > size) {
        return Err(QueueFull);
      }
      var head := AddFitting(inputs, outputs);
      return Ok(head);
    }

    /** The part of `add` after the checks. */
    method AddFitting(inputs: seq<Buffer>, outputs: seq<Buffer>) returns (head: nat)
      requires Valid()
      requires 1 <= |inputs| + |outputs| <= Available()
      requires forall j :: 0 <= j < |InputOutput(inputs, outputs)| ==> InputOutput(inputs, outputs)[j].buf.len > 0
      modifies this, shadow, desc, lists, availRing, hal
      ensures Valid() && (old(Honest()) ==> Honest())
      ensures head !in old(ledger.chains) && head in ledger.chains
      ensures ledger.chains == old(ledger.chains)[head := ledger.chains[head]]
      ensures ledger.chains[head].bufs == InputOutput(inputs, outputs)
      ensures traffic == Published(old(traffic), head)
      ensures DeviceSees(desc[..], hal.live, head, InputOutput(inputs, outputs))
    {
      ghost var heads := ledger.chains.Keys;
      head := AddChain(inputs, outputs);
      PublishHead(head, heads);
    }

    /** The choice of `add` between the two encodings. */
    method AddChain(inputs: seq<Buffer>, outputs: seq<Buffer>) returns (head: nat)
      requires Valid()
      requires 1 <= |inputs| + |outputs| <= Available()
      requires forall j :: 0 <= j < |InputOutput(inputs, outputs)| ==> InputOutput(inputs, outputs)[j].buf.len > 0
      modifies this`freeHead, this`numUsed, this`ledger, shadow, desc, lists, hal
      ensures |old(ledger.free)| > 0 && head == old(ledger.free[0])
      ensures ChainAdded(old(Trusted()), old(ledger), old(desc[..]), Trusted(), ledger, desc[..], InputOutput(inputs, outputs),
                         if indirect && |inputs| + |outputs| > 1 then 1 else |inputs| + |outputs|)
    {
      if indirect && |inputs| + |outputs| > 1 {
        head := AddIndirect(inputs, outputs);
      } else {
        head := AddDirect(inputs, outputs);
      }
    }

    /** The end of `add`: the head goes into the available ring, then the index moves. */
    method PublishHead(head: nat, ghost heads: set<nat>)
      requires Shape() && availIdx < 0x1_0000
      requires head !in heads && |heads| < size
      modifies this`availIdx, this`availIdxShared, this`traffic, availRing
      ensures availIdx < 0x1_0000 && traffic == Published(old(traffic), head)
      ensures old(RingInv(RingState(), heads, traffic)) ==> RingInv(RingState(), heads + {head}, traffic)
    {
      var availSlot := And(availIdx, size - 1);
      assert availSlot == Slot(availIdx, size) by {
        SlotExact(availIdx, size);
      }
      if RingInv(RingState(), heads, traffic) {
        assert availSlot == Slot(traffic.adds, size) by { SlotExact(traffic.adds, size); }
        PublishExact(RingState(), heads, traffic, availSlot, head);
      }
      availRing[availSlot] := head;
      availIdx := Wrap(availIdx + 1);
      availIdxShared := availIdx;
      traffic := Published(traffic, head);
    }

    /** One round of `recycle_descriptors` on a direct chain. */
    method ReleaseOne(index: nat, io: IoBuffer, originalFreeHead: nat) returns (next: Option<nat>)
      requires desc.Length == shadow.Length && desc != shadow && index < shadow.Length && numUsed > 0
      requires shadow[index].addr in hal.live && hal.live[shadow[index].addr] == SharedBuffer(io)
      modifies this`numUsed, shadow, desc, hal
      ensures numUsed == old(numUsed) - 1
      ensures next == if old(shadow[index].flags.next) then Some(old(shadow[index].next)) else None
      ensures shadow[..] == old(shadow[..])[index := Unlink(old(shadow[index]), next.None?, originalFreeHead)]
      ensures desc[..] == old(desc[..])[index := shadow[index]]
      ensures hal.live == old(hal.live) - {old(shadow[index].addr)}
    {
      var paddr := shadow[index].addr;
      shadow[index] := UnsetBuf(shadow[index]);
      numUsed := numUsed - 1;
      next := if shadow[index].flags.next then Some(shadow[index].next) else None;
      if next.None? {
        shadow[index] := shadow[index].(next := originalFreeHead);
      }
      WriteDesc(index);
      hal.Unshare(paddr, SharedBuffer(io));
    }

    /** The direct branch of `recycle_descriptors`: neither "shorter" nor "longer" can happen. */
    method RecycleDirect(head: nat, bufs: seq<IoBuffer>, originalFreeHead: nat)
      requires desc.Length == shadow.Length && desc != shadow
      requires head in ledger.chains && ledger.chains[head].table.None? && ledger.chains[head].bufs == bufs
      requires ChainEncoded(Trusted(), head, ledger.chains[head]) && Distinct(ledger.chains[head].ids)
      requires SharesExact(hal.live, ledger)
      requires numUsed >= |ledger.chains[head].ids|
      modifies this`numUsed, shadow, desc, hal
      ensures numUsed == old(numUsed) - |ledger.chains[head].ids|
      ensures shadow[..] == Unlinked(old(shadow[..]), ledger.chains[head].ids, |ledger.chains[head].ids|, originalFreeHead)
      ensures desc[..] == Copied(old(desc[..]), shadow[..], ledger.chains[head].ids)
      ensures hal.live == old(hal.live) - Addresses(ledger.chains[head].addrs)
    {
      ghost var c := ledger.chains[head];
      var next: Option<nat> := Some(head);
      for k := 0 to |bufs|
        invariant numUsed == old(numUsed) - k
        invariant next == if k < |bufs| then Some(c.ids[k]) else None
        invariant shadow[..] == Unlinked(old(shadow[..]), c.ids, k, originalFreeHead)
        invariant desc[..] == Copied(old(desc[..]), shadow[..], c.ids[..k])
        invariant hal.live == old(hal.live) - Addresses(c.addrs[..k])
      {
        assert bufs[k].buf.len != 0 && next.Some?;
        UnlinkStep(old(shadow[..]), old(desc[..]), c.ids, k, originalFreeHead);
        UnshareStep(old(hal.live), ledger, head, k);
        assert Encodes(old(shadow[..])[c.ids[k]], c.bufs[k], c.addrs[k], k + 1 < |c.ids|);
        next := ReleaseOne(next.value, bufs[k], originalFreeHead);
      }
      assert next.None?;
      assert c.addrs[..|bufs|] == c.addrs && c.ids[..|bufs|] == c.ids;
    }

    /** The indirect branch of `recycle_descriptors`: the list is there, and of the right length. */
    method RecycleIndirect(head: nat, bufs: seq<IoBuffer>, originalFreeHead: nat)
      requires head < shadow.Length == lists.Length && numUsed > 0
      requires head in ledger.chains && ledger.chains[head].table.Some? && ledger.chains[head].bufs == bufs
      requires ChainEncoded(Trusted(), head, ledger.chains[head]) && SharesExact(hal.live, ledger)
      modifies this`numUsed, shadow, lists, hal
      ensures numUsed == old(numUsed) - 1
      ensures shadow[..] == old(shadow[..])[head := Unlink(old(shadow[head]), true, originalFreeHead)]
      ensures lists[..] == old(lists[..])[head := None]
      ensures hal.live == old(hal.live) - {ledger.chains[head].table.value} - Addresses(ledger.chains[head].addrs)
    {
      assert lists[head].Some?;
      var list := lists[head].value;
      assert TableLive(hal.live, ledger.tags, head, ledger.chains[head]);
      lists[head] := None;
      var paddr := shadow[head].addr;
      shadow[head] := UnsetBuf(shadow[head]);
      numUsed := numUsed - 1;
      shadow[head] := shadow[head].(next := originalFreeHead);
      UnshareIndirect(head, paddr, list, bufs);
    }

    /** The HAL calls of that branch: the list itself, then its buffers in order. */
    method UnshareIndirect(ghost head: nat, paddr: nat, list: seq<Descriptor>, bufs: seq<IoBuffer>)
      requires head in ledger.chains && ledger.chains[head].table == Some(paddr)
      requires SharesExact(hal.live, ledger) && |ledger.chains[head].bufs| == |ledger.chains[head].addrs|
      requires bufs == ledger.chains[head].bufs && list == IndirectList(bufs, ledger.chains[head].addrs)
      requires forall i :: 0 <= i < |bufs| ==> bufs[i].buf.len > 0
      modifies hal
      ensures hal.live == old(hal.live) - {paddr} - Addresses(ledger.chains[head].addrs)
    {
      ghost var addrs := ledger.chains[head].addrs;
      assert TableLive(hal.live, ledger.tags, head, ledger.chains[head]);
      hal.Unshare(paddr, SharedTable(list));
      assert |list| == |bufs|;
      for i := 0 to |bufs|
        invariant hal.live == old(hal.live) - {paddr} - Addresses(addrs[..i])
      {
        assert bufs[i].buf.len != 0;
        UnshareStep(old(hal.live), ledger, head, i);
        hal.Unshare(list[i].addr, SharedBuffer(bufs[i]));
      }
      assert addrs[..|bufs|] == addrs;
    }

    /** `recycle_descriptors` */
    method RecycleDescriptors(head: nat, inputs: seq<Buffer>, outputs: seq<Buffer>)
      requires Valid()
      requires head in ledger.chains && ledger.chains[head].bufs == InputOutput(inputs, outputs)
      modifies this`freeHead, this`numUsed, this`ledger, shadow, desc, lists, hal
      ensures ChainRemoved(old(Trusted()), old(ledger), old(desc[..]), Trusted(), ledger, desc[..], head)
    {
      ghost var d, l := Trusted(), ledger;
      Unseal(d, l);
      ChainDistinct(l, head);
      ChainFitsUsed(d, l, head);
      var originalFreeHead := freeHead;
      freeHead := head;
      assert ChainEncoded(d, head, l.chains[head]);
      assert ChainEncoded(Trusted(), head, l.chains[head]);
      if shadow[head].flags.indirect {
        RecycleIndirect(head, InputOutput(inputs, outputs), originalFreeHead);
        IndirectRemoved(d, l, old(desc[..]), Trusted(), head);
      } else {
        RecycleDirect(head, InputOutput(inputs, outputs), originalFreeHead);
        DirectRemoved(d, l, old(desc[..]), Trusted(), desc[..], head);
      }
      ledger := Removed(l, head);
    }

    /** `can_pop` */
    predicate CanPop()
      reads this
    {
      lastUsedIdx != usedIdx
    }

    /** The element the driver reads at `last_used_idx`, and what it is while the device is honest. */
    method NextUsed() returns (elem: UsedElem)
      requires Shape() && lastUsedIdx < 0x1_0000
      ensures RingInv(RingState(), ledger.chains.Keys, traffic) ==>
                && (CanPop() <==> |traffic.done| > 0)
                && (CanPop() ==> elem == traffic.done[0] && elem.id in ledger.chains)
    {
      var lastUsedSlot := And(lastUsedIdx, size - 1);
      assert lastUsedSlot == Slot(lastUsedIdx, size) by { SlotExact(lastUsedIdx, size); }
      elem := usedRing[lastUsedSlot];
      if RingInv(RingState(), ledger.chains.Keys, traffic) {
        assert lastUsedSlot == Slot(traffic.popped, size) && size < 0x1_0000 by { SlotExact(traffic.popped, size); }
        CanPopExact(RingState(), ledger.chains.Keys, traffic);
        if CanPop() { PopExact(RingState(), ledger.chains.Keys, traffic); }
      }
    }

    /** The end of `pop_used`. */
    method AdvanceUsed(ghost heads: set<nat>)
      requires Shape()
      modifies this`lastUsedIdx, this`usedEvent, this`traffic
      ensures lastUsedIdx < 0x1_0000
      ensures old(RingInv(RingState(), heads, traffic)) && |old(traffic.done)| > 0 ==>
                && traffic == Popped(old(traffic))
                && RingInv(RingState(), heads - {old(traffic.done)[0].id}, traffic)
    {
      if RingInv(RingState(), heads, traffic) && |traffic.done| > 0 {
        PopExact(RingState(), heads, traffic);
      }
      lastUsedIdx := Wrap(lastUsedIdx + 1);
      if eventIdx {
        usedEvent := lastUsedIdx;
      }
      traffic := if |traffic.done| > 0 then Popped(traffic) else traffic;
    }

    /** `peek_used` */
    method PeekUsed() returns (token: Option<nat>)
      requires Valid()
      ensures token.Some? <==> CanPop()
      ensures Honest() ==>
                && (token.Some? <==> traffic.completed > traffic.popped)
                && (token.Some? ==> token.value in ledger.chains && token.value == traffic.done[0].id)
    {
      var elem := NextUsed();
      token := if CanPop() then Some(elem.id % 0x1_0000) else None;
      if Honest() && CanPop() { HeadIsIndex(Trusted(), ledger, elem.id); }
    }

    /** `pop_used`: takes back the request `token` if it is the next one the device has completed. */
    method PopUsed(token: nat, inputs: seq<Buffer>, outputs: seq<Buffer>) returns (r: Result<nat>)
      requires Valid()
      requires token in ledger.chains && ledger.chains[token].bufs == InputOutput(inputs, outputs)
      modifies this, shadow, desc, lists, hal
      ensures Valid() && (old(Honest()) ==> Honest())
      ensures r == Err(NotReady) <==> !old(CanPop())
      ensures r.Err? ==> r.error in {NotReady, WrongToken}
      ensures r.Err? ==> ledger == old(ledger) && traffic == old(traffic) && Trusted() == old(Trusted())
      ensures r.Ok? ==> ledger == Removed(old(ledger), token)
      ensures old(Honest()) ==>
                && (r == Err(NotReady) <==> |old(traffic.done)| == 0)
                && (r.Ok? <==> |old(traffic.done)| > 0 && old(traffic.done)[0].id == token)
                && (r.Ok? ==> r.value == old(traffic.done)[0].len && traffic == Popped(old(traffic)))
    {
      var elem := NextUsed();
      if !CanPop() {
        return Err(NotReady);
      }
      var index, len := elem.id % 0x1_0000, elem.len;
      if Honest() { HeadIsIndex(Trusted(), ledger, elem.id); }
      if index != token {
        return Err(WrongToken);
      }
      ghost var heads := ledger.chains.Keys;
      RecycleDescriptors(index, inputs, outputs);
      AdvanceUsed(heads);
      return Ok(len);
    }

    // ---- the device ----

    /** An honest device takes the next published head; it sees exactly the buffers of that request. */
    ghost method DeviceTake() returns (head: nat)
      requires Valid() && Honest() && |traffic.pending| > 0
      modifies this`traffic
      ensures Valid() && Honest() && traffic == Taken(old(traffic))
      ensures head == old(traffic.pending[0]) && head in ledger.chains
      ensures DeviceSees(desc[..], hal.live, head, ledger.chains[head].bufs)
    {
      var slot := And(Wrap(traffic.taken), size - 1);
      assert slot == Slot(traffic.taken, size) by { SlotExact(traffic.taken, size); }
      TakeExact(RingState(), ledger.chains.Keys, traffic);
      head := availRing[slot];
      PendingIsHead(ledger.chains.Keys, traffic);
      traffic := Taken(traffic);
      ShownIsSeen(Trusted(), ledger, desc[..], head);
    }

    /** An honest device returns any request it holds, in any order. */
    method DeviceComplete(id: nat, len: nat)
      requires Valid() && Honest() && id in traffic.held
      modifies this`usedIdx, this`traffic, usedRing
      ensures Valid() && Honest() && traffic == Completed(old(traffic), UsedElem(id, len))
    {
      var slot := And(usedIdx, size - 1);
      assert slot == Slot(traffic.completed, size) by { SlotExact(traffic.completed, size); }
      CompleteExact(RingState(), ledger.chains.Keys, traffic, slot, UsedElem(id, len));
      usedRing[slot] := UsedElem(id, len);
      usedIdx := Wrap(usedIdx + 1);
      traffic := Completed(traffic, UsedElem(id, len));
    }

    /** A device that overwrites all the memory it can reach does not touch the driver's invariant. */
    method DeviceScribbles(newDesc: seq<Descriptor>, newAvail: seq<nat>, newUsed: seq<UsedElem>, newIdx: nat)
      requires Valid() && |newDesc| == |newAvail| == |newUsed| == size
      modifies this`usedIdx, this`availIdxShared, desc, availRing, usedRing
      ensures Valid() && ledger == old(ledger) && Trusted() == old(Trusted())
    {
      forall i | 0 <= i < size { desc[i] := newDesc[i]; }
      forall i | 0 <= i < size { availRing[i] := newAvail[i]; }
      forall i | 0 <= i < size { usedRing[i] := newUsed[i]; }
      usedIdx, availIdxShared := newIdx, newIdx;
      assert shadow[..] == old(shadow[..]) && lists[..] == old(lists[..]);
    }
  }

  /** `new`: the transport must offer the queue and enough entries, and the DMA memory must be there. */
  method New(size: nat, queueUsed: bool, maxQueueSize: nat, dmaAvailable: bool, indirect: bool, eventIdx: bool)
    returns (r: Result<VirtQueue>)
    requires QueueSize(size)
    ensures r == Err(AlreadyUsed) <==> queueUsed
    ensures r == Err(InvalidParam) <==> !queueUsed && maxQueueSize < size
    ensures r == Err(DmaError) <==> !queueUsed && size <= maxQueueSize && !dmaAvailable
    ensures r.Ok? <==> !queueUsed && size <= maxQueueSize && dmaAvailable
    ensures r.Ok? ==> fresh(r.value) && r.value.Valid() && r.value.Honest() && r.value.size == size
  {
    if queueUsed {
      return Err(AlreadyUsed);
    }
    if maxQueueSize < size {
      return Err(InvalidParam);
    }
    if !dmaAvailable {
      return Err(DmaError);
    }
    var q := new VirtQueue(size, indirect, eventIdx);
    return Ok(q);
  }
}
