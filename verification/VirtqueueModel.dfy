/**
 The values a split virtqueue works on: descriptors, the HAL's live shares, the
 outstanding descriptor chains, and what a device sees when it follows a chain
 through a descriptor table.
 */
module VirtqueueModel {
  import opened Collections

  datatype Direction = DriverToDevice | DeviceToDriver

  /** A driver memory slice handed to the queue. */
  datatype Buffer = Buffer(ptr: nat, len: nat)

  datatype IoBuffer = IoBuffer(buf: Buffer, dir: Direction)

  datatype DescFlags = DescFlags(next: bool, write: bool, indirect: bool)

  datatype Descriptor = Descriptor(addr: nat, len: nat, flags: DescFlags, next: nat)

  /** What the HAL has shared with the device at some physical address. */
  datatype Shared = SharedBuffer(io: IoBuffer) | SharedTable(table: seq<Descriptor>)

  datatype UsedElem = UsedElem(id: nat, len: nat)

  const ZERO_DESCRIPTOR := Descriptor(0, 0, DescFlags(false, false, false), 0)

  /** The order in which `InputOutputIter` yields the buffers of a request. */
  function InputOutput(inputs: seq<Buffer>, outputs: seq<Buffer>): (r: seq<IoBuffer>)
    ensures |r| == |inputs| + |outputs|
    decreases |inputs| + |outputs|
  {
    if |inputs| != 0 then [IoBuffer(inputs[0], DriverToDevice)] + InputOutput(inputs[1..], outputs)
    else if |outputs| != 0 then [IoBuffer(outputs[0], DeviceToDriver)] + InputOutput(inputs, outputs[1..])
    else []
  }

  /** All inputs in order, readable by the device, then all outputs in order, writable. */
  lemma {:induction false} InputOutputOrder(inputs: seq<Buffer>, outputs: seq<Buffer>)
    ensures InputOutput(inputs, outputs)
         == seq(|inputs|, i requires 0 <= i < |inputs| => IoBuffer(inputs[i], DriverToDevice))
          + seq(|outputs|, i requires 0 <= i < |outputs| => IoBuffer(outputs[i], DeviceToDriver))
    decreases |inputs| + |outputs|
  {
    if |inputs| != 0 {
      InputOutputOrder(inputs[1..], outputs);
    } else if |outputs| != 0 {
      InputOutputOrder(inputs, outputs[1..]);
    }
  }

  /** `Descriptor::set_buf`, after the buffer has been shared at `addr`. */
  function SetBuf(d: Descriptor, addr: nat, io: IoBuffer, next: bool): Descriptor {
    Descriptor(addr, io.buf.len, DescFlags(next, io.dir == DeviceToDriver, false), d.next)
  }

  function UnsetBuf(d: Descriptor): Descriptor { d.(addr := 0, len := 0) }

  /** One buffer element as a device reads it from a descriptor. */
  datatype Element = Element(addr: nat, len: nat, write: bool)

  function ElementOf(d: Descriptor): Element { Element(d.addr, d.len, d.flags.write) }

  /** A device that starts at index `i` of `table` and follows NEXT reads exactly `elems`. */
  ghost predicate Walks(table: seq<Descriptor>, i: nat, elems: seq<Element>)
    decreases |elems|
  {
    && i < |table| && |elems| > 0
    && elems[0] == ElementOf(table[i])
    && (if table[i].flags.next then Walks(table, table[i].next, elems[1..]) else |elems| == 1)
  }

  /** Following NEXT is deterministic: there is at most one list of elements to read. */
  lemma {:induction false} WalksUnique(table: seq<Descriptor>, i: nat, a: seq<Element>, b: seq<Element>)
    requires Walks(table, i, a) && Walks(table, i, b)
    ensures a == b
    decreases |a|
  {
    if table[i].flags.next {
      WalksUnique(table, table[i].next, a[1..], b[1..]);
      assert a == [a[0]] + a[1..];
      assert b == [b[0]] + b[1..];
    }
  }

  /** A device that takes `head` from the available ring reads exactly `elems`. */
  ghost predicate DeviceReads(desc: seq<Descriptor>, live: map<nat, Shared>, head: nat, elems: seq<Element>)
  {
    && head < |desc|
    && if desc[head].flags.indirect
       then
         && desc[head].addr in live && live[desc[head].addr].SharedTable?
         && desc[head].len == 16 * |live[desc[head].addr].table|
         && Walks(live[desc[head].addr].table, 0, elems)
       else Walks(desc, head, elems)
  }

  /** The element names a live share of exactly the buffer `io`, with its length and direction. */
  ghost predicate Names(live: map<nat, Shared>, e: Element, io: IoBuffer)
  {
    && e.addr in live && live[e.addr] == SharedBuffer(io)
    && e.len == io.buf.len
    && (e.write <==> io.dir == DeviceToDriver)
  }

  /** What a device sees at `head` is exactly the buffer list `bufs`, in order. */
  ghost predicate DeviceSees(desc: seq<Descriptor>, live: map<nat, Shared>, head: nat, bufs: seq<IoBuffer>)
  {
    exists elems: seq<Element> :: DeviceReads(desc, live, head, elems) && NamesAll(live, elems, bufs)
  }

  ghost predicate NamesAll(live: map<nat, Shared>, elems: seq<Element>, bufs: seq<IoBuffer>)
  {
    |elems| == |bufs| && forall j :: 0 <= j < |bufs| ==> Names(live, elems[j], bufs[j])
  }

  /** A device sees one buffer list only, whatever encoding was used. */
  lemma DeviceSeesUnique(desc: seq<Descriptor>, live: map<nat, Shared>, head: nat,
                         a: seq<IoBuffer>, b: seq<IoBuffer>)
    requires DeviceSees(desc, live, head, a) && DeviceSees(desc, live, head, b)
    ensures a == b
  {
    var ea :| DeviceReads(desc, live, head, ea) && NamesAll(live, ea, a);
    var eb :| DeviceReads(desc, live, head, eb) && NamesAll(live, eb, b);
    if desc[head].flags.indirect {
      WalksUnique(live[desc[head].addr].table, 0, ea, eb);
    } else {
      WalksUnique(desc, head, ea, eb);
    }
    forall j | 0 <= j < |a| ensures a[j] == b[j] {
      assert Names(live, ea[j], a[j]) && Names(live, eb[j], b[j]);
    }
  }

  /**
   An outstanding request: the descriptor indices it occupies, its buffers, the
   addresses they are shared at, and the address of its indirect table if it has one.
   */
  datatype Chain = Chain(ids: seq<nat>, bufs: seq<IoBuffer>, addrs: seq<nat>, table: Option<nat>)

  /** The entries `ids` of `table` encode `bufs` at `addrs`, linked by NEXT and ended by its absence. */
  ghost predicate TableChain(table: seq<Descriptor>, ids: seq<nat>, bufs: seq<IoBuffer>, addrs: seq<nat>)
  {
    && |ids| == |bufs| == |addrs| > 0
    && (forall j :: 0 <= j < |ids| ==> ids[j] < |table|)
    && (forall j :: 0 <= j < |ids| ==> Encodes(table[ids[j]], bufs[j], addrs[j], j + 1 < |ids|))
    && (forall j, k :: 0 <= j && k == j + 1 < |ids| ==> table[ids[j]].next == ids[k])
  }

  predicate Encodes(d: Descriptor, io: IoBuffer, addr: nat, next: bool)
  {
    d == SetBuf(d, addr, io, next)
  }

  function Elements(bufs: seq<IoBuffer>, addrs: seq<nat>): seq<Element>
    requires |bufs| == |addrs|
  {
    seq(|bufs|, j requires 0 <= j < |bufs| => Element(addrs[j], bufs[j].buf.len, bufs[j].dir == DeviceToDriver))
  }

  lemma {:induction false} ChainWalks(table: seq<Descriptor>, ids: seq<nat>, bufs: seq<IoBuffer>, addrs: seq<nat>)
    requires TableChain(table, ids, bufs, addrs)
    ensures Walks(table, ids[0], Elements(bufs, addrs))
    decreases |ids|
  {
    assert Encodes(table[ids[0]], bufs[0], addrs[0], 0 + 1 < |ids|);
    if |ids| > 1 {
      assert TableChain(table, ids[1..], bufs[1..], addrs[1..]) by {
        forall j | 0 <= j < |ids[1..]|
          ensures Encodes(table[ids[1..][j]], bufs[1..][j], addrs[1..][j], j + 1 < |ids[1..]|)
        {
          assert Encodes(table[ids[j + 1]], bufs[j + 1], addrs[j + 1], j + 1 + 1 < |ids|);
        }
      }
      ChainWalks(table, ids[1..], bufs[1..], addrs[1..]);
      assert Elements(bufs, addrs)[1..] == Elements(bufs[1..], addrs[1..]);
      assert table[ids[0]].next == ids[1];
    }
  }

  /** The indirect table `add_indirect` fills in. */
  function IndirectList(bufs: seq<IoBuffer>, addrs: seq<nat>): seq<Descriptor>
    requires |bufs| == |addrs|
  {
    seq(|bufs|, j requires 0 <= j < |bufs| =>
      SetBuf(ZERO_DESCRIPTOR, addrs[j], bufs[j], j + 1 < |bufs|).(next := j + 1))
  }

  /** The list while it is being filled: the entries set so far, all with NEXT. */
  function LinkedList(bufs: seq<IoBuffer>, addrs: seq<nat>, n: nat): (r: seq<Descriptor>)
    requires |addrs| <= |bufs|
    ensures |r| == n
  {
    seq(n, j requires 0 <= j < n =>
      if j < |addrs| then SetBuf(ZERO_DESCRIPTOR, addrs[j], bufs[j], true).(next := j + 1) else ZERO_DESCRIPTOR)
  }

  lemma LinkedStep(bufs: seq<IoBuffer>, addrs: seq<nat>, n: nat, p: nat)
    requires |addrs| < n <= |bufs|
    ensures var t, i := LinkedList(bufs, addrs, n), |addrs|;
      LinkedList(bufs, addrs + [p], n) == t[i := SetBuf(t[i], p, bufs[i], true).(next := i + 1)]
  {
  }

  lemma LinkedDone(bufs: seq<IoBuffer>, addrs: seq<nat>)
    requires |addrs| == |bufs| > 0
    ensures var t, last := LinkedList(bufs, addrs, |bufs|), |bufs| - 1;
      t[last := t[last].(flags := t[last].flags.(next := false))] == IndirectList(bufs, addrs)
  {
  }

  lemma IndirectListWalks(bufs: seq<IoBuffer>, addrs: seq<nat>)
    requires |bufs| == |addrs| > 0
    ensures Walks(IndirectList(bufs, addrs), 0, Elements(bufs, addrs))
  {
    var ids := seq(|bufs|, j => j);
    assert TableChain(IndirectList(bufs, addrs), ids, bufs, addrs);
    ChainWalks(IndirectList(bufs, addrs), ids, bufs, addrs);
  }
}
