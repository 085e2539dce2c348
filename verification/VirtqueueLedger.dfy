/**
 The bookkeeping invariant of the driver side of a virtqueue: which descriptor
 belongs to the free list or to which outstanding chain, and which live HAL share
 belongs to which buffer. It speaks only of memory the device cannot write.
 */
module VirtqueueLedger {
  import opened VirtqueueModel
  import opened Collections

  /** Where a descriptor index is: at a position of the free list or of a chain. */
  datatype Owner = Free(pos: nat) | Used(head: nat, pos: nat)

  /** What a live share is for: a buffer of a chain or a chain's indirect table. */
  datatype Tag = BufTag(head: nat, pos: nat) | TableTag(head: nat)

  /** The driver's trusted state. */
  datatype Driver = Driver(size: nat, shadow: seq<Descriptor>, freeHead: nat, numUsed: nat,
                           lists: seq<Option<seq<Descriptor>>>, live: map<nat, Shared>)

  /** The abstract state: the free list and the outstanding chains, with their inverses. */
  datatype Ledger = Ledger(free: seq<nat>, chains: map<nat, Chain>, owner: seq<Owner>, tags: map<nat, Tag>)

  ghost predicate Sizes(d: Driver, l: Ledger)
  {
    && |d.shadow| == |d.lists| == |l.owner| == d.size > 0
    && |l.free| + d.numUsed == d.size
    && d.freeHead < d.size
    && (forall i :: 0 <= i < d.size ==> d.shadow[i].next < d.size)
  }

  /** The free list is threaded through `next`, starting at `freeHead`. */
  ghost predicate FreeLinked(shadow: seq<Descriptor>, freeHead: nat, free: seq<nat>)
  {
    && (forall j :: 0 <= j < |free| ==> free[j] < |shadow|)
    && (|free| > 0 ==> freeHead == free[0])
    && (forall j, k :: 0 <= j && k == j + 1 < |free| ==> shadow[free[j]].next == free[k])
  }

  /** `owner` is the inverse of the free list and the chains together. */
  ghost predicate Owned(l: Ledger)
  {
    && (forall j :: 0 <= j < |l.free| ==> l.free[j] < |l.owner| && l.owner[l.free[j]] == Free(j))
    && (forall h, j :: h in l.chains && 0 <= j < |l.chains[h].ids| ==>
          l.chains[h].ids[j] < |l.owner| && l.owner[l.chains[h].ids[j]] == Used(h, j))
    && (forall i :: 0 <= i < |l.owner| ==> OwnerHolds(l, i))
  }

  ghost predicate OwnerHolds(l: Ledger, i: nat)
    requires i < |l.owner|
  {
    match l.owner[i]
    case Free(j) => j < |l.free| && l.free[j] == i
    case Used(h, j) => h in l.chains && j < |l.chains[h].ids| && l.chains[h].ids[j] == i
  }

  ghost predicate ChainShape(h: nat, c: Chain)
  {
    && |c.ids| > 0 && c.ids[0] == h
    && |c.bufs| == |c.addrs| > 0
    && (c.table.None? ==> |c.ids| == |c.bufs|)
    && (c.table.Some? ==> |c.ids| == 1)
    && (forall j :: 0 <= j < |c.bufs| ==> c.bufs[j].buf.len > 0)
  }

  /** A chain is encoded in the shadow table, directly or through its indirect list. */
  ghost predicate ChainEncoded(d: Driver, h: nat, c: Chain)
  {
    && ChainShape(h, c)
    && h < |d.lists| && h < |d.shadow|
    && match c.table
       case None =>
         TableChain(d.shadow, c.ids, c.bufs, c.addrs) && d.lists[h].None?
       case Some(p) =>
         && d.shadow[h].addr == p
         && d.shadow[h].len == 16 * |c.bufs|
         && d.shadow[h].flags == DescFlags(false, false, true)
         && d.lists[h] == Some(IndirectList(c.bufs, c.addrs))
  }

  ghost predicate ChainsEncoded(d: Driver, l: Ledger)
  {
    && (forall h :: h in l.chains ==> ChainEncoded(d, h, l.chains[h]))
    && (forall i :: 0 <= i < |d.lists| && d.lists[i].Some? ==> i in l.chains && l.chains[i].table.Some?)
  }

  /** The live shares are exactly the buffers and the indirect tables of the chains. */
  ghost predicate SharesExact(live: map<nat, Shared>, l: Ledger)
  {
    && live.Keys == l.tags.Keys
    && (forall h, k :: h in l.chains && 0 <= k < |l.chains[h].addrs| ==> BufferLive(live, l.tags, h, l.chains[h], k))
    && (forall h :: h in l.chains && l.chains[h].table.Some? ==> TableLive(live, l.tags, h, l.chains[h]))
    && (forall p :: p in l.tags ==> TagHolds(l, p))
  }

  /** Buffer `k` of the chain `c` at `h` is shared at its address, and that share is its own. */
  ghost predicate BufferLive(live: map<nat, Shared>, tags: map<nat, Tag>, h: nat, c: Chain, k: nat)
    requires k < |c.addrs|
  {
    && k < |c.bufs|
    && c.addrs[k] in live && c.addrs[k] in tags
    && live[c.addrs[k]] == SharedBuffer(c.bufs[k])
    && tags[c.addrs[k]] == BufTag(h, k)
  }

  ghost predicate TableLive(live: map<nat, Shared>, tags: map<nat, Tag>, h: nat, c: Chain)
    requires c.table.Some?
  {
    && |c.bufs| == |c.addrs|
    && c.table.value in live && c.table.value in tags
    && live[c.table.value] == SharedTable(IndirectList(c.bufs, c.addrs))
    && tags[c.table.value] == TableTag(h)
  }

  ghost predicate TagHolds(l: Ledger, p: nat)
    requires p in l.tags
  {
    match l.tags[p]
    case BufTag(h, k) => h in l.chains && k < |l.chains[h].addrs| && l.chains[h].addrs[k] == p
    case TableTag(h) => h in l.chains && l.chains[h].table == Some(p)
  }

  ghost predicate Consistent(d: Driver, l: Ledger, seal: Seal)
  {
    && Sizes(d, l)
    && FreeLinked(d.shadow, d.freeHead, l.free)
    && Owned(l)
    && ChainsEncoded(d, l)
    && SharesExact(d.live, l)
  }

  /**
   The driver invariant, sealed; `Unseal` unfolds it.
   */
  ghost predicate Inv(d: Driver, l: Ledger)
  {
    forall seal: Seal :: Consistent(d, l, seal)
  }

  lemma Unseal(d: Driver, l: Ledger)
    requires Inv(d, l)
    ensures Sizes(d, l) && FreeLinked(d.shadow, d.freeHead, l.free) && Owned(l)
    ensures ChainsEncoded(d, l) && SharesExact(d.live, l)
  {
    assert Consistent(d, l, Seal);
  }

  // ---- what the invariant says, without the inverse maps ----

  /**
   The descriptor indices split exactly into the free list and pairwise disjoint
   chains, the free list is `size - numUsed` distinct steps of `next` from
   `freeHead`, and the chains are disjoint from it and from each other.
   */
  ghost predicate ExactPartition(d: Driver, l: Ledger)
  {
    && |l.free| == d.size - d.numUsed
    && (forall j :: 0 <= j < |l.free| ==> l.free[j] < d.size == |d.shadow|)
    && (|l.free| > 0 ==> l.free[0] == d.freeHead)
    && (forall j, k :: 0 <= j && k == j + 1 < |l.free| ==> d.shadow[l.free[j]].next == l.free[k])
    && (forall i, j :: 0 <= i < j < |l.free| ==> l.free[i] != l.free[j])
    && (forall h, i, j :: h in l.chains && 0 <= i < j < |l.chains[h].ids| ==>
          l.chains[h].ids[i] != l.chains[h].ids[j])
    && (forall h, i :: h in l.chains && i in l.chains[h].ids ==> i !in l.free)
    && (forall h, h', i :: h in l.chains && h' in l.chains && h != h' && i in l.chains[h].ids ==>
          i !in l.chains[h'].ids)
    && (forall i :: 0 <= i < d.size ==> i in l.free || exists h :: h in l.chains && i in l.chains[h].ids)
  }

  lemma PartitionIsExact(d: Driver, l: Ledger)
    requires Inv(d, l)
    ensures ExactPartition(d, l)
  {
    Unseal(d, l);
    forall h, i, j | h in l.chains && 0 <= i < j < |l.chains[h].ids|
      ensures l.chains[h].ids[i] != l.chains[h].ids[j]
    {
      assert l.owner[l.chains[h].ids[i]] == Used(h, i);
    }
    forall i, j | 0 <= i < j < |l.free| ensures l.free[i] != l.free[j] {
      assert l.owner[l.free[i]] == Free(i);
    }
    forall h, i | h in l.chains && i in l.chains[h].ids ensures i !in l.free {
      var j :| 0 <= j < |l.chains[h].ids| && l.chains[h].ids[j] == i;
      assert l.owner[i] == Used(h, j);
    }
    forall h, h', i | h in l.chains && h' in l.chains && h != h' && i in l.chains[h].ids
      ensures i !in l.chains[h'].ids
    {
      var j :| 0 <= j < |l.chains[h].ids| && l.chains[h].ids[j] == i;
      assert l.owner[i] == Used(h, j);
    }
    forall i | 0 <= i < d.size ensures i in l.free || exists h :: h in l.chains && i in l.chains[h].ids {
      assert OwnerHolds(l, i);
    }
  }

  /** The share at `p` is one of the buffers of `c`, or its indirect table. */
  ghost predicate ShareOf(live: map<nat, Shared>, c: Chain, p: nat)
    requires p in live
  {
    || (exists k :: 0 <= k < |c.addrs| && k < |c.bufs| && c.addrs[k] == p && live[p] == SharedBuffer(c.bufs[k]))
    || (c.table == Some(p) && |c.bufs| == |c.addrs| && live[p] == SharedTable(IndirectList(c.bufs, c.addrs)))
  }

  /**
   The live shares are the buffers of the outstanding chains and their indirect
   tables: each is live, each at an address of its own, and nothing else is.
   */
  ghost predicate ExactShares(live: map<nat, Shared>, chains: map<nat, Chain>)
  {
    && (forall h, k :: h in chains && 0 <= k < |chains[h].addrs| ==>
          chains[h].addrs[k] in live && ShareOf(live, chains[h], chains[h].addrs[k]))
    && (forall h :: h in chains && chains[h].table.Some? ==>
          chains[h].table.value in live && ShareOf(live, chains[h], chains[h].table.value))
    && (forall p :: p in live ==> exists h :: h in chains && ShareOf(live, chains[h], p))
    && (forall h, h', p :: h in chains && h' in chains && h != h' && p in live ==>
          !(ShareOf(live, chains[h], p) && ShareOf(live, chains[h'], p)))
    && (forall h :: h in chains ==> Distinct(chains[h].addrs))
  }

  lemma ShareHasOwner(live: map<nat, Shared>, l: Ledger, h: nat, p: nat)
    requires SharesExact(live, l) && h in l.chains && p in live
    ensures ShareOf(live, l.chains[h], p) <==> l.tags[p].head == h
  {
    var c := l.chains[h];
    SharesOfChain(live, l, h);
    if l.tags[p].head == h {
      if c.table == Some(p) {
        assert TableLive(live, l.tags, h, c);
      } else {
        var k :| 0 <= k < |c.addrs| && c.addrs[k] == p;
        assert BufferLive(live, l.tags, h, c, k);
      }
    }
  }

  lemma SharesLive(live: map<nat, Shared>, l: Ledger)
    requires SharesExact(live, l)
    ensures forall h, k :: h in l.chains && 0 <= k < |l.chains[h].addrs| ==>
      l.chains[h].addrs[k] in live && l.tags[l.chains[h].addrs[k]].head == h
    ensures forall h :: h in l.chains && l.chains[h].table.Some? ==>
      l.chains[h].table.value in live && l.tags[l.chains[h].table.value].head == h
    ensures forall p :: p in live ==> l.tags[p].head in l.chains
  {
    forall h, k | h in l.chains && 0 <= k < |l.chains[h].addrs|
      ensures l.chains[h].addrs[k] in live && l.tags[l.chains[h].addrs[k]].head == h
    {
      assert BufferLive(live, l.tags, h, l.chains[h], k);
    }
    forall h | h in l.chains && l.chains[h].table.Some?
      ensures l.chains[h].table.value in live && l.tags[l.chains[h].table.value].head == h
    {
      assert TableLive(live, l.tags, h, l.chains[h]);
    }
    forall p | p in live ensures l.tags[p].head in l.chains {
      assert TagHolds(l, p);
    }
  }

  lemma SharesAreExact(d: Driver, l: Ledger)
    requires Inv(d, l)
    ensures ExactShares(d.live, l.chains)
  {
    assert SharesExact(d.live, l) by { Unseal(d, l); }
    SharesLive(d.live, l);
    forall h, p | h in l.chains && p in d.live ensures ShareOf(d.live, l.chains[h], p) <==> l.tags[p].head == h {
      ShareHasOwner(d.live, l, h, p);
    }
    forall p | p in d.live ensures exists h :: h in l.chains && ShareOf(d.live, l.chains[h], p) {
      var h := l.tags[p].head;
      assert h in l.chains && ShareOf(d.live, l.chains[h], p);
    }
    forall h | h in l.chains ensures Distinct(l.chains[h].addrs) {
      SharesOfChain(d.live, l, h);
    }
  }

  // ---- a new queue ----

  lemma InitialInv(d: Driver, l: Ledger)
    requires d.size > 0 && d.freeHead == 0 && d.numUsed == 0 && d.live == map[]
    requires |d.shadow| == |d.lists| == d.size
    requires forall i :: 0 <= i < d.size ==> d.lists[i].None?
    requires forall i :: 0 <= i < d.size ==> d.shadow[i].next == if i < d.size - 1 then i + 1 else 0
    requires l.chains == map[] && l.tags == map[] && |l.free| == |l.owner| == d.size
    requires forall i :: 0 <= i < d.size ==> l.free[i] == i && l.owner[i] == Free(i)
    ensures Inv(d, l)
  {
    assert forall i :: 0 <= i < d.size ==> OwnerHolds(l, i);
  }

  // ---- adding a chain ----

  /** The ledger after the first `|c.ids|` free descriptors became the chain `c`. */
  ghost function Added(l: Ledger, c: Chain, tags: map<nat, Tag>): Ledger
    requires 0 < |c.ids| <= |l.free|
  {
    var m := |c.ids|;
    Ledger(
      l.free[m..],
      l.chains[c.ids[0] := c],
      seq(|l.owner|, i requires 0 <= i < |l.owner| => OwnerAfterAdd(l.owner[i], c.ids[0], m)),
      tags)
  }

  function OwnerAfterAdd(o: Owner, h: nat, m: nat): Owner {
    match o
    case Free(j) => if j < m then Used(h, j) else Free(j - m)
    case Used(_, _) => o
  }

  /** `live'` adds to `live` exactly the buffers `bufs`, shared at the fresh addresses `addrs`. */
  ghost predicate BuffersShared(live: map<nat, Shared>, tags: map<nat, Tag>, live': map<nat, Shared>, tags': map<nat, Tag>,
                                h: nat, bufs: seq<IoBuffer>, addrs: seq<nat>)
  {
    && live.Keys == tags.Keys && live'.Keys == tags'.Keys
    && |addrs| <= |bufs|
    && (forall p :: p in live ==> p in live' && live'[p] == live[p] && tags'[p] == tags[p])
    && (forall k :: 0 <= k < |addrs| ==>
          addrs[k] !in live && addrs[k] in live' && live'[addrs[k]] == SharedBuffer(bufs[k]) && tags'[addrs[k]] == BufTag(h, k))
    && (forall p :: p in live' ==> p in live || SharedSince(tags', h, addrs, p))
  }

  ghost predicate SharedSince(tags: map<nat, Tag>, h: nat, addrs: seq<nat>, p: nat)
  {
    p in tags && tags[p].BufTag? && tags[p].head == h && tags[p].pos < |addrs| && addrs[tags[p].pos] == p
  }

  /** The shares after the buffers were shared one after the other at `addrs`. */
  function ShareAll(live: map<nat, Shared>, bufs: seq<IoBuffer>, addrs: seq<nat>): (r: map<nat, Shared>)
    requires |addrs| <= |bufs|
    ensures forall p :: p in r <==> p in live || p in addrs
    decreases |addrs|
  {
    if |addrs| == 0 then live
    else
      var k := |addrs| - 1;
      assert addrs == addrs[..k] + [addrs[k]];
      ShareAll(live, bufs, addrs[..k])[addrs[k] := SharedBuffer(bufs[k])]
  }

  ghost function TagAll(tags: map<nat, Tag>, h: nat, addrs: seq<nat>): (r: map<nat, Tag>)
    decreases |addrs|
  {
    if |addrs| == 0 then tags
    else
      var k := |addrs| - 1;
      TagAll(tags, h, addrs[..k])[addrs[k] := BufTag(h, k)]
  }

  ghost predicate FreshAddresses(live: map<nat, Shared>, addrs: seq<nat>)
  {
    Distinct(addrs) && forall k :: 0 <= k < |addrs| ==> addrs[k] !in live
  }

  lemma FreshStep(live: map<nat, Shared>, addrs: seq<nat>, p: nat)
    requires FreshAddresses(live, addrs) && p !in live && p !in addrs
    ensures FreshAddresses(live, addrs + [p])
  {
  }

  lemma ShareStep(live: map<nat, Shared>, bufs: seq<IoBuffer>, addrs: seq<nat>, addrs': seq<nat>, p: nat)
    requires |addrs| < |bufs| && addrs' == addrs + [p] && addrs'[..|addrs|] == addrs
    ensures ShareAll(live, bufs, addrs') == ShareAll(live, bufs, addrs)[p := SharedBuffer(bufs[|addrs|])]
  {
  }

  lemma ShareAllStep(live: map<nat, Shared>, bufs: seq<IoBuffer>, addrs: seq<nat>, p: nat)
    requires |addrs| < |bufs| && FreshAddresses(live, addrs) && p !in ShareAll(live, bufs, addrs)
    ensures FreshAddresses(live, addrs + [p])
    ensures ShareAll(live, bufs, addrs + [p]) == ShareAll(live, bufs, addrs)[p := SharedBuffer(bufs[|addrs|])]
  {
    FreshStep(live, addrs, p);
    ShareStep(live, bufs, addrs, addrs + [p], p);
  }

  lemma {:induction false} ShareAllShares(live: map<nat, Shared>, tags: map<nat, Tag>, h: nat,
                                          bufs: seq<IoBuffer>, addrs: seq<nat>)
    requires live.Keys == tags.Keys && |addrs| <= |bufs| && FreshAddresses(live, addrs)
    ensures BuffersShared(live, tags, ShareAll(live, bufs, addrs), TagAll(tags, h, addrs), h, bufs, addrs)
    decreases |addrs|
  {
    if |addrs| == 0 {
      assert BuffersShared(live, tags, live, tags, h, bufs, addrs);
    } else {
      var k := |addrs| - 1;
      ShareAllShares(live, tags, h, bufs, addrs[..k]);
      var live1, tags1 := ShareAll(live, bufs, addrs[..k]), TagAll(tags, h, addrs[..k]);
      BuffersSharedStep(live, tags, live1, tags1, h, bufs, addrs, k);
    }
  }

  lemma BuffersSharedStep(live: map<nat, Shared>, tags: map<nat, Tag>, live1: map<nat, Shared>, tags1: map<nat, Tag>,
                          h: nat, bufs: seq<IoBuffer>, addrs: seq<nat>, k: nat)
    requires |addrs| == k + 1 <= |bufs| && FreshAddresses(live, addrs)
    requires BuffersShared(live, tags, live1, tags1, h, bufs, addrs[..k])
    requires addrs[k] !in live1
    ensures BuffersShared(live, tags, live1[addrs[k] := SharedBuffer(bufs[k])], tags1[addrs[k] := BufTag(h, k)], h, bufs, addrs)
  {
    var tags2 := tags1[addrs[k] := BufTag(h, k)];
    forall q | q in live1 && q !in live ensures SharedSince(tags2, h, addrs, q) {
      assert SharedSince(tags1, h, addrs[..k], q);
    }
    assert forall j :: 0 <= j < k ==> addrs[..k][j] == addrs[j];
  }

  /** The same, with the indirect table shared last if the chain has one. */
  ghost predicate ChainShared(live: map<nat, Shared>, tags: map<nat, Tag>, live': map<nat, Shared>, tags': map<nat, Tag>,
                              h: nat, c: Chain)
  {
    && |c.bufs| == |c.addrs|
    && match c.table
       case None => BuffersShared(live, tags, live', tags', h, c.bufs, c.addrs)
       case Some(p) =>
         && p in live' && p in tags'
         && live'[p] == SharedTable(IndirectList(c.bufs, c.addrs)) && tags'[p] == TableTag(h)
         && p !in live
         && BuffersShared(live, tags, live' - {p}, tags' - {p}, h, c.bufs, c.addrs)
  }

  /** How the driver state changes when `c` is carved off the front of the free list. */
  ghost predicate Carved(d: Driver, l: Ledger, d': Driver, c: Chain)
  {
    && 0 < |c.ids| <= |l.free| && c.ids == l.free[..|c.ids|]
    && d'.size == d.size == |d.shadow| == |d.lists| && |d'.shadow| == |d.shadow| && |d'.lists| == |d.lists|
    && (forall i :: 0 <= i < d.size ==> d'.shadow[i].next == d.shadow[i].next)
    && (forall i :: 0 <= i < d.size && i !in c.ids ==> d'.shadow[i] == d.shadow[i])
    && (forall i :: 0 <= i < d.size && i != c.ids[0] ==> d'.lists[i] == d.lists[i])
    && c.ids[|c.ids| - 1] < d.size
    && d'.freeHead == d.shadow[c.ids[|c.ids| - 1]].next
    && d'.numUsed == d.numUsed + |c.ids|
    && ChainEncoded(d', c.ids[0], c)
  }

  // ---- what the loop of `add_direct` writes ----

  /** The table after the first `|addrs|` buffers were set in the entries `ids`, all with NEXT. */
  function Filled(table: seq<Descriptor>, ids: seq<nat>, bufs: seq<IoBuffer>, addrs: seq<nat>): (r: seq<Descriptor>)
    requires |addrs| <= |ids| && |addrs| <= |bufs|
    ensures |r| == |table|
    decreases |addrs|
  {
    if |addrs| == 0 then table
    else
      var k := |addrs| - 1;
      var t := Filled(table, ids, bufs, addrs[..k]);
      if ids[k] < |t| then t[ids[k] := SetBuf(t[ids[k]], addrs[k], bufs[k], true)] else t
  }

  function EndChain(table: seq<Descriptor>, last: nat): (r: seq<Descriptor>)
    requires last < |table|
  {
    table[last := table[last].(flags := table[last].flags.(next := false))]
  }

  /** `desc` with the entries `ids` copied from the shadow table. */
  ghost function Copied(desc: seq<Descriptor>, shadow: seq<Descriptor>, ids: seq<nat>): (r: seq<Descriptor>)
    requires |desc| == |shadow|
  {
    seq(|desc|, i requires 0 <= i < |desc| => if i in ids then shadow[i] else desc[i])
  }

  lemma CopiedStep(desc: seq<Descriptor>, shadow: seq<Descriptor>, ids: seq<nat>, i: nat, d: Descriptor)
    requires |desc| == |shadow| && i < |desc|
    ensures Copied(desc, shadow, ids)[i := d] == Copied(desc, shadow[i := d], ids + [i])
  {
  }

  lemma CopiedAgain(desc: seq<Descriptor>, shadow: seq<Descriptor>, ids: seq<nat>, i: nat, d: Descriptor)
    requires |desc| == |shadow| && i < |desc| && i in ids
    ensures Copied(desc, shadow, ids)[i := d] == Copied(desc, shadow[i := d], ids)
  {
  }

  lemma FilledStep(table: seq<Descriptor>, ids: seq<nat>, bufs: seq<IoBuffer>, addrs: seq<nat>, p: nat)
    requires |addrs| < |ids| && |addrs| < |bufs|
    requires forall j :: 0 <= j < |ids| ==> ids[j] < |table|
    ensures var k := |addrs|; var t := Filled(table, ids, bufs, addrs);
      t[ids[k] := SetBuf(t[ids[k]], p, bufs[k], true)] == Filled(table, ids, bufs, addrs + [p])
  {
    assert (addrs + [p])[..|addrs|] == addrs;
  }

  lemma FilledNext(shadow: seq<Descriptor>, ids: seq<nat>, bufs: seq<IoBuffer>, addrs: seq<nat>)
    requires |addrs| < |ids| && |addrs| < |bufs| && Distinct(ids)
    requires forall j :: 0 <= j < |ids| ==> ids[j] < |shadow|
    ensures Filled(shadow, ids, bufs, addrs)[ids[|addrs|]].next == shadow[ids[|addrs|]].next
  {
    FilledAt(shadow, ids, bufs, addrs, ids[|addrs|]);
  }

  lemma CopiedNext(desc: seq<Descriptor>, t: seq<Descriptor>, ids: seq<nat>, k: nat, d: Descriptor)
    requires |desc| == |t| && k < |ids| && ids[k] < |desc|
    ensures Copied(desc, t, ids[..k])[ids[k] := d] == Copied(desc, t[ids[k] := d], ids[..k + 1])
  {
    CopiedStep(desc, t, ids[..k], ids[k], d);
    TakeOneMore(ids, k);
  }

  lemma TakeOneMore<T>(s: seq<T>, k: nat)
    requires k < |s|
    ensures s[..k + 1] == s[..k] + [s[k]]
  {
  }

  lemma {:induction false} FilledAt(table: seq<Descriptor>, ids: seq<nat>, bufs: seq<IoBuffer>, addrs: seq<nat>, i: nat)
    requires |addrs| <= |ids| && |addrs| <= |bufs| && i < |table|
    requires forall j :: 0 <= j < |ids| ==> ids[j] < |table|
    requires Distinct(ids)
    ensures i !in ids[..|addrs|] ==> Filled(table, ids, bufs, addrs)[i] == table[i]
    ensures forall j :: 0 <= j < |addrs| && ids[j] == i ==>
              Filled(table, ids, bufs, addrs)[i] == SetBuf(table[i], addrs[j], bufs[j], true)
    decreases |addrs|
  {
    if |addrs| > 0 {
      var k := |addrs| - 1;
      FilledAt(table, ids, bufs, addrs[..k], i);
      TakeOneMore(ids, k);
      if i == ids[k] {
        assert i !in ids[..k];
      }
    }
  }

  lemma DirectChainEncoded(table: seq<Descriptor>, ids: seq<nat>, bufs: seq<IoBuffer>, addrs: seq<nat>, n: nat)
    requires 0 < n == |addrs| == |bufs| <= |ids|
    requires forall j :: 0 <= j < |ids| ==> ids[j] < |table|
    requires forall j, k :: 0 <= j && k == j + 1 < |ids| ==> table[ids[j]].next == ids[k]
    requires Distinct(ids)
    ensures TableChain(EndChain(Filled(table, ids, bufs, addrs), ids[n - 1]), ids[..n], bufs, addrs)
    ensures forall i :: 0 <= i < |table| ==> EndChain(Filled(table, ids, bufs, addrs), ids[n - 1])[i].next == table[i].next
    ensures forall i :: 0 <= i < |table| && i !in ids[..n] ==> EndChain(Filled(table, ids, bufs, addrs), ids[n - 1])[i] == table[i]
  {
    var t := EndChain(Filled(table, ids, bufs, addrs), ids[n - 1]);
    forall i | 0 <= i < |table| ensures t[i].next == table[i].next
    {
      FilledAt(table, ids, bufs, addrs, i);
    }
    forall i | 0 <= i < |table| && i !in ids[..n] ensures t[i] == table[i]
    {
      FilledAt(table, ids, bufs, addrs, i);
      assert ids[n - 1] in ids[..n];
    }
    forall j | 0 <= j < n ensures Encodes(t[ids[j]], bufs[j], addrs[j], j + 1 < n) {
      FilledAt(table, ids, bufs, addrs, ids[j]);
    }
  }

  /** What `add_direct` leaves behind is a chain carved off the free list. */
  lemma DirectCarved(d: Driver, l: Ledger, d': Driver, bufs: seq<IoBuffer>, addrs: seq<nat>)
    requires |d.shadow| == |d.lists| == d.size && FreeLinked(d.shadow, d.freeHead, l.free) && Owned(l)
    requires |l.free| > 0 && l.free[0] < |d.lists| && d.lists[l.free[0]].None?
    requires 0 < |bufs| == |addrs| <= |l.free|
    requires forall j :: 0 <= j < |bufs| ==> bufs[j].buf.len > 0
    requires forall j :: 0 <= j < |l.free| ==> l.free[j] < |d.shadow|
    requires d'.shadow == EndChain(Filled(d.shadow, l.free, bufs, addrs), l.free[|bufs| - 1])
    requires d'.size == d.size && d'.lists == d.lists && d'.numUsed == d.numUsed + |bufs|
    requires d'.freeHead == d.shadow[l.free[|bufs| - 1]].next
    ensures Carved(d, l, d', Chain(l.free[..|bufs|], bufs, addrs, None))
  {
    FreeDistinct(l);
    DirectChainEncoded(d.shadow, l.free, bufs, addrs, |bufs|);
  }

  lemma FreeDistinct(l: Ledger)
    requires Owned(l)
    ensures Distinct(l.free)
  {
    forall i, j | 0 <= i < j < |l.free| ensures l.free[i] != l.free[j] {
      assert l.owner[l.free[i]] == Free(i);
    }
  }

  /** The assertion in `add_indirect`: the head it takes has no list stored. */
  lemma FreeHeadHasNoList(d: Driver, l: Ledger)
    requires Inv(d, l) && |l.free| > 0
    ensures l.free[0] == d.freeHead < |d.lists| && d.lists[d.freeHead].None?
    ensures d.freeHead !in l.chains
  {
    Unseal(d, l);
    forall h | h in l.chains ensures |l.chains[h].ids| > 0 && l.chains[h].ids[0] == h {
      assert ChainEncoded(d, h, l.chains[h]);
    }
    FreeHeadUnused(l);
  }

  // ---- the invariant is kept ----

  lemma AddKeepsInv(d: Driver, l: Ledger, d': Driver, c: Chain, tags: map<nat, Tag>)
    requires Inv(d, l)
    requires Carved(d, l, d', c)
    requires ChainShared(d.live, l.tags, d'.live, tags, c.ids[0], c)
    ensures Inv(d', Added(l, c, tags))
  {
    Unseal(d, l);
    var l' := Added(l, c, tags);
    assert FreeLinked(d'.shadow, d'.freeHead, l'.free) by { AddKeepsFreeList(d, l, d', c); }
    assert Sizes(d', l');
    assert c.ids[0] !in l.chains by { FreeHeadHasNoList(d, l); }
    assert Owned(l') by { AddKeepsOwned(l, c, tags); }
    assert ChainsEncoded(d', l') by { AddKeepsChains(d, l, d', c, tags); }
    assert SharesExact(d'.live, l') by {
      ChainSharedExtends(d.live, l.tags, d'.live, tags, c.ids[0], c);
      AddKeepsShares(d.live, l, d'.live, c, tags);
    }
  }

  lemma FreeHeadUnused(l: Ledger)
    requires Owned(l) && |l.free| > 0
    requires forall h :: h in l.chains ==> |l.chains[h].ids| > 0 && l.chains[h].ids[0] == h
    ensures l.free[0] !in l.chains
  {
    assert l.owner[l.free[0]] == Free(0);
    forall h | h in l.chains ensures h != l.free[0] {
      assert l.owner[l.chains[h].ids[0]] == Used(h, 0);
    }
  }

  lemma AddKeepsFreeList(d: Driver, l: Ledger, d': Driver, c: Chain)
    requires Sizes(d, l) && FreeLinked(d.shadow, d.freeHead, l.free) && Owned(l)
    requires Carved(d, l, d', c)
    ensures FreeLinked(d'.shadow, d'.freeHead, l.free[|c.ids|..])
  {
    var m := |c.ids|;
    forall j | m <= j < |l.free| ensures l.free[j] !in c.ids {
      assert l.owner[l.free[j]] == Free(j);
      forall k | 0 <= k < m ensures c.ids[k] != l.free[j] {
        assert l.owner[l.free[k]] == Free(k);
      }
    }
    if m < |l.free| {
      assert d.shadow[l.free[m - 1]].next == l.free[m];
    }
  }

  lemma AddKeepsOwned(l: Ledger, c: Chain, tags: map<nat, Tag>)
    requires Owned(l)
    requires 0 < |c.ids| <= |l.free| && c.ids == l.free[..|c.ids|]
    requires c.ids[0] !in l.chains
    ensures Owned(Added(l, c, tags))
  {
    var m := |c.ids|;
    var l' := Added(l, c, tags);
    forall h, j | h in l'.chains && 0 <= j < |l'.chains[h].ids|
      ensures l'.chains[h].ids[j] < |l'.owner| && l'.owner[l'.chains[h].ids[j]] == Used(h, j)
    {
      if h == c.ids[0] {
        assert l.owner[l.free[j]] == Free(j);
      } else {
        assert l.owner[l.chains[h].ids[j]] == Used(h, j);
      }
    }
    forall j | 0 <= j < |l'.free| ensures l'.free[j] < |l'.owner| && l'.owner[l'.free[j]] == Free(j) {
      assert l.owner[l.free[j + m]] == Free(j + m);
    }
    forall i | 0 <= i < |l'.owner| ensures OwnerHolds(l', i) {
      AddOwnerHolds(l, c, tags, i);
    }
  }

  lemma AddOwnerHolds(l: Ledger, c: Chain, tags: map<nat, Tag>, i: nat)
    requires i < |l.owner| && OwnerHolds(l, i)
    requires 0 < |c.ids| <= |l.free| && c.ids == l.free[..|c.ids|]
    requires c.ids[0] !in l.chains
    ensures OwnerHolds(Added(l, c, tags), i)
  {
    var l' := Added(l, c, tags);
    assert l'.owner[i] == OwnerAfterAdd(l.owner[i], c.ids[0], |c.ids|);
  }

  /** A chain whose descriptors and list are untouched stays encoded. */
  lemma ChainFrame(d: Driver, d': Driver, h: nat, c: Chain)
    requires ChainEncoded(d, h, c)
    requires |d'.shadow| == |d.shadow| && |d'.lists| == |d.lists|
    requires forall j :: 0 <= j < |c.ids| && c.ids[j] < |d.shadow| ==> d'.shadow[c.ids[j]] == d.shadow[c.ids[j]]
    requires d'.lists[h] == d.lists[h]
    ensures ChainEncoded(d', h, c)
  {
    assert d'.shadow[c.ids[0]] == d.shadow[c.ids[0]];
    if c.table.None? {
      forall j | 0 <= j < |c.ids| ensures Encodes(d'.shadow[c.ids[j]], c.bufs[j], c.addrs[j], j + 1 < |c.ids|) {
        assert Encodes(d.shadow[c.ids[j]], c.bufs[j], c.addrs[j], j + 1 < |c.ids|);
      }
    }
  }

  lemma AddKeepsChains(d: Driver, l: Ledger, d': Driver, c: Chain, tags: map<nat, Tag>)
    requires Owned(l) && ChainsEncoded(d, l)
    requires Carved(d, l, d', c)
    ensures ChainsEncoded(d', Added(l, c, tags))
  {
    forall h | h in l.chains && h != c.ids[0] ensures ChainEncoded(d', h, l.chains[h]) {
      var ids := l.chains[h].ids;
      forall j | 0 <= j < |ids| ensures ids[j] !in c.ids {
        ChainIdNotFree(l, h, j);
      }
      ChainFrame(d, d', h, l.chains[h]);
    }
  }

  lemma ChainIdNotFree(l: Ledger, h: nat, j: nat)
    requires Owned(l) && h in l.chains && j < |l.chains[h].ids|
    ensures l.chains[h].ids[j] !in l.free
  {
    assert l.owner[l.chains[h].ids[j]] == Used(h, j);
    forall k | 0 <= k < |l.free| ensures l.free[k] != l.chains[h].ids[j] {
      assert l.owner[l.free[k]] == Free(k);
    }
  }

  /** `ChainShared` without its case split. */
  ghost predicate SharesExtended(live: map<nat, Shared>, tags: map<nat, Tag>, live': map<nat, Shared>, tags': map<nat, Tag>,
                                 h: nat, c: Chain)
  {
    && |c.bufs| == |c.addrs| && live.Keys == tags.Keys && live'.Keys == tags'.Keys
    && (forall p :: p in live ==> p in live' && live'[p] == live[p] && tags'[p] == tags[p])
    && (forall k :: 0 <= k < |c.addrs| ==> BufferLive(live', tags', h, c, k))
    && (c.table.Some? ==> TableLive(live', tags', h, c))
    && (forall p :: p in live' ==> p in live || c.table == Some(p) || SharedSince(tags', h, c.addrs, p))
  }

  lemma ChainSharedExtends(live: map<nat, Shared>, tags: map<nat, Tag>, live': map<nat, Shared>, tags': map<nat, Tag>,
                           h: nat, c: Chain)
    requires ChainShared(live, tags, live', tags', h, c)
    ensures SharesExtended(live, tags, live', tags', h, c)
  {
    if c.table.Some? {
      var p := c.table.value;
      assert live'.Keys == (live' - {p}).Keys + {p};
      assert tags'.Keys == (tags' - {p}).Keys + {p};
      forall q | q in live' && q !in live && q != p ensures SharedSince(tags', h, c.addrs, q) {
        assert SharedSince(tags' - {p}, h, c.addrs, q);
      }
    }
  }

  lemma AddKeepsShares(live: map<nat, Shared>, l: Ledger, live': map<nat, Shared>, c: Chain, tags: map<nat, Tag>)
    requires SharesExact(live, l)
    requires 0 < |c.ids| <= |l.free| && c.ids[0] !in l.chains
    requires SharesExtended(live, l.tags, live', tags, c.ids[0], c)
    ensures SharesExact(live', Added(l, c, tags))
  {
    var l' := Added(l, c, tags);
    forall p | p in tags ensures TagHolds(l', p) {
      if p in live {
        assert TagHolds(l, p);
      }
    }
    forall h, k | h in l'.chains && 0 <= k < |l'.chains[h].addrs| ensures BufferLive(live', tags, h, l'.chains[h], k) {
      if h != c.ids[0] {
        assert BufferLive(live, l.tags, h, l.chains[h], k);
      }
    }
    forall h | h in l.chains && h != c.ids[0] && l.chains[h].table.Some? ensures TableLive(live', tags, h, l'.chains[h]) {
      assert TableLive(live, l.tags, h, l.chains[h]);
    }
  }

  // ---- removing a chain ----

  /** The ledger after the chain `t` went back to the front of the free list. */
  ghost function Removed(l: Ledger, t: nat): Ledger
    requires t in l.chains
  {
    var m := |l.chains[t].ids|;
    Ledger(
      l.chains[t].ids + l.free,
      l.chains - {t},
      seq(|l.owner|, i requires 0 <= i < |l.owner| => OwnerAfterRemove(l.owner[i], t, m)),
      map p | p in l.tags && l.tags[p].head != t :: l.tags[p])
  }

  function OwnerAfterRemove(o: Owner, t: nat, m: nat): Owner {
    match o
    case Free(j) => Free(j + m)
    case Used(h, j) => if h == t then Free(j) else o
  }

  /** Recycling a chain straight after adding it restores the whole ledger. */
  lemma RecycleUndoesAdd(d: Driver, l: Ledger, d': Driver, c: Chain, tags: map<nat, Tag>)
    requires Inv(d, l)
    requires Carved(d, l, d', c) && ChainShared(d.live, l.tags, d'.live, tags, c.ids[0], c)
    ensures Removed(Added(l, c, tags), c.ids[0]) == l
  {
    assert Owned(l) && SharesExact(d.live, l) by { Unseal(d, l); }
    assert c.ids[0] !in l.chains by { FreeHeadHasNoList(d, l); }
    assert SharesExtended(d.live, l.tags, d'.live, tags, c.ids[0], c) by {
      ChainSharedExtends(d.live, l.tags, d'.live, tags, c.ids[0], c);
    }
    UndoneLists(l, c, tags);
    UndoneTags(d.live, l, d'.live, c, tags);
  }

  lemma UndoneLists(l: Ledger, c: Chain, tags: map<nat, Tag>)
    requires Owned(l) && 0 < |c.ids| <= |l.free| && c.ids == l.free[..|c.ids|] && c.ids[0] !in l.chains
    ensures var r := Removed(Added(l, c, tags), c.ids[0]);
      r.free == l.free && r.chains == l.chains && r.owner == l.owner
  {
    var r := Removed(Added(l, c, tags), c.ids[0]);
    forall i | 0 <= i < |l.owner| ensures r.owner[i] == l.owner[i] {
      assert OwnerHolds(l, i);
    }
  }

  lemma UndoneTags(live: map<nat, Shared>, l: Ledger, live': map<nat, Shared>, c: Chain, tags: map<nat, Tag>)
    requires SharesExact(live, l) && 0 < |c.ids| <= |l.free| && c.ids[0] !in l.chains
    requires SharesExtended(live, l.tags, live', tags, c.ids[0], c)
    ensures Removed(Added(l, c, tags), c.ids[0]).tags == l.tags
  {
    var r := Removed(Added(l, c, tags), c.ids[0]);
    forall p | p in l.tags ensures p in r.tags && r.tags[p] == l.tags[p] {
      assert TagHolds(l, p);
    }
  }

  /** How the driver state changes when the chain `t` is recycled. */
  ghost predicate Recycled(d: Driver, l: Ledger, d': Driver, t: nat)
  {
    && t in l.chains && d.live.Keys == l.tags.Keys
    && var ids := l.chains[t].ids; var m := |ids|;
    && 0 < m && ids[m - 1] < |d.shadow|
    && d'.size == d.size == |d.shadow| == |d.lists| && |d'.shadow| == |d.shadow|
    && t < |d.lists| && d'.lists == d.lists[t := None]
    && (forall i :: 0 <= i < d.size && i !in ids ==> d'.shadow[i] == d.shadow[i])
    && (forall j, k :: 0 <= j && k == j + 1 < m ==> ids[j] < d.size && d'.shadow[ids[j]].next == ids[k])
    && d'.shadow[ids[m - 1]].next == d.freeHead
    && d'.freeHead == t
    && d'.numUsed == d.numUsed - m
    && d'.live == map p | p in d.live && l.tags[p].head != t :: d.live[p]
  }

  lemma RecycleKeepsInv(d: Driver, l: Ledger, d': Driver, t: nat)
    requires Inv(d, l)
    requires Recycled(d, l, d', t)
    ensures Inv(d', Removed(l, t))
  {
    Unseal(d, l);
    var l' := Removed(l, t);
    assert ChainEncoded(d, t, l.chains[t]);
    assert Sizes(d', l') && FreeLinked(d'.shadow, d'.freeHead, l'.free) by { RecycleKeepsFreeList(d, l, d', t); }
    assert Owned(l') by { RecycleKeepsOwned(l, t); }
    assert ChainsEncoded(d', l') by { RecycleKeepsChains(d, l, d', t); }
    assert SharesExact(d'.live, l') by { RecycleKeepsShares(d, l, d', t); }
  }

  lemma RecycleKeepsFreeList(d: Driver, l: Ledger, d': Driver, t: nat)
    requires Sizes(d, l) && FreeLinked(d.shadow, d.freeHead, l.free) && Owned(l)
    requires Recycled(d, l, d', t) && l.chains[t].ids[0] == t
    ensures Sizes(d', Removed(l, t))
    ensures FreeLinked(d'.shadow, d'.freeHead, Removed(l, t).free)
  {
    var ids := l.chains[t].ids;
    var m := |ids|;
    var free' := ids + l.free;
    forall j | 0 <= j < m ensures ids[j] < d.size && l.owner[ids[j]] == Used(t, j) {}
    forall j | 0 <= j < |l.free| ensures l.free[j] !in ids {
      assert l.owner[l.free[j]] == Free(j);
    }
    forall i | 0 <= i < d.size ensures d'.shadow[i].next < d.size {
      if i in ids {
        var j :| 0 <= j < m && ids[j] == i;
        if j + 1 < m { assert d'.shadow[ids[j]].next == ids[j + 1]; }
      }
    }
    forall j, k | 0 <= j && k == j + 1 < |free'| ensures d'.shadow[free'[j]].next == free'[k] {
      if j >= m {
        assert d.shadow[l.free[j - m]].next == l.free[k - m];
      } else if j == m - 1 {
        assert d.freeHead == l.free[0];
      }
    }
  }

  lemma RecycleKeepsOwned(l: Ledger, t: nat)
    requires Owned(l) && t in l.chains
    ensures Owned(Removed(l, t))
  {
    var m := |l.chains[t].ids|;
    var l' := Removed(l, t);
    forall j | 0 <= j < |l'.free| ensures l'.free[j] < |l'.owner| && l'.owner[l'.free[j]] == Free(j) {
      if j < m {
        assert l.owner[l.chains[t].ids[j]] == Used(t, j);
      } else {
        assert l.owner[l.free[j - m]] == Free(j - m);
      }
    }
    forall i | 0 <= i < |l'.owner| ensures OwnerHolds(l', i) {
      assert OwnerHolds(l, i);
    }
  }

  lemma RecycleKeepsChains(d: Driver, l: Ledger, d': Driver, t: nat)
    requires Owned(l) && ChainsEncoded(d, l) && t in l.chains
    requires |d'.shadow| == |d.shadow| && t < |d.lists| && d'.lists == d.lists[t := None]
    requires forall i :: 0 <= i < |d.shadow| && i !in l.chains[t].ids ==> d'.shadow[i] == d.shadow[i]
    ensures ChainsEncoded(d', Removed(l, t))
  {
    forall h | h in l.chains && h != t ensures ChainEncoded(d', h, l.chains[h]) {
      ChainsDisjoint(l, h, t);
      ChainFrame(d, d', h, l.chains[h]);
    }
  }

  lemma ChainsDisjoint(l: Ledger, h: nat, t: nat)
    requires Owned(l) && h in l.chains && t in l.chains && h != t
    ensures forall j :: 0 <= j < |l.chains[h].ids| ==> l.chains[h].ids[j] !in l.chains[t].ids
  {
    forall j | 0 <= j < |l.chains[h].ids| ensures l.chains[h].ids[j] !in l.chains[t].ids {
      assert l.owner[l.chains[h].ids[j]] == Used(h, j);
    }
  }

  lemma RecycleKeepsShares(d: Driver, l: Ledger, d': Driver, t: nat)
    requires SharesExact(d.live, l)
    requires Recycled(d, l, d', t)
    ensures SharesExact(d'.live, Removed(l, t))
  {
    var l' := Removed(l, t);
    forall p | p in l'.tags ensures TagHolds(l', p) {
      assert TagHolds(l, p);
    }
    forall h, k | h in l'.chains && 0 <= k < |l'.chains[h].addrs| ensures BufferLive(d'.live, l'.tags, h, l'.chains[h], k) {
      assert BufferLive(d.live, l.tags, h, l.chains[h], k);
    }
    forall h | h in l'.chains && l'.chains[h].table.Some? ensures TableLive(d'.live, l'.tags, h, l'.chains[h]) {
      assert TableLive(d.live, l.tags, h, l.chains[h]);
    }
  }

  // ---- what the loop of `recycle_descriptors` writes ----

  /** The table after the first `n` entries of the chain `ids` were unset, the last one linked to `freeHead`. */
  function Unlinked(table: seq<Descriptor>, ids: seq<nat>, n: nat, freeHead: nat): (r: seq<Descriptor>)
    requires n <= |ids|
    requires forall j :: 0 <= j < |ids| ==> ids[j] < |table|
    ensures |r| == |table|
  {
    if n == 0 then table
    else
      var t := Unlinked(table, ids, n - 1, freeHead);
      t[ids[n - 1] := Unlink(t[ids[n - 1]], n == |ids|, freeHead)]
  }

  function Unlink(d: Descriptor, last: bool, freeHead: nat): Descriptor {
    if last then UnsetBuf(d).(next := freeHead) else UnsetBuf(d)
  }

  lemma {:induction false} UnlinkedAt(table: seq<Descriptor>, ids: seq<nat>, n: nat, freeHead: nat, i: nat)
    requires n <= |ids| && i < |table|
    requires forall j :: 0 <= j < |ids| ==> ids[j] < |table|
    requires Distinct(ids)
    ensures i !in ids[..n] ==> Unlinked(table, ids, n, freeHead)[i] == table[i]
    ensures forall j :: 0 <= j < n && ids[j] == i ==>
              Unlinked(table, ids, n, freeHead)[i] == Unlink(table[i], j + 1 == |ids|, freeHead)
    decreases n
  {
    if n > 0 {
      UnlinkedAt(table, ids, n - 1, freeHead, i);
      TakeOneMore(ids, n - 1);
      if i == ids[n - 1] {
        assert i !in ids[..n - 1];
      }
    }
  }

  ghost function Addresses(addrs: seq<nat>): set<nat> { set p | p in addrs }

  /** The shares of a chain are exactly its buffers' and its table's. */
  lemma SharesOfChain(live: map<nat, Shared>, l: Ledger, t: nat)
    requires SharesExact(live, l) && t in l.chains
    ensures forall p :: p in l.tags ==>
              (l.tags[p].head == t <==> p in l.chains[t].addrs || l.chains[t].table == Some(p))
    ensures Distinct(l.chains[t].addrs)
    ensures forall k :: 0 <= k < |l.chains[t].addrs| ==> l.chains[t].table != Some(l.chains[t].addrs[k])
  {
    var c := l.chains[t];
    forall k | 0 <= k < |c.addrs| ensures c.addrs[k] in l.tags && l.tags[c.addrs[k]] == BufTag(t, k) {
      assert BufferLive(live, l.tags, t, c, k);
    }
    if c.table.Some? {
      assert TableLive(live, l.tags, t, c);
    }
    forall p | p in l.tags ensures l.tags[p].head == t <==> p in c.addrs || c.table == Some(p) {
      assert TagHolds(l, p);
    }
  }

  lemma DirectRecycled(d: Driver, l: Ledger, d': Driver, t: nat)
    requires |d.shadow| == |d.lists| == d.size && Owned(l) && SharesExact(d.live, l)
    requires t in l.chains && ChainEncoded(d, t, l.chains[t])
    requires l.chains[t].table.None?
    requires forall j :: 0 <= j < |l.chains[t].ids| ==> l.chains[t].ids[j] < |d.shadow|
    requires d'.shadow == Unlinked(d.shadow, l.chains[t].ids, |l.chains[t].ids|, d.freeHead)
    requires d'.size == d.size && d'.lists == d.lists && d'.freeHead == t
    requires d'.numUsed == d.numUsed - |l.chains[t].ids|
    requires d'.live == d.live - Addresses(l.chains[t].addrs)
    ensures Recycled(d, l, d', t)
  {
    var ids := l.chains[t].ids;
    assert ChainUnlinked(d.shadow, d'.shadow, ids, d.freeHead) by {
      ChainDistinct(l, t);
      UnlinkedChain(d.shadow, ids, d.freeHead);
    }
    SharesTakenBack(d.live, l, t, d'.live);
    assert d.lists[t := None] == d.lists;
  }

  /** Taking back the shares of a chain leaves exactly those of the others. */
  lemma SharesTakenBack(live: map<nat, Shared>, l: Ledger, t: nat, live': map<nat, Shared>)
    requires SharesExact(live, l) && t in l.chains
    requires live'.Keys == live.Keys - Addresses(l.chains[t].addrs)
                         - (if l.chains[t].table.Some? then {l.chains[t].table.value} else {})
    requires forall p :: p in live' ==> live'[p] == live[p]
    ensures live' == map p | p in live && l.tags[p].head != t :: live[p]
  {
    SharesOfChain(live, l, t);
  }

  ghost predicate ChainUnlinked(table: seq<Descriptor>, table': seq<Descriptor>, ids: seq<nat>, freeHead: nat)
    requires |table'| == |table| && |ids| > 0
    requires forall j :: 0 <= j < |ids| ==> ids[j] < |table|
  {
    && (forall i :: 0 <= i < |table| && i !in ids ==> table'[i] == table[i])
    && (forall j :: 0 <= j < |ids| - 1 ==> table'[ids[j]].next == table[ids[j]].next)
    && table'[ids[|ids| - 1]].next == freeHead
  }

  lemma UnlinkedChain(table: seq<Descriptor>, ids: seq<nat>, freeHead: nat)
    requires |ids| > 0 && Distinct(ids)
    requires forall j :: 0 <= j < |ids| ==> ids[j] < |table|
    ensures ChainUnlinked(table, Unlinked(table, ids, |ids|, freeHead), ids, freeHead)
  {
    var n := |ids|;
    forall i | 0 <= i < |table| && i !in ids ensures Unlinked(table, ids, n, freeHead)[i] == table[i] {
      UnlinkedAt(table, ids, n, freeHead, i);
    }
    forall j | 0 <= j < n ensures Unlinked(table, ids, n, freeHead)[ids[j]] == Unlink(table[ids[j]], j + 1 == n, freeHead) {
      UnlinkedAt(table, ids, n, freeHead, ids[j]);
    }
  }

  lemma ChainDistinct(l: Ledger, t: nat)
    requires Owned(l) && t in l.chains
    ensures Distinct(l.chains[t].ids)
  {
    forall i, j | 0 <= i < j < |l.chains[t].ids| ensures l.chains[t].ids[i] != l.chains[t].ids[j] {
      assert l.owner[l.chains[t].ids[i]] == Used(t, i);
    }
  }

  lemma IndirectRecycled(d: Driver, l: Ledger, d': Driver, t: nat)
    requires |d.shadow| == |d.lists| == d.size && Owned(l) && SharesExact(d.live, l)
    requires t in l.chains && ChainEncoded(d, t, l.chains[t])
    requires l.chains[t].table.Some? && t < |d.shadow| && t < |d.lists|
    requires d'.shadow == d.shadow[t := Unlink(d.shadow[t], true, d.freeHead)]
    requires d'.size == d.size && d'.lists == d.lists[t := None] && d'.freeHead == t
    requires d'.numUsed == d.numUsed - 1
    requires d'.live == d.live - {l.chains[t].table.value} - Addresses(l.chains[t].addrs)
    ensures Recycled(d, l, d', t)
  {
    SharesTakenBack(d.live, l, t, d'.live);
  }

  /** Every outstanding chain occupies at least its head, so there are at most `numUsed` of them. */
  lemma HeadsBound(d: Driver, l: Ledger)
    requires Inv(d, l)
    ensures |l.chains.Keys| <= d.numUsed
  {
    Unseal(d, l);
    FreeDistinct(l);
    forall h | h in l.chains ensures h < d.size && h !in l.free {
      HeadNotFree(d, l, h);
    }
    RoomBelow(l.free, l.chains.Keys, d.size);
  }

  lemma HeadNotFree(d: Driver, l: Ledger, h: nat)
    requires Owned(l) && ChainsEncoded(d, l) && h in l.chains
    ensures h < |d.shadow| && h !in l.free
  {
    assert ChainEncoded(d, h, l.chains[h]);
    ChainIdNotFree(l, h, 0);
  }

  /** `desc` shows the device what the shadow table says, at least for the chain `c`. */
  ghost predicate Shown(desc: seq<Descriptor>, shadow: seq<Descriptor>, c: Chain)
  {
    forall j :: 0 <= j < |c.ids| ==>
      c.ids[j] < |desc| && c.ids[j] < |shadow| && desc[c.ids[j]] == shadow[c.ids[j]]
  }

  /**
   A device that follows the published head `h` reads exactly the chain's buffers,
   whichever encoding was used.
   */
  lemma DeviceSeesChain(d: Driver, l: Ledger, desc: seq<Descriptor>, h: nat)
    requires h in l.chains && ChainEncoded(d, h, l.chains[h]) && SharesExact(d.live, l)
    requires Shown(desc, d.shadow, l.chains[h])
    ensures DeviceSees(desc, d.live, h, l.chains[h].bufs)
  {
    var c := l.chains[h];
    var elems := Elements(c.bufs, c.addrs);
    assert DeviceReads(desc, d.live, h, elems) by {
      assert desc[c.ids[0]] == d.shadow[c.ids[0]];
      if c.table.None? {
        assert TableChain(desc, c.ids, c.bufs, c.addrs) by {
          forall j | 0 <= j < |c.ids| ensures Encodes(desc[c.ids[j]], c.bufs[j], c.addrs[j], j + 1 < |c.ids|) {
            assert Encodes(d.shadow[c.ids[j]], c.bufs[j], c.addrs[j], j + 1 < |c.ids|);
          }
        }
        assert Encodes(desc[h], c.bufs[0], c.addrs[0], 0 + 1 < |c.ids|);
        ChainWalks(desc, c.ids, c.bufs, c.addrs);
      } else {
        assert TableLive(d.live, l.tags, h, c);
        IndirectListWalks(c.bufs, c.addrs);
      }
    }
    forall k | 0 <= k < |c.bufs| ensures Names(d.live, elems[k], c.bufs[k]) {
      assert BufferLive(d.live, l.tags, h, c, k);
    }
    assert NamesAll(d.live, elems, c.bufs);
  }

  // ---- the steps on the whole ledger ----

  /** What the direct and the indirect `add` have in common, for the device too. */
  ghost predicate ChainAdded(d: Driver, l: Ledger, desc: seq<Descriptor>, d': Driver, l': Ledger, desc': seq<Descriptor>,
                             bufs: seq<IoBuffer>, m: nat)
  {
    && 0 < m <= |l.free|
    && var h := l.free[0];
    && Inv(d', l') && d'.numUsed == d.numUsed + m
    && h !in l.chains && h in l'.chains
    && l'.chains[h].bufs == bufs && l'.chains[h].ids == l.free[..m]
    && l'.chains == l.chains[h := l'.chains[h]]
    && l'.free == l.free[m..]
    && l'.chains.Keys == l.chains.Keys + {h} && |l.chains.Keys| < d.size
    && Shown(desc', d'.shadow, l'.chains[h])
    && DeviceSees(desc', d'.live, h, bufs)
    && (forall i :: i in l.chains && Shown(desc, d.shadow, l.chains[i]) ==> Shown(desc', d'.shadow, l.chains[i]))
  }

  lemma DirectAdded(d: Driver, l: Ledger, desc: seq<Descriptor>, d': Driver, desc': seq<Descriptor>,
                    bufs: seq<IoBuffer>, addrs: seq<nat>, l': Ledger)
    requires Inv(d, l) && |desc| == |d.shadow|
    requires 0 < |bufs| == |addrs| <= |l.free|
    requires forall j :: 0 <= j < |l.free| ==> l.free[j] < |d.shadow|
    requires forall j :: 0 <= j < |bufs| ==> bufs[j].buf.len > 0
    requires d'.shadow == EndChain(Filled(d.shadow, l.free, bufs, addrs), l.free[|bufs| - 1])
    requires d'.size == d.size && d'.lists == d.lists && d'.numUsed == d.numUsed + |bufs|
    requires d'.freeHead == d.shadow[l.free[|bufs| - 1]].next
    requires FreshAddresses(d.live, addrs) && d'.live == ShareAll(d.live, bufs, addrs)
    requires desc' == Copied(desc, d'.shadow, l.free[..|bufs|])
    requires l' == Added(l, Chain(l.free[..|bufs|], bufs, addrs, None), TagAll(l.tags, l.free[0], addrs))
    ensures ChainAdded(d, l, desc, d', l', desc', bufs, |bufs|)
  {
    var c := Chain(l.free[..|bufs|], bufs, addrs, None);
    assert CarvedOff(d, l, d', c) by {
      Unseal(d, l);
      FreeHeadHasNoList(d, l);
      DirectCarved(d, l, d', bufs, addrs);
    }
    assert SharedFor(d.live, l.tags, d'.live, TagAll(l.tags, l.free[0], addrs), c.ids[0], c) by {
      Unseal(d, l);
      ShareAllShares(d.live, l.tags, l.free[0], bufs, addrs);
    }
    CarvedAdded(d, l, desc, d', desc', c, TagAll(l.tags, l.free[0], addrs));
  }

  lemma HeadRoom(d: Driver, l: Ledger)
    requires Inv(d, l) && |l.free| > 0
    ensures |l.chains.Keys| < d.size && l.free[0] !in l.chains
  {
    FreeHeadHasNoList(d, l);
    HeadsBound(d, l);
    Unseal(d, l);
  }

  lemma ShownIsSeen(d: Driver, l: Ledger, desc: seq<Descriptor>, h: nat)
    requires Inv(d, l) && h in l.chains && Shown(desc, d.shadow, l.chains[h])
    ensures DeviceSees(desc, d.live, h, l.chains[h].bufs)
  {
    Unseal(d, l);
    DeviceSeesChain(d, l, desc, h);
  }

  lemma OthersStayShown(d: Driver, l: Ledger, desc: seq<Descriptor>, d': Driver, desc': seq<Descriptor>, c: Chain)
    requires Inv(d, l) && |c.ids| <= |l.free| && c.ids == l.free[..|c.ids|]
    requires |desc| == |desc'| == |d.shadow| == |d'.shadow|
    requires forall i :: 0 <= i < |desc| && i !in c.ids ==> desc'[i] == desc[i] && d'.shadow[i] == d.shadow[i]
    ensures forall h :: h in l.chains && Shown(desc, d.shadow, l.chains[h]) ==> Shown(desc', d'.shadow, l.chains[h])
  {
    Unseal(d, l);
    OthersShown(d, l, desc, d', desc', c);
  }

  lemma CarvedShape(d: Driver, l: Ledger, d': Driver, c: Chain)
    requires Carved(d, l, d', c)
    ensures 0 < |c.ids| <= |l.free| && c.ids == l.free[..|c.ids|] && c.ids[0] == l.free[0]
    ensures |d'.shadow| == |d.shadow| && d'.numUsed == d.numUsed + |c.ids|
    ensures forall i :: 0 <= i < |d.shadow| && i !in c.ids ==> d'.shadow[i] == d.shadow[i]
  {
  }

  ghost predicate CarvedOff(d: Driver, l: Ledger, d': Driver, c: Chain)
  {
    forall seal: Seal :: CarvedSealed(d, l, d', c, seal)
  }

  ghost predicate CarvedSealed(d: Driver, l: Ledger, d': Driver, c: Chain, seal: Seal)
  {
    Carved(d, l, d', c)
  }

  ghost predicate SharedFor(live: map<nat, Shared>, tags: map<nat, Tag>, live': map<nat, Shared>, tags': map<nat, Tag>, h: nat, c: Chain)
  {
    forall seal: Seal :: SharedForSealed(live, tags, live', tags', h, c, seal)
  }

  ghost predicate SharedForSealed(live: map<nat, Shared>, tags: map<nat, Tag>, live': map<nat, Shared>, tags': map<nat, Tag>,
                                  h: nat, c: Chain, seal: Seal)
  {
    ChainShared(live, tags, live', tags', h, c)
  }

  lemma CarvedKeepsInv(d: Driver, l: Ledger, d': Driver, c: Chain, tags: map<nat, Tag>)
    requires Inv(d, l) && CarvedOff(d, l, d', c) && |c.ids| > 0
    requires SharedFor(d.live, l.tags, d'.live, tags, c.ids[0], c)
    ensures 0 < |c.ids| <= |l.free| && Inv(d', Added(l, c, tags))
  {
    assert CarvedSealed(d, l, d', c, Seal);
    assert SharedForSealed(d.live, l.tags, d'.live, tags, c.ids[0], c, Seal);
    AddKeepsInv(d, l, d', c, tags);
  }

  /** A carved and shared chain that the device table shows is a chain added. */
  lemma CarvedAdded(d: Driver, l: Ledger, desc: seq<Descriptor>, d': Driver, desc': seq<Descriptor>, c: Chain, tags: map<nat, Tag>)
    requires Inv(d, l) && CarvedOff(d, l, d', c) && |c.ids| > 0
    requires SharedFor(d.live, l.tags, d'.live, tags, c.ids[0], c)
    requires |desc'| == |desc| == |d.shadow| && Shown(desc', d'.shadow, c)
    requires forall i :: 0 <= i < |desc| && i !in c.ids ==> desc'[i] == desc[i]
    ensures |c.ids| <= |l.free| && ChainAdded(d, l, desc, d', Added(l, c, tags), desc', c.bufs, |c.ids|)
  {
    CarvedKeepsInv(d, l, d', c, tags);
    var l' := Added(l, c, tags);
    assert CarvedSealed(d, l, d', c, Seal);
    CarvedShape(d, l, d', c);
    HeadRoom(d, l);
    ShownIsSeen(d', l', desc', c.ids[0]);
    OthersStayShown(d, l, desc, d', desc', c);
  }

  lemma IndirectAdded(d: Driver, l: Ledger, desc: seq<Descriptor>, d': Driver, desc': seq<Descriptor>,
                      bufs: seq<IoBuffer>, addrs: seq<nat>, table: nat, l': Ledger)
    requires Inv(d, l) && |desc| == |d.shadow| == |d.lists| == d.size
    requires 0 < |bufs| == |addrs| && |l.free| > 0 && l.free[0] == d.freeHead < d.size
    requires forall j :: 0 <= j < |bufs| ==> bufs[j].buf.len > 0
    requires d'.shadow == d.shadow[d.freeHead := Descriptor(table, 16 * |addrs|, DescFlags(false, false, true), d.shadow[d.freeHead].next)]
    requires d'.size == d.size && d'.lists == d.lists[d.freeHead := Some(IndirectList(bufs, addrs))] && d'.numUsed == d.numUsed + 1
    requires d'.freeHead == d.shadow[d.freeHead].next
    requires FreshAddresses(d.live, addrs) && table !in ShareAll(d.live, bufs, addrs)
    requires d'.live == ShareAll(d.live, bufs, addrs)[table := SharedTable(IndirectList(bufs, addrs))]
    requires desc' == desc[d.freeHead := d'.shadow[d.freeHead]]
    requires l' == Added(l, Chain([d.freeHead], bufs, addrs, Some(table)), TagAll(l.tags, d.freeHead, addrs)[table := TableTag(d.freeHead)])
    ensures ChainAdded(d, l, desc, d', l', desc', bufs, 1)
  {
    var h := d.freeHead;
    var c := Chain([h], bufs, addrs, Some(table));
    var tags := TagAll(l.tags, h, addrs)[table := TableTag(h)];
    assert l.free[..1] == [h];
    assert CarvedOff(d, l, d', c) by {
      IndirectCarved(d, l, d', bufs, addrs, table);
    }
    assert SharedFor(d.live, l.tags, d'.live, tags, h, c) by {
      Unseal(d, l);
      IndirectShared(d.live, l.tags, d'.live, c, tags, table);
    }
    CarvedAdded(d, l, desc, d', desc', c, tags);
  }

  lemma IndirectCarved(d: Driver, l: Ledger, d': Driver, bufs: seq<IoBuffer>, addrs: seq<nat>, table: nat)
    requires |d.shadow| == |d.lists| == d.size
    requires 0 < |bufs| == |addrs| && |l.free| > 0 && l.free[0] == d.freeHead < d.size
    requires forall j :: 0 <= j < |bufs| ==> bufs[j].buf.len > 0
    requires d'.shadow == d.shadow[d.freeHead := Descriptor(table, 16 * |addrs|, DescFlags(false, false, true), d.shadow[d.freeHead].next)]
    requires d'.size == d.size && d'.lists == d.lists[d.freeHead := Some(IndirectList(bufs, addrs))] && d'.numUsed == d.numUsed + 1
    requires d'.freeHead == d.shadow[d.freeHead].next
    ensures Carved(d, l, d', Chain([d.freeHead], bufs, addrs, Some(table)))
  {
    assert l.free[..1] == [d.freeHead];
    assert ChainEncoded(d', d.freeHead, Chain([d.freeHead], bufs, addrs, Some(table)));
  }

  lemma RemoveAdded<T>(m: map<nat, T>, k: nat, v: T)
    requires k !in m
    ensures m[k := v] - {k} == m
  {
  }

  lemma IndirectShared(live: map<nat, Shared>, tags: map<nat, Tag>, live': map<nat, Shared>, c: Chain, tags': map<nat, Tag>, table: nat)
    requires live.Keys == tags.Keys && |c.ids| > 0 && |c.bufs| == |c.addrs| && c.table == Some(table)
    requires FreshAddresses(live, c.addrs) && table !in ShareAll(live, c.bufs, c.addrs)
    requires live' == ShareAll(live, c.bufs, c.addrs)[table := SharedTable(IndirectList(c.bufs, c.addrs))]
    requires tags' == TagAll(tags, c.ids[0], c.addrs)[table := TableTag(c.ids[0])]
    ensures ChainShared(live, tags, live', tags', c.ids[0], c)
  {
    var shared, tagged := ShareAll(live, c.bufs, c.addrs), TagAll(tags, c.ids[0], c.addrs);
    ShareAllShares(live, tags, c.ids[0], c.bufs, c.addrs);
    assert table !in shared.Keys && shared.Keys == tagged.Keys;
    RemoveAdded(shared, table, SharedTable(IndirectList(c.bufs, c.addrs)));
    RemoveAdded(tagged, table, TableTag(c.ids[0]));
  }

  lemma OthersShown(d: Driver, l: Ledger, desc: seq<Descriptor>, d': Driver, desc': seq<Descriptor>, c: Chain)
    requires Owned(l) && |c.ids| <= |l.free| && c.ids == l.free[..|c.ids|]
    requires |desc| == |desc'| == |d.shadow| == |d'.shadow|
    requires forall i :: 0 <= i < |desc| && i !in c.ids ==> desc'[i] == desc[i] && d'.shadow[i] == d.shadow[i]
    ensures forall h :: h in l.chains && Shown(desc, d.shadow, l.chains[h]) ==> Shown(desc', d'.shadow, l.chains[h])
  {
    forall h | h in l.chains && Shown(desc, d.shadow, l.chains[h]) ensures Shown(desc', d'.shadow, l.chains[h]) {
      var ids := l.chains[h].ids;
      forall j | 0 <= j < |ids| ensures ids[j] < |desc'| && desc'[ids[j]] == d'.shadow[ids[j]] {
        ChainIdNotFree(l, h, j);
      }
    }
  }

  ghost predicate ChainRemoved(d: Driver, l: Ledger, desc: seq<Descriptor>, d': Driver, l': Ledger, desc': seq<Descriptor>, t: nat)
  {
    && t in l.chains && l' == Removed(l, t) && Inv(d', l')
    && d'.numUsed == d.numUsed - |l.chains[t].ids|
    && (forall i :: i in l'.chains && Shown(desc, d.shadow, l.chains[i]) ==> Shown(desc', d'.shadow, l.chains[i]))
  }

  lemma RecycledRemoved(d: Driver, l: Ledger, desc: seq<Descriptor>, d': Driver, desc': seq<Descriptor>, t: nat)
    requires Inv(d, l) && Recycled(d, l, d', t)
    requires |desc'| == |desc| == |d.shadow|
    requires forall i :: 0 <= i < |desc| && i !in l.chains[t].ids ==> desc'[i] == desc[i]
    ensures ChainRemoved(d, l, desc, d', Removed(l, t), desc', t)
  {
    RecycleKeepsInv(d, l, d', t);
    Unseal(d, l);
    forall h | h in l.chains && h != t && Shown(desc, d.shadow, l.chains[h]) ensures Shown(desc', d'.shadow, l.chains[h]) {
      ChainsDisjoint(l, h, t);
    }
  }

  lemma DirectRemoved(d: Driver, l: Ledger, desc: seq<Descriptor>, d': Driver, desc': seq<Descriptor>, t: nat)
    requires Inv(d, l) && t in l.chains && l.chains[t].table.None? && |desc| == |d.shadow|
    requires forall j :: 0 <= j < |l.chains[t].ids| ==> l.chains[t].ids[j] < |d.shadow|
    requires d'.shadow == Unlinked(d.shadow, l.chains[t].ids, |l.chains[t].ids|, d.freeHead)
    requires d'.size == d.size && d'.lists == d.lists && d'.freeHead == t
    requires d'.numUsed == d.numUsed - |l.chains[t].ids|
    requires d'.live == d.live - Addresses(l.chains[t].addrs)
    requires desc' == Copied(desc, d'.shadow, l.chains[t].ids)
    ensures ChainRemoved(d, l, desc, d', Removed(l, t), desc', t)
  {
    assert Recycled(d, l, d', t) by {
      Unseal(d, l);
      DirectRecycled(d, l, d', t);
    }
    RecycledRemoved(d, l, desc, d', desc', t);
  }

  lemma IndirectRemoved(d: Driver, l: Ledger, desc: seq<Descriptor>, d': Driver, t: nat)
    requires Inv(d, l) && t in l.chains && l.chains[t].table.Some? && t < |d.shadow| && t < |d.lists| && |desc| == |d.shadow|
    requires d'.shadow == d.shadow[t := Unlink(d.shadow[t], true, d.freeHead)]
    requires d'.size == d.size && d'.lists == d.lists[t := None] && d'.freeHead == t
    requires d'.numUsed == d.numUsed - 1
    requires d'.live == d.live - {l.chains[t].table.value} - Addresses(l.chains[t].addrs)
    ensures ChainRemoved(d, l, desc, d', Removed(l, t), desc, t)
  {
    assert Recycled(d, l, d', t) by {
      Unseal(d, l);
      IndirectRecycled(d, l, d', t);
    }
    RecycledRemoved(d, l, desc, d', desc, t);
  }

  /** One round of the recycling loop of a direct chain, on both tables. */
  lemma UnlinkStep(shadow: seq<Descriptor>, desc: seq<Descriptor>, ids: seq<nat>, n: nat, freeHead: nat)
    requires n < |ids| && |desc| == |shadow| && Distinct(ids)
    requires forall j :: 0 <= j < |ids| ==> ids[j] < |shadow|
    ensures var t := Unlinked(shadow, ids, n, freeHead); var d := Unlink(t[ids[n]], n + 1 == |ids|, freeHead);
      && t[ids[n]] == shadow[ids[n]]
      && t[ids[n] := d] == Unlinked(shadow, ids, n + 1, freeHead)
      && Copied(desc, t, ids[..n])[ids[n] := d] == Copied(desc, t[ids[n] := d], ids[..n + 1])
  {
    var t := Unlinked(shadow, ids, n, freeHead);
    var d := Unlink(t[ids[n]], n + 1 == |ids|, freeHead);
    assert t[ids[n]] == shadow[ids[n]] by {
      UnlinkedAt(shadow, ids, n, freeHead, ids[n]);
    }
    CopiedStep(desc, t, ids[..n], ids[n], d);
    TakeOneMore(ids, n);
  }

  /** The share that a round takes back is live, and is the buffer's own. */
  lemma UnshareStep(live: map<nat, Shared>, l: Ledger, t: nat, k: nat)
    requires SharesExact(live, l) && t in l.chains && k < |l.chains[t].addrs|
    ensures l.chains[t].addrs[k] in live && k < |l.chains[t].bufs|
    ensures live[l.chains[t].addrs[k]] == SharedBuffer(l.chains[t].bufs[k])
    ensures l.chains[t].addrs[k] !in Addresses(l.chains[t].addrs[..k])
    ensures l.chains[t].table != Some(l.chains[t].addrs[k])
    ensures Addresses(l.chains[t].addrs[..k + 1]) == Addresses(l.chains[t].addrs[..k]) + {l.chains[t].addrs[k]}
  {
    var addrs := l.chains[t].addrs;
    assert BufferLive(live, l.tags, t, l.chains[t], k);
    SharesOfChain(live, l, t);
    TakeOneMore(addrs, k);
    assert addrs[k] !in addrs[..k];
  }

  /** `num_used` counts at least the chain's own descriptors, so it does not underflow. */
  lemma ChainFitsUsed(d: Driver, l: Ledger, t: nat)
    requires Inv(d, l) && t in l.chains
    ensures |l.chains[t].ids| <= d.numUsed
  {
    Unseal(d, l);
    FreeDistinct(l);
    ChainDistinct(l, t);
    var ids := l.chains[t].ids;
    forall j | 0 <= j < |ids| ensures ids[j] < d.size && ids[j] !in l.free {
      ChainIdNotFree(l, t, j);
    }
    DistinctSize(ids);
    RoomBelow(l.free, Members(ids), d.size);
  }

  /** Truncating a head to 16 bits does not change it. */
  lemma HeadIsIndex(d: Driver, l: Ledger, h: nat)
    requires Inv(d, l) && h in l.chains && d.size <= 0x8000
    ensures h % 0x1_0000 == h
  {
    Unseal(d, l);
    HeadNotFree(d, l, h);
  }
}
