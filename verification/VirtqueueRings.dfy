/**
 The available and used rings: 16-bit wrapping indices and power-of-two masks
 against unbounded counts of what was added, taken, completed and popped.
 */
module VirtqueueRings {
  import opened Bits
  import opened Collections
  import opened VirtqueueModel

  /** A 16-bit counter: `wrapping_add` keeps the count modulo 2^16 (`WrapIsMod`). */
  function Wrap(n: nat): (r: nat)
    ensures r < 0x1_0000
  {
    Slot(n, 0x1_0000)
  }

  lemma WrapIsMod(n: nat)
    ensures Wrap(n) == n % 0x1_0000
  {
    SlotIsMod(n, 0x1_0000);
  }

  /**
   Counts since the queue was created, and the requests in flight: `pending` are
   published but not taken by the device, `held` are being processed by it, and
   `done` are completed but not popped.
   */
  datatype Traffic = Traffic(adds: nat, taken: nat, completed: nat, popped: nat,
                             pending: seq<nat>, held: set<nat>, done: seq<UsedElem>)

  function DoneIds(done: seq<UsedElem>): (r: seq<nat>)
    ensures |r| == |done|
  {
    seq(|done|, j requires 0 <= j < |done| => done[j].id)
  }

  /** Each outstanding head is pending, held or done, and exactly once. */
  ghost predicate Flight(heads: set<nat>, t: Traffic)
  {
    multiset(t.pending) + multiset(t.held) + multiset(DoneIds(t.done)) == multiset(heads)
  }

  /** The rings in shared memory and the driver's own two indices. */
  datatype Rings = Rings(size: nat, avail: seq<nat>, availIdx: nat, availIdxShared: nat,
                         used: seq<UsedElem>, usedIdx: nat, lastUsedIdx: nat)

  ghost predicate RingInv(r: Rings, heads: set<nat>, t: Traffic)
  {
    && 0 < r.size == |r.avail| == |r.used|
    && t.adds == t.taken + |t.pending| && t.completed == t.popped + |t.done|
    && r.availIdx == r.availIdxShared == Wrap(t.adds)
    && r.usedIdx == Wrap(t.completed) && r.lastUsedIdx == Wrap(t.popped)
    && Window(r.avail, t.taken, t.pending)
    && Window(r.used, t.popped, t.done)
    && Flight(heads, t)
    && |heads| <= r.size
  }

  /** The slot of the count `n` in a ring of `size` entries. */
  function Slot(n: nat, size: nat): (s: nat)
    requires size > 0
    ensures s < size
  {
    if n < size then n else Slot(n - size, size)
  }

  lemma {:induction false} SlotIsMod(n: nat, size: nat)
    requires size > 0
    ensures Slot(n, size) == n % size
    decreases n
  {
    if n < size {
      ModUnique(n, size, 0, n);
    } else {
      SlotIsMod(n - size, size);
      var m := n - size;
      assert n == (m / size + 1) * size + m % size by {
        assert m == (m / size) * size + m % size;
      }
      ModUnique(n, size, m / size + 1, m % size);
    }
  }

  /** The ring holds `items` in consecutive slots from the count `base` on. */
  ghost predicate Window<T>(ring: seq<T>, base: nat, items: seq<T>)
    requires |ring| > 0
    decreases |items|
  {
    |items| == 0 || (ring[Slot(base, |ring|)] == items[0] && Window(ring, base + 1, items[1..]))
  }

  /** `slot` holds none of the `n` entries from the count `base` on. */
  ghost predicate Vacant(slot: nat, size: nat, base: nat, n: nat)
    requires size > 0
    decreases n
  {
    n == 0 || (Slot(base, size) != slot && Vacant(slot, size, base + 1, n - 1))
  }

  lemma {:induction false} VacantBefore(size: nat, base: nat, n: nat, m: nat)
    requires n <= m < size
    ensures Vacant(Slot(base + m, size), size, base, n)
    decreases n
  {
    if n > 0 {
      DistinctSlots(base, base + m, size);
      VacantBefore(size, base + 1, n - 1, m - 1);
    }
  }

  /** Writing the next slot extends the window. */
  lemma {:induction false} WindowPush<T>(ring: seq<T>, base: nat, items: seq<T>, x: T)
    requires |items| < |ring| && Window(ring, base, items)
    ensures Window(ring[Slot(base + |items|, |ring|) := x], base, items + [x])
    decreases |items|
  {
    var ring' := ring[Slot(base + |items|, |ring|) := x];
    if |items| == 0 {
      assert Window(ring', base + 1, [x][1..]);
    } else {
      WindowPush(ring, base + 1, items[1..], x);
      assert base + 1 + |items[1..]| == base + |items|;
      DistinctSlots(base, base + |items|, |ring|);
      assert (items + [x])[1..] == items[1..] + [x];
    }
  }

  // ---- sizes ----

  lemma FlightSize(heads: set<nat>, t: Traffic)
    requires Flight(heads, t)
    ensures |t.pending| + |t.held| + |t.done| == |heads|
  {
    assert |multiset(t.pending) + multiset(t.held) + multiset(DoneIds(t.done))|
        == |multiset(t.pending)| + |multiset(t.held)| + |multiset(DoneIds(t.done))|;
  }

  // ---- the wrapping arithmetic is exact ----

  predicate QueueSize(size: nat)
  {
    exists k :: 0 <= k <= 15 && size == Pow2(k)
  }

  lemma ModMod(x: nat, m: nat, q: nat)
    requires m > 0 && q > 0
    ensures m * q > 0 && (x % (m * q)) % m == x % m
  {
    var w := m * q;
    assert w > 0;
    var a, r := x / w, x % w;
    assert x == a * w + r;
    assert r == (r / m) * m + r % m;
    assert a * w == (a * q) * m;
    assert x == (a * q + r / m) * m + r % m by {
      assert (a * q + r / m) * m == (a * q) * m + (r / m) * m;
    }
    ModUnique(x, m, a * q + r / m, r % m);
  }

  /** The masked 16-bit index names the slot of the unbounded count. */
  lemma SlotExact(count: nat, size: nat)
    requires QueueSize(size)
    ensures 0 < size <= 0x8000
    ensures And(Wrap(count), size - 1) == Slot(count, size)
  {
    var k :| 0 <= k <= 15 && size == Pow2(k);
    Pow2Monotone(k, 15);
    assert Pow2(15) == 32768 by { assert Pow2(4) == 16; assert Pow2(8) == 256; assert Pow2(12) == 4096; }
    WrapIsMod(count);
    MaskIsMod(Wrap(count), k);
    Pow2Product(k, 16 - k);
    assert Pow2(16) == 2 * Pow2(15);
    ModMod(count, size, Pow2(16 - k));
    SlotIsMod(count, size);
  }

  lemma NotCongruent(a: nat, b: nat, m: nat)
    requires a < b < a + m
    ensures a % m != b % m
  {
    var d := b / m - a / m;
    assert d * m == (b / m) * m - (a / m) * m;
    assert b - a == d * m + (b % m - a % m);
    if a % m == b % m {
      OnlyZeroMultiple(d, m);
    }
  }

  lemma DistinctSlots(a: nat, b: nat, size: nat)
    requires a < b < a + size
    ensures Slot(a, size) != Slot(b, size)
  {
    SlotIsMod(a, size);
    SlotIsMod(b, size);
    NotCongruent(a, b, size);
  }

  lemma DistinctCounts(a: nat, b: nat)
    requires a <= b < a + 0x1_0000
    ensures Wrap(a) == Wrap(b) <==> a == b
  {
    if a < b { DistinctSlots(a, b, 0x1_0000); }
  }

  // ---- the steps ----

  /** The driver publishes a head (`add`). */
  function Publish(r: Rings, slot: nat, head: nat): Rings
    requires slot < |r.avail|
  {
    var idx := Wrap(r.availIdx + 1);
    r.(avail := r.avail[slot := head], availIdx := idx, availIdxShared := idx)
  }

  function Published(t: Traffic, head: nat): Traffic { t.(adds := t.adds + 1, pending := t.pending + [head]) }

  /** The device takes the oldest pending head; only its private index moves. */
  function Taken(t: Traffic): Traffic
    requires |t.pending| > 0
  {
    t.(taken := t.taken + 1, pending := t.pending[1..], held := t.held + {t.pending[0]})
  }

  /** The device completes a request it holds: writes the used slot, then moves the used index. */
  function Complete(r: Rings, slot: nat, e: UsedElem): Rings
    requires slot < |r.used|
  {
    r.(used := r.used[slot := e], usedIdx := Wrap(r.usedIdx + 1))
  }

  function Completed(t: Traffic, e: UsedElem): Traffic
  {
    t.(completed := t.completed + 1, held := t.held - {e.id}, done := t.done + [e])
  }

  /** The driver pops the oldest completion (`pop_used`). */
  function Popped(t: Traffic): Traffic
    requires |t.done| > 0
  {
    t.(popped := t.popped + 1, done := t.done[1..])
  }

  /** Publishing never overwrites an entry the device has not taken, and keeps the rings exact. */
  lemma PublishExact(r: Rings, heads: set<nat>, t: Traffic, slot: nat, head: nat)
    requires RingInv(r, heads, t)
    requires head !in heads && |heads| < r.size && slot == Slot(t.adds, r.size)
    ensures Vacant(slot, r.size, t.taken, |t.pending|)
    ensures RingInv(Publish(r, slot, head), heads + {head}, Published(t, head))
  {
    FlightSize(heads, t);
    VacantBefore(r.size, t.taken, |t.pending|, |t.pending|);
    WindowPush(r.avail, t.taken, t.pending, head);
    PublishFlight(heads, t, head);
    WrapSuccessor(t.adds);
  }

  lemma WrapSuccessor(n: nat)
    ensures Wrap(Wrap(n) + 1) == Wrap(n + 1)
  {
    WrapIsMod(n);
    WrapIsMod(n % 0x1_0000 + 1);
    WrapIsMod(n + 1);
  }

  lemma PublishFlight(heads: set<nat>, t: Traffic, head: nat)
    requires Flight(heads, t) && head !in heads
    ensures Flight(heads + {head}, Published(t, head))
  {
    assert multiset(t.pending + [head]) == multiset(t.pending) + multiset{head};
    assert multiset(heads + {head}) == multiset(heads) + multiset{head};
  }

  /** The device finds the oldest pending head in the slot of its own count. */
  lemma TakeExact(r: Rings, heads: set<nat>, t: Traffic)
    requires RingInv(r, heads, t) && |t.pending| > 0
    ensures r.avail[Slot(t.taken, r.size)] == t.pending[0]
    ensures RingInv(r, heads, Taken(t))
  {
    TakeFlight(heads, t);
  }

  lemma PendingIsHead(heads: set<nat>, t: Traffic)
    requires Flight(heads, t) && |t.pending| > 0
    ensures t.pending[0] in heads
  {
    assert t.pending[0] in multiset(t.pending);
    assert t.pending[0] in multiset(heads);
  }

  lemma OnceInFlight(heads: set<nat>, t: Traffic, h: nat)
    requires Flight(heads, t) && h in t.pending
    ensures h !in t.held
  {
    var all := multiset(t.pending) + multiset(t.held) + multiset(DoneIds(t.done));
    assert all[h] == multiset(t.pending)[h] + multiset(t.held)[h] + multiset(DoneIds(t.done))[h];
    assert multiset(heads)[h] <= 1;
    assert h in multiset(t.pending);
  }

  lemma TakeFlight(heads: set<nat>, t: Traffic)
    requires Flight(heads, t) && |t.pending| > 0
    ensures Flight(heads, Taken(t))
  {
    var h := t.pending[0];
    assert t.pending == [h] + t.pending[1..];
    assert h !in t.held by { OnceInFlight(heads, t, h); }
    assert multiset(t.held + {h}) == multiset(t.held) + multiset{h};
  }

  /** Completing never overwrites an entry the driver has not popped, and keeps the rings exact. */
  lemma CompleteExact(r: Rings, heads: set<nat>, t: Traffic, slot: nat, e: UsedElem)
    requires RingInv(r, heads, t) && e.id in t.held && slot == Slot(t.completed, r.size)
    ensures Vacant(slot, r.size, t.popped, |t.done|)
    ensures RingInv(Complete(r, slot, e), heads, Completed(t, e))
  {
    FlightSize(heads, t);
    HeldLeavesRoom(t, e.id);
    VacantBefore(r.size, t.popped, |t.done|, |t.done|);
    WindowPush(r.used, t.popped, t.done, e);
    CompleteFlight(heads, t, e);
    WrapSuccessor(t.completed);
  }

  lemma HeldLeavesRoom(t: Traffic, id: nat)
    requires id in t.held
    ensures |t.held| >= 1
  {
    assert t.held == (t.held - {id}) + {id};
  }

  lemma CompleteFlight(heads: set<nat>, t: Traffic, e: UsedElem)
    requires Flight(heads, t) && e.id in t.held
    ensures Flight(heads, Completed(t, e))
  {
    assert DoneIds(t.done + [e]) == DoneIds(t.done) + [e.id];
    assert multiset(t.held) == multiset(t.held - {e.id}) + multiset{e.id};
  }

  /** `can_pop` is exact: the 16-bit indices differ just when a completion is waiting. */
  lemma CanPopExact(r: Rings, heads: set<nat>, t: Traffic)
    requires RingInv(r, heads, t) && r.size < 0x1_0000
    ensures r.lastUsedIdx != r.usedIdx <==> t.completed > t.popped
  {
    FlightSize(heads, t);
    DistinctCounts(t.popped, t.completed);
  }

  /** The oldest completion is in the slot of the popped count, and popping it keeps the rings exact. */
  lemma PopExact(r: Rings, heads: set<nat>, t: Traffic)
    requires RingInv(r, heads, t) && |t.done| > 0
    ensures r.used[Slot(t.popped, r.size)] == t.done[0]
    ensures t.done[0].id in heads
    ensures RingInv(r.(lastUsedIdx := Wrap(r.lastUsedIdx + 1)), heads - {t.done[0].id}, Popped(t))
  {
    PopFlight(heads, t);
    WrapSuccessor(t.popped);
  }

  lemma PopFlight(heads: set<nat>, t: Traffic)
    requires Flight(heads, t) && |t.done| > 0
    ensures t.done[0].id in heads
    ensures Flight(heads - {t.done[0].id}, Popped(t))
    ensures |heads - {t.done[0].id}| < |heads|
  {
    var id, rest := t.done[0].id, DoneIds(t.done[1..]);
    assert DoneIds(t.done) == [id] + rest;
    assert multiset([id] + rest) == multiset{id} + multiset(rest);
    assert id in multiset(heads);
    assert multiset(heads) == multiset(heads - {id}) + multiset{id};
    assert multiset(t.pending) + multiset(t.held) + multiset(rest) == multiset(heads) - multiset{id};
  }
}
