/** Sets of CPU indices as 16 words of 64 bits, and the iterators over them. */
module CpuSet {
  import opened Bits
  import opened Collections

  ghost predicate Words(mask: seq<nat>)
  {
    |mask| == 16 && forall w :: 0 <= w < 16 ==> mask[w] < 0x1_0000_0000_0000_0000
  }

  ghost predicate HasBit(mask: seq<nat>, i: nat, seal: Seal)
  {
    i / 64 < |mask| && Bit(mask[i / 64], i % 64)
  }

  /** Bit `i & 0x3F` of word `i >> 6` is set. */
  ghost predicate Has(mask: seq<nat>, i: nat)
  {
    forall seal: Seal :: HasBit(mask, i, seal)
  }

  /** The set the words stand for. */
  ghost function Contents(mask: seq<nat>): set<nat>
  {
    set i: nat | i < 1024 && Has(mask, i)
  }

  lemma ContentsAt(mask: seq<nat>, i: nat)
    requires |mask| == 16
    ensures i in Contents(mask) <==> i < 1024 && Bit(mask[i / 64], i % 64)
  {
    assert Has(mask, i) <==> HasBit(mask, i, Seal);
  }

  lemma SetBitKeepsWord(word: nat, b: nat)
    requires word < 0x1_0000_0000_0000_0000 && b < 64
    ensures Or(word, Pow2(b)) < 0x1_0000_0000_0000_0000
  {
    WordSizes();
    Pow2Monotone(b, 64);
    OrBound(word, Pow2(b), 64);
  }

  /** `bitmask[i >> 6] |= 1 << (i & 0x3F)` adds `i` and nothing else. */
  lemma SetBitAdds(mask: seq<nat>, i: nat, mask': seq<nat>)
    requires Words(mask) && i < 1024
    requires mask' == mask[i / 64 := Or(mask[i / 64], Pow2(i % 64))]
    ensures Words(mask')
    ensures Contents(mask') == Contents(mask) + {i}
  {
    SetBitKeepsWord(mask[i / 64], i % 64);
    forall j: nat ensures j in Contents(mask') <==> j in Contents(mask) || j == i {
      ContentsAt(mask, j);
      ContentsAt(mask', j);
      SetBitAt(mask[i / 64], i % 64, j % 64);
    }
  }

  /** `bitmask[i >> 6] &= !(1 << (i & 0x3F))` removes `i` and nothing else. */
  lemma ClearBitRemoves(mask: seq<nat>, i: nat, mask': seq<nat>)
    requires Words(mask) && i < 1024
    requires mask' == mask[i / 64 := AndNot(mask[i / 64], Pow2(i % 64))]
    ensures Words(mask')
    ensures Contents(mask') == Contents(mask) - {i}
  {
    AndNotBound(mask[i / 64], Pow2(i % 64));
    forall j: nat ensures j in Contents(mask') <==> j in Contents(mask) && j != i {
      ContentsAt(mask, j);
      ContentsAt(mask', j);
      ClearBitAt(mask[i / 64], i % 64, j % 64);
    }
  }

  /** `(word << 6) | bit` is the index of bit `bit` of word `word`. */
  lemma IndexOfBit(word: nat, bit: nat)
    requires bit < 64
    ensures Or(64 * word, bit) == 64 * word + bit
    ensures (64 * word + bit) / 64 == word && (64 * word + bit) % 64 == bit
  {
    assert Pow2(6) == 64 by { assert Pow2(3) == 8; }
    AlignedAndLow(64 * word, bit, 6);
    OrIsAdd(64 * word, bit);
  }

  class CpuSet {
    const bitmask: array<nat>

    ghost predicate Valid()
      reads this, bitmask
    {
      Words(bitmask[..])
    }

    ghost function Cpus(): set<nat>
      reads this, bitmask
    {
      Contents(bitmask[..])
    }

    constructor ()
      ensures Valid() && Cpus() == {} && fresh(bitmask)
    {
      bitmask := new nat[16](_ => 0);
      new;
      forall i: nat ensures i !in Contents(bitmask[..]) {
        ContentsAt(bitmask[..], i);
        BitOfZero(i % 64);
      }
      assert Cpus() == {};
    }

    method Add(cpuIndex: nat)
      requires Valid() && cpuIndex < 1024
      modifies bitmask
      ensures Valid() && Cpus() == old(Cpus()) + {cpuIndex}
    {
      bitmask[cpuIndex / 64] := Or(bitmask[cpuIndex / 64], Pow2(cpuIndex % 64));
      SetBitAdds(old(bitmask[..]), cpuIndex, bitmask[..]);
    }

    method Remove(cpuIndex: nat)
      requires Valid() && cpuIndex < 1024
      modifies bitmask
      ensures Valid() && Cpus() == old(Cpus()) - {cpuIndex}
    {
      bitmask[cpuIndex / 64] := AndNot(bitmask[cpuIndex / 64], Pow2(cpuIndex % 64));
      ClearBitRemoves(old(bitmask[..]), cpuIndex, bitmask[..]);
    }
  }

  ghost predicate Least(i: nat, s: set<nat>)
  {
    i in s && forall j :: j in s ==> i <= j
  }

  ghost predicate ZeroBelow(mask: seq<nat>, w: nat)
  {
    w <= |mask| && forall k :: 0 <= k < w ==> mask[k] == 0
  }

  lemma WordLowest(word: nat)
    requires 0 < word < 0x1_0000_0000_0000_0000
    ensures LowestBit(word) < 64 && Bit(word, LowestBit(word))
    ensures forall k: nat :: Bit(word, k) ==> LowestBit(word) <= k
  {
    WordSizes();
    LowestBitIsLowest(word, 64);
  }

  /** The lowest bit of the first non-zero word is the least member. */
  lemma FirstBitIsLeast(mask: seq<nat>, w: nat)
    requires Words(mask) && w < 16 && ZeroBelow(mask, w) && mask[w] != 0
    ensures LowestBit(mask[w]) < 64
    ensures Least(64 * w + LowestBit(mask[w]), Contents(mask))
  {
    var b := LowestBit(mask[w]);
    WordLowest(mask[w]);
    IndexOfBit(w, b);
    ContentsAt(mask, 64 * w + b);
    forall j | j in Contents(mask) ensures 64 * w + b <= j {
      ContentsAt(mask, j);
      BitOfZero(j % 64);
    }
  }

  lemma ZeroWordsAreEmpty(mask: seq<nat>)
    requires Words(mask) && ZeroBelow(mask, 16)
    ensures Contents(mask) == {}
  {
    forall j: nat ensures j !in Contents(mask) {
      ContentsAt(mask, j);
      BitOfZero(j % 64);
    }
  }

  /** The words from `from` on; those below are read as zero. */
  ghost function From(mask: seq<nat>, from: nat): (r: seq<nat>)
    requires from <= |mask|
    ensures |r| == |mask|
  {
    seq(|mask|, k requires 0 <= k < |mask| => if k < from then 0 else mask[k])
  }

  lemma FromWords(mask: seq<nat>, from: nat)
    requires Words(mask) && from <= 16
    ensures Words(From(mask, from)) && ZeroBelow(From(mask, from), from)
  {
  }

  /** An iterator over a set that does not change while it is iterated over. */
  class CpuSetIterator {
    const cpuSet: CpuSet
    var currentMask: nat
    var maskIndex: nat

    /** The words still to be visited. */
    ghost function Left(): (r: seq<nat>)
      reads this, cpuSet, cpuSet.bitmask
      requires maskIndex < cpuSet.bitmask.Length
    {
      From(cpuSet.bitmask[..], maskIndex)[maskIndex := currentMask]
    }

    ghost predicate Valid()
      reads this, cpuSet, cpuSet.bitmask
    {
      && cpuSet.Valid()
      && maskIndex < 16
      && Words(Left())
    }

    /** The members not yet yielded. */
    ghost function Pending(): set<nat>
      reads this, cpuSet, cpuSet.bitmask
      requires maskIndex < cpuSet.bitmask.Length
    {
      Contents(Left())
    }

    constructor (cpuSet: CpuSet)
      requires cpuSet.Valid()
      ensures this.cpuSet == cpuSet
      ensures Valid() && Pending() == cpuSet.Cpus()
    {
      this.cpuSet := cpuSet;
      currentMask := cpuSet.bitmask[0];
      maskIndex := 0;
      new;
      assert Left() == cpuSet.bitmask[..];
    }

    /** Yields the least member not yet yielded; `None` only when there is none. */
    method Next() returns (r: Option<nat>)
      requires Valid()
      modifies this
      ensures r.None? ==> old(Pending()) == {}
      ensures r.Some? ==> Valid() && Least(r.value, old(Pending()))
      ensures r.Some? ==> Pending() == old(Pending()) - {r.value}
    {
      while currentMask == 0
        invariant Valid() && Left() == old(Left())
        decreases 16 - maskIndex
      {
        ghost var left := Left();
        maskIndex := maskIndex + 1;
        if maskIndex == cpuSet.bitmask.Length {
          ZeroWordsAreEmpty(left);
          return None;
        }
        currentMask := cpuSet.bitmask[maskIndex];
        assert Left() == left;
      }
      ghost var left := Left();
      var index := LowestBit(currentMask);
      FirstBitIsLeast(left, maskIndex);
      IndexOfBit(maskIndex, index);
      currentMask := AndNot(currentMask, Pow2(index));
      r := Some(Or(64 * maskIndex, index));
      assert Left() == left[maskIndex := currentMask];
      ClearBitRemoves(left, r.value, Left());
    }
  }

  /** An iterator that removes each member from the set as it yields it. */
  class AtomicCpuSetIterator {
    const cpuSet: CpuSet
    var maskIndex: nat

    ghost predicate Valid()
      reads this, cpuSet, cpuSet.bitmask
    {
      cpuSet.Valid() && maskIndex <= 16
    }

    /** The members in the words the iterator has not left behind. */
    ghost function Ahead(): set<nat>
      reads this, cpuSet, cpuSet.bitmask
      requires Valid()
    {
      Contents(From(cpuSet.bitmask[..], maskIndex))
    }

    constructor (cpuSet: CpuSet)
      requires cpuSet.Valid()
      ensures this.cpuSet == cpuSet
      ensures Valid() && Ahead() == cpuSet.Cpus()
    {
      this.cpuSet := cpuSet;
      maskIndex := 0;
      new;
      assert From(cpuSet.bitmask[..], 0) == cpuSet.bitmask[..];
    }

    /** Takes the least member ahead out of the set, and no other; `None` only when none is ahead. */
    method Next() returns (r: Option<nat>)
      requires Valid()
      modifies this, cpuSet.bitmask
      ensures Valid()
      ensures r.None? ==> old(Ahead()) == {} && Ahead() == {} && cpuSet.Cpus() == old(cpuSet.Cpus())
      ensures r.Some? ==> Least(r.value, old(Ahead())) && Ahead() == old(Ahead()) - {r.value}
      ensures r.Some? ==> cpuSet.Cpus() == old(cpuSet.Cpus()) - {r.value}
    {
      ghost var words := cpuSet.bitmask[..];
      ghost var ahead := From(words, maskIndex);
      FromWords(words, maskIndex);
      while maskIndex < cpuSet.bitmask.Length
        invariant maskIndex <= 16 && cpuSet.bitmask[..] == words
        invariant From(words, maskIndex) == ahead && ZeroBelow(ahead, maskIndex)
      {
        var mask := cpuSet.bitmask[maskIndex];
        if mask != 0 {
          var index := LowestBit(mask);
          FirstBitIsLeast(ahead, maskIndex);
          IndexOfBit(maskIndex, index);
          cpuSet.bitmask[maskIndex] := AndNot(mask, Pow2(index));
          r := Some(Or(64 * maskIndex, index));
          ClearBitRemoves(words, r.value, cpuSet.bitmask[..]);
          assert From(cpuSet.bitmask[..], maskIndex) == ahead[maskIndex := cpuSet.bitmask[maskIndex]];
          ClearBitRemoves(ahead, r.value, From(cpuSet.bitmask[..], maskIndex));
          return;
        }
        maskIndex := maskIndex + 1;
        assert From(words, maskIndex) == ahead;
      }
      ZeroWordsAreEmpty(ahead);
      r := None;
    }
  }

  ghost predicate Ascending(s: seq<nat>)
  {
    forall i, j :: 0 <= i < j < |s| ==> s[i] < s[j]
  }

  ghost predicate Before(s: seq<nat>, rest: set<nat>)
  {
    forall i, j :: 0 <= i < |s| && j in rest ==> s[i] < j
  }

  lemma VisitLeast(visited: seq<nat>, cpu: nat, rest: set<nat>)
    requires Ascending(visited) && Before(visited, rest) && Least(cpu, rest)
    ensures Ascending(visited + [cpu]) && Before(visited + [cpu], rest - {cpu})
    ensures Members(visited + [cpu]) + (rest - {cpu}) == Members(visited) + rest
  {
  }

  /** A `for` loop over `iter()`: every member once, in ascending order. */
  method Visit(cpuSet: CpuSet) returns (visited: seq<nat>)
    requires cpuSet.Valid()
    ensures Ascending(visited) && Members(visited) == cpuSet.Cpus()
  {
    var iter := new CpuSetIterator(cpuSet);
    visited := [];
    while true
      invariant iter.cpuSet == cpuSet && cpuSet.Valid() && iter.Valid() && fresh(iter)
      invariant Ascending(visited)
      invariant Members(visited) + iter.Pending() == cpuSet.Cpus()
      invariant Before(visited, iter.Pending())
      decreases |iter.Pending()|
    {
      ghost var rest := iter.Pending();
      var next := iter.Next();
      match next {
        case None => return;
        case Some(cpu) =>
          VisitLeast(visited, cpu, rest);
          visited := visited + [cpu];
      }
    }
  }

  /** A `for` loop over the consuming `iter()`: every member once, and the set is left empty. */
  method Drain(cpuSet: CpuSet) returns (visited: seq<nat>)
    requires cpuSet.Valid()
    modifies cpuSet.bitmask
    ensures cpuSet.Valid() && cpuSet.Cpus() == {}
    ensures Ascending(visited) && Members(visited) == old(cpuSet.Cpus())
  {
    var iter := new AtomicCpuSetIterator(cpuSet);
    visited := [];
    while true
      invariant iter.cpuSet == cpuSet && iter.Valid() && fresh(iter)
      invariant Ascending(visited) && iter.Ahead() == cpuSet.Cpus()
      invariant Members(visited) + iter.Ahead() == old(cpuSet.Cpus())
      invariant Before(visited, iter.Ahead())
      decreases |iter.Ahead()|
    {
      ghost var rest := iter.Ahead();
      var next := iter.Next();
      match next {
        case None => return;
        case Some(cpu) =>
          VisitLeast(visited, cpu, rest);
          visited := visited + [cpu];
      }
    }
  }
}
