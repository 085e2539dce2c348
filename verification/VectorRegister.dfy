/** The APIC's 256-bit vector registers: eight words of 32 bits. */
module VectorRegister {
  import opened Bits
  import opened Collections

  ghost predicate IsRegister(words: seq<nat>)
  {
    |words| == 8 && forall w :: 0 <= w < 8 ==> words[w] < 0x1_0000_0000
  }

  ghost predicate HasBit(words: seq<nat>, v: nat, seal: Seal)
  {
    v / 32 < |words| && Bit(words[v / 32], v % 32)
  }

  /** Bit `v & 31` of word `v >> 5` is set. */
  ghost predicate Has(words: seq<nat>, v: nat)
  {
    forall seal: Seal :: HasBit(words, v, seal)
  }

  /** The vectors a register holds. */
  ghost function VectorsOf(words: seq<nat>): (r: set<nat>)
    ensures forall v :: v in r ==> v < 256
  {
    set v: nat | v < 256 && Has(words, v)
  }

  lemma VectorsAt(words: seq<nat>, v: nat)
    requires |words| == 8
    ensures v in VectorsOf(words) <==> v < 256 && Bit(words[v / 32], v % 32)
  {
    assert Has(words, v) <==> HasBit(words, v, Seal);
  }

  lemma NoVectors(words: seq<nat>)
    requires |words| == 8 && forall w :: 0 <= w < 8 ==> words[w] == 0
    ensures VectorsOf(words) == {}
  {
    forall v: nat ensures v !in VectorsOf(words) {
      VectorsAt(words, v);
      BitOfZero(v % 32);
    }
  }

  lemma WordOr(a: nat, b: nat)
    requires a < 0x1_0000_0000 && b < 0x1_0000_0000
    ensures Or(a, b) < 0x1_0000_0000
  {
    WordSizes();
    OrBound(a, b, 32);
  }

  lemma WordBit(b: nat)
    requires b < 32
    ensures Pow2(b) < 0x1_0000_0000
  {
    WordSizes();
    Pow2Monotone(b, 32);
  }

  lemma InsertAdds(words: seq<nat>, v: nat, words': seq<nat>)
    requires IsRegister(words) && v < 256
    requires words' == words[v / 32 := Or(words[v / 32], Pow2(v % 32))]
    ensures IsRegister(words')
    ensures VectorsOf(words') == VectorsOf(words) + {v}
  {
    WordBit(v % 32);
    WordOr(words[v / 32], Pow2(v % 32));
    forall u: nat ensures u in VectorsOf(words') <==> u in VectorsOf(words) || u == v {
      VectorsAt(words, u);
      VectorsAt(words', u);
      SetBitAt(words[v / 32], v % 32, u % 32);
    }
  }

  lemma RemoveRemoves(words: seq<nat>, v: nat, words': seq<nat>)
    requires IsRegister(words) && v < 256
    requires words' == words[v / 32 := AndNot(words[v / 32], Pow2(v % 32))]
    ensures IsRegister(words')
    ensures VectorsOf(words') == VectorsOf(words) - {v}
  {
    AndNotBound(words[v / 32], Pow2(v % 32));
    forall u: nat ensures u in VectorsOf(words') <==> u in VectorsOf(words) && u != v {
      VectorsAt(words, u);
      VectorsAt(words', u);
      ClearBitAt(words[v / 32], v % 32, u % 32);
    }
  }

  /** The vectors that the bits of one word stand for. */
  ghost function GroupVectors(group: nat, bits: nat): set<nat>
  {
    set v: nat | v < 32 * group + 32 && InGroupBits(group, bits, v)
  }

  ghost predicate InGroupBits(group: nat, bits: nat, v: nat)
  {
    forall seal: Seal :: BitOfGroup(group, bits, v, seal)
  }

  ghost predicate BitOfGroup(group: nat, bits: nat, v: nat, seal: Seal)
  {
    32 * group <= v && Bit(bits, v - 32 * group)
  }

  lemma GroupAt(group: nat, bits: nat, v: nat)
    ensures v in GroupVectors(group, bits) <==> 32 * group <= v < 32 * group + 32 && Bit(bits, v - 32 * group)
  {
    assert InGroupBits(group, bits, v) <==> BitOfGroup(group, bits, v, Seal);
  }

  lemma WordHolds(words: seq<nat>, group: nat)
    requires IsRegister(words) && group < 8
    ensures GroupVectors(group, words[group]) ==
      set v | v in VectorsOf(words) && v / 32 == group
  {
    forall v: nat ensures v in GroupVectors(group, words[group]) <==> v in VectorsOf(words) && v / 32 == group {
      GroupAt(group, words[group], v);
      VectorsAt(words, v);
    }
  }

  method InsertVectorRegister(register: array<nat>, irq: nat)
    requires IsRegister(register[..]) && irq < 256
    modifies register
    ensures IsRegister(register[..])
    ensures VectorsOf(register[..]) == old(VectorsOf(register[..])) + {irq}
  {
    register[irq / 32] := Or(register[irq / 32], Pow2(irq % 32));
    InsertAdds(old(register[..]), irq, register[..]);
  }

  method RemoveVectorRegister(register: array<nat>, irq: nat)
    requires IsRegister(register[..]) && irq < 256
    modifies register
    ensures IsRegister(register[..])
    ensures VectorsOf(register[..]) == old(VectorsOf(register[..])) - {irq}
  {
    register[irq / 32] := AndNot(register[irq / 32], Pow2(irq % 32));
    RemoveRemoves(old(register[..]), irq, register[..]);
  }

  method TestVectorRegister(register: array<nat>, irq: nat) returns (r: bool)
    requires IsRegister(register[..]) && irq < 256
    ensures r <==> irq in VectorsOf(register[..])
  {
    VectorsAt(register[..], irq);
    TestBit(register[irq / 32], irq % 32);
    r := And(register[irq / 32], Pow2(irq % 32)) != 0;
  }

  ghost predicate ZeroFrom(words: seq<nat>, i: nat)
  {
    forall w :: i <= w < |words| ==> words[w] == 0
  }

  lemma WordHighest(word: nat)
    requires 0 < word < 0x1_0000_0000
    ensures HighestBit(word) < 32 && Bit(word, HighestBit(word))
    ensures forall k: nat :: Bit(word, k) ==> k <= HighestBit(word)
  {
    WordSizes();
    HighestBitIsHighest(word, 32);
  }

  /** The highest bit of the last non-zero word is the highest vector. */
  lemma LastBitIsHighest(words: seq<nat>, i: nat)
    requires IsRegister(words) && i < 8 && words[i] != 0 && ZeroFrom(words, i + 1)
    ensures HighestBit(words[i]) < 32
    ensures 32 * i + HighestBit(words[i]) in VectorsOf(words)
    ensures forall v :: v in VectorsOf(words) ==> v <= 32 * i + HighestBit(words[i])
  {
    var b := HighestBit(words[i]);
    WordHighest(words[i]);
    VectorsAt(words, 32 * i + b);
    forall v | v in VectorsOf(words) ensures v <= 32 * i + b {
      VectorsAt(words, v);
      BitOfZero(v % 32);
    }
  }
}
