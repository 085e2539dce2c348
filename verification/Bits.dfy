/**
 Machine words as natural numbers: single bits, the bitwise operators and the
 bit scans, with the lemmas that say what each does bit by bit and what the
 power-of-two masks compute.
 */
module Bits {

  function Pow2(k: nat): (p: nat)
    ensures p >= 1
  {
    if k == 0 then 1 else 2 * Pow2(k - 1)
  }

  /** Bit `k` of `w`. */
  predicate Bit(w: nat, k: nat)
    decreases k
  {
    if k == 0 then w % 2 == 1 else Bit(w / 2, k - 1)
  }

  function BoolBit(b: bool): nat { if b then 1 else 0 }

  /** `a & b` */
  function And(a: nat, b: nat): nat
    decreases a
  {
    if a == 0 then 0 else BoolBit(a % 2 == 1 && b % 2 == 1) + 2 * And(a / 2, b / 2)
  }

  /** `a | b` */
  function Or(a: nat, b: nat): nat
    decreases a + b
  {
    if a == 0 && b == 0 then 0 else BoolBit(a % 2 == 1 || b % 2 == 1) + 2 * Or(a / 2, b / 2)
  }

  /** `a & !b`; the width of the complement does not matter below the width of `a`. */
  function AndNot(a: nat, b: nat): nat
    decreases a
  {
    if a == 0 then 0 else BoolBit(a % 2 == 1 && b % 2 == 0) + 2 * AndNot(a / 2, b / 2)
  }

  /** The index of the highest set bit: `31 - leading_zeros` of a 32-bit word. */
  function HighestBit(w: nat): nat
    requires w != 0
  {
    if w == 1 then 0 else 1 + HighestBit(w / 2)
  }

  /** The index of the lowest set bit: `trailing_zeros`. */
  function LowestBit(w: nat): nat
    requires w != 0
  {
    if w % 2 == 1 then 0 else 1 + LowestBit(w / 2)
  }

  lemma {:induction false} BitOfZero(k: nat)
    ensures !Bit(0, k)
    decreases k
  {
    if k != 0 { BitOfZero(k - 1); }
  }

  lemma {:induction false} BitAnd(a: nat, b: nat, k: nat)
    ensures Bit(And(a, b), k) <==> Bit(a, k) && Bit(b, k)
    decreases k
  {
    if a == 0 {
      BitOfZero(k);
    } else if k != 0 {
      BitAnd(a / 2, b / 2, k - 1);
    }
  }

  lemma {:induction false} BitOr(a: nat, b: nat, k: nat)
    ensures Bit(Or(a, b), k) <==> Bit(a, k) || Bit(b, k)
    decreases k
  {
    if a == 0 && b == 0 {
      BitOfZero(k);
    } else if k != 0 {
      BitOr(a / 2, b / 2, k - 1);
    }
  }

  lemma {:induction false} BitAndNot(a: nat, b: nat, k: nat)
    ensures Bit(AndNot(a, b), k) <==> Bit(a, k) && !Bit(b, k)
    decreases k
  {
    if a == 0 {
      BitOfZero(k);
    } else if k != 0 {
      BitAndNot(a / 2, b / 2, k - 1);
    }
  }

  lemma {:induction false} BitPow2(k: nat, j: nat)
    ensures Bit(Pow2(k), j) <==> j == k
    decreases k
  {
    if k == 0 {
      if j != 0 { BitOfZero(j - 1); }
    } else if j != 0 {
      BitPow2(k - 1, j - 1);
    }
  }

  lemma {:induction false} BitHigh(w: nat, n: nat, k: nat)
    requires w < Pow2(n) && n <= k
    ensures !Bit(w, k)
    decreases n
  {
    if n == 0 {
      BitOfZero(k);
    } else {
      BitHigh(w / 2, n - 1, k - 1);
    }
  }

  lemma {:induction false} HighestBitIsHighest(w: nat, n: nat)
    requires 0 < w < Pow2(n)
    ensures HighestBit(w) < n
    ensures Bit(w, HighestBit(w))
    ensures forall k: nat :: Bit(w, k) ==> k <= HighestBit(w)
    decreases w
  {
    if w == 1 {
      forall k: nat | Bit(w, k) ensures k <= 0 {
        if k != 0 { BitOfZero(k - 1); }
      }
      assert n != 0;
    } else {
      assert n != 0;
      HighestBitIsHighest(w / 2, n - 1);
      forall k: nat | Bit(w, k) ensures k <= HighestBit(w) {
        if k != 0 { assert Bit(w / 2, k - 1); }
      }
    }
  }

  lemma {:induction false} LowestBitIsLowest(w: nat, n: nat)
    requires 0 < w < Pow2(n)
    ensures LowestBit(w) < n
    ensures Bit(w, LowestBit(w))
    ensures forall k: nat :: Bit(w, k) ==> LowestBit(w) <= k
    decreases w
  {
    assert n != 0;
    if w % 2 == 0 {
      LowestBitIsLowest(w / 2, n - 1);
      forall k: nat | Bit(w, k) ensures LowestBit(w) <= k {
        if k != 0 { assert Bit(w / 2, k - 1); }
      }
    }
  }

  lemma {:induction false} OrBound(a: nat, b: nat, n: nat)
    requires a < Pow2(n) && b < Pow2(n)
    ensures Or(a, b) < Pow2(n)
    decreases n
  {
    if n != 0 && (a != 0 || b != 0) { OrBound(a / 2, b / 2, n - 1); }
  }

  lemma {:induction false} AndNotBound(a: nat, b: nat)
    ensures AndNot(a, b) <= a
    decreases a
  {
    if a != 0 { AndNotBound(a / 2, b / 2); }
  }

  lemma {:induction false} Pow2Monotone(j: nat, k: nat)
    requires j <= k
    ensures Pow2(j) <= Pow2(k)
    ensures j < k ==> 2 * Pow2(j) <= Pow2(k)
    decreases k
  {
    if j < k { Pow2Monotone(j, k - 1); }
  }

  /** `x & (2^k - 1)` is the remainder modulo `2^k`. */
  lemma {:induction false} MaskIsMod(x: nat, k: nat)
    ensures And(x, Pow2(k) - 1) == x % Pow2(k)
    decreases k
  {
    if k == 0 {
      AndZero(x);
    } else {
      var p := Pow2(k - 1);
      MaskIsMod(x / 2, k - 1);
      assert Pow2(k) == 2 * p;
      AndStep(x, 2 * p - 1, p - 1);
      HalfMod(x, p);
    }
  }

  lemma AndStep(x: nat, b: nat, h: nat)
    requires b == 2 * h + 1
    ensures And(x, b) == x % 2 + 2 * And(x / 2, h)
  {
    assert b / 2 == h && b % 2 == 1;
    if x == 0 {
      assert And(0, h) == 0;
    }
  }

  lemma {:induction false} AndZero(a: nat)
    ensures And(a, 0) == 0
    decreases a
  {
    if a != 0 { AndZero(a / 2); }
  }

  lemma HalfMod(x: nat, p: nat)
    requires p > 0
    ensures x % (2 * p) == x % 2 + 2 * ((x / 2) % p)
  {
    var h := x / 2;
    var q := h / p;
    assert h == q * p + h % p;
    assert x == q * (2 * p) + (x % 2 + 2 * (h % p)) by {
      assert 2 * h == 2 * (q * p) + 2 * (h % p);
      assert 2 * (q * p) == q * (2 * p);
    }
    ModUnique(x, 2 * p, q, x % 2 + 2 * (h % p));
  }

  lemma ModUnique(x: int, m: int, q: int, r: int)
    requires m > 0 && 0 <= r < m && x == q * m + r
    ensures x % m == r && x / m == q
  {
    var q' := x / m;
    assert x == q' * m + x % m;
    var d := q' - q;
    assert d * m == r - x % m by { assert d * m == q' * m - q * m; }
    OnlyZeroMultiple(d, m);
  }

  lemma OnlyZeroMultiple(d: int, m: int)
    requires m > 0 && -m < d * m < m
    ensures d == 0
  {
  }

  /** `x & !(2^k - 1)` rounds down to a multiple of `2^k`. */
  lemma {:induction false} MaskIsFloor(x: nat, k: nat)
    ensures AndNot(x, Pow2(k) - 1) == x - x % Pow2(k)
    decreases k
  {
    if k == 0 {
      AndNotZero(x);
    } else {
      var p := Pow2(k - 1);
      MaskIsFloor(x / 2, k - 1);
      assert Pow2(k) == 2 * p;
      AndNotStep(x, 2 * p - 1, p - 1);
      HalfMod(x, p);
    }
  }

  lemma AndNotStep(x: nat, b: nat, h: nat)
    requires b == 2 * h + 1
    ensures AndNot(x, b) == 2 * AndNot(x / 2, h)
  {
    assert b / 2 == h && b % 2 == 1;
    if x == 0 {
      assert AndNot(0, h) == 0;
    }
  }

  lemma {:induction false} AndNotZero(a: nat)
    ensures AndNot(a, 0) == a
    decreases a
  {
    if a != 0 { AndNotZero(a / 2); }
  }

  /** Words without a common bit are combined by addition. */
  lemma {:induction false} OrIsAdd(a: nat, b: nat)
    requires And(a, b) == 0
    ensures Or(a, b) == a + b
    decreases a + b
  {
    if a != 0 || b != 0 {
      OrIsAdd(a / 2, b / 2);
    }
  }

  /** A multiple of `2^k` and a value below `2^k` have no common bit. */
  lemma {:induction false} AlignedAndLow(a: nat, b: nat, k: nat)
    requires a % Pow2(k) == 0 && b < Pow2(k)
    ensures And(a, b) == 0
    decreases k
  {
    if a == 0 {
    } else if k == 0 {
      AndZero(a);
    } else {
      HalfMod(a, Pow2(k - 1));
      AlignedAndLow(a / 2, b / 2, k - 1);
    }
  }

  lemma {:induction false} Pow2Product(a: nat, b: nat)
    ensures Pow2(a + b) == Pow2(a) * Pow2(b)
    decreases a
  {
    if a != 0 {
      Pow2Product(a - 1, b);
      assert 2 * (Pow2(a - 1) * Pow2(b)) == 2 * Pow2(a - 1) * Pow2(b);
    }
  }

  lemma WordSizes()
    ensures Pow2(12) == 0x1000 && Pow2(21) == 0x20_0000
    ensures Pow2(32) == 0x1_0000_0000
    ensures Pow2(64) == 0x1_0000_0000_0000_0000
  {
    assert Pow2(8) == 256;
    Pow2Product(8, 4);
    Pow2Product(12, 9);
    assert Pow2(9) == 512;
    Pow2Product(8, 8);
    Pow2Product(16, 16);
    Pow2Product(32, 32);
  }

  lemma SetBitAt(word: nat, b: nat, k: nat)
    ensures Bit(Or(word, Pow2(b)), k) <==> Bit(word, k) || k == b
  {
    BitOr(word, Pow2(b), k);
    BitPow2(b, k);
  }

  lemma ClearBitAt(word: nat, b: nat, k: nat)
    ensures Bit(AndNot(word, Pow2(b)), k) <==> Bit(word, k) && k != b
  {
    BitAndNot(word, Pow2(b), k);
    BitPow2(b, k);
  }

  lemma {:induction false} AndLe(a: nat, b: nat)
    ensures And(a, b) <= b
  {
    if a != 0 || b != 0 {
      AndLe(a / 2, b / 2);
    }
  }

  /** `word & (1 << b)` tests bit `b`. */
  lemma TestBit(word: nat, b: nat)
    ensures And(word, Pow2(b)) != 0 <==> Bit(word, b)
  {
    var masked := And(word, Pow2(b));
    BitAnd(word, Pow2(b), b);
    BitPow2(b, b);
    BitOfZero(b);
    if masked != 0 {
      AndLe(word, Pow2(b));
      LowestBitIsLowest(masked, b + 1);
      BitAnd(word, Pow2(b), LowestBit(masked));
      BitPow2(b, LowestBit(masked));
    }
  }

  /** A number is its bits. */
  lemma {:induction false} SameBits(a: nat, b: nat)
    requires forall k: nat :: Bit(a, k) <==> Bit(b, k)
    ensures a == b
    decreases a + b
  {
    assert Bit(a, 0) <==> Bit(b, 0);
    if a != 0 || b != 0 {
      forall k: nat ensures Bit(a / 2, k) <==> Bit(b / 2, k) {
        assert Bit(a, k + 1) <==> Bit(b, k + 1);
      }
      SameBits(a / 2, b / 2);
    }
  }

  lemma {:induction false} LowBitsSet(n: nat, k: nat)
    requires k < n
    ensures Bit(Pow2(n) - 1, k)
  {
    assert Pow2(n) - 1 == 2 * (Pow2(n - 1) - 1) + 1;
    if k > 0 {
      LowBitsSet(n - 1, k - 1);
    }
  }
}
