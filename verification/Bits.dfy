/** Machine words as natural numbers, with the single-bit operations the slab
    allocator performs on them: `w & (1 << i)`, `w |= 1 << i` and `w &= ~(1 << i)`. */
module Bits {

  function Pow2(n: nat): (r: nat)
    ensures r >= 1
  {
    if n == 0 then 1 else 2 * Pow2(n - 1)
  }

  lemma {:induction false} Pow2Add(a: nat, b: nat)
    ensures Pow2(a + b) == Pow2(a) * Pow2(b)
  {
    if a > 0 {
      Pow2Add(a - 1, b);
    }
  }

  lemma {:induction false} Pow2Monotone(a: nat, b: nat)
    requires a <= b
    ensures Pow2(a) <= Pow2(b)
    ensures a < b ==> Pow2(a) < Pow2(b)
  {
    if a < b {
      Pow2Monotone(a, b - 1);
    }
  }

  /** `w & (1 << i)` is not zero. */
  predicate Bit(w: nat, i: nat) {
    if i == 0 then w % 2 == 1 else Bit(w / 2, i - 1)
  }

  /** `w | (1 << i)` */
  function SetBit(w: nat, i: nat): nat {
    if i == 0 then w / 2 * 2 + 1 else SetBit(w / 2, i - 1) * 2 + w % 2
  }

  /** `w & ~(1 << i)` */
  function ClearBit(w: nat, i: nat): nat {
    if i == 0 then w / 2 * 2 else ClearBit(w / 2, i - 1) * 2 + w % 2
  }

  lemma {:induction false} SetBitAt(w: nat, i: nat, j: nat)
    ensures Bit(SetBit(w, i), j) <==> j == i || Bit(w, j)
  {
    if i > 0 && j > 0 {
      SetBitAt(w / 2, i - 1, j - 1);
    }
  }

  lemma {:induction false} ClearBitAt(w: nat, i: nat, j: nat)
    ensures Bit(ClearBit(w, i), j) <==> j != i && Bit(w, j)
  {
    if i > 0 && j > 0 {
      ClearBitAt(w / 2, i - 1, j - 1);
    }
  }

  lemma {:induction false} BitUpdateFits(w: nat, i: nat, n: nat)
    requires w < Pow2(n) && i < n
    ensures SetBit(w, i) < Pow2(n)
    ensures ClearBit(w, i) < Pow2(n)
  {
    assert Pow2(n) == 2 * Pow2(n - 1) && w / 2 < Pow2(n - 1);
    hide Pow2;
    if i > 0 {
      BitUpdateFits(w / 2, i - 1, n - 1);
    }
  }

  /** `w >> m` */
  function High(w: nat, m: nat): nat {
    if m == 0 then w else High(w / 2, m - 1)
  }

  /** `w & ((1 << m) - 1)` */
  function Low(w: nat, m: nat): nat {
    if m == 0 then 0 else Low(w / 2, m - 1) * 2 + w % 2
  }

  /** `(hi << m) | lo` for a lo that fits m bits. */
  function Compose(hi: nat, lo: nat, m: nat): nat {
    if m == 0 then hi else Compose(hi, lo / 2, m - 1) * 2 + lo % 2
  }

  lemma {:induction false} ComposeParts(hi: nat, lo: nat, m: nat)
    requires lo < Pow2(m)
    ensures High(Compose(hi, lo, m), m) == hi
    ensures Low(Compose(hi, lo, m), m) == lo
  {
    if m > 0 {
      ComposeParts(hi, lo / 2, m - 1);
    }
  }

  /** A short word is its own low part, however many more bits are kept. */
  lemma {:induction false} LowOfSmall(w: nat, m: nat)
    requires w < Pow2(m)
    ensures Low(w, m) == w
  {
    if m > 0 {
      LowOfSmall(w / 2, m - 1);
    }
  }

  lemma {:induction false} LowOfLow(w: nat, m: nat, n: nat)
    requires n <= m
    ensures Low(Low(w, m), n) == Low(w, n)
  {
    if n > 0 {
      LowOfLow(w / 2, m - 1, n - 1);
    }
  }

  /** Updating a bit at or above m only changes the high part. */
  lemma {:induction false} SetBitAbove(w: nat, i: nat, m: nat)
    requires m <= i
    ensures Low(SetBit(w, i), m) == Low(w, m)
    ensures High(SetBit(w, i), m) == SetBit(High(w, m), i - m)
  {
    if m > 0 {
      SetBitAbove(w / 2, i - 1, m - 1);
      assert SetBit(w, i) / 2 == SetBit(w / 2, i - 1) && SetBit(w, i) % 2 == w % 2;
    }
  }

  lemma {:induction false} ClearBitAbove(w: nat, i: nat, m: nat)
    requires m <= i
    ensures Low(ClearBit(w, i), m) == Low(w, m)
    ensures High(ClearBit(w, i), m) == ClearBit(High(w, m), i - m)
  {
    if m > 0 {
      ClearBitAbove(w / 2, i - 1, m - 1);
      assert ClearBit(w, i) / 2 == ClearBit(w / 2, i - 1) && ClearBit(w, i) % 2 == w % 2;
    }
  }

  /** Reading a bit of the high part of a word. */
  lemma {:induction false} BitOfHigh(w: nat, m: nat, i: nat)
    ensures Bit(High(w, m), i) == Bit(w, m + i)
  {
    if m > 0 {
      BitOfHigh(w / 2, m - 1, i);
    }
  }

  lemma {:induction false} ZeroHasNoBit(i: nat)
    ensures !Bit(0, i)
  {
    if i > 0 {
      ZeroHasNoBit(i - 1);
    }
  }

  /** `(1 << m) - 1` has exactly its low m bits set. */
  lemma {:induction false} LowMaskBits(m: nat, i: nat)
    ensures Bit(Pow2(m) - 1, i) <==> i < m
  {
    if m > 0 && i > 0 {
      assert (Pow2(m) - 1) / 2 == Pow2(m - 1) - 1;
      LowMaskBits(m - 1, i - 1);
    } else if m == 0 && i > 0 {
      LowMaskBits(0, i - 1);
    }
  }

  /** A word that fits n bits and has none of them set is zero. */
  lemma {:induction false} NoBitIsZero(w: nat, n: nat)
    requires w < Pow2(n)
    requires forall i :: 0 <= i < n ==> !Bit(w, i)
    ensures w == 0
  {
    if n > 0 {
      assert !Bit(w, 0);
      forall i | 0 <= i < n - 1 ensures !Bit(w / 2, i) {
        assert !Bit(w, i + 1);
      }
      NoBitIsZero(w / 2, n - 1);
    }
  }

  /** A word that fits n bits and has all of them set is all ones. */
  lemma {:induction false} AllBitsIsOnes(w: nat, n: nat)
    requires w < Pow2(n)
    requires forall i :: 0 <= i < n ==> Bit(w, i)
    ensures w == Pow2(n) - 1
  {
    if n > 0 {
      assert Bit(w, 0);
      forall i | 0 <= i < n - 1 ensures Bit(w / 2, i) {
        assert Bit(w, i + 1);
      }
      AllBitsIsOnes(w / 2, n - 1);
    }
  }

  lemma {:induction false} HighOfPow2(n: nat, m: nat)
    ensures High(Pow2(n), m) == if m <= n then Pow2(n - m) else 0
  {
    if m > 0 {
      if n > 0 {
        HighOfPow2(n - 1, m - 1);
      } else {
        HighOfZero(m - 1);
      }
    }
  }

  lemma {:induction false} HighOfZero(m: nat)
    ensures High(0, m) == 0
  {
    if m > 0 {
      HighOfZero(m - 1);
    }
  }

  lemma {:induction false} HighStep(w: nat, m: nat)
    ensures High(w, m + 1) == High(w, m) / 2
  {
    if m > 0 {
      HighStep(w / 2, m - 1);
    }
  }

  /** The highest set bit bounds a word from both sides. */
  lemma {:induction false} TopBit(w: nat, m: nat)
    requires High(w, m) != 0 && High(w, m + 1) == 0
    ensures Pow2(m) <= w < Pow2(m + 1)
  {
    if m > 0 {
      TopBit(w / 2, m - 1);
    }
  }
}
