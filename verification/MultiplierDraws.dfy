/** The draws that multipliers are made of: the mixer is a bijection of 64-bit states, different positions draw
    different states, and the bound is as large as overflow allows. */
module MultiplierDraws {
  import opened NumberTheory
  import opened HashArithmetic
  import BitwiseCheck

  // ---- Shifts and exclusive or -------------------------------------------------------------

  lemma {:induction false} ShiftedBit(x: nat, k: nat, i: nat)
    ensures Bit(ShiftRight(x, k), i) == Bit(x, i + k)
    decreases k
  {
    if k > 0 {
      ShiftedBit(x / 2, k - 1, i);
    }
  }

  lemma {:induction false} ShiftFits(x: nat, k: nat)
    ensures ShiftRight(x, k) <= x
    decreases k
  {
    if k > 0 {
      ShiftFits(x / 2, k - 1);
    }
  }

  lemma {:induction false} HighBitsClear(x: nat, k: nat, i: nat)
    requires x < PowerOfTwo(k) && k <= i
    ensures !Bit(x, i)
    decreases i
  {
    if i > 0 {
      HighBitsClear(x / 2, if k == 0 then 0 else k - 1, i - 1);
    }
  }

  lemma {:induction false} BitsDecide(a: nat, b: nat, k: nat)
    requires a < PowerOfTwo(k) && b < PowerOfTwo(k)
    requires forall i: nat :: i < k ==> Bit(a, i) == Bit(b, i)
    ensures a == b
    decreases k
  {
    if k > 0 {
      assert Bit(a, 0) == Bit(b, 0);
      forall i: nat | i < k - 1 ensures Bit(a / 2, i) == Bit(b / 2, i) {
        assert Bit(a, i + 1) == Bit(b, i + 1);
      }
      BitsDecide(a / 2, b / 2, k - 1);
    }
  }

  /** A state and the state shifted, taken together, show every bit, from the top down. */
  lemma {:induction false} MixShowsBit(a: nat, b: nat, k: nat, i: nat)
    requires a < PowerOfTwo(64) && b < PowerOfTwo(64) && k >= 1
    requires Xor(a, ShiftRight(a, k)) == Xor(b, ShiftRight(b, k))
    ensures Bit(a, i) == Bit(b, i)
    decreases if i < 64 then 64 - i else 0
  {
    hide Xor, ShiftRight, Bit, PowerOfTwo;
    if i >= 64 {
      HighBitsClear(a, 64, i);
      HighBitsClear(b, 64, i);
    } else {
      MixShowsBit(a, b, k, i + k);
      XorBit(a, ShiftRight(a, k), i);
      XorBit(b, ShiftRight(b, k), i);
      ShiftedBit(a, k, i);
      ShiftedBit(b, k, i);
    }
  }

  lemma SixtyFourBits()
    ensures PowerOfTwo(64) == TWO_64
  {
    BitwiseCheck.MaskIs64Bits();
  }

  lemma ShiftMixInjective(a: nat, b: nat, k: nat)
    requires a < TWO_64 && b < TWO_64 && k >= 1 && Xor(a, ShiftRight(a, k)) == Xor(b, ShiftRight(b, k))
    ensures a == b
  {
    hide Xor, ShiftRight, Bit, PowerOfTwo;
    SixtyFourBits();
    forall i: nat | i < 64 ensures Bit(a, i) == Bit(b, i) {
      MixShowsBit(a, b, k, i);
    }
    BitsDecide(a, b, 64);
  }

  lemma ShiftMixFits(a: nat, k: nat)
    requires a < TWO_64
    ensures Xor(a, ShiftRight(a, k)) < TWO_64
  {
    hide Xor, ShiftRight;
    ShiftFits(a, k);
    BitwiseCheck.XorFits(a, ShiftRight(a, k));
  }

  // ---- The mixer ---------------------------------------------------------------------------

  const M1_INVERSE: nat := 0x96de1b173f119089
  const M2_INVERSE: nat := 0x319642b2d24d8ec3
  const GAMMA_INVERSE: nat := 0xf1de83e19937733d

  lemma Inverses()
    ensures SPLITMIX_M1 * M1_INVERSE == 1 + 8125545580553827436 * TWO_64
    ensures SPLITMIX_M2 * M2_INVERSE == 1 + 2077064247507883091 * TWO_64
    ensures SPLITMIX_GAMMA * GAMMA_INVERSE == 1 + 10771413168148108919 * TWO_64
  {
  }

  /** One round: a shift, an exclusive or and an odd factor. */
  lemma RoundInjective(a: nat, b: nat, shift: nat, p: nat, q: nat, k: nat)
    requires a < TWO_64 && b < TWO_64 && shift >= 1 && p * q == 1 + k * TWO_64
    requires (Xor(a, ShiftRight(a, shift)) * p) % TWO_64 == (Xor(b, ShiftRight(b, shift)) * p) % TWO_64
    ensures a == b
  {
    hide Xor, ShiftRight;
    var x, y := Xor(a, ShiftRight(a, shift)), Xor(b, ShiftRight(b, shift));
    ShiftMixFits(a, shift);
    ShiftMixFits(b, shift);
    BitwiseCheck.InverseCancels(x, p, q, k);
    BitwiseCheck.InverseCancels(y, p, q, k);
    ShiftMixInjective(a, b, shift);
  }

  /** The mixer never sends two 64-bit states to one. */
  lemma SplitMixInjective(x: nat, y: nat)
    requires x < TWO_64 && y < TWO_64 && SplitMix64(x) == SplitMix64(y)
    ensures x == y
  {
    hide Xor, ShiftRight;
    Inverses();
    var a0, b0 := (x + SPLITMIX_GAMMA) % TWO_64, (y + SPLITMIX_GAMMA) % TWO_64;
    var a1 := (Xor(a0, ShiftRight(a0, 30)) * SPLITMIX_M1) % TWO_64;
    var b1 := (Xor(b0, ShiftRight(b0, 30)) * SPLITMIX_M1) % TWO_64;
    var a2 := (Xor(a1, ShiftRight(a1, 27)) * SPLITMIX_M2) % TWO_64;
    var b2 := (Xor(b1, ShiftRight(b1, 27)) * SPLITMIX_M2) % TWO_64;
    ShiftMixFits(a2, 31);
    ShiftMixFits(b2, 31);
    ShiftMixInjective(a2, b2, 31);
    RoundInjective(a1, b1, 27, SPLITMIX_M2, M2_INVERSE, 2077064247507883091);
    RoundInjective(a0, b0, 30, SPLITMIX_M1, M1_INVERSE, 8125545580553827436);
  }

  /** Different positions of one layer never draw the same state, nor so the same 64-bit number. */
  lemma DrawsDiffer(base: int, i: nat, j: nat)
    requires i < j < TWO_64
    ensures (base + SPLITMIX_GAMMA * (i + 1)) % TWO_64 != (base + SPLITMIX_GAMMA * (j + 1)) % TWO_64
    ensures SplitMix64((base + SPLITMIX_GAMMA * (i + 1)) % TWO_64)
         != SplitMix64((base + SPLITMIX_GAMMA * (j + 1)) % TWO_64)
  {
    hide SplitMix64;
    var x, y := base + SPLITMIX_GAMMA * (i + 1), base + SPLITMIX_GAMMA * (j + 1);
    if x % TWO_64 == y % TWO_64 {
      SameRemainder(TWO_64, y, x);
      assert y - x == SPLITMIX_GAMMA * (j - i);
      DividesMultiple(TWO_64, SPLITMIX_GAMMA * (j - i), GAMMA_INVERSE);
      Inverses();
      var k := 10771413168148108919;
      assert SPLITMIX_GAMMA * (j - i) * GAMMA_INVERSE == (j - i) + TWO_64 * (k * (j - i));
      DividesIntro(TWO_64, TWO_64 * (k * (j - i)), k * (j - i));
      DividesSum(TWO_64, (j - i) + TWO_64 * (k * (j - i)), TWO_64 * (k * (j - i)));
      DivisorBound(TWO_64, j - i);
    } else if SplitMix64(x % TWO_64) == SplitMix64(y % TWO_64) {
      SplitMixInjective(x % TWO_64, y % TWO_64);
    }
  }

  // ---- The bound ---------------------------------------------------------------------------

  /** Twice the bound is the most that every token of the vocabulary can be multiplied by without overflow; only
      where no even number is, the bound is 1. */
  lemma HalfBoundIsLargest(vocab: int)
    requires vocab >= 1
    ensures vocab * (2 * (HalfBound(vocab) + 1)) > MAX_LONG
    ensures vocab * (2 * HalfBound(vocab)) <= MAX_LONG || (HalfBound(vocab) == 1 && vocab * 2 > MAX_LONG)
  {
    var q := MAX_LONG / vocab;
    var h := q / 2;
    assert MAX_LONG == vocab * q + MAX_LONG % vocab;
    MultiplyOut(vocab, h, q);
  }

  lemma MultiplyOut(vocab: int, h: int, q: int)
    requires vocab >= 1 && 2 * h <= q < 2 * (h + 1)
    ensures vocab * (2 * h) <= vocab * q && vocab * q + vocab <= vocab * (2 * (h + 1))
  {
    assert vocab * (q - 2 * h) >= 0 && vocab * (2 * (h + 1) - (q + 1)) >= 0;
  }
}
