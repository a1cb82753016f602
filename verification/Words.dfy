/**
 Machine words as numbers.
 */
module Words {
  import opened Threads
  import opened KernelState

  const WORD_SIZE: nat := 0x1_0000_0000_0000_0000

  /** The number the lowest four bits of a word stand for. */
  function Digit(w: Word): nat
  {
    (if w & 1 != 0 then 1 else 0) + (if w & 2 != 0 then 2 else 0) + (if w & 4 != 0 then 4 else 0) +
    (if w & 8 != 0 then 8 else 0)
  }

  /** The number a word stands for, read in base 16. */
  function Number(w: Word): nat
  {
    if w == 0 then 0 else Digit(w) + 16 * Number(w >> 4)
  }

  lemma Unfold(w: Word)
    ensures Number(w) == Digit(w) + 16 * Number(w >> 4)
  {
    assert (0 as Word) >> 4 == 0;
  }

  /** Adding one to a word: in the lowest digit, or with a carry into the rest. */
  lemma NextDigit(w: Word)
    ensures w & 15 != 15 ==> Digit(w + 1) == Digit(w) + 1 && (w + 1) >> 4 == w >> 4
    ensures w & 15 == 15 ==> Digit(w) == 15 && Digit(w + 1) == 0
    ensures w & 15 == 15 && w != 0xFFFF_FFFF_FFFF_FFFF ==> (w + 1) >> 4 == (w >> 4) + 1
    ensures w >> 4 != 0xFFFF_FFFF_FFFF_FFFF
  {}

  lemma WithoutCarry(w: Word)
    requires w & 15 != 15
    ensures Number(w + 1) == Number(w) + 1
  {
    NextDigit(w);
    Unfold(w);
    Unfold(w + 1);
  }

  lemma WithCarry(w: Word)
    requires w & 15 == 15 && w != 0xFFFF_FFFF_FFFF_FFFF
    ensures Number(w + 1) == 16 * Number((w >> 4) + 1) && Number(w) + 1 == 16 * (Number(w >> 4) + 1)
    ensures w >> 4 != 0xFFFF_FFFF_FFFF_FFFF
  {
    NextDigit(w);
    Unfold(w);
    Unfold(w + 1);
  }

  lemma {:induction false} Increment(w: Word)
    requires w != 0xFFFF_FFFF_FFFF_FFFF
    ensures Number(w + 1) == Number(w) + 1
    decreases Number(w)
  {
    if w & 15 == 15 {
      WithCarry(w);
      Increment(w >> 4);
    } else {
      WithoutCarry(w);
    }
  }

  lemma AllOnes()
    ensures Number(0xFFFF_FFFF_FFFF_FFFF) == WORD_SIZE - 1 && Number(0) == 0
  {
    assert Number(0xFF) == 0xFF;
    assert Number(0xFFFF) == 0xFFFF;
    assert Number(0xFF_FFFF) == 0xFF_FFFF;
    assert Number(0xFFFF_FFFF) == 0xFFFF_FFFF;
    assert Number(0xFF_FFFF_FFFF) == 0xFF_FFFF_FFFF;
    assert Number(0xFFFF_FFFF_FFFF) == 0xFFFF_FFFF_FFFF;
    assert Number(0xFF_FFFF_FFFF_FFFF) == 0xFF_FFFF_FFFF_FFFF;
  }

  lemma {:induction false} Bound(w: Word)
    ensures Number(w) <= WORD_SIZE - 1 && (w != 0xFFFF_FFFF_FFFF_FFFF ==> Number(w) < WORD_SIZE - 1)
    decreases 0xFFFF_FFFF_FFFF_FFFF - w
  {
    if w == 0xFFFF_FFFF_FFFF_FFFF {
      AllOnes();
    } else {
      Bound(w + 1);
      Increment(w);
    }
  }

  lemma NextNumber(w: Word)
    ensures Number(w + 1) == if Number(w) == WORD_SIZE - 1 then 0 else Number(w) + 1
  {
    Bound(w);
    if w == 0xFFFF_FFFF_FFFF_FFFF {
      AllOnes();
      assert w + 1 == 0;
    } else {
      Increment(w);
    }
  }

  lemma NextRemainder(n: nat)
    ensures (n + 1) % WORD_SIZE == if n % WORD_SIZE == WORD_SIZE - 1 then 0 else n % WORD_SIZE + 1
  {}

  /** The word of a number stands for it, modulo 2^64. */
  lemma {:induction false} WordIsNumber(n: nat)
    ensures Number(AsWord(n)) == n % WORD_SIZE
  {
    if n > 0 {
      WordIsNumber(n - 1);
      NextNumber(AsWord(n - 1));
      NextRemainder(n - 1);
    }
  }
}
