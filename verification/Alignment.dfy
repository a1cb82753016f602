/**
 Rounding an address up to a power of two by masking, in 64-bit arithmetic.
 */
module Alignment {

  const WORD_BITS: nat := 64
  const WORDS: nat := 0x1_0000_0000_0000_0000
  const HALF: nat := 0x8000_0000_0000_0000

  function Pow2(k: nat): (r: nat)
    ensures r > 0
  {
    if k == 0 then 1 else 2 * Pow2(k - 1)
  }

  /** Bitwise and. */
  function And(x: nat, y: nat): nat
    decreases x
  {
    if x == 0 then 0 else (if x % 2 == 1 && y % 2 == 1 then 1 else 0) + 2 * And(x / 2, y / 2)
  }

  /** The complement of a 64-bit word. */
  function Not(x: nat): nat
    requires x < WORDS
  {
    WORDS - 1 - x
  }

  /** Adding wraps around at 64 bits. */
  function AlignUp(address: nat, align: nat): nat
    requires 0 < align < WORDS
  {
    And((address + align - 1) % WORDS, Not(align - 1))
  }

  // ---------------------------------------------------------------------------------------
  // Masking
  // ---------------------------------------------------------------------------------------

  lemma {:induction false} Pow2Less(j: nat, k: nat)
    requires j <= k
    ensures Pow2(j) <= Pow2(k)
  {
    if j < k {
      Pow2Less(j, k - 1);
    }
  }

  lemma {:induction false} Pow2Divides(j: nat, k: nat)
    requires j <= k
    ensures Pow2(k) % Pow2(j) == 0
  {
    if j == k {
      ProductMod(1, Pow2(k));
    } else {
      Pow2Divides(j, k - 1);
      MultipleOfMultiple(2, Pow2(k - 1), Pow2(j));
    }
  }

  lemma CoarserMultiple(x: nat, j: nat, k: nat)
    requires j <= k && x % Pow2(k) == 0
    ensures x % Pow2(j) == 0
  {
    Pow2Divides(j, k);
    assert x == (x / Pow2(k)) * Pow2(k);
    MultipleOfMultiple(x / Pow2(k), Pow2(k), Pow2(j));
  }

  lemma MultipleOfMultiple(c: nat, x: nat, d: nat)
    requires d > 0 && x % d == 0
    ensures (c * x) % d == 0
  {
    var q := x / d;
    assert x == d * q;
    assert c * x == d * (c * q);
    ProductMod(c * q, d);
  }

  lemma ProductMod(q: nat, d: nat)
    requires d > 0
    ensures (d * q) % d == 0
  {
    UniqueRemainder(d * q, d, q, 0);
  }

  lemma MulNext(d: nat, a: nat)
    ensures d * (a + 1) == d * a + d
  {}

  lemma {:induction false} MulStep(d: nat, a: nat, b: nat)
    requires a < b
    ensures d * a + d <= d * b
    decreases b
  {
    MulNext(d, b - 1);
    if a + 1 < b {
      MulStep(d, a, b - 1);
    }
  }

  lemma UniqueRemainder(x: nat, d: nat, q: nat, r: nat)
    requires d > 0 && x == d * q + r && r < d
    ensures x % d == r && x / d == q
  {
    if x / d < q {
      MulStep(d, x / d, q);
    } else if q < x / d {
      MulStep(d, q, x / d);
    }
  }

  lemma AndDouble(n: nat, y: nat)
    ensures And(n, 2 * y) == 2 * And(n / 2, y)
  {
    assert (2 * y) % 2 == 0 && (2 * y) / 2 == y;
  }

  /** Masking with w - k ones above k zeros drops the low k bits. */
  lemma {:induction false} MaskDrops(n: nat, w: nat, k: nat, mask: nat)
    requires k <= w && n < Pow2(w) && mask + Pow2(k) == Pow2(w)
    ensures And(n, mask) == n - n % Pow2(k)
    decreases k
  {
    if k == 0 {
      MaskAll(n, w);
    } else {
      var half := Pow2(w - 1) - Pow2(k - 1);
      Pow2Less(k - 1, w - 1);
      assert mask == 2 * half;
      AndDouble(n, half);
      MaskDrops(n / 2, w - 1, k - 1, half);
      HalfRemainder(n, Pow2(k - 1));
    }
  }

  lemma {:induction false} MaskAll(n: nat, w: nat)
    requires n < Pow2(w)
    ensures And(n, Pow2(w) - 1) == n
  {
    if n > 0 {
      MaskAll(n / 2, w - 1);
      assert (Pow2(w) - 1) / 2 == Pow2(w - 1) - 1;
    }
  }

  lemma HalfRemainder(n: nat, d: nat)
    requires d > 0
    ensures n % (2 * d) == 2 * (n / 2 % d) + n % 2
  {
    var h := n / 2;
    assert h == d * (h / d) + h % d;
    assert n == (2 * d) * (h / d) + (2 * (h % d) + n % 2);
    UniqueRemainder(n, 2 * d, h / d, 2 * (h % d) + n % 2);
  }

  lemma WordIsPow2()
    ensures Pow2(WORD_BITS) == WORDS && Pow2(63) == HALF
  {
    assert Pow2(8) == 256;
    Pow2Plus(8, 8);
    Pow2Plus(16, 16);
    Pow2Plus(32, 32);
  }

  lemma {:induction false} Pow2Plus(j: nat, k: nat)
    ensures Pow2(j + k) == Pow2(j) * Pow2(k)
  {
    if k > 0 {
      Pow2Plus(j, k - 1);
      assert Pow2(j + k) == 2 * Pow2(j + (k - 1));
      assert Pow2(j) * Pow2(k) == Pow2(j) * (2 * Pow2(k - 1)) == 2 * (Pow2(j) * Pow2(k - 1));
    }
  }

  // ---------------------------------------------------------------------------------------
  // Rounding
  // ---------------------------------------------------------------------------------------

  /** The least multiple of d that is not below x. */
  ghost predicate LeastMultiple(r: nat, x: nat, d: nat)
    requires d > 0
  {
    r % d == 0 && r >= x && forall m: nat :: m % d == 0 && m >= x ==> m >= r
  }

  lemma MultiplesApart(m: nat, r: nat, d: nat)
    requires d > 0 && m % d == 0 && r % d == 0 && m < r
    ensures m + d <= r
  {
    var a, b := m / d, r / d;
    assert m == d * a && r == d * b;
    if b < a {
      MulStep(d, b, a);
    } else {
      MulStep(d, a, b);
    }
  }

  lemma LeastIfClose(r: nat, x: nat, d: nat)
    requires d > 0 && r % d == 0 && x <= r < x + d
    ensures LeastMultiple(r, x, d)
  {
    forall m: nat | m % d == 0 && m >= x
      ensures m >= r
    {
      if m < r {
        MultiplesApart(m, r, d);
      }
    }
  }

  /** The bit trick rounds up to the least multiple of a power of two, unless the addition wraps
      around; then it gives 0. */
  lemma AlignUpExact(address: nat, k: nat)
    requires address < WORDS && k < WORD_BITS
    ensures 0 < Pow2(k) < WORDS
    ensures address + Pow2(k) - 1 < WORDS ==>
              LeastMultiple(AlignUp(address, Pow2(k)), address, Pow2(k)) &&
              AlignUp(address, Pow2(k)) < address + Pow2(k)
    ensures address + Pow2(k) - 1 >= WORDS ==> AlignUp(address, Pow2(k)) == 0
  {
    Pow2InWord(k);
    AlignUpMasks(address, k, Pow2(k));
    Rounds(address, Pow2(k), AlignUp(address, Pow2(k)));
  }

  lemma Rounds(address: nat, d: nat, r: nat)
    requires address < WORDS && 0 < d < WORDS
    requires var n := (address + d - 1) % WORDS; r == n - n % d
    ensures address + d - 1 < WORDS ==> LeastMultiple(r, address, d) && r < address + d
    ensures address + d - 1 >= WORDS ==> r == 0
  {
    var n := (address + d - 1) % WORDS;
    if address + d - 1 < WORDS {
      assert n == address + d - 1;
      RoundedDown(n, d);
      LeastIfClose(r, address, d);
    } else {
      assert n == address + d - 1 - WORDS;
      UniqueRemainder(n, d, 0, n);
    }
  }

  lemma Pow2InWord(k: nat)
    requires k < WORD_BITS
    ensures 0 < Pow2(k) <= HALF
  {
    WordIsPow2();
    Pow2Less(k, 63);
  }

  lemma AlignUpMasks(address: nat, k: nat, d: nat)
    requires k < WORD_BITS && d == Pow2(k) && 0 < d < WORDS
    ensures var n := (address + d - 1) % WORDS; AlignUp(address, d) == n - n % d
  {
    WordIsPow2();
    MaskDrops((address + d - 1) % WORDS, WORD_BITS, k, Not(d - 1));
  }

  lemma RoundedDown(n: nat, d: nat)
    requires d > 0
    ensures (n - n % d) % d == 0 && n - d < n - n % d <= n
  {
    assert n - n % d == d * (n / d);
    ProductMod(n / d, d);
  }

  /** So it is not below the address exactly when the sum does not wrap around (or the address is 0). */
  lemma AlignUpSafeIff(address: nat, k: nat)
    requires 0 < address < WORDS && k < WORD_BITS
    ensures 0 < Pow2(k) < WORDS
    ensures AlignUp(address, Pow2(k)) >= address <==> address + Pow2(k) - 1 < WORDS
  {
    AlignUpExact(address, k);
  }
}
