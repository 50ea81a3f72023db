/** Bitwise operations on naturals, defined from the low bit upwards, and the facts about
    power-of-two sizes that the queue's index mask and `next_pow2` rely on. */
module Bits {

  function Pow2(k: nat): (p: nat)
    ensures 1 <= p
  {
    if k == 0 then 1 else 2 * Pow2(k - 1)
  }

  function And(x: nat, y: nat): nat {
    if x == 0 || y == 0 then 0
    else 2 * And(x / 2, y / 2) + if x % 2 == 1 && y % 2 == 1 then 1 else 0
  }

  function Or(x: nat, y: nat): nat
    decreases x + y
  {
    if x == 0 && y == 0 then 0
    else 2 * Or(x / 2, y / 2) + if x % 2 == 1 || y % 2 == 1 then 1 else 0
  }

  function Shr(x: nat, n: nat): nat {
    if n == 0 then x else Shr(x / 2, n - 1)
  }

  ghost predicate IsPow2(n: nat) {
    exists k: nat :: n == Pow2(k)
  }

  lemma {:induction false} AndSelf(x: nat)
    ensures And(x, x) == x
  {
    if x > 0 { AndSelf(x / 2); }
  }

  /** The test `(n & (n - 1)) == 0` accepts exactly the powers of two. */
  lemma {:induction false} Pow2Test(n: nat)
    requires n >= 1
    ensures And(n, n - 1) == 0 <==> IsPow2(n)
  {
    if n == 1 {
      assert n == Pow2(0);
    } else if n % 2 == 1 {
      AndSelf(n / 2);
      assert forall k: nat :: k > 0 ==> Pow2(k) % 2 == 0;
    } else {
      Pow2Test(n / 2);
      if k: nat :| n / 2 == Pow2(k) { assert n == Pow2(k + 1); }
      if k: nat :| n == Pow2(k) { assert k > 0 && n / 2 == Pow2(k - 1); }
    }
  }

  /** One halving step of `x & (2^k - 1)`. */
  lemma MaskStep(x: nat, k: nat)
    requires k > 0
    ensures And(x, Pow2(k) - 1) == 2 * And(x / 2, Pow2(k - 1) - 1) + x % 2
  {
    assert (2 * Pow2(k - 1) - 1) / 2 == Pow2(k - 1) - 1;
    if k == 1 { assert Pow2(1) == 2 * Pow2(0); }
  }

  lemma {:induction false} MaskBelow(x: nat, k: nat)
    ensures And(x, Pow2(k) - 1) < Pow2(k)
    ensures x < Pow2(k) ==> And(x, Pow2(k) - 1) == x
  {
    if k > 0 {
      MaskStep(x, k);
      MaskBelow(x / 2, k - 1);
      hide And;
    }
  }

  /** `x & (size - 1)` is an index below `size` that repeats with period `size`. */
  lemma {:induction false} MaskPeriodic(x: nat, k: nat)
    ensures And(x, Pow2(k) - 1) < Pow2(k)
    ensures And(x + Pow2(k), Pow2(k) - 1) == And(x, Pow2(k) - 1)
    ensures x < Pow2(k) ==> And(x, Pow2(k) - 1) == x
  {
    MaskBelow(x, k);
    if k > 0 {
      MaskPeriodic(x / 2, k - 1);
      PeriodStep(x, k);
      hide And;
      hide Pow2;
    }
  }

  lemma PeriodStep(x: nat, k: nat)
    requires k > 0 && And(x / 2 + Pow2(k - 1), Pow2(k - 1) - 1) == And(x / 2, Pow2(k - 1) - 1)
    ensures And(x + Pow2(k), Pow2(k) - 1) == And(x, Pow2(k) - 1)
  {
    assert Pow2(k) == 2 * Pow2(k - 1);
    MaskStep(x, k);
    MaskStep(x + Pow2(k), k);
    hide And;
    hide Pow2;
    HalfSum(x, Pow2(k - 1));
  }

  lemma HalfSum(x: nat, q: nat)
    ensures (x + 2 * q) / 2 == x / 2 + q && (x + 2 * q) % 2 == x % 2
  {
  }

  /** Two positions that share an index are at least `size` apart. */
  lemma {:induction false} MaskGap(x: nat, y: nat, k: nat)
    requires x < y && And(x, Pow2(k) - 1) == And(y, Pow2(k) - 1)
    ensures x + Pow2(k) <= y
  {
    if k > 0 {
      MaskStep(x, k);
      MaskStep(y, k);
      MaskGap(x / 2, y / 2, k - 1);
    }
  }

  // ----- single bits -----

  predicate Bit(x: nat, j: nat) {
    if j == 0 then x % 2 == 1 else Bit(x / 2, j - 1)
  }

  lemma {:induction false} OrBit(x: nat, y: nat, j: nat)
    ensures Bit(Or(x, y), j) <==> Bit(x, j) || Bit(y, j)
  {
    assert Or(x, y) / 2 == Or(x / 2, y / 2);
    if j > 0 { OrBit(x / 2, y / 2, j - 1); }
  }

  lemma {:induction false} ShrBit(x: nat, n: nat, j: nat)
    ensures Bit(Shr(x, n), j) <==> Bit(x, j + n)
  {
    if n > 0 { ShrBit(x / 2, n - 1, j); }
  }

  lemma {:induction false} ShrShrinks(x: nat, n: nat)
    ensures Shr(x, n) <= x
  {
    if n > 0 { ShrShrinks(x / 2, n - 1); }
  }

  lemma {:induction false} OrBelow(x: nat, y: nat, k: nat)
    requires x < Pow2(k) && y < Pow2(k)
    ensures Or(x, y) < Pow2(k)
  {
    if k > 0 { OrBelow(x / 2, y / 2, k - 1); }
  }

  lemma {:induction false} AllOnes(x: nat, k: nat)
    requires x < Pow2(k) && forall j :: 0 <= j < k ==> Bit(x, j)
    ensures x == Pow2(k) - 1
  {
    if k > 0 {
      forall j | 0 <= j < k - 1 ensures Bit(x / 2, j) { assert Bit(x, j + 1); }
      AllOnes(x / 2, k - 1);
      assert Bit(x, 0);
    }
  }

  lemma {:induction false} Pow2Grows(j: nat, k: nat)
    requires j < k
    ensures 2 * Pow2(j) <= Pow2(k)
  {
    if j < k - 1 { Pow2Grows(j, k - 1); }
  }

  /** The number of bits of `x`. */
  function Width(x: nat): nat {
    if x == 0 then 0 else 1 + Width(x / 2)
  }

  lemma {:induction false} WidthBounds(x: nat)
    ensures x < Pow2(Width(x))
    ensures x > 0 ==> Pow2(Width(x) - 1) <= x && Bit(x, Width(x) - 1)
  {
    if x > 0 { WidthBounds(x / 2); }
  }

  ghost predicate LeastPow2(val: nat, r: nat) {
    IsPow2(r) && val <= r && forall p: nat :: IsPow2(p) && val <= p ==> r <= p
  }

  lemma WidthIsLeast(val: nat)
    requires val >= 1
    ensures LeastPow2(val, Pow2(Width(val - 1)))
  {
    var k := Width(val - 1);
    WidthBounds(val - 1);
    forall p: nat | IsPow2(p) && val <= p ensures Pow2(k) <= p {
      var j: nat :| p == Pow2(j);
      if j < k {
        if j < k - 1 { Pow2Grows(j, k - 1); }
      } else if k < j {
        Pow2Grows(k, j);
      }
    }
  }
}
