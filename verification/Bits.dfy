/** The bit operations of item_detail.rs on nonnegative integers, and why its words are sums: a mask of low bits takes a
    remainder, and `|` of bits that do not overlap adds. */
module Bits {
  function Pow2(k: nat): (p: nat)
    ensures p > 0
  {
    if k == 0 then 1 else 2 * Pow2(k - 1)
  }

  function Or(a: nat, b: nat): nat
    decreases a + b
  {
    if a == 0 then b
    else if b == 0 then a
    else 2 * Or(a / 2, b / 2) + if a % 2 == 1 || b % 2 == 1 then 1 else 0
  }

  function And(a: nat, b: nat): nat
    decreases a + b
  {
    if a == 0 || b == 0 then 0 else 2 * And(a / 2, b / 2) + if a % 2 == 1 && b % 2 == 1 then 1 else 0
  }

  /** `<<`, where no bit is shifted out. */
  function Shl(a: nat, k: nat): nat { a * Pow2(k) }

  /** `>>`. */
  function Shr(a: nat, k: nat): nat { if k == 0 then a else Shr(a / 2, k - 1) }

  /** Shifting right and masking take a number apart. */
  lemma {:induction false} SplitAt(a: nat, k: nat, p: nat)
    requires p == Pow2(k)
    ensures a == Shr(a, k) * p + And(a, p - 1) && And(a, p - 1) < p
  {
    if k > 0 {
      var half := Pow2(k - 1);
      SplitAt(a / 2, k - 1, half);
      Doubled(Shr(a, k), p, half);
      assert And(a, p - 1) == 2 * And(a / 2, half - 1) + a % 2 by {
        assert (p - 1) / 2 == half - 1 && (p - 1) % 2 == 1;
        if a == 0 { assert And(a / 2, half - 1) == 0; }
      }
    }
  }

  lemma ShiftAndMask(a: nat, k: nat, p: nat)
    requires p == Pow2(k)
    ensures Shr(a, k) == a / p && And(a, p - 1) == a % p
  {
    SplitAt(a, k, p);
    Cut(a, Shr(a, k), And(a, p - 1), p);
  }

  /** Writing a field into zero bits is addition. */
  lemma {:induction false} OrLow(high: nat, low: nat, k: nat, p: nat)
    requires p == Pow2(k) && low < p
    ensures Or(high * p, low) == high * p + low
  {
    if high > 0 && low > 0 {
      var half := Pow2(k - 1);
      Doubled(high, p, half);
      OrLow(high, low / 2, k - 1, half);
    }
  }

  lemma Doubled(high: nat, p: nat, half: nat)
    requires p == 2 * half
    ensures high * p == 2 * (high * half)
  {}

  /** Reading a field back: shift right, then mask. */
  lemma Cut(word: nat, high: nat, low: nat, p: nat)
    requires low < p && word == high * p + low
    ensures word / p == high && word % p == low
  {
    Apart(high, word / p, p);
    Apart(word / p, high, p);
  }

  lemma {:induction false} Apart(a: nat, b: nat, p: nat)
    ensures a > b ==> a * p >= b * p + p
    decreases a
  {
    if a > b {
      NextMultiple(a - 1, p);
      if a > b + 1 { Apart(a - 1, b, p); }
    }
  }

  lemma NextMultiple(a: nat, p: nat)
    ensures (a + 1) * p == a * p + p
  {}
}
