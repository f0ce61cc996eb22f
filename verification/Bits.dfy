/** Bitwise AND and shifts on unbounded naturals, and what they mean for powers of two. */
module Bits {
  import opened Basics

  function Pow2(k: nat): (p: nat)
    ensures p >= 1
  {
    if k == 0 then 1 else 2 * Pow2(k - 1)
  }

  /** C's `a & b` on unsigned operands, bit by bit. */
  function And(a: nat, b: nat): (r: nat)
    ensures r <= a && r <= b
  {
    if a == 0 || b == 0 then 0
    else (a % 2) * (b % 2) + 2 * And(a / 2, b / 2)
  }

  /** C's `a >> k` on an unsigned operand. */
  function Shr(a: nat, k: nat): nat
    decreases k
  {
    if k == 0 then a else Shr(a / 2, k - 1)
  }

  lemma Twice(p: nat, d: nat)
    ensures 2 * (p * d) == (2 * p) * d
  {
  }

  /** Division by 2p, one bit first. */
  lemma HalfFirst(a: nat, p: nat)
    requires p >= 1
    ensures a / (2 * p) == (a / 2) / p && a % (2 * p) == a % 2 + 2 * ((a / 2) % p)
  {
    var d, r := (a / 2) / p, (a / 2) % p;
    assert a / 2 == p * d + r;
    Twice(p, d);
    DivModUnique(a, 2 * p, d, a % 2 + 2 * r);
  }

  lemma OddMask(p: nat)
    requires p >= 1
    ensures (2 * p - 1) % 2 == 1 && (2 * p - 1) / 2 == p - 1
  {
  }

  /** Masking with 2^k - 1 takes the remainder modulo 2^k. */
  lemma {:induction false} AndIsMod(a: nat, k: nat)
    ensures And(a, Pow2(k) - 1) == a % Pow2(k)
  {
    if k == 0 {
    } else if a == 0 {
    } else {
      AndIsMod(a / 2, k - 1);
      OddMask(Pow2(k - 1));
      HalfFirst(a, Pow2(k - 1));
    }
  }

  /** Shifting right by k divides by 2^k. */
  lemma {:induction false} ShrIsDiv(a: nat, k: nat)
    ensures Shr(a, k) == a / Pow2(k)
  {
    if k == 0 {
    } else {
      ShrIsDiv(a / 2, k - 1);
      HalfFirst(a, Pow2(k - 1));
    }
  }

  lemma MulSplit(p: nat, h: nat, q: nat, b: nat)
    requires q == 2 * h + b && b <= 1
    ensures p * q == (2 * p) * h + b * p
  {
  }

  lemma ModDoubling(a: nat, p: nat)
    requires p >= 1
    ensures a % (2 * p) == a % p || a % (2 * p) == a % p + p
  {
    var q, r := a / p, a % p;
    var h := q / 2;
    assert a == p * q + r;
    if q % 2 == 0 {
      MulSplit(p, h, q, 0);
      DivModUnique(a, 2 * p, h, r);
    } else {
      MulSplit(p, h, q, 1);
      DivModUnique(a, 2 * p, h, p + r);
    }
  }

  /** Doubling the mask keeps the old slot or moves it up by the old table size. */
  lemma {:induction false} AndDouble(a: nat, k: nat)
    ensures var p := Pow2(k);
      And(a, 2 * p - 1) == And(a, p - 1) || And(a, 2 * p - 1) == And(a, p - 1) + p
  {
    AndIsMod(a, k);
    AndIsMod(a, k + 1);
    ModDoubling(a, Pow2(k));
  }
}
