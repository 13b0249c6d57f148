/** Positional numbers: digits, remainders and powers. */
module Arithmetic {

  function Pow2(n: nat): (p: nat)
    ensures p > 0
  {
    if n == 0 then 1 else 2 * Pow2(n - 1)
  }

  function Pow256(n: nat): (p: nat)
    ensures p > 0
  {
    if n == 0 then 1 else 0x100 * Pow256(n - 1)
  }

  lemma {:induction false} Monotone(a: nat, b: nat, p: nat)
    requires a <= b
    ensures a * p <= b * p
  {
  }

  lemma {:induction false} Expand(h: nat, b: nat, d: nat, p: nat)
    ensures (h * b + d) * p == h * (b * p) + d * p
  {
    assert (h * b + d) * p == (h * b) * p + d * p;
    assert (h * b) * p == h * (b * p);
  }

  /** Quotient and remainder are unique. */
  lemma {:induction false} Unique(x: nat, m: nat, q: nat, r: nat)
    requires m > 0 && x == q * m + r && r < m
    ensures x / m == q && x % m == r
  {
    var q', r' := x / m, x % m;
    assert x == q' * m + r';
    if q' < q { Monotone(q' + 1, q, m); }
    if q < q' { Monotone(q + 1, q', m); }
  }

  /** A number written with a quotient, a digit and a remainder. */
  lemma {:induction false} Carry(h: nat, b: nat, d: nat, p: nat, r: nat)
    requires d < b && r < p
    ensures (h * b + d) * p + r == h * (b * p) + (d * p + r) && d * p + r < b * p
  {
    Expand(h, b, d, p);
    Monotone(d + 1, b, p);
  }

  lemma {:induction false} Digits(x: nat, b: nat, p: nat, q: nat, r: nat, h: nat, d: nat)
    requires x == q * p + r && r < p && q == h * b + d && d < b
    ensures b * p > 0 && x / (b * p) == h && x % (b * p) == d * p + r
  {
    Carry(h, b, d, p, r);
    Unique(x, b * p, h, d * p + r);
  }

  lemma {:induction false} SmallMod(x: nat, m: nat)
    requires x < m
    ensures x % m == x
  {
  }

  lemma {:induction false} DivMod(x: nat, m: nat)
    requires m > 0
    ensures x == x / m * m + x % m
  {
  }

  /** Splitting off the digit of weight `p` in base `b`. */
  lemma {:induction false} NextDigit(x: nat, b: nat, p: nat)
    requires p > 0 && b > 0
    ensures b * p > 0
    ensures x / (b * p) == x / p / b
    ensures x % (b * p) == x / p % b * p + x % p
  {
    DivMod(x, p);
    DivMod(x / p, b);
    Digits(x, b, p, x / p, x % p, x / p / b, x / p % b);
  }

  // ------------------------------------------------------------------------- bits

  /** Bitwise and of the lowest `n` bits. */
  function And(a: nat, b: nat, n: nat): (r: nat)
    ensures r <= a && r <= b
  {
    if n == 0 then 0 else 2 * And(a / 2, b / 2, n - 1) + if a % 2 == 1 && b % 2 == 1 then 1 else 0
  }

  /** Bit `n` of a number. */
  predicate Bit(x: nat, n: nat) {
    if n == 0 then x % 2 == 1 else Bit(x / 2, n - 1)
  }

  lemma {:induction false} BitOfAnd(a: nat, b: nat, n: nat, k: nat)
    ensures Bit(And(a, b, n), k) == (k < n && Bit(a, k) && Bit(b, k))
  {
    if n == 0 {
      ZeroBits(k);
    } else if k > 0 {
      assert And(a, b, n) / 2 == And(a / 2, b / 2, n - 1);
      BitOfAnd(a / 2, b / 2, n - 1, k - 1);
    }
  }

  lemma {:induction false} ZeroBits(k: nat)
    ensures !Bit(0, k)
  {
    if k > 0 { ZeroBits(k - 1); }
  }

  /** Numbers with the same bits are equal. */
  lemma {:induction false} SameBits(a: nat, b: nat, n: nat)
    requires a < Pow2(n) && b < Pow2(n) && forall k: nat | k < n :: Bit(a, k) == Bit(b, k)
    ensures a == b
  {
    if n > 0 {
      forall k: nat | k < n - 1 ensures Bit(a / 2, k) == Bit(b / 2, k) { assert Bit(a, k + 1) == Bit(b, k + 1); }
      SameBits(a / 2, b / 2, n - 1);
      assert Bit(a, 0) == Bit(b, 0);
    }
  }

  lemma {:induction false} BitIsDigit(x: nat, n: nat)
    ensures Bit(x, n) == (x / Pow2(n) % 2 == 1)
  {
    if n > 0 {
      BitIsDigit(x / 2, n - 1);
      NextDigit(x, Pow2(n - 1), 2);
      assert Pow2(n) == Pow2(n - 1) * 2;
    }
  }
}
