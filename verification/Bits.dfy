/** Bitwise operations on unsigned machine words held as integers. */
module Bits {
  import opened Types

  function Pow2(n: nat): (p: nat)
    ensures p > 0
  {
    if n == 0 then 1 else 2 * Pow2(n - 1)
  }

  function And(n: nat, a: nat, b: nat): (c: nat)
    requires a < Pow2(n) && b < Pow2(n)
    ensures c < Pow2(n)
  {
    if n == 0 then 0 else 2 * And(n - 1, a / 2, b / 2) + (if a % 2 == 1 && b % 2 == 1 then 1 else 0)
  }

  function Or(n: nat, a: nat, b: nat): (c: nat)
    requires a < Pow2(n) && b < Pow2(n)
    ensures c < Pow2(n)
  {
    if n == 0 then 0 else 2 * Or(n - 1, a / 2, b / 2) + (if a % 2 == 1 || b % 2 == 1 then 1 else 0)
  }

  function Xor(n: nat, a: nat, b: nat): (c: nat)
    requires a < Pow2(n) && b < Pow2(n)
    ensures c < Pow2(n)
  {
    if n == 0 then 0 else 2 * Xor(n - 1, a / 2, b / 2) + (if a % 2 != b % 2 then 1 else 0)
  }

  lemma {:induction false} Pow2Sum(m: nat, n: nat)
    ensures Pow2(m + n) == Pow2(m) * Pow2(n)
  {
    if m > 0 {
      Pow2Sum(m - 1, n);
      assert Pow2(m + n) == 2 * Pow2(m + n - 1);
      assert 2 * (Pow2(m - 1) * Pow2(n)) == (2 * Pow2(m - 1)) * Pow2(n);
    }
  }

  lemma WordSpans()
    ensures Pow2(32) == U32_SPAN && Pow2(64) == U64_SPAN
  {
    hide Pow2;
    assert Pow2(8) == 256 by { Pow2Eight(); }
    Pow2Sum(8, 8);
    Pow2Sum(16, 16);
    Pow2Sum(32, 32);
  }

  lemma Pow2Eight()
    ensures Pow2(8) == 256
  {
    assert Pow2(4) == 16;
    Pow2Sum(4, 4);
  }

  function And64(a: u64, b: u64): (c: u64) {
    WordSpans();
    And(64, a, b)
  }

  function Or64(a: u64, b: u64): (c: u64) {
    WordSpans();
    Or(64, a, b)
  }

  function Not64(a: u64): (c: u64) { U64_SPAN - 1 - a }

  function Xor32(a: u32, b: u32): (c: u32) {
    WordSpans();
    Xor(32, a, b)
  }

  /** Bit `k`, counted from the least significant. */
  predicate Bit(a: nat, k: nat) { if k == 0 then a % 2 == 1 else Bit(a / 2, k - 1) }

  /** Each operation works bit by bit. */
  lemma {:induction false} BitsOf(n: nat, a: nat, b: nat, k: nat)
    requires a < Pow2(n) && b < Pow2(n) && k < n
    ensures Bit(And(n, a, b), k) <==> Bit(a, k) && Bit(b, k)
    ensures Bit(Or(n, a, b), k) <==> Bit(a, k) || Bit(b, k)
    ensures Bit(Xor(n, a, b), k) <==> Bit(a, k) != Bit(b, k)
  {
    if k > 0 { BitsOf(n - 1, a / 2, b / 2, k - 1); }
  }

  lemma {:induction false} BitNot(n: nat, a: nat, k: nat)
    requires a < Pow2(n) && k < n
    ensures Bit(Pow2(n) - 1 - a, k) <==> !Bit(a, k)
  {
    if k > 0 {
      BitNot(n - 1, a / 2, k - 1);
      assert (Pow2(n) - 1 - a) / 2 == Pow2(n - 1) - 1 - a / 2;
    }
  }

  /** On 64-bit words. */
  lemma WordBits(a: u64, b: u64, k: nat)
    requires k < 64
    ensures Bit(And64(a, b), k) <==> Bit(a, k) && Bit(b, k)
    ensures Bit(Or64(a, b), k) <==> Bit(a, k) || Bit(b, k)
    ensures Bit(Not64(a), k) <==> !Bit(a, k)
  {
    hide And, Or, Pow2, Bit;
    WordSpans();
    BitsOf(64, a, b, k);
    BitNot(64, a, k);
  }

  lemma {:induction false} AndCommutes(n: nat, a: nat, b: nat)
    requires a < Pow2(n) && b < Pow2(n)
    ensures And(n, a, b) == And(n, b, a)
  {
    if n > 0 { AndCommutes(n - 1, a / 2, b / 2); }
  }

  /** A word splits into its bits inside a mask and its bits outside it. */
  lemma {:induction false} Split(n: nat, a: nat, mask: nat)
    requires a < Pow2(n) && mask < Pow2(n)
    ensures And(n, a, mask) + And(n, a, Pow2(n) - 1 - mask) == a
  {
    if n > 0 {
      var rest := Pow2(n) - 1 - mask;
      assert rest / 2 == Pow2(n - 1) - 1 - mask / 2 && rest % 2 == 1 - mask % 2;
      Split(n - 1, a / 2, mask / 2);
    }
  }

  lemma And64Commutes(a: u64, b: u64)
    ensures And64(a, b) == And64(b, a)
  {
    WordSpans();
    AndCommutes(64, a, b);
  }

  /** The test for bits outside a mask. */
  lemma Covered(a: u64, mask: u64)
    ensures And64(a, Not64(mask)) == 0 <==> And64(a, mask) == a
  {
    hide And, Pow2;
    WordSpans();
    Split(64, a, mask);
  }
}
