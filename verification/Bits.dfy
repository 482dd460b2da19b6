/** Bitwise operations on unsigned numbers. */
module Bits {

  function BitAnd(x: nat, y: nat): nat {
    if x == 0 then 0 else (if x % 2 == 1 && y % 2 == 1 then 1 else 0) + 2 * BitAnd(x / 2, y / 2)
  }

  function BitXor(x: nat, y: nat): nat {
    if x == 0 then y else (if x % 2 != y % 2 then 1 else 0) + 2 * BitXor(x / 2, y / 2)
  }

  function BitOr(x: nat, y: nat): nat {
    BitXor(x, y) + BitAnd(x, y)
  }

  /** Bit `i` of a number. */
  predicate Bit(x: nat, i: nat) {
    if i == 0 then x % 2 == 1 else Bit(x / 2, i - 1)
  }

  /** Numbers with the same bits are equal, so the bits below say all about the operations. */
  lemma {:induction false} SameBits(x: nat, y: nat)
    requires forall i :: Bit(x, i) == Bit(y, i)
    ensures x == y
    decreases x + y
  {
    if x + y > 0 {
      assert Bit(x, 0) == Bit(y, 0);
      forall i: nat
        ensures Bit(x / 2, i) == Bit(y / 2, i)
      {
        assert Bit(x, i + 1) == Bit(y, i + 1);
      }
      SameBits(x / 2, y / 2);
    }
  }

  lemma BitStep(x: nat, half: nat, i: nat)
    requires half == x / 2 && i > 0
    ensures Bit(x, i) == Bit(half, i - 1)
  {
  }

  /** And, or and xor work bit by bit. */
  lemma {:induction false} BitwiseBits(x: nat, y: nat, i: nat)
    ensures Bit(BitAnd(x, y), i) <==> Bit(x, i) && Bit(y, i)
    ensures Bit(BitOr(x, y), i) <==> Bit(x, i) || Bit(y, i)
    ensures Bit(BitXor(x, y), i) <==> Bit(x, i) != Bit(y, i)
    decreases i
  {
    BitwiseHalves(x, y);
    if i > 0 {
      BitStep(BitAnd(x, y), BitAnd(x / 2, y / 2), i);
      BitStep(BitOr(x, y), BitOr(x / 2, y / 2), i);
      BitStep(BitXor(x, y), BitXor(x / 2, y / 2), i);
      BitwiseBits(x / 2, y / 2, i - 1);
    }
  }

  lemma BitwiseHalves(x: nat, y: nat)
    ensures BitAnd(x, y) / 2 == BitAnd(x / 2, y / 2)
    ensures BitAnd(x, y) % 2 == if x % 2 == 1 && y % 2 == 1 then 1 else 0
    ensures BitXor(x, y) / 2 == BitXor(x / 2, y / 2)
    ensures BitXor(x, y) % 2 == if x % 2 != y % 2 then 1 else 0
    ensures BitOr(x, y) / 2 == BitOr(x / 2, y / 2)
    ensures BitOr(x, y) % 2 == if x % 2 == 1 || y % 2 == 1 then 1 else 0
  {
  }

  function Pow2(k: nat): (p: nat)
    ensures p > 0
  {
    if k == 0 then 1 else 2 * Pow2(k - 1)
  }

  lemma EvenMultiple(m: nat, p: nat)
    ensures m * (2 * p) == 2 * (m * p) && m * (2 * p) % 2 == 0 && m * (2 * p) / 2 == m * p
  {
  }

  /** Numbers without a common bit: or is the sum. */
  lemma {:induction false} OrIsSum(x: nat, m: nat, k: nat)
    requires x < Pow2(k)
    ensures BitAnd(x, m * Pow2(k)) == 0 && BitXor(x, m * Pow2(k)) == x + m * Pow2(k)
    ensures BitOr(x, m * Pow2(k)) == x + m * Pow2(k)
    decreases k
  {
    if k > 0 {
      OrIsSum(x / 2, m, k - 1);
      EvenMultiple(m, Pow2(k - 1));
      OrStep(x, m * Pow2(k), m * Pow2(k - 1));
    }
  }

  lemma OrStep(x: nat, y: nat, half: nat)
    requires y == 2 * half && BitAnd(x / 2, half) == 0 && BitXor(x / 2, half) == x / 2 + half
    ensures BitAnd(x, y) == 0 && BitXor(x, y) == x + y
  {
    BitwiseHalves(x, y);
  }

  lemma SevenBits(k: nat)
    ensures Pow2(k + 7) == 128 * Pow2(k)
  {
    assert Pow2(k + 2) == 4 * Pow2(k) by {
      assert Pow2(k + 2) == 2 * Pow2(k + 1);
    }
    assert Pow2(k + 4) == 4 * Pow2(k + 2) by {
      assert Pow2(k + 4) == 2 * Pow2(k + 3);
    }
    assert Pow2(k + 6) == 4 * Pow2(k + 4) by {
      assert Pow2(k + 6) == 2 * Pow2(k + 5);
    }
  }
}
