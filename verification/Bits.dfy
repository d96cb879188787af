/** Bitwise operations on unsigned integers, bit by bit from the low end. */
module Bits {
  function Or(a: nat, b: nat): nat
    decreases a + b
  {
    if a == 0 then b else if b == 0 then a
    else 2 * Or(a / 2, b / 2) + (if a % 2 == 1 || b % 2 == 1 then 1 else 0)
  }

  function And(a: nat, b: nat): nat
    decreases a + b
  {
    if a == 0 || b == 0 then 0
    else 2 * And(a / 2, b / 2) + (if a % 2 == 1 && b % 2 == 1 then 1 else 0)
  }

  function Xor(a: nat, b: nat): nat
    decreases a + b
  {
    if a == 0 then b else if b == 0 then a
    else 2 * Xor(a / 2, b / 2) + (if a % 2 != b % 2 then 1 else 0)
  }

  /** `1 << n`. */
  function Bit(n: nat): (b: nat)
    ensures b > 0
  {
    if n == 0 then 1 else 2 * Bit(n - 1)
  }

  predicate HasBit(w: nat, n: nat)
  {
    if n == 0 then w % 2 == 1 else HasBit(w / 2, n - 1)
  }

  lemma {:induction false} ZeroHasNoBit(n: nat)
    ensures !HasBit(0, n)
  {
    if n > 0 {
      ZeroHasNoBit(n - 1);
    }
  }

  lemma {:induction false} OrHasBit(a: nat, b: nat, n: nat)
    ensures HasBit(Or(a, b), n) <==> HasBit(a, n) || HasBit(b, n)
    decreases n
  {
    ZeroHasNoBit(n);
    if a != 0 && b != 0 && n > 0 {
      OrHasBit(a / 2, b / 2, n - 1);
      assert Or(a, b) / 2 == Or(a / 2, b / 2);
    }
  }

  lemma {:induction false} BitHasBit(i: nat, n: nat)
    ensures HasBit(Bit(i), n) <==> i == n
  {
    if i == 0 {
      if n > 0 {
        ZeroHasNoBit(n - 1);
      }
    } else if n > 0 {
      BitHasBit(i - 1, n - 1);
      assert Bit(i) / 2 == Bit(i - 1);
    }
  }

  /** Testing a word against `1 << n`. */
  lemma {:induction false} AndBit(w: nat, n: nat)
    ensures And(w, Bit(n)) != 0 <==> HasBit(w, n)
    decreases n
  {
    if w == 0 {
      ZeroHasNoBit(n);
    } else if n == 0 {
      assert Bit(0) / 2 == 0;
    } else {
      AndBit(w / 2, n - 1);
      assert Bit(n) / 2 == Bit(n - 1) && Bit(n) % 2 == 0;
    }
  }

  /** Setting one bit sets that bit and no other. */
  lemma SetBit(w: nat, i: nat, n: nat)
    ensures And(Or(w, Bit(i)), Bit(n)) != 0 <==> And(w, Bit(n)) != 0 || i == n
  {
    AndBit(Or(w, Bit(i)), n);
    AndBit(w, n);
    OrHasBit(w, Bit(i), n);
    BitHasBit(i, n);
  }

  /** Words stay words. */
  lemma {:induction false} BelowBit(a: nat, b: nat, k: nat)
    requires a < Bit(k) && b < Bit(k)
    ensures Or(a, b) < Bit(k) && Xor(a, b) < Bit(k)
    decreases k
  {
    if a != 0 && b != 0 {
      assert k > 0 by { assert Bit(0) == 1; }
      BelowBit(a / 2, b / 2, k - 1);
    }
  }

  lemma HalfAndParity(x: nat, bit: nat)
    requires bit < 2
    ensures (2 * x + bit) / 2 == x && (2 * x + bit) % 2 == bit
  {
  }

  lemma {:induction false} XorParts(a: nat, b: nat)
    ensures Xor(a, b) % 2 == (if a % 2 != b % 2 then 1 else 0) && Xor(a, b) / 2 == Xor(a / 2, b / 2)
  {
    if a == 0 {
      assert a / 2 == 0;
    } else if b == 0 {
      assert b / 2 == 0;
      assert Xor(a / 2, 0) == a / 2;
    } else {
      HalfAndParity(Xor(a / 2, b / 2), if a % 2 != b % 2 then 1 else 0);
    }
  }

  /** Xor undoes itself. */
  lemma {:induction false} XorTwice(a: nat, b: nat)
    ensures Xor(Xor(a, b), b) == a
    decreases a + b
  {
    if a != 0 && b != 0 {
      XorTwice(a / 2, b / 2);
      XorParts(a, b);
      XorParts(Xor(a, b), b);
    } else if a == 0 && b != 0 {
      XorWithSelf(b);
    }
  }

  lemma {:induction false} XorWithSelf(b: nat)
    ensures Xor(b, b) == 0
  {
    if b != 0 {
      XorWithSelf(b / 2);
    }
  }

  lemma XorSymmetric(a: nat, b: nat)
    ensures Xor(a, b) == Xor(b, a)
    decreases a + b
  {
    if a != 0 && b != 0 {
      XorSymmetric(a / 2, b / 2);
    }
  }
}
