/** Bitwise arithmetic on the raw value of an option set.

    An option set stores its members as the one bits of an unsigned machine
    word; union is bitwise or, intersection is bitwise and, and membership of
    a flag is "the intersection with the flag gives back the flag". Here raw
    values are natural numbers, the bitwise operations are defined digit by
    digit in base two, and the lemmas tie each operation to what it does to
    every single bit.
 */
module OptionBits {

  /** 2^k. */
  function Pow2(k: nat): nat {
    if k == 0 then 1 else 2 * Pow2(k - 1)
  }

  /** Bit i of n (bit 0 is the least significant). */
  predicate Bit(n: nat, i: nat) {
    if i == 0 then n % 2 == 1 else Bit(n / 2, i - 1)
  }

  /** Bitwise or. */
  function Or(a: nat, b: nat): nat
    decreases a
  {
    if a == 0 then b
    else if b == 0 then a
    else 2 * Or(a / 2, b / 2) + (if a % 2 == 1 || b % 2 == 1 then 1 else 0)
  }

  /** Bitwise and. */
  function And(a: nat, b: nat): nat
    decreases a
  {
    if a == 0 || b == 0 then 0
    else 2 * And(a / 2, b / 2) + (if a % 2 == 1 && b % 2 == 1 then 1 else 0)
  }

  /** Zero has no bit set. */
  lemma {:induction false} ZeroHasNoBits(i: nat)
    ensures !Bit(0, i)
  {
    if i > 0 {
      ZeroHasNoBits(i - 1);
    }
  }

  /** Bit i of 2n + c is c for i = 0 and bit i - 1 of n above it. */
  lemma ShiftedBit(n: nat, c: nat, i: nat)
    requires c < 2
    ensures Bit(2 * n + c, i) == if i == 0 then c == 1 else Bit(n, i - 1)
  {
    assert (2 * n + c) / 2 == n;
    assert (2 * n + c) % 2 == c;
  }

  /** A bit of a or b is set exactly when it is set in a or in b. */
  lemma {:induction false} OrBit(a: nat, b: nat, i: nat)
    ensures Bit(Or(a, b), i) == (Bit(a, i) || Bit(b, i))
    decreases a
  {
    if a == 0 {
      ZeroHasNoBits(i);
    } else if b == 0 {
      ZeroHasNoBits(i);
    } else {
      var c := if a % 2 == 1 || b % 2 == 1 then 1 else 0;
      ShiftedBit(Or(a / 2, b / 2), c, i);
      if i > 0 {
        OrBit(a / 2, b / 2, i - 1);
      }
    }
  }

  /** A bit of a and b is set exactly when it is set in both a and b. */
  lemma {:induction false} AndBit(a: nat, b: nat, i: nat)
    ensures Bit(And(a, b), i) == (Bit(a, i) && Bit(b, i))
    decreases a
  {
    if a == 0 || b == 0 {
      ZeroHasNoBits(i);
    } else {
      var c := if a % 2 == 1 && b % 2 == 1 then 1 else 0;
      ShiftedBit(And(a / 2, b / 2), c, i);
      if i > 0 {
        AndBit(a / 2, b / 2, i - 1);
      }
    }
  }

  /** Two raw values with the same bits are the same number. */
  lemma {:induction false} SameBitsSameValue(a: nat, b: nat)
    requires forall i: nat :: Bit(a, i) == Bit(b, i)
    ensures a == b
    decreases a + b
  {
    if a != 0 || b != 0 {
      assert Bit(a, 0) == Bit(b, 0);
      forall i: nat ensures Bit(a / 2, i) == Bit(b / 2, i) {
        assert Bit(a, i + 1) == Bit(b, i + 1);
      }
      SameBitsSameValue(a / 2, b / 2);
    }
  }

  /** Or of two values below 2^k stays below 2^k: the union of two words is a word. */
  lemma {:induction false} OrBelow(a: nat, b: nat, k: nat)
    requires a < Pow2(k) && b < Pow2(k)
    ensures Or(a, b) < Pow2(k)
  {
    if a != 0 && b != 0 {
      assert k > 0;
      OrBelow(a / 2, b / 2, k - 1);
    }
  }

  /** And never exceeds its first operand: the intersection of a word with anything is a word. */
  lemma {:induction false} AndAtMost(a: nat, b: nat)
    ensures And(a, b) <= a
    decreases a
  {
    if a != 0 && b != 0 {
      AndAtMost(a / 2, b / 2);
    }
  }

  /** Or is commutative. */
  lemma OrCommutes(a: nat, b: nat)
    ensures Or(a, b) == Or(b, a)
  {
    forall i: nat ensures Bit(Or(a, b), i) == Bit(Or(b, a), i) {
      OrBit(a, b, i);
      OrBit(b, a, i);
    }
    SameBitsSameValue(Or(a, b), Or(b, a));
  }

  /** "m is contained in s" in the option-set sense, And(s, m) == m, holds
      exactly when every bit of m is a bit of s. */
  lemma SubsetByBits(s: nat, m: nat)
    ensures And(s, m) == m <==> forall i: nat :: Bit(m, i) ==> Bit(s, i)
  {
    forall i: nat ensures Bit(And(s, m), i) == (Bit(s, i) && Bit(m, i)) {
      AndBit(s, m, i);
    }
    if forall i: nat :: Bit(m, i) ==> Bit(s, i) {
      SameBitsSameValue(And(s, m), m);
    } else {
      var i: nat :| Bit(m, i) && !Bit(s, i);
      AndBit(s, m, i);
      assert Bit(And(s, m), i) != Bit(m, i);
    }
  }

  /** Both operands of an or are contained in it. */
  lemma OrContainsOperands(a: nat, b: nat)
    ensures And(Or(a, b), a) == a
    ensures And(Or(a, b), b) == b
  {
    forall i: nat ensures Bit(a, i) ==> Bit(Or(a, b), i) {
      OrBit(a, b, i);
    }
    forall i: nat ensures Bit(b, i) ==> Bit(Or(a, b), i) {
      OrBit(a, b, i);
    }
    SubsetByBits(Or(a, b), a);
    SubsetByBits(Or(a, b), b);
  }

  /** 2^k has bit k and no other. */
  lemma {:induction false} PowerBit(k: nat, i: nat)
    ensures Bit(Pow2(k), i) == (i == k)
  {
    if k == 0 {
      if i > 0 {
        ZeroHasNoBits(i - 1);
      }
    } else {
      ShiftedBit(Pow2(k - 1), 0, i);
      if i > 0 {
        PowerBit(k - 1, i - 1);
      }
    }
  }
}
