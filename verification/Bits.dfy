/** Bitwise operations on unsigned words. */
module Bits {

  function And(a: nat, b: nat): nat {
    if a == 0 || b == 0 then 0 else 2 * And(a / 2, b / 2) + a % 2 * (b % 2)
  }

  function Or(a: nat, b: nat): nat {
    if a == 0 then b
    else if b == 0 then a
    else 2 * Or(a / 2, b / 2) + if a % 2 == 1 || b % 2 == 1 then 1 else 0
  }

  function Xor(a: nat, b: nat): nat {
    if a == 0 then b
    else if b == 0 then a
    else 2 * Xor(a / 2, b / 2) + if a % 2 == b % 2 then 0 else 1
  }

  function Shifted(k: nat): (r: nat)
    ensures r > 0
  {
    if k == 0 then 1 else 2 * Shifted(k - 1)
  }

  /** Bit `k` of `a`. */
  predicate Bit(a: nat, k: nat) {
    if k == 0 then a % 2 == 1 else Bit(a / 2, k - 1)
  }

  lemma {:induction false} OrIsZero(a: nat, b: nat)
    ensures Or(a, b) == 0 <==> a == 0 && b == 0
  {
    if a != 0 && b != 0 {
      OrIsZero(a / 2, b / 2);
    }
  }

  lemma {:induction false} XorIsZero(a: nat, b: nat)
    ensures Xor(a, b) == 0 <==> a == b
  {
    if a != 0 && b != 0 {
      XorIsZero(a / 2, b / 2);
    }
  }

  lemma {:induction false} BitOfZero(k: nat)
    ensures !Bit(0, k)
  {
    if k != 0 {
      BitOfZero(k - 1);
    }
  }

  lemma {:induction false} BitOfOr(a: nat, b: nat, k: nat)
    ensures Bit(Or(a, b), k) <==> Bit(a, k) || Bit(b, k)
  {
    if a == 0 || b == 0 {
      BitOfZero(k);
    } else if k != 0 {
      BitOfOr(a / 2, b / 2, k - 1);
    }
  }

  lemma {:induction false} BitOfShifted(j: nat, k: nat)
    ensures Bit(Shifted(j), k) <==> j == k
  {
    if j == 0 && k != 0 {
      BitOfZero(k - 1);
    } else if j != 0 && k != 0 {
      BitOfShifted(j - 1, k - 1);
    }
  }

  /** Masking with one bit tests it. */
  lemma {:induction false} AndShifted(a: nat, k: nat)
    ensures And(a, Shifted(k)) != 0 <==> Bit(a, k)
  {
    if a == 0 {
      BitOfZero(k);
    } else if k != 0 {
      AndShifted(a / 2, k - 1);
    }
  }

  /** A word below a power of two stays below it when a lower bit is set. */
  lemma {:induction false} OrStaysBelow(a: nat, j: nat, k: nat)
    requires a < Shifted(k) && j < k
    ensures Or(a, Shifted(j)) < Shifted(k)
  {
    if a != 0 {
      if j != 0 {
        OrStaysBelow(a / 2, j - 1, k - 1);
      }
    } else {
      ShiftedGrows(j, k);
    }
  }

  lemma {:induction false} ShiftedGrows(j: nat, k: nat)
    requires j < k
    ensures Shifted(j) < Shifted(k)
  {
    if j + 1 != k {
      ShiftedGrows(j, k - 1);
    }
  }

  predicate Odd(a: nat) {
    a % 2 == 1
  }

  lemma SameWord(a: nat, b: nat)
    requires (Odd(a) <==> Odd(b)) && a / 2 == b / 2
    ensures a == b
  {
  }

  /** Exclusive or works bit by bit. */
  lemma XorHalves(a: nat, b: nat)
    ensures (Odd(Xor(a, b)) <==> Odd(a) != Odd(b)) && Xor(a, b) / 2 == Xor(a / 2, b / 2)
  {
    if a != 0 && b != 0 {
      Halve(Xor(a / 2, b / 2), a % 2 != b % 2);
    }
  }

  lemma Halve(h: nat, low: bool)
    ensures var a := 2 * h + if low then 1 else 0; a / 2 == h && (Odd(a) <==> low)
  {
  }

  lemma TwoXors(a: nat, b: nat, c: nat)
    ensures Odd(Xor(Xor(a, b), c)) <==> ((Odd(a) != Odd(b)) != Odd(c))
    ensures Xor(Xor(a, b), c) / 2 == Xor(Xor(a / 2, b / 2), c / 2)
  {
    hide Xor, Odd;
    XorHalves(a, b);
    XorHalves(Xor(a, b), c);
  }

  lemma {:induction false} XorSwap(a: nat, b: nat, c: nat)
    ensures Xor(Xor(a, b), c) == Xor(Xor(a, c), b)
    decreases a + b + c
  {
    if a + b + c != 0 {
      XorSwap(a / 2, b / 2, c / 2);
      TwoXors(a, b, c);
      TwoXors(a, c, b);
      SameWord(Xor(Xor(a, b), c), Xor(Xor(a, c), b));
    }
  }

  lemma {:induction false} XorCancels(a: nat, b: nat)
    ensures Xor(Xor(a, b), b) == a
    decreases a + b
  {
    if a + b != 0 {
      XorCancels(a / 2, b / 2);
      TwoXors(a, b, b);
      SameWord(Xor(Xor(a, b), b), a);
    }
  }

  lemma {:induction false} XorStaysBelow(a: nat, b: nat, k: nat)
    requires a < Shifted(k) && b < Shifted(k)
    ensures Xor(a, b) < Shifted(k)
  {
    if a != 0 && b != 0 {
      XorStaysBelow(a / 2, b / 2, k - 1);
    }
  }
}
