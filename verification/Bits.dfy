/** Shifts, masks and bitwise operations on words, as arithmetic. */
module Bits {
  import opened Words

  function ShiftRight(x: nat, w: nat): nat {
    if w == 0 then x else ShiftRight(x / 2, w - 1)
  }

  lemma {:induction false} OrZero(n: nat, a: nat)
    requires a < Pow2(n)
    ensures Bitwise(BitOr, n, a, 0) == a
  {
    if n != 0 {
      OrZero(n - 1, a / 2);
    }
  }

  lemma {:induction false} AndZero(n: nat, a: nat)
    ensures Bitwise(BitAnd, n, a, 0) == 0
  {
    if n != 0 {
      AndZero(n - 1, a / 2);
    }
  }

  // The halves of a shifted number and a number that fits below it.
  lemma HalfOfSum(w: nat, a: nat, b: nat)
    requires w > 0 && b < Pow2(w)
    ensures a * Pow2(w) == 2 * (a * Pow2(w - 1)) && b / 2 < Pow2(w - 1)
    ensures (a * Pow2(w) + b) / 2 == a * Pow2(w - 1) + b / 2 && (a * Pow2(w) + b) % 2 == b % 2
  {
    var x := a * Pow2(w - 1);
    assert a * Pow2(w) == 2 * x;
  }

  // A shifted number, or a number that fits below it, is their sum.
  lemma {:induction false} OrIsSum(n: nat, w: nat, a: nat, b: nat)
    requires b < Pow2(w) && a * Pow2(w) + b < Pow2(n) && w <= n
    ensures Bitwise(BitOr, n, a * Pow2(w), b) == a * Pow2(w) + b
  {
    if w == 0 {
      OrZero(n, a);
    } else {
      HalfOfSum(w, a, b);
      OrIsSum(n - 1, w - 1, a, b / 2);
    }
  }

  // Shifting the sum gives the upper part back.
  lemma {:induction false} ShiftOfSum(w: nat, a: nat, b: nat)
    requires b < Pow2(w)
    ensures a * Pow2(w) + b >= 0 && ShiftRight(a * Pow2(w) + b, w) == a
  {
    if w > 0 {
      HalfOfSum(w, a, b);
      ShiftOfSum(w - 1, a, b / 2);
    }
  }

  // The mask gives the lower part back.
  lemma {:induction false} MaskOfSum(n: nat, w: nat, a: nat, b: nat)
    requires b < Pow2(w) && w <= n
    ensures a * Pow2(w) + b >= 0 && Bitwise(BitAnd, n, a * Pow2(w) + b, Pow2(w) - 1) == b
  {
    if w == 0 {
      AndZero(n, a);
    } else {
      HalfOfSum(w, a, b);
      assert (Pow2(w) - 1) / 2 == Pow2(w - 1) - 1 && (Pow2(w) - 1) % 2 == 1;
      MaskOfSum(n - 1, w - 1, a, b / 2);
    }
  }

  lemma {:induction false} MaskBound(n: nat, w: nat, x: nat)
    requires w <= n
    ensures Bitwise(BitAnd, n, x, Pow2(w) - 1) < Pow2(w)
  {
    if w == 0 {
      AndZero(n, x);
    } else {
      assert (Pow2(w) - 1) / 2 == Pow2(w - 1) - 1;
      MaskBound(n - 1, w - 1, x / 2);
    }
  }

  lemma {:induction false} Pow2Sum(a: nat, b: nat)
    ensures Pow2(a + b) == Pow2(a) * Pow2(b)
  {
    if a > 0 {
      Pow2Sum(a - 1, b);
      Associate(Pow2(a - 1), Pow2(b));
    }
  }

  lemma Associate(x: int, y: int)
    ensures 2 * (x * y) == (2 * x) * y
  {
  }
}
