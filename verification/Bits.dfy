/** Bit operations on non-negative integers, of any width. */
module Bits {

  /** `x` shifted right by `n`. */
  function Shr(x: nat, n: nat): (y: int)
    ensures y >= 0
    decreases n
  {
    if n == 0 then x else Shr(x / 2, n - 1)
  }

  /** Bitwise exclusive or. */
  function Xor(a: nat, b: nat): (x: int)
    ensures x >= 0
    decreases a + b
  {
    if a == 0 && b == 0 then 0
    else 2 * Xor(a / 2, b / 2) + if a % 2 == b % 2 then 0 else 1
  }

  /** Bitwise or. */
  function Or(a: nat, b: nat): (x: int)
    ensures x >= 0
    decreases a + b
  {
    if a == 0 && b == 0 then 0
    else 2 * Or(a / 2, b / 2) + if a % 2 == 0 && b % 2 == 0 then 0 else 1
  }

  /** `x` with the bits of `m` cleared. */
  function AndNot(x: nat, m: nat): (r: int)
    ensures r >= 0
    decreases x
  {
    if x == 0 then 0
    else 2 * AndNot(x / 2, m / 2) + if x % 2 == 1 && m % 2 == 0 then 1 else 0
  }

  /** The mask 2^n - 1. */
  function Ones(n: nat): (m: int)
    ensures m >= 0
  {
    if n == 0 then 0 else 2 * Ones(n - 1) + 1
  }

  /** The start of the aligned block of 2^n that holds `x`. */
  function Floor(x: nat, n: nat): (f: int)
    ensures 0 <= f <= x
    decreases n
  {
    if n == 0 then x else 2 * Floor(x / 2, n - 1)
  }

  lemma {:induction false} XorZero(a: nat, b: nat)
    ensures Xor(a, b) == 0 <==> a == b
    decreases a + b
  {
    if a != 0 || b != 0 {
      XorZero(a / 2, b / 2);
    }
  }

  lemma {:induction false} XorHalf(a: nat, b: nat)
    ensures Xor(a, b) / 2 == Xor(a / 2, b / 2)
  {
  }

  lemma {:induction false} ShrLast(x: nat, n: nat)
    ensures Shr(x, n + 1) == Shr(x, n) / 2
    decreases n
  {
    if n > 0 {
      ShrLast(x / 2, n - 1);
    }
  }

  lemma {:induction false} AndNotOnes(x: nat, n: nat)
    ensures AndNot(x, Ones(n)) == Floor(x, n)
    decreases n
  {
    if n > 0 {
      AndNotOnes(x / 2, n - 1);
    } else {
      AndNotZero(x);
    }
  }

  lemma {:induction false} AndNotZero(x: nat)
    ensures AndNot(x, 0) == x
  {
    if x > 0 {
      AndNotZero(x / 2);
    }
  }

  function Max(a: nat, b: nat): nat {
    if a < b then b else a
  }

  lemma {:induction false} OnesBits(n: nat)
    requires n > 0
    ensures Ones(n) / 2 == Ones(n - 1) && Ones(n) % 2 == 1
  {
  }

  lemma {:induction false} OrStep(a: nat, b: nat)
    requires a % 2 == 1 || b % 2 == 1
    ensures Or(a, b) == 2 * Or(a / 2, b / 2) + 1
  {
  }

  lemma {:induction false} OrOnes(i: nat, j: nat)
    ensures Or(Ones(i), Ones(j)) == Ones(Max(i, j))
    decreases i + j
  {
    if i > 0 {
      OnesBits(i);
    }
    if j > 0 {
      OnesBits(j);
    }
    if i > 0 || j > 0 {
      OrStep(Ones(i), Ones(j));
      OrOnes(if i > 0 then i - 1 else 0, if j > 0 then j - 1 else 0);
    }
  }

  lemma {:induction false} FloorTwice(x: nat, i: nat, j: nat)
    ensures Floor(Floor(x, i), j) == Floor(x, Max(i, j))
    decreases i + j
  {
    if i > 0 && j > 0 {
      FloorTwice(x / 2, i - 1, j - 1);
    }
  }

  /** Bitwise and. */
  function And(a: nat, b: nat): (x: int)
    ensures x >= 0
    decreases a
  {
    if a == 0 then 0 else 2 * And(a / 2, b / 2) + if a % 2 == 1 && b % 2 == 1 then 1 else 0
  }

  /** A mask of ones folds a number below twice its size back into its range. */
  lemma {:induction false} AndFolds(x: nat, n: nat)
    requires x < 2 * (Ones(n) + 1)
    ensures And(x, Ones(n)) == if x <= Ones(n) then x else x - Ones(n) - 1
    decreases n
  {
    if n > 0 {
      AndFolds(x / 2, n - 1);
    } else if x == 1 {
      assert And(0, 0) == 0;
    }
  }

  predicate PowerOfTwo(n: nat)
    decreases n
  {
    n == 1 || (n > 1 && n % 2 == 0 && PowerOfTwo(n / 2))
  }

  lemma {:induction false} AndSelf(n: nat)
    ensures And(n, n) == n
  {
    if n > 0 {
      AndSelf(n / 2);
    }
  }

  /** The usual test for a power of two is right. */
  lemma {:induction false} PowerOfTwoTest(n: nat)
    requires n >= 1
    ensures And(n, n - 1) == 0 <==> PowerOfTwo(n)
    decreases n
  {
    if n > 1 && n % 2 == 0 {
      PowerOfTwoTest(n / 2);
      assert (n - 1) / 2 == n / 2 - 1;
    } else if n > 1 {
      AndSelf(n / 2);
      assert (n - 1) / 2 == n / 2;
    } else {
      assert And(0, 0) == 0;
    }
  }

  lemma {:induction false} PowerOfTwoLessOne(n: nat) returns (k: nat)
    requires PowerOfTwo(n)
    ensures n - 1 == Ones(k)
    decreases n
  {
    if n == 1 {
      k := 0;
    } else {
      k := PowerOfTwoLessOne(n / 2);
      k := k + 1;
    }
  }
}
