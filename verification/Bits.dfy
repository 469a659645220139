/** Bitwise operations on non-negative integers.

    The kernel masks and merges 64-bit words with `&` and `|`.  Here both are
    defined bit by bit on `nat`, and the laws the page tables and the frame
    bitmap rely on are proved once. */
module Bits {

  function Pow2(n: nat): (p: nat)
    ensures p > 0
  {
    if n == 0 then 1 else 2 * Pow2(n - 1)
  }

  function And(a: nat, b: nat): (r: nat)
    ensures a == 0 || b == 0 ==> r == 0
  {
    if a == 0 || b == 0 then 0
    else 2 * And(a / 2, b / 2) + (if a % 2 == 1 && b % 2 == 1 then 1 else 0)
  }

  function Or(a: nat, b: nat): (r: nat)
    ensures a == 0 ==> r == b
    ensures b == 0 ==> r == a
  {
    if a == 0 then b
    else if b == 0 then a
    else 2 * Or(a / 2, b / 2) + (if a % 2 == 1 || b % 2 == 1 then 1 else 0)
  }

  // Laws of the two operations

  lemma {:induction false} AndHalves(a: nat, b: nat)
    ensures And(a, b) / 2 == And(a / 2, b / 2)
    ensures And(a, b) % 2 == if a % 2 == 1 && b % 2 == 1 then 1 else 0
  {
    if a != 0 && b != 0 { var x := And(a / 2, b / 2); }
  }

  lemma {:induction false} OrHalves(a: nat, b: nat)
    ensures Or(a, b) / 2 == Or(a / 2, b / 2)
    ensures Or(a, b) % 2 == if a % 2 == 1 || b % 2 == 1 then 1 else 0
  {
    if a != 0 && b != 0 { var x := Or(a / 2, b / 2); }
  }

  /** The same step on words given as 2 a + x and 2 b + y. */
  lemma AndStep(a: nat, x: nat, b: nat, y: nat)
    requires x < 2 && y < 2
    ensures And(2 * a + x, 2 * b + y) == 2 * And(a, b) + (if x == 1 && y == 1 then 1 else 0)
  {
    assert (2 * a + x) / 2 == a && (2 * b + y) / 2 == b;
    AndHalves(2 * a + x, 2 * b + y);
  }

  lemma {:induction false} AndCommutes(a: nat, b: nat)
    ensures And(a, b) == And(b, a)
  {
    if a == 0 || b == 0 {
    } else {
      AndCommutes(a / 2, b / 2);
    }
  }

  lemma {:induction false} AndAssociates(a: nat, b: nat, c: nat)
    ensures And(And(a, b), c) == And(a, And(b, c))
    decreases a
  {
    if a == 0 || b == 0 || c == 0 {
    } else {
      AndAssociates(a / 2, b / 2, c / 2);
      AndHalves(a, b);
      AndHalves(b, c);
      AndHalves(And(a, b), c);
      AndHalves(a, And(b, c));
    }
  }

  /** Masking distributes over merging: each field of a merged word can be read
      off the words it was merged from. */
  lemma {:induction false} AndDistributes(a: nat, b: nat, c: nat)
    ensures And(Or(a, b), c) == Or(And(a, c), And(b, c))
    decreases a + b
  {
    if a == 0 || b == 0 || c == 0 {
    } else {
      AndDistributes(a / 2, b / 2, c / 2);
      OrHalves(a, b);
      AndHalves(a, c);
      AndHalves(b, c);
      AndHalves(Or(a, b), c);
      OrHalves(And(a, c), And(b, c));
    }
  }

  lemma {:induction false} AndIdempotent(a: nat)
    ensures And(a, a) == a
  {
    if a == 0 {
    } else {
      AndIdempotent(a / 2);
    }
  }

  lemma {:induction false} OrIsZero(a: nat, b: nat)
    ensures Or(a, b) == 0 <==> a == 0 && b == 0
  {
    if a == 0 || b == 0 {
    } else {
      OrIsZero(a / 2, b / 2);
    }
  }

  lemma {:induction false} AndBound(a: nat, b: nat)
    ensures And(a, b) <= a && And(a, b) <= b
  {
    if a == 0 || b == 0 {
    } else {
      AndBound(a / 2, b / 2);
    }
  }

  lemma {:induction false} OrBound(a: nat, b: nat, n: nat)
    requires a < Pow2(n) && b < Pow2(n)
    ensures Or(a, b) < Pow2(n)
    decreases n
  {
    if n == 0 {
    } else {
      OrBound(a / 2, b / 2, n - 1);
    }
  }

  // Arithmetic meaning of masks

  /** Two words whose set bits do not overlap merge into their sum. */
  lemma {:induction false} OrIsSum(a: nat, b: nat, n: nat)
    requires a % Pow2(n) == 0 && b < Pow2(n)
    ensures Or(a, b) == a + b
    decreases n
  {
    if n == 0 {
    } else {
      HalfMod(a, Pow2(n - 1));
      OrIsSum(a / 2, b / 2, n - 1);
    }
  }

  lemma HalfMod(a: nat, p: nat)
    requires p > 0
    ensures a % (2 * p) == 2 * ((a / 2) % p) + a % 2
    ensures a / (2 * p) == (a / 2) / p
  {
    var q, r := (a / 2) / p, (a / 2) % p;
    assert a / 2 == q * p + r;
    assert a == q * (2 * p) + (2 * r + a % 2);
    DivModUnique(a, 2 * p, q, 2 * r + a % 2);
  }

  lemma DivModUnique(a: nat, d: nat, q: nat, r: nat)
    requires d > 0 && a == q * d + r && r < d
    ensures a / d == q && a % d == r
  {
    if q < a / d {
      MulMonotone(q + 1, a / d, d);
    } else if a / d < q {
      MulMonotone(a / d + 1, q, d);
    }
  }

  lemma MulMonotone(x: nat, y: nat, d: nat)
    requires x <= y
    ensures x * d <= y * d
  {
  }

  /** `x & (2^n - 1)` is the remainder modulo `2^n`. */
  lemma {:induction false} LowMask(x: nat, n: nat)
    ensures And(x, Pow2(n) - 1) == x % Pow2(n)
    decreases n
  {
    if n == 0 {
    } else {
      HalfMod(x, Pow2(n - 1));
      assert (Pow2(n) - 1) / 2 == Pow2(n - 1) - 1;
      LowMask(x / 2, n - 1);
    }
  }

  /** A bit above all bits of a number is not set in it. */
  lemma {:induction false} AndAbove(a: nat, n: nat)
    requires a < Pow2(n)
    ensures And(a, Pow2(n)) == 0
    decreases n
  {
    if n == 0 || a == 0 {
    } else {
      AndAbove(a / 2, n - 1);
      AndDouble(a, Pow2(n - 1));
    }
  }

  lemma AndDouble(x: nat, m: nat)
    ensures And(x, 2 * m) == 2 * And(x / 2, m)
  {
    AndStep(x / 2, x % 2, m, 0);
  }

  function Shl(x: nat, k: nat): nat
  {
    if k == 0 then x else 2 * Shl(x, k - 1)
  }

  function Shr(x: nat, k: nat): nat
    decreases k
  {
    if k == 0 then x else Shr(x / 2, k - 1)
  }

  /** A mask shifted left by `k` selects the same bits of the word shifted right. */
  lemma {:induction false} ShiftedMask(x: nat, m: nat, k: nat)
    ensures And(x, Shl(m, k)) == Shl(And(Shr(x, k), m), k)
    decreases k
  {
    if k == 0 {
    } else {
      ShiftedMask(x / 2, m, k - 1);
      AndDouble(x, Shl(m, k - 1));
    }
  }

  lemma {:induction false} ShlIsProduct(x: nat, k: nat)
    ensures Shl(x, k) == Pow2(k) * x
  {
    if k == 0 {
    } else {
      ShlIsProduct(x, k - 1);
      Regroup(Pow2(k - 1), x);
    }
  }

  lemma Regroup(p: nat, a: nat)
    ensures 2 * (p * a) == (2 * p) * a
  {
  }

  lemma ShiftByTwelve(x: nat)
    ensures Shl(x, 12) == 0x1000 * x
    ensures Shr(x, 12) == x / 0x1000
  {
    ShlIsProduct(x, 12);
    PowerConstants();
    var y := x / 2 / 2 / 2 / 2 / 2 / 2;
    assert Shr(x, 12) == Shr(y, 6);
    assert Shr(y, 6) == y / 2 / 2 / 2 / 2 / 2 / 2;
  }

  lemma PowerConstants()
    ensures Pow2(8) == 0x100
    ensures Pow2(12) == 0x1000
    ensures Pow2(40) == 0x100_0000_0000
    ensures Pow2(64) == 0x1_0000_0000_0000_0000
  {
    assert Pow2(4) == 0x10;
    assert Pow2(16) == 0x1_0000;
    assert Pow2(24) == 0x100_0000;
    assert Pow2(32) == 0x1_0000_0000;
    assert Pow2(40) == 0x100_0000_0000;
    assert Pow2(48) == 0x1_0000_0000_0000;
    assert Pow2(56) == 0x100_0000_0000_0000;
  }
}
