/** Bitwise operations on naturals, and the masks and shifts of the page-table code as arithmetic. */
module Bits {

  const TWO64: nat := 0x1_0000_0000_0000_0000

  function And(x: nat, y: nat): nat {
    if x == 0 || y == 0 then 0 else x % 2 * (y % 2) + 2 * And(x / 2, y / 2)
  }

  function Or(x: nat, y: nat): nat {
    if x == 0 then y
    else if y == 0 then x
    else (if x % 2 == 1 || y % 2 == 1 then 1 else 0) + 2 * Or(x / 2, y / 2)
  }

  function Pow2(k: nat): (p: nat)
    ensures p > 0
  {
    if k == 0 then 1 else 2 * Pow2(k - 1)
  }

  /** 64-bit complement and shifts. */
  function Not(x: nat): nat
    requires x < TWO64
  {
    TWO64 - 1 - x
  }

  function Shl(x: nat, k: nat): nat { x * Pow2(k) % TWO64 }

  function Quotient(x: nat, d: nat): nat
    requires d > 0
  {
    x / d
  }

  function Shr(x: nat, k: nat): nat { Quotient(x, Pow2(k)) }

  lemma DivModUnique(x: nat, d: nat, q: nat, r: nat)
    requires d > 0 && r < d && x == q * d + r
    ensures x / d == q && x % d == r
  {
    EuclidUnique(d, x / d, x % d, q, r);
  }

  lemma {:induction false} EuclidUnique(d: nat, q1: nat, r1: nat, q2: nat, r2: nat)
    requires r1 < d && r2 < d && q1 * d + r1 == q2 * d + r2
    ensures q1 == q2 && r1 == r2
  {
    if q1 > 0 && q2 > 0 {
      assert q1 * d == (q1 - 1) * d + d && q2 * d == (q2 - 1) * d + d;
      EuclidUnique(d, q1 - 1, r1, q2 - 1, r2);
    } else {
      MulMono(if q1 > 0 then 1 else 0, q1, d);
      MulMono(if q2 > 0 then 1 else 0, q2, d);
    }
  }

  lemma {:induction false} MulMono(a: nat, b: nat, d: nat)
    requires a <= b
    ensures a * d <= b * d
  {
    if a < b {
      MulMono(a, b - 1, d);
      assert b * d == (b - 1) * d + d;
    }
  }

  /** One binary digit more. */
  lemma HalfMod(x: nat, m: nat)
    requires m > 0
    ensures x % (2 * m) == x % 2 + 2 * (x / 2 % m)
  {
    var y := x / 2;
    var q, r := y / m, y % m;
    assert y == q * m + r;
    assert x == q * (2 * m) + (2 * r + x % 2);
    DivModUnique(x, 2 * m, q, 2 * r + x % 2);
  }

  /** A mask of `k` ones keeps the remainder modulo 2^k. */
  lemma {:induction false} AndLowMask(x: nat, k: nat)
    ensures And(x, Pow2(k) - 1) == x % Pow2(k)
  {
    if k > 0 {
      var m := Pow2(k - 1);
      assert (Pow2(k) - 1) % 2 == 1 && (Pow2(k) - 1) / 2 == m - 1;
      AndLowMask(x / 2, k - 1);
      HalfMod(x, m);
    }
  }

  /** The complement of that mask clears the low `k` bits of an `n`-bit number. */
  lemma {:induction false} AndHighMask(x: nat, k: nat, n: nat)
    requires k <= n && x < Pow2(n)
    ensures Pow2(k) <= Pow2(n) && And(x, Pow2(n) - Pow2(k)) == x - x % Pow2(k)
    decreases k
  {
    if k == 0 {
      AndLowMask(x, n);
      DivModUnique(x, Pow2(n), 0, x);
    } else {
      var a, b := Pow2(k - 1), Pow2(n - 1);
      AndHighMask(x / 2, k - 1, n - 1);
      assert (Pow2(n) - Pow2(k)) % 2 == 0 && (Pow2(n) - Pow2(k)) / 2 == b - a;
      HalfMod(x, a);
      if Pow2(n) == Pow2(k) {
        assert b == a;
      }
    }
  }

  lemma OrEven(y: nat, b: nat)
    ensures Or(2 * y, b) == b % 2 + 2 * Or(y, b / 2)
  {
    assert 2 * y / 2 == y && 2 * y % 2 == 0;
  }

  lemma Regroup(a: nat, m: nat)
    ensures a * (2 * m) == 2 * (a * m)
  {
  }

  /** Or of numbers that share no bit position is their sum. */
  lemma {:induction false} OrDisjoint(a: nat, b: nat, k: nat)
    requires b < Pow2(k)
    ensures Or(a * Pow2(k), b) == a * Pow2(k) + b
    decreases k
  {
    if k == 0 {
      assert a * Pow2(0) == a && b == 0;
    } else {
      var m := Pow2(k - 1);
      assert Pow2(k) == 2 * m;
      hide *;
      OrDisjoint(a, b / 2, k - 1);
      OrEven(a * m, b);
      Regroup(a, m);
    }
  }
}
