/** Bitwise operators on non-negative numbers, and what they come to in arithmetic. */
module Bits {
  import opened Arithmetic

  function Pow2(k: nat): (p: nat)
    ensures p > 0
  {
    if k == 0 then 1 else 2 * Pow2(k - 1)
  }

  function And(a: nat, b: nat): nat {
    if a == 0 || b == 0 then 0 else (if a % 2 == 1 && b % 2 == 1 then 1 else 0) + 2 * And(a / 2, b / 2)
  }

  function Or(a: nat, b: nat): nat
    decreases a + b
  {
    if a == 0 then b else if b == 0 then a
    else (if a % 2 + b % 2 > 0 then 1 else 0) + 2 * Or(a / 2, b / 2)
  }

  function ShiftRight(a: nat, k: nat): nat {
    if k == 0 then a else ShiftRight(a / 2, k - 1)
  }

  function ShiftLeft(a: nat, k: nat): nat {
    if k == 0 then a else 2 * ShiftLeft(a, k - 1)
  }

  lemma Halved(a: nat, m: nat)
    requires m > 0
    ensures a % (2 * m) == a % 2 + 2 * (a / 2 % m)
  {
    var t, s := a / 2 / m, a / 2 % m;
    assert a / 2 == t * m + s;
    assert a == t * (2 * m) + (2 * s + a % 2);
    DivModUnique(a, 2 * m, t, 2 * s + a % 2);
  }

  lemma AndOdd(a: nat, n: nat)
    ensures And(a, 2 * n + 1) == a % 2 + 2 * And(a / 2, n)
  {
  }

  /** Masking with k ones is the remainder by 2^k. */
  lemma {:induction false} AndLowMask(a: nat, k: nat)
    ensures And(a, Pow2(k) - 1) == a % Pow2(k)
  {
    if k > 0 {
      var m := Pow2(k - 1);
      Halved(a, m);
      AndLowMask(a / 2, k - 1);
      AndOdd(a, m - 1);
    }
  }

  /** Masking above bit k masks what the shift leaves. */
  lemma {:induction false} AndHighMask(a: nat, m: nat, k: nat)
    ensures And(a, ShiftLeft(m, k)) == ShiftLeft(And(ShiftRight(a, k), m), k)
  {
    if k > 0 {
      AndHighMask(a / 2, m, k - 1);
      if a == 0 {
        ZeroShifts(m, k);
      }
    }
  }

  lemma {:induction false} ZeroShifts(m: nat, k: nat)
    ensures ShiftRight(0, k) == 0 && ShiftLeft(0, k) == 0
  {
    if k > 0 {
      ZeroShifts(m, k - 1);
    }
  }

  lemma DivDiv(a: nat, p: nat)
    requires p > 0
    ensures a / (2 * p) == a / 2 / p
  {
    var t, s := a / 2 / p, a / 2 % p;
    assert a / 2 == t * p + s;
    assert a == t * (2 * p) + (2 * s + a % 2);
    DivModUnique(a, 2 * p, t, 2 * s + a % 2);
  }

  lemma {:induction false} ShiftRightDivides(a: nat, k: nat)
    ensures ShiftRight(a, k) == a / Pow2(k)
  {
    if k > 0 {
      ShiftRightDivides(a / 2, k - 1);
      DivDiv(a, Pow2(k - 1));
    }
  }

  lemma {:induction false} ShiftLeftMultiplies(a: nat, k: nat)
    ensures ShiftLeft(a, k) == a * Pow2(k)
  {
    if k > 0 {
      ShiftLeftMultiplies(a, k - 1);
    }
  }

  /** Joining fields that share no bit is adding them. */
  lemma {:induction false} OrDisjoint(a: nat, b: nat, k: nat)
    requires a % Pow2(k) == 0 && b < Pow2(k)
    ensures Or(a, b) == a + b
  {
    if k > 0 && a > 0 && b > 0 {
      Halved(a, Pow2(k - 1));
      OrDisjoint(a / 2, b / 2, k - 1);
    }
  }

  // ---- The same with the power of two as a number ----

  lemma Powers()
    ensures Pow2(3) == 0x08 && Pow2(4) == 0x10 && Pow2(5) == 0x20 && Pow2(6) == 0x40
    ensures Pow2(10) == 0x400 && Pow2(12) == 0x1000 && Pow2(18) == 0x40000
  {
    assert Pow2(6) == 0x40;
    assert Pow2(12) == 0x1000;
    assert Pow2(18) == 0x40000;
  }

  lemma Mask(a: nat, k: nat, p: nat)
    requires p == Pow2(k)
    ensures And(a, p - 1) == a % p
  {
    AndLowMask(a, k);
  }

  /** Masking the top `m` bits of a number of `k + m` leaves them in place. */
  lemma TopMask(a: nat, k: nat, p: nat, m: nat, q: nat, mask: nat)
    requires p == Pow2(k) && q == Pow2(m) && a / p < q && mask == (q - 1) * p
    ensures And(a, mask) == a / p * p
  {
    Left(q - 1, k, p);
    AndHighMask(a, q - 1, k);
    Right(a, k, p);
    Mask(a / p, m, q);
    Left(a / p, k, p);
    SmallRemainder(a / p, q);
  }

  /** A test of the top bits is a test for a range. */
  lemma TopBits(a: nat, k: nat, p: nat, m: nat, q: nat, mask: nat, lead: nat)
    requires p == Pow2(k) && q == Pow2(m) && a / p < q && mask == (q - 1) * p
    requires lead == lead / p * p
    ensures And(a, mask) == lead <==> a / p == lead / p
  {
    TopMask(a, k, p, m, q, mask);
    SameMultiple(a / p, lead / p, p);
  }

  lemma SmallRemainder(a: nat, q: nat)
    requires a < q
    ensures a % q == a
  {
    DivModUnique(a, q, 0, a);
  }

  lemma SameMultiple(a: nat, b: nat, p: nat)
    requires p > 0
    ensures a * p == b * p <==> a == b
  {
    assert a < b ==> a * p < b * p;
    assert b < a ==> b * p < a * p;
  }

  lemma Right(a: nat, k: nat, p: nat)
    requires p == Pow2(k)
    ensures ShiftRight(a, k) == a / p
  {
    ShiftRightDivides(a, k);
  }

  lemma Left(a: nat, k: nat, p: nat)
    requires p == Pow2(k)
    ensures ShiftLeft(a, k) == a * p
  {
    ShiftLeftMultiplies(a, k);
  }

  lemma Join(h: nat, b: nat, k: nat, p: nat)
    requires p == Pow2(k) && b < p
    ensures Or(h * p, b) == h * p + b
  {
    DivModUnique(h * p, p, h, 0);
    OrDisjoint(h * p, b, k);
  }
}
