/**
 * C++ integer division and remainder.
 *
 * C++ `a / b` truncates toward zero and `a % b` takes the sign of the
 * dividend, whereas Dafny's `/` and `%` on `int` are Euclidean. This module
 * defines the C++ operators explicitly and characterises them independently
 * of their definitions.
 */
module CppInt {

  function Abs(a: int): (r: nat)
    ensures r == a || r == -a
  {
    if a < 0 then -a else a
  }

  /** The remainder `a - q * b` lies strictly inside `(-|b|, |b|)` and is never
      of the opposite sign to `a`: this is what C++ requires of `a / b`. */
  predicate IsTruncQuotient(a: int, b: int, q: int) {
    var r := a - q * b;
    Abs(r) < Abs(b) && (r == 0 || (r > 0 <==> a > 0))
  }

  /** C++ `a / b`: the quotient rounded toward zero. */
  function TruncDiv(a: int, b: int): (q: int)
    requires b != 0
    ensures IsTruncQuotient(a, b, q)
    ensures Abs(q) <= Abs(a)
  {
    var m := Abs(a) / Abs(b);
    NaturalDivision(Abs(a), Abs(b));
    SignedQuotient(a, b, m);
    if (a < 0) == (b < 0) then m else -m
  }

  /** Giving the quotient of the magnitudes the sign of the exact quotient
      rounds toward zero. */
  lemma SignedQuotient(a: int, b: int, m: int)
    requires b != 0 && m >= 0
    requires 0 <= Abs(a) - m * Abs(b) < Abs(b)
    ensures IsTruncQuotient(a, b, if (a < 0) == (b < 0) then m else -m)
  {
    var n, d := Abs(a), Abs(b);
    if a >= 0 && b > 0 {
      assert a - m * b == n - m * d;
    } else if a >= 0 {
      assert (-m) * b == m * d;
      assert a - (-m) * b == n - m * d;
    } else if b > 0 {
      assert (-m) * b == -(m * d);
      assert a - (-m) * b == -(n - m * d);
    } else {
      assert m * b == -(m * d);
      assert a - m * b == -(n - m * d);
    }
  }

  /** C++ `a % b`: what remains after truncating division. */
  function TruncRem(a: int, b: int): (r: int)
    requires b != 0
    ensures Abs(r) < Abs(b)
    ensures r == 0 || (r > 0 <==> a > 0)
    ensures a == TruncDiv(a, b) * b + r
  {
    a - TruncDiv(a, b) * b
  }

  /** Euclidean division on naturals, the building block of `TruncDiv`. */
  lemma NaturalDivision(n: nat, d: nat)
    requires d > 0
    ensures 0 <= n / d <= n
    ensures 0 <= n - (n / d) * d < d
  {
    assert n == (n / d) * d + n % d;
    if n / d > n {
      MulAtLeast(n / d, d);
    }
  }

  lemma {:induction false} MulAtLeast(k: int, b: int)
    requires k >= 1 && b >= 1
    ensures k * b >= k
  {
    if k > 1 {
      MulAtLeast(k - 1, b);
      assert k * b == (k - 1) * b + b;
    }
  }

  /** A nonzero multiple of `b` is at least as large as `b` in magnitude. */
  lemma NonzeroMultiple(k: int, b: int)
    requires k != 0 && b != 0
    ensures Abs(k * b) >= Abs(b)
  {
    MulAtLeast(Abs(b), Abs(k));
    if k < 0 && b < 0 { assert k * b == Abs(b) * Abs(k); }
    else if k < 0 { assert -(k * b) == Abs(b) * Abs(k); }
    else if b < 0 { assert -(k * b) == Abs(b) * Abs(k); }
    else { assert k * b == Abs(b) * Abs(k); }
  }

  /** Truncating division is the only quotient meeting the C++ rule. */
  lemma TruncQuotientUnique(a: int, b: int, q: int)
    requires b != 0
    requires IsTruncQuotient(a, b, q)
    ensures q == TruncDiv(a, b)
  {
    QuotientsAgree(a, b, q, TruncDiv(a, b));
  }

  lemma QuotientsAgree(a: int, b: int, q1: int, q2: int)
    requires b != 0
    requires IsTruncQuotient(a, b, q1) && IsTruncQuotient(a, b, q2)
    ensures q1 == q2
  {
    var k := q2 - q1;
    var p1, p2 := q1 * b, q2 * b;
    ProductDifference(q2, q1, b);
    RemaindersClose(a, b, a - p1, a - p2);
    if k != 0 {
      NonzeroMultiple(k, b);
      assert false;
    }
  }

  lemma ProductDifference(x: int, y: int, b: int)
    ensures (x - y) * b == x * b - y * b
  {
  }

  /** Two remainders of the same sign as `a` are less than `|b|` apart. */
  lemma RemaindersClose(a: int, b: int, r1: int, r2: int)
    requires Abs(r1) < Abs(b) && (r1 == 0 || (r1 > 0 <==> a > 0))
    requires Abs(r2) < Abs(b) && (r2 == 0 || (r2 > 0 <==> a > 0))
    ensures Abs(r1 - r2) < Abs(b)
  {
  }

  /** For a nonnegative dividend and positive divisor C++ and Dafny agree. */
  lemma TruncDivAgreesWhenNonnegative(a: int, b: int)
    requires a >= 0 && b > 0
    ensures TruncDiv(a, b) == a / b
    ensures TruncRem(a, b) == a % b
  {
  }

  /** Unlike floor or Euclidean division, truncation commutes with negation of
      either operand. */
  lemma TruncDivNegation(a: int, b: int)
    requires b != 0
    ensures TruncDiv(-a, b) == -TruncDiv(a, b)
    ensures TruncDiv(a, -b) == -TruncDiv(a, b)
  {
  }

  /** A negative odd dividend shows the difference: C++ gives `-7 / 2 == -3`
      and `-7 % 2 == -1`, Dafny gives `-4` and `1`. */
  lemma NegativeDividendDiffers()
    ensures TruncDiv(-7, 2) == -3 && -7 / 2 == -4
    ensures TruncRem(-7, 2) == -1 && -7 % 2 == 1
  {
  }

  /** The C++ test `x % 2 == 0`. */
  predicate IsEven(x: int) {
    TruncRem(x, 2) == 0
  }

  /** Whether the remainder is zero does not depend on the rounding rule. */
  lemma IsEvenIffEuclidean(x: int)
    ensures IsEven(x) <==> x % 2 == 0
  {
  }
}
