/** The number theory the RSA program rests on: Bezout, Euclid's lemma, Fermat's little theorem and
    the two-prime case of the Chinese remainder theorem. */
module NumberTheory {
  import opened IntMath

  ghost predicate Prime(p: int) {
    p >= 2 && forall d :: 1 < d < p ==> p % d != 0
  }

  /** Euclid's algorithm with the remainder of the program. */
  function Gcd(a: int, b: int): int
    decreases Abs(b)
  {
    if b == 0 then a else Gcd(b, TruncMod(a, b))
  }

  lemma {:induction false} GcdNonNegative(a: int, b: int)
    requires a >= 0 && b >= 0
    ensures Gcd(a, b) >= 0
    ensures a > 0 || b > 0 ==> Gcd(a, b) > 0
    decreases b
  {
    if b == 0 {
    } else {
      GcdNonNegative(b, TruncMod(a, b));
    }
  }

  /** d divides n, with a divisor of either sign. */
  ghost predicate Divides(d: int, n: int) {
    exists k :: n == k * d
  }

  lemma DividesMod(d: int, n: int)
    requires d > 0
    ensures Divides(d, n) <==> n % d == 0
  {
    if Divides(d, n) {
      var k :| n == k * d;
      ModAddMul(0, k, d);
    }
    if n % d == 0 {
      assert n == (n / d) * d;
    }
  }

  lemma DividesCombination(d: int, a: int, b: int, x: int, y: int)
    requires Divides(d, a) && Divides(d, b)
    ensures Divides(d, a * x + b * y)
  {
    var j :| a == j * d;
    var k :| b == k * d;
    assert a * x + b * y == (j * x + k * y) * d by {
      assert (j * d) * x == (j * x) * d;
      assert (k * d) * y == (k * y) * d;
      assert (j * x + k * y) * d == (j * x) * d + (k * y) * d;
    }
  }

  lemma {:induction false} GcdDivides(a: int, b: int)
    ensures Divides(Gcd(a, b), a) && Divides(Gcd(a, b), b)
    decreases Abs(b)
  {
    if b == 0 {
      assert a == 1 * a;
      assert b == 0 * a;
    } else {
      var r := TruncMod(a, b);
      GcdDivides(b, r);
      TruncDivMod(a, b);
      DividesCombination(Gcd(b, r), b, r, TruncDiv(a, b), 1);
      assert b * TruncDiv(a, b) + r * 1 == a;
    }
  }

  /** The coefficients the extended algorithm returns, as a function. */
  function Bezout(a: int, b: int): (xy: (int, int))
    decreases Abs(b)
  {
    if b == 0 then (1, 0)
    else
      var (x, y) := Bezout(b, TruncMod(a, b));
      (y, x - TruncDiv(a, b) * y)
  }

  lemma {:induction false} BezoutIdentity(a: int, b: int)
    ensures Gcd(a, b) == a * Bezout(a, b).0 + b * Bezout(a, b).1
    decreases Abs(b)
  {
    if b == 0 {
    } else {
      var r := TruncMod(a, b);
      var q := TruncDiv(a, b);
      BezoutIdentity(b, r);
      var (x, y) := Bezout(b, r);
      TruncDivMod(a, b);
      BackSubstitute(a, b, q, r, x, y);
    }
  }

  lemma BackSubstitute(a: int, b: int, q: int, r: int, x: int, y: int)
    requires a == q * b + r
    ensures b * x + r * y == a * y + b * (x - q * y)
  {
    assert a * y == (q * b) * y + r * y;
    assert (q * b) * y == b * (q * y);
    assert b * (x - q * y) == b * x - b * (q * y);
  }

  /** The coefficients stay smaller than the arguments, 1 aside. */
  lemma {:induction false} BezoutBound(a: int, b: int)
    ensures Abs(Bezout(a, b).0) <= Max(1, Abs(b) - 1)
    ensures Abs(Bezout(a, b).1) <= Max(1, Abs(a) - 1)
    decreases Abs(b)
  {
    if b == 0 {
    } else {
      var r := TruncMod(a, b);
      var q := TruncDiv(a, b);
      BezoutBound(b, r);
      var (x, y) := Bezout(b, r);
      TruncDivMod(a, b);
      if r != 0 {
        StepBound(Abs(a), Abs(b), Abs(r), q, x, y);
      }
    }
  }

  lemma StepBound(a: nat, b: nat, r: nat, q: int, x: int, y: int)
    requires Abs(q) * b + r == a && 0 < r < b
    requires Abs(x) <= Max(1, r - 1) && Abs(y) <= b - 1
    ensures Abs(x - q * y) <= Max(1, a - 1)
  {
    AbsMul(q, y);
    MulLe(Abs(y), b - 1, Abs(q));
    OneLess(b, Abs(q));
    CoefficientBound(a, b, Abs(q), r, Abs(q) * b, x, q * y);
  }

  lemma OneLess(b: nat, q: nat)
    ensures (b - 1) * q == q * b - q
    ensures b > 0 ==> q * b >= q
  {
    if b > 0 {
      MulLe(1, b, q);
    }
  }

  lemma CoefficientBound(a: nat, b: nat, q: nat, r: nat, qb: nat, x: int, qy: int)
    requires qb + r == a && 0 < r < b && (q == 0 ==> qb == 0)
    requires Abs(x) <= Max(1, r - 1) && Abs(qy) <= qb - q
    ensures Abs(x - qy) <= Max(1, a - 1)
  {
  }

  lemma AbsMul(x: int, y: int)
    ensures Abs(x * y) == Abs(x) * Abs(y) == Abs(y) * Abs(x)
  {
    if x < 0 {
      assert x * y == -((-x) * y);
      if y < 0 {
        assert (-x) * y == -((-x) * (-y));
        MulLe(0, -x, -y);
      } else {
        MulLe(0, -x, y);
      }
    } else {
      if y < 0 {
        assert x * y == -(x * (-y));
        MulLe(0, x, -y);
      } else {
        MulLe(0, x, y);
      }
    }
  }

  /** A prime is coprime to everything it does not divide. */
  lemma PrimeCoprime(a: int, p: int)
    requires Prime(p) && a >= 0 && a % p != 0
    ensures Gcd(a, p) == 1
  {
    var g := Gcd(a, p);
    GcdNonNegative(a, p);
    GcdDivides(a, p);
    DividesMod(g, p);
    DividesMod(g, a);
    if g > p {
      DivModUnique(p, 0, p, g);
      assert false;
    }
  }

  /** Euclid's lemma, for coprime factors rather than primes alone. */
  lemma CoprimeCancel(a: int, b: int, p: int)
    requires p > 0 && Gcd(a, p) == 1
    requires (a * b) % p == 0
    ensures b % p == 0
  {
    BezoutIdentity(a, p);
    var (x, y) := Bezout(a, p);
    ScaleUnit(a, b, p, x, y);
    CongMul(a * b, 0, x, x, p);
    ModAddMul((a * b) * x, b * y, p);
  }

  lemma ScaleUnit(a: int, b: int, p: int, x: int, y: int)
    requires a * x + p * y == 1
    ensures b == (a * b) * x + (b * y) * p
  {
    assert b * (a * x + p * y) == b * (a * x) + b * (p * y);
    assert b * (a * x) == (a * b) * x;
    assert b * (p * y) == (b * y) * p;
  }

  lemma EuclidLemma(a: int, b: int, p: int)
    requires Prime(p) && (a * b) % p == 0
    ensures a % p == 0 || b % p == 0
  {
    if a % p != 0 {
      CongMod(a, p);
      CongMul(a % p, a, b, b, p);
      PrimeCoprime(a % p, p);
      CoprimeCancel(a % p, b, p);
    }
  }

  /** Modulo a prime the only square roots of 1 are 1 and -1. */
  lemma SquareRootsOfOne(x: int, p: int)
    requires Prime(p) && 0 <= x < p
    requires (x * x) % p == 1
    ensures x == 1 || x == p - 1
  {
    assert (x - 1) * (x + 1) == x * x - 1;
    CongAdd(x * x, 1, -1, -1, p);
    EuclidLemma(x - 1, x + 1, p);
    if (x - 1) % p == 0 {
      if x == 0 {
        DivModUnique(-1, -1, p - 1, p);
      } else {
        DivModUnique(x - 1, 0, x - 1, p);
      }
    } else if x + 1 < p {
      DivModUnique(x + 1, 0, x + 1, p);
    }
  }

  // ------------------------------------------------------- binomial theorem

  function Binomial(n: nat, k: nat): nat {
    if k == 0 then 1
    else if n == 0 then 0
    else Binomial(n - 1, k - 1) + Binomial(n - 1, k)
  }

  lemma {:induction false} BinomialAbove(n: nat, k: nat)
    requires k > n
    ensures Binomial(n, k) == 0
  {
    if n == 0 {
    } else {
      BinomialAbove(n - 1, k - 1);
      BinomialAbove(n - 1, k);
    }
  }

  /** k C(n, k) = n C(n-1, k-1). */
  lemma {:induction false} BinomialAbsorb(n: nat, k: nat)
    requires n > 0 && k > 0
    ensures k * Binomial(n, k) == n * Binomial(n - 1, k - 1)
  {
    if n == 1 {
      if k > 1 {
        BinomialAbove(0, k - 1);
        BinomialAbove(1, k);
      }
    } else {
      BinomialAbsorb(n - 1, k);
      if k == 1 {
      } else {
        BinomialAbsorb(n - 1, k - 1);
        AbsorbStep(n, k, Binomial(n - 1, k - 1), Binomial(n - 1, k),
                   Binomial(n - 2, k - 2), Binomial(n - 2, k - 1));
      }
    }
  }

  lemma AbsorbStep(n: int, k: int, u: int, v: int, s: int, t: int)
    requires u == s + t
    requires k * v == (n - 1) * t
    requires (k - 1) * u == (n - 1) * s
    ensures k * (u + v) == n * u
  {
    assert k * (u + v) == (k - 1) * u + u + k * v;
    assert (n - 1) * s + (n - 1) * t == (n - 1) * (s + t);
  }

  /** The terms 0 to k of the expansion of (1 + a)^n. */
  function BinomialSum(n: nat, a: int, k: nat): int {
    Binomial(n, k) * Pow(a, k) + if k == 0 then 0 else BinomialSum(n, a, k - 1)
  }

  lemma {:induction false} BinomialSumStep(n: nat, a: int, k: nat)
    requires n > 0 && k > 0
    ensures BinomialSum(n, a, k) == BinomialSum(n - 1, a, k) + a * BinomialSum(n - 1, a, k - 1)
  {
    var u, v := Binomial(n - 1, k - 1), Binomial(n - 1, k);
    var rest := if k == 1 then 0 else BinomialSum(n - 1, a, k - 2);
    PascalTerm(u, v, a, Pow(a, k - 1), rest);
    if k == 1 {
    } else {
      BinomialSumStep(n, a, k - 1);
    }
  }

  lemma PascalTerm(u: int, v: int, a: int, w: int, rest: int)
    ensures (u + v) * (a * w) + a * rest == v * (a * w) + a * (u * w + rest)
  {
    assert u * (a * w) == a * (u * w);
    assert a * (u * w + rest) == a * (u * w) + a * rest;
  }

  lemma {:induction false} BinomialTheorem(n: nat, a: int)
    ensures Pow(1 + a, n) == BinomialSum(n, a, n)
  {
    if n == 0 {
    } else {
      BinomialTheorem(n - 1, a);
      BinomialSumStep(n, a, n);
      BinomialAbove(n - 1, n);
      var s := BinomialSum(n - 1, a, n - 1);
      assert BinomialSum(n - 1, a, n) == 0 * Pow(a, n) + s;
      assert (1 + a) * s == s + a * s;
    }
  }

  lemma PrimeDividesBinomial(p: int, k: nat)
    requires Prime(p) && 0 < k < p
    ensures Binomial(p, k) % p == 0
  {
    BinomialAbsorb(p, k);
    MultipleMod(Binomial(p - 1, k - 1), p);
    EuclidLemma(k, Binomial(p, k), p);
    SmallMod(k, p);
  }

  lemma {:induction false} MiddleTermsVanish(p: int, a: int, k: nat)
    requires Prime(p) && k < p
    ensures Cong(BinomialSum(p, a, k), 1, p)
  {
    if k == 0 {
    } else {
      MiddleTermsVanish(p, a, k - 1);
      PrimeDividesBinomial(p, k);
      CongMul(Binomial(p, k), 0, Pow(a, k), Pow(a, k), p);
      CongAdd(Binomial(p, k) * Pow(a, k), 0, BinomialSum(p, a, k - 1), 1, p);
    }
  }

  lemma {:induction false} BinomialTop(n: nat)
    ensures Binomial(n, n) == 1
  {
    if n == 0 {
    } else {
      BinomialTop(n - 1);
      BinomialAbove(n - 1, n);
    }
  }

  /** a^p = a modulo p, by induction on a. */
  lemma {:induction false} FermatPower(a: nat, p: int)
    requires Prime(p)
    ensures Cong(Pow(a, p), a, p)
  {
    if a == 0 {
      assert Pow(0, p) == 0 * Pow(0, p - 1);
    } else {
      FermatPower(a - 1, p);
      BinomialTheorem(p, a - 1);
      BinomialTop(p);
      MiddleTermsVanish(p, a - 1, p - 1);
      CongAdd(Pow(a - 1, p), a - 1, BinomialSum(p, a - 1, p - 1), 1, p);
    }
  }

  /** Fermat's little theorem. */
  lemma Fermat(a: int, p: int)
    requires Prime(p) && a % p != 0
    ensures Cong(Pow(a, p - 1), 1, p)
  {
    var r := a % p;
    FermatPower(r, p);
    PrimeCoprime(r, p);
    CancelFactor(r, Pow(r, p - 1), p);
    CongMod(a, p);
    CongPow(r, a, p - 1, p);
  }

  lemma CancelFactor(r: int, w: int, p: int)
    requires p > 0 && Gcd(r, p) == 1
    requires Cong(r * w, r, p)
    ensures Cong(w, 1, p)
  {
    CongAdd(r * w, r, -r, -r, p);
    assert r * w - r == r * (w - 1);
    CoprimeCancel(r, w - 1, p);
    CongAdd(w - 1, 0, 1, 1, p);
  }

  /** x^(1 + j(p-1)) = x modulo p, whether or not p divides x. */
  lemma FermatExponent(x: int, p: int, j: nat)
    requires Prime(p)
    ensures Cong(Pow(x, 1 + j * (p - 1)), x, p)
  {
    var e := j * (p - 1);
    if x % p == 0 {
      CongMul(x, 0, Pow(x, e), Pow(x, e), p);
    } else {
      Fermat(x, p);
      CongPow(Pow(x, p - 1), 1, j, p);
      PowMul(x, p - 1, j);
      assert (p - 1) * j == e;
      PowOne(j);
      CongMul(x, x, Pow(x, e), 1, p);
    }
  }

  /** Distinct primes: congruent modulo both means congruent modulo the product. */
  lemma CongBothPrimes(a: int, b: int, p: int, q: int)
    requires Prime(p) && Prime(q) && p != q
    requires Cong(a, b, p) && Cong(a, b, q)
    ensures p * q > 0 && Cong(a, b, p * q)
  {
    MulLe(1, p, q);
    var k := CongMultiple(a, b, p);
    var j := CongMultiple(a, b, q);
    assert p % q != 0 by {
      if p < q {
        DivModUnique(p, 0, p, q);
      } else {
        assert p % q != 0;
      }
    }
    MultipleMod(j, q);
    assert p * k == j * q;
    EuclidLemma(p, k, q);
    RegroupQuotient(k, p, q);
    CongByMultiple(a, b, k / q, p * q);
  }

  lemma RegroupQuotient(k: int, p: int, q: int)
    requires q > 0 && k % q == 0
    ensures k * p == (k / q) * (p * q)
  {
    var i := k / q;
    assert k == i * q;
    assert (i * q) * p == i * (p * q);
  }
}
