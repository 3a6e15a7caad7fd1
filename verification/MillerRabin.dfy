/** The primality test of the RSA example: trial division by small odd numbers, then fifty rounds of
    the Miller-Rabin witness test on drawn bases. */
module MillerRabin {
  import opened IntMath
  import opened NumberTheory
  import opened Rsa

  const TRIAL_LIMIT: int := 1023
  const ROUNDS: nat := 50

  /** Squaring at bit i meets a square root of 1 other than 1 and n - 1. */
  predicate NontrivialRoot(a: int, n: int, i: nat)
    requires n > 0 && i < NBITS
  {
    var x := ModPow(a, Prefix(n - 1, i + 1), n);
    (x * x) % n == 1 && x != 1 && x != n - 1
  }

  /** What makes a a witness to n being composite. */
  ghost predicate Accuses(a: int, n: int)
    requires n > 0
  {
    Pow(a, Abs(n - 1)) % n != 1 || exists i: nat :: i < NBITS && NontrivialRoot(a, n, i)
  }

  lemma WitnessRound(a: int, e: nat, n: int, d: int)
    requires n > 1 && 1 <= a && d == ModPow(a, e, n)
    ensures var s := TruncMod(d * d, n);
            && 0 <= s < n && s == (d * d) % n && s == ModPow(a, 2 * e, n)
            && TruncMod(s * a, n) == ModPow(a, 2 * e + 1, n)
  {
    var s := TruncMod(d * d, n);
    MulLe(0, d, d);
    CongMod(Pow(a, e), n);
    SquareAndMultiply(a, e, n, d);
    MulLe(0, s, a);
    SmallMod(s, n);
    SmallMod(TruncMod(s * a, n), n);
  }

  /** Exact description of the loop: a is reported when some squaring step meets a nontrivial root of
      1, or when a^(n-1) is not 1. */
  method Witness(a: bigint, n: bigint) returns (r: bool)
    requires n > 1 && 1 <= a < n
    ensures r <==> Accuses(a, n)
  {
    var nMinus1: bigint := n - 1;
    var x: bigint;
    var d: bigint := 1;
    PrefixEnds(n - 1);
    SmallMod(1, n);
    var i := NBITS - 1;
    while i >= 0
      invariant -1 <= i < NBITS
      invariant d == ModPow(a, Prefix(n - 1, i + 1), n)
      invariant forall j: nat :: i < j < NBITS ==> !NontrivialRoot(a, n, j)
    {
      ghost var d0 := d;
      x := Abs(d);
      d := TruncMod(d * d, n);
      ghost var s := d;
      WitnessRound(a, Prefix(n - 1, i + 1), n, d0);
      PrefixBit(n - 1, i);
      if Abs(d) == 1 && x != 1 && x != nMinus1 {
        assert NontrivialRoot(a, n, i);
        return true;
      }
      if Bit(nMinus1, i) {
        d := TruncMod(d * a, n);
      }
      i := i - 1;
    }
    UnsignedNonNegative(n - 1);
    assert d == Pow(a, n - 1) % n;
    return Abs(d) != 1;
  }

  /** A prime is never accused, whatever the base. */
  lemma PrimeNeverAccused(a: int, n: int)
    requires Prime(n) && 1 <= a < n
    ensures !Accuses(a, n)
  {
    SmallMod(a, n);
    SmallMod(1, n);
    Fermat(a, n);
    forall i: nat | i < NBITS
      ensures !NontrivialRoot(a, n, i)
    {
      var x := ModPow(a, Prefix(n - 1, i + 1), n);
      if (x * x) % n == 1 {
        SquareRootsOfOne(x, n);
      }
    }
  }

  // -------------------------------------------------------------- trial division

  function TrialLimit(n: int): int {
    if n < TRIAL_LIMIT then n - 2 else TRIAL_LIMIT
  }

  ghost predicate NoSmallDivisor(n: int, limit: int) {
    forall k :: 3 <= k <= limit && k % 2 == 1 ==> n % k != 0
  }

  lemma NoSmallDivisorStep(n: int, i: int)
    requires i >= 3 && i % 2 == 1 && NoSmallDivisor(n, i - 1) && n % i != 0
    ensures NoSmallDivisor(n, i + 1) && (i + 2) % 2 == 1
  {
    forall k | 3 <= k <= i + 1 && k % 2 == 1
      ensures n % k != 0
    {
      if k >= i {
        NextOdd(i, k);
      }
    }
  }

  method DivTest(n: bigint) returns (r: bool)
    requires n >= 0
    ensures r <==> NoSmallDivisor(n, TrialLimit(n))
  {
    var limit := if n < TRIAL_LIMIT then n - 2 else TRIAL_LIMIT;
    var i := 3;
    while i <= limit
      invariant i >= 3 && i % 2 == 1
      invariant NoSmallDivisor(n, i - 1)
    {
      if TruncMod(n, i) == 0 {
        return false;
      }
      NoSmallDivisorStep(n, i);
      i := i + 2;
    }
    return true;
  }

  lemma EvenProduct(d: int, e: int)
    requires d % 2 == 0
    ensures (d * e) % 2 == 0 && (e * d) % 2 == 0
  {
    DoubleProduct(d / 2, e);
    MultipleMod((d / 2) * e, 2);
  }

  lemma DoubleProduct(h: int, e: int)
    ensures (2 * h) * e == (h * e) * 2 == e * (2 * h)
  {
  }

  lemma OddFactors(n: int, d: int, e: int)
    requires n % 2 == 1 && n == d * e
    ensures d % 2 == 1 && e % 2 == 1
  {
    if d % 2 == 0 {
      EvenProduct(d, e);
    }
    if e % 2 == 0 {
      EvenProduct(e, d);
    }
  }

  /** Below 1025^2 trial division alone decides primality of odd numbers. */
  lemma TrialDivisionExact(n: int)
    requires 3 <= n < 1025 * 1025 && n % 2 == 1
    ensures NoSmallDivisor(n, TrialLimit(n)) <==> Prime(n)
  {
    PrimePassesTrial(n);
    if NoSmallDivisor(n, TrialLimit(n)) {
      forall d | 1 < d < n
        ensures n % d != 0
      {
        if n % d == 0 {
          SmallFactor(n, d, n / d);
        }
      }
    }
  }

  lemma Cofactor(n: int, d: nat, e: int)
    requires 1 < d < n && n == d * e
    ensures e > 1
  {
    if e <= 1 {
      MulLe(e, 1, d);
    }
  }

  lemma SmallFactor(n: int, d: int, e: int)
    requires 3 <= n < 1025 * 1025 && n % 2 == 1
    requires 1 < d < n && n == d * e
    ensures !NoSmallDivisor(n, TrialLimit(n))
  {
    OddFactors(n, d, e);
    Cofactor(n, d, e);
    MultipleMod(e, d);
    MultipleMod(d, e);
    if d >= 1025 && e >= 1025 {
      BothLarge(d, e);
    }
    MulLe(3, e, d);
    MulLe(3, d, e);
    var s := if d <= e then d else e;
    assert 3 <= s <= TrialLimit(n) && s % 2 == 1 && n % s == 0;
  }

  lemma BothLarge(d: int, e: int)
    requires d >= 1025 && e >= 1025
    ensures d * e >= 1025 * 1025
  {
    MulLe(1025, d, e);
    assert 1025 * e >= 1025 * 1025;
  }

  lemma PrimePassesTrial(n: int)
    requires n > 2
    ensures Prime(n) ==> NoSmallDivisor(n, TrialLimit(n))
  {
    assert TRIAL_LIMIT % 3 == 0;
  }

  /** The base a draw is turned into, between 1 and n - 1. */
  function Base(draw: int, n: int): (a: int)
    requires n > 1
    ensures 1 <= a < n
  {
    draw % (n - 1) + 1
  }

  ghost predicate RoundsClear(n: bigint, draws: seq<bigint>)
    requires n > 1
  {
    forall j :: 0 <= j < |draws| ==> !Accuses(Base(draws[j], n), n)
  }

  /** The verdict of the test on n for the given draws. */
  ghost predicate Accepted(n: bigint, draws: seq<bigint>) {
    && n > 2
    && NoSmallDivisor(n, TrialLimit(n))
    && RoundsClear(n, draws)
  }

  predicate AllNonNegative(draws: seq<bigint>) {
    forall j :: 0 <= j < |draws| ==> draws[j] >= 0
  }

  method MillerRabin(n: bigint, draws: seq<bigint>) returns (r: bool)
    requires |draws| == ROUNDS && AllNonNegative(draws)
    ensures r <==> Accepted(n, draws)
  {
    if n <= 2 {
      return false;
    }
    var ok := DivTest(n);
    if !ok {
      return false;
    }
    var j := 0;
    while j < ROUNDS
      invariant 0 <= j <= ROUNDS
      invariant RoundsClear(n, draws[..j])
    {
      var a: bigint := TruncMod(draws[j], n - 1) + 1;
      assert a == Base(draws[j], n);
      var bad := Witness(a, n);
      if bad {
        assert !RoundsClear(n, draws);
        return false;
      }
      assert draws[..j + 1] == draws[..j] + [draws[j]];
      j := j + 1;
    }
    assert draws[..j] == draws;
    return true;
  }

  /** The test never rejects an odd prime, whatever is drawn. */
  lemma PrimeAccepted(n: bigint, draws: seq<bigint>)
    requires Prime(n) && n != 2
    ensures Accepted(n, draws)
  {
    PrimePassesTrial(n);
    forall j | 0 <= j < |draws|
      ensures !Accuses(Base(draws[j], n), n)
    {
      PrimeNeverAccused(Base(draws[j], n), n);
    }
  }

  /** Below 1025^2 the draws do not matter: the odd numbers accepted are exactly the odd primes. */
  lemma AcceptedExact(n: bigint, draws: seq<bigint>)
    requires n % 2 == 1 && n < 1025 * 1025
    ensures Accepted(n, draws) <==> Prime(n)
  {
    if n > 2 {
      TrialDivisionExact(n);
      if Prime(n) {
        PrimeAccepted(n, draws);
      }
    }
  }

  // ------------------------------------------------------------------ rejection

  /** A base that shares a factor with n has no power that leaves 1. */
  lemma SharedFactorPower(a: int, e: nat, n: int, d: int)
    requires n > 0 && d > 1 && a % d == 0 && n % d == 0 && e > 0
    ensures Pow(a, e) % n != 1
  {
    DividesMod(d, a);
    DividesMod(d, n);
    var p, q := Pow(a, e), Pow(a, e) / n;
    DividesMod(d, 1);
    SmallMod(1, d);
    assert p == a * Pow(a, e - 1);
    assert p == q * n + p % n;
    DividesCombination(d, a, n, Pow(a, e - 1), -q);
    assert a * Pow(a, e - 1) + n * (-q) == p % n;
  }

  /** Every base that shares a factor with n accuses it. */
  lemma SharedFactorAccuses(a: int, n: int, d: int)
    requires 1 < a < n && d > 1 && a % d == 0 && n % d == 0
    ensures Accuses(a, n)
  {
    SharedFactorPower(a, n - 1, n, d);
  }

  /** So does every base whose power to half of n - 1 is not 1 or n - 1, though its power to n - 1 may be
      1. */
  lemma HalfPowerAccuses(a: bigint, n: bigint)
    requires 1 <= a < n && n % 2 == 1 && n > 2
    requires var x := ModPow(a, (n - 1) / 2, n); x != 1 && x != n - 1
    ensures Accuses(a, n)
  {
    var h := (n - 1) / 2;
    var x := ModPow(a, h, n);
    assert 2 * h == n - 1;
    UnsignedNonNegative(n - 1);
    PrefixEnds(n - 1);
    PrefixBit(n - 1, 0);
    assert Prefix(n - 1, 1) == h;
    CongMod(Pow(a, h), n);
    CongMul(x, Pow(a, h), x, Pow(a, h), n);
    PowAdd(a, h, h);
    assert (x * x) % n == Pow(a, n - 1) % n;
    if (x * x) % n == 1 {
      assert NontrivialRoot(a, n, 0);
    }
  }

  /** One such base among the drawn ones is enough: the number is rejected. */
  lemma AccusedRejected(n: bigint, draws: seq<bigint>, j: nat)
    requires n > 2 && j < |draws| && draws[j] >= 0
    requires Accuses(draws[j] % (n - 1) + 1, n)
    ensures !Accepted(n, draws)
  {
    assert Base(draws[j], n) == draws[j] % (n - 1) + 1;
  }

  /** Every composite number is rejected for some draws: those that lead to its proper divisor d. */
  lemma DivisorRejects(n: bigint, draws: seq<bigint>, j: nat, d: int)
    requires n > 2 && 1 < d < n && n % d == 0
    requires j < |draws| && draws[j] == d - 1
    ensures !Accepted(n, draws)
  {
    SmallMod(d - 1, n - 1);
    DivModUnique(d, 1, 0, d);
    SharedFactorAccuses(d, n, d);
    AccusedRejected(n, draws, j);
  }

  /** A number above 2 is prime if and only if it is accepted whatever is drawn. */
  lemma PrimeIffAlwaysAccepted(n: bigint)
    requires n > 2
    ensures Prime(n) <==> forall draws: seq<bigint> :: |draws| == ROUNDS && AllNonNegative(draws) ==> Accepted(n, draws)
  {
    if Prime(n) {
      forall draws: seq<bigint> | |draws| == ROUNDS ensures Accepted(n, draws) {
        PrimeAccepted(n, draws);
      }
    } else {
      var d :| 1 < d < n && n % d == 0;
      var draws: seq<bigint> := seq(ROUNDS, _ => d - 1);
      DivisorRejects(n, draws, 0, d);
      assert AllNonNegative(draws);
    }
  }
}
