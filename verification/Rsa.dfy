/** The RSA example of SystemC: key setup, square-and-multiply, cipher and decipher, and the
    Miller-Rabin test. A bigint holds 250 bits in two's complement; every value a routine stores in
    one is shown to fit, while intermediate products have the full width, as in sc_bigint. */
module Rsa {
  import opened IntMath
  import opened NumberTheory
  import opened Wrappers

  const NBITS: nat := 250
  const BOUND: int := 904625697166532776746648320380374280103671755200316906558262375061821325312

  type bigint = x: int | -BOUND <= x < BOUND

  /** find_prime draws HALF_NBITS bits of which the first is a zero, so the primes lie below 2^124. */
  const PRIME_BOUND: int := 21267647932558653966460912964485513216

  lemma PrimeBoundIsPower()
    ensures PRIME_BOUND == Pow(2, NBITS / 2 - 1) && PRIME_BOUND * PRIME_BOUND < BOUND
  {
    PowerOf31();
    PowAdd(2, 31, 31);
    PowAdd(2, 62, 62);
  }

  /** BOUND is 2^249, so a bigint has NBITS bits. */
  lemma BoundIsPower()
    ensures BOUND == Pow(2, NBITS - 1)
  {
    PowerOf31();
    PowAdd(2, 31, 31);
    PowAdd(2, 62, 62);
    PowAdd(2, 124, 1);
    PowAdd(2, 124, 125);
  }

  lemma PowerOf31()
    ensures Pow(2, 31) == 0x8000_0000 && Pow(2, 1) == 2
  {
    PowAdd(2, 8, 8);
    PowAdd(2, 16, 8);
    PowAdd(2, 24, 7);
  }

  /** Bit i of the two's complement form of b. */
  predicate Bit(b: int, i: nat) {
    PowPositive(2, i);
    (b / Pow(2, i)) % 2 == 1
  }

  /** The bits of b read as an unsigned number: b itself when b is not negative. */
  function Unsigned(b: int): nat {
    PowPositive(2, NBITS);
    b % Pow(2, NBITS)
  }

  /** The number formed by the bits of b from bit i upwards. */
  function Prefix(b: int, i: nat): nat
    requires i <= NBITS
  {
    PowPositive(2, i);
    Unsigned(b) / Pow(2, i)
  }

  lemma UnsignedNonNegative(b: bigint)
    requires b >= 0
    ensures Unsigned(b) == b
  {
    BoundIsPower();
    DivModUnique(b, 0, b, Pow(2, NBITS));
  }

  lemma DivPow(x: int, i: nat)
    ensures Pow(2, i) > 0 && Pow(2, i + 1) > 0
    ensures x / Pow(2, i + 1) == (x / Pow(2, i)) / 2
    ensures x / Pow(2, i) == 2 * (x / Pow(2, i + 1)) + (x / Pow(2, i)) % 2
  {
    var w := Pow(2, i);
    PowPositive(2, i);
    var q := x / w;
    var r := x % w;
    assert x == q * w + r;
    var h := q / 2;
    var c := q % 2;
    assert x == h * (2 * w) + (c * w + r) by {
      assert q * w == (2 * h + c) * w;
      assert (2 * h + c) * w == h * (2 * w) + c * w;
    }
    DivModUnique(x, h, c * w + r, 2 * w);
  }

  lemma PrefixBit(b: int, i: nat)
    requires i < NBITS
    ensures Prefix(b, i) == 2 * Prefix(b, i + 1) + if Bit(b, i) then 1 else 0
  {
    var w := Pow(2, i);
    var v := Pow(2, NBITS - 1 - i);
    DivPow(Unsigned(b), i);
    PowPositive(2, i);
    PowPositive(2, NBITS);
    PowAdd(2, i + 1, NBITS - 1 - i);
    LowBitOfQuotient(b, Unsigned(b), b / Pow(2, NBITS), w, v);
  }

  /** Adding multiples of 2wv leaves the bit at weight w alone. */
  lemma LowBitOfQuotient(b: int, u: int, k: int, w: int, v: int)
    requires w > 0 && b == k * ((2 * w) * v) + u
    ensures (b / w) % 2 == (u / w) % 2
  {
    RegroupFactors(k, w, v);
    QuotientShift(u, (k * v) * 2, w);
    ModAddMul(u / w, k * v, 2);
  }

  lemma RegroupFactors(k: int, w: int, v: int)
    ensures k * ((2 * w) * v) == ((k * v) * 2) * w
  {
  }

  lemma QuotientShift(u: int, k: int, w: int)
    requires w > 0
    ensures (u + k * w) / w == u / w + k
  {
    assert u == (u / w) * w + u % w;
    assert (u / w + k) * w == (u / w) * w + k * w;
    DivModUnique(u + k * w, u / w + k, u % w, w);
  }

  lemma PrefixEnds(b: int)
    ensures Prefix(b, NBITS) == 0 && Prefix(b, 0) == Unsigned(b)
  {
    PowPositive(2, NBITS);
    DivModUnique(Unsigned(b), 0, Unsigned(b), Pow(2, NBITS));
  }

  /** One round of square-and-multiply: the square doubles the exponent, the product adds one. */
  lemma SquareAndMultiply(a: int, e: nat, n: int, d: int)
    requires n > 0 && Cong(d, Pow(a, e), n)
    ensures var s := TruncMod(d * d, n);
            && Cong(s, Pow(a, 2 * e), n)
            && Cong(TruncMod(s * a, n), Pow(a, 2 * e + 1), n)
  {
    var s := TruncMod(d * d, n);
    TruncModCong(d * d, n);
    CongMul(d, Pow(a, e), d, Pow(a, e), n);
    PowAdd(a, e, e);
    TruncModCong(s * a, n);
    CongMul(s, Pow(a, 2 * e), a, a, n);
    assert Pow(a, 2 * e + 1) == a * Pow(a, 2 * e);
  }

  function RetPos(x: bigint, n: bigint): (r: bigint)
    requires n > 0
    ensures Cong(r, x, n) && (x >= 0 ==> r == x)
    ensures 0 <= r < n <==> -n <= x < n
  {
    ModAddMul(x, 1, n);
    if x < 0 then x + n else x
  }

  /** Square-and-multiply computes a^b mod n for every base; a negative exponent is read as the
      unsigned number with the same bits. */
  method ModularExp(a: bigint, b: bigint, n: bigint) returns (r: bigint)
    requires n > 0
    ensures r == ModPow(a, Unsigned(b), n)
    ensures b >= 0 ==> r == ModPow(a, b, n)
  {
    var d: bigint := 1;
    PrefixEnds(b);
    var i := NBITS - 1;
    while i >= 0
      invariant -1 <= i < NBITS
      invariant Abs(d) < n || (d == 1 && i == NBITS - 1)
      invariant Cong(d, Pow(a, Prefix(b, i + 1)), n)
    {
      SquareAndMultiply(a, Prefix(b, i + 1), n, d);
      PrefixBit(b, i);
      d := TruncMod(d * d, n);
      if Bit(b, i) {
        d := TruncMod(d * a, n);
      }
      i := i - 1;
    }
    r := RetPos(d, n);
    DivModUnique(r, 0, r, n);
    if b >= 0 {
      UnsignedNonNegative(b);
    }
  }

  method Cipher(msg: bigint, e: bigint, n: bigint) returns (r: bigint)
    requires n > 0 && e >= 0
    ensures r == ModPow(msg, e, n)
  {
    r := ModularExp(msg, e, n);
  }

  method Decipher(msg: bigint, d: bigint, n: bigint) returns (r: bigint)
    requires n > 0 && d >= 0
    ensures r == ModPow(msg, d, n)
  {
    r := ModularExp(msg, d, n);
  }

  // ---------------------------------------------------------------- key setup

  /** The extended algorithm, on arguments of either sign. The coefficients stay within the
      arguments, so nothing the recursion stores overflows. */
  method Euclid(a: bigint, b: bigint) returns (d: bigint, x: bigint, y: bigint)
    ensures d == Gcd(a, b) && d == a * x + b * y
    ensures (x, y) == Bezout(a, b)
    ensures Abs(x) <= Max(1, Abs(b) - 1) && Abs(y) <= Max(1, Abs(a) - 1)
    decreases Abs(b)
  {
    BezoutIdentity(a, b);
    BezoutBound(a, b);
    if b != 0 {
      d, x, y := Euclid(b, TruncMod(a, b));
      var tmp := x;
      x := y;
      y := tmp - TruncDiv(a, b) * y;
    } else {
      d := a;
      x := 1;
      y := 0;
    }
  }

  /** For coprime arguments the result is the inverse, and the only one below n. */
  method Inverse(a: bigint, n: bigint) returns (r: bigint)
    requires n > 0 && Coprime(a, n)
    ensures 0 <= r < n && Cong(a * r, 1, n)
    ensures forall z :: 0 <= z < n && Cong(a * z, 1, n) ==> z == r
  {
    var d, x, y := Euclid(a, n);
    assert d == 1;
    ghost var x0 := x;
    x := TruncMod(x, n);
    r := RetPos(x, n);
    BezoutInverse(a, n, x0, y, r);
    forall z | 0 <= z < n && Cong(a * z, 1, n)
      ensures z == r
    {
      InverseUnique(a, r, z, n);
    }
  }

  lemma BezoutInverse(a: int, n: int, x: int, y: int, r: int)
    requires n > 0 && a * x + n * y == 1
    requires Cong(r, TruncMod(x, n), n)
    ensures Cong(a * r, 1, n)
  {
    assert a * x == 1 + (-y) * n;
    CongByMultiple(a * x, 1, -y, n);
    TruncModCong(x, n);
    CongMul(a, a, r, x, n);
  }

  lemma InverseUnique(a: int, r: int, z: int, n: int)
    requires n > 0 && 0 <= r < n && 0 <= z < n
    requires Cong(a * r, 1, n) && Cong(a * z, 1, n)
    ensures z == r
  {
    CongMul(a * r, 1, z, z, n);
    CongMul(a * z, 1, r, r, n);
    SwapFactors(a, r, z);
    SmallMod(r, n);
    SmallMod(z, n);
  }

  lemma SwapFactors(a: int, r: int, z: int)
    ensures (a * r) * z == (a * z) * r
  {
  }

  predicate Coprime(a: int, n: int) {
    Gcd(a, n) == 1
  }

  /** Numbers next to n on either side have no common factor with it. */
  lemma NeighbourCoprime(a: int, n: int, c: int)
    requires a > 0 && n > 0 && 1 <= c <= 2 && n - a == c
    requires c == 2 ==> a % 2 == 1
    ensures Coprime(a, n)
  {
    var g := Gcd(a, n);
    GcdNonNegative(a, n);
    GcdDivides(a, n);
    DividesCombination(g, n, a, 1, -1);
    assert n * 1 + a * (-1) == c;
    DividesMod(g, c);
    DividesMod(g, a);
    if g > c {
      DivModUnique(c, 0, c, g);
    }
  }

  /** An odd number that is surely coprime to n, unless n is 3. */
  function SearchEnd(n: int): int {
    if n <= 3 then 3 else if n % 2 == 0 then n - 1 else n - 2
  }

  lemma GcdStep(a: int, b: int, r: int)
    requires b != 0 && r == TruncMod(a, b)
    ensures Gcd(a, b) == Gcd(b, r)
  {
  }

  lemma SmallGcds()
    ensures Gcd(3, 1) == 1 && Gcd(3, 2) == 1 && Gcd(3, 3) == 3
  {
    GcdStep(3, 1, 0);
    GcdStep(3, 2, 1);
    GcdStep(2, 1, 0);
    GcdStep(3, 3, 0);
  }

  lemma SearchStops(n: int)
    requires n > 0
    ensures SearchEnd(n) >= 3 && SearchEnd(n) % 2 == 1
    ensures n != 3 <==> Coprime(SearchEnd(n), n)
  {
    if n <= 3 {
      SmallGcds();
    } else {
      NeighbourCoprime(SearchEnd(n), n, n - SearchEnd(n));
    }
  }

  ghost predicate NoneBelow(c: int, n: int) {
    forall k :: 3 <= k < c && k % 2 == 1 ==> !Coprime(k, n)
  }

  lemma NoneBelowStep(c: int, n: int)
    requires c % 2 == 1 && NoneBelow(c, n) && !Coprime(c, n)
    ensures NoneBelow(c + 2, n)
  {
    forall k | 3 <= k < c + 2 && k % 2 == 1
      ensures !Coprime(k, n)
    {
      if k >= c {
        NextOdd(c, k);
      }
    }
  }

  lemma OddGap(c: int, e: int)
    requires c % 2 == 1 && e % 2 == 1
    ensures (c + 2) % 2 == 1
    ensures c < e ==> c + 2 <= e
  {
  }

  lemma NextOdd(c: int, k: int)
    requires c % 2 == 1 && k % 2 == 1 && c <= k < c + 2
    ensures k == c
  {
  }

  /** The least odd number from 3 up that is coprime to n. The search asserts that it stays below n;
      None stands for that assertion failing, which happens for n = 3 and for no other n >= 1. */
  method FindRelPrime(n: bigint) returns (a: Option<bigint>)
    requires n > 0
    ensures a.None? <==> n == 3
    ensures a.Some? ==> a.value >= 3 && a.value % 2 == 1 && Coprime(a.value, n)
    ensures a.Some? ==> NoneBelow(a.value, n)
    ensures a.Some? && n >= 4 ==> a.value < n
  {
    var c: bigint := 3;
    SearchStops(n);
    while true
      invariant c >= 3 && c % 2 == 1
      invariant c <= SearchEnd(n)
      invariant NoneBelow(c, n)
      decreases n - c
    {
      if Coprime(c, n) {
        return Some(c);
      }
      NoneBelowStep(c, n);
      OddGap(c, SearchEnd(n));
      c := c + 2;
      if !(c < n) {
        return None;
      }
    }
  }

  // ------------------------------------------------------------ the round trip

  lemma RoundTripModPrime(x: int, p: int, q: int, ed: nat, k: nat)
    requires Prime(p) && q >= 1
    requires ed == 1 + k * ((p - 1) * (q - 1))
    ensures Cong(Pow(x, ed), x, p)
  {
    MulLe(0, q - 1, k);
    assert k * ((p - 1) * (q - 1)) == ((q - 1) * k) * (p - 1);
    FermatExponent(x, p, (q - 1) * k);
  }

  /** For distinct primes every message comes back. */
  lemma RoundTrip(p: int, q: int, e: nat, d: nat, msg: int)
    requires Prime(p) && Prime(q) && p != q
    requires 0 <= msg < p * q && e >= 1
    requires (p - 1) * (q - 1) > 0 && Cong(e * d, 1, (p - 1) * (q - 1))
    requires e * d >= 1
    ensures ModPow(ModPow(msg, e, p * q), d, p * q) == msg
  {
    var n := p * q;
    var m := (p - 1) * (q - 1);
    var k := CongMultiple(e * d, 1, m);
    if k < 0 {
      MulLe(k, -1, m);
    }
    RoundTripModPrime(msg, p, q, e * d, k);
    assert (q - 1) * (p - 1) == m;
    RoundTripModPrime(msg, q, p, e * d, k);
    CongBothPrimes(Pow(msg, e * d), msg, p, q);
    CongMod(Pow(msg, e), n);
    CongPow(Pow(msg, e) % n, Pow(msg, e), d, n);
    PowMul(msg, e, d);
    DivModUnique(msg, 0, msg, n);
  }

  /** With p = q the message p is always lost. */
  lemma SquareModulusLosesP(p: int, e: nat, d: nat)
    requires Prime(p) && e >= 2
    ensures p * p > p && ModPow(ModPow(p, e, p * p), d, p * p) != p
  {
    MulLe(2, p, p);
    SquareDividesPower(p, e);
    if d == 0 {
      DivModUnique(1, 0, 1, p * p);
    } else {
      assert Pow(0, d) == 0 * Pow(0, d - 1);
    }
  }

  lemma SquareDividesPower(p: int, e: nat)
    requires p > 0 && e >= 2
    ensures p * p > 0 && ModPow(p, e, p * p) == 0
  {
    MulLe(1, p, p);
    var w := Pow(p, e - 2);
    assert Pow(p, e) == p * (p * w) == w * (p * p);
    ModAddMul(0, w, p * p);
  }

  /** What rsa() promises of its keys. It never checks that the primes differ, and that is exactly the
      condition under which decipher undoes cipher on every message. */
  lemma RoundTripExactly(p: int, q: int, e: nat, d: nat)
    requires Prime(p) && Prime(q) && e >= 3
    requires (p - 1) * (q - 1) > 0 && Cong(e * d, 1, (p - 1) * (q - 1))
    requires d > 0 || (p == 2 && q == 2)
    ensures p * q > 0
    ensures (forall msg :: 0 <= msg < p * q ==> ModPow(ModPow(msg, e, p * q), d, p * q) == msg) <==> p != q
  {
    MulLe(1, p, q);
    if p != q {
      MulLe(1, d, e);
      forall msg | 0 <= msg < p * q
        ensures ModPow(ModPow(msg, e, p * q), d, p * q) == msg
      {
        RoundTrip(p, q, e, d, msg);
      }
    } else {
      SquareModulusLosesP(p, e, d);
    }
  }

  /** The body of rsa() after the two primes are found, which are not 2 because the test rejects 2, and the
      message is drawn; ok says that the assertion on the message holds. */
  method RsaRun(p: bigint, q: bigint, draw: bigint)
    returns (ok: bool, msg: bigint, msg2: bigint, e: bigint, d: bigint)
    requires Prime(p) && Prime(q) && p > 2 && q > 2 && draw >= 0
    requires p < PRIME_BOUND && q < PRIME_BOUND
    ensures e >= 3 && d > 0
    ensures (forall m :: 0 <= m < p * q ==> ModPow(ModPow(m, e, p * q), d, p * q) == m) <==> p != q
    ensures 0 <= msg < p * q && msg == draw % (p * q)
    ensures ok <==> msg > 0
    ensures ok ==> msg2 == ModPow(ModPow(msg, e, p * q), d, p * q) && (p != q ==> msg2 == msg)
  {
    KeyBounds(p, q);
    PrimeBoundIsPower();
    MulLe(p, PRIME_BOUND, q);
    MulLe(q, PRIME_BOUND, PRIME_BOUND);
    assert PRIME_BOUND * q == q * PRIME_BOUND;
    var n: bigint := p * q;
    var m: bigint := (p - 1) * (q - 1);
    PhiNotThree(p, q);
    var found := FindRelPrime(m);
    e := found.value;
    d := Inverse(e, m);
    PhiOne(p, q, e, d);
    RoundTripExactly(p, q, e, d);
    msg := TruncMod(draw, n);
    ok := msg > 0;
    msg2 := 0;
    if ok {
      var c := Cipher(msg, e, n);
      msg2 := Decipher(c, d, n);
      if p != q {
        assert ModPow(ModPow(msg, e, p * q), d, p * q) == msg;
      }
    }
  }

  lemma KeyBounds(p: int, q: int)
    requires p >= 2 && q >= 2
    ensures p * q >= 4 && 0 < (p - 1) * (q - 1) < p * q
  {
    MulLe(2, p, q);
    MulLe(1, p - 1, q - 1);
    assert (p - 1) * (q - 1) == p * q - p - q + 1;
  }

  lemma PhiNotThree(p: int, q: int)
    requires Prime(p) && Prime(q)
    ensures (p - 1) * (q - 1) != 3
  {
    FourNotPrime();
    if (p - 1) * (q - 1) == 3 {
      FactorsOfThree(p - 1, q - 1);
    }
  }

  lemma FourNotPrime()
    ensures !Prime(4)
  {
    assert 4 % 2 == 0;
  }

  lemma FactorsOfThree(x: nat, y: nat)
    requires x * y == 3
    ensures x == 3 || y == 3
  {
    if x >= 4 {
      MulLe(4, x, y);
    }
  }

  /** A secret exponent of 0 only arises from p = q = 2. */
  lemma PhiOne(p: int, q: int, e: int, d: nat)
    requires Prime(p) && Prime(q)
    requires (p - 1) * (q - 1) > 0 && Cong(e * d, 1, (p - 1) * (q - 1))
    ensures d > 0 || (p == 2 && q == 2)
  {
    var m := (p - 1) * (q - 1);
    if m > 1 {
      DivModUnique(1, 0, 1, m);
      DivModUnique(0, 0, 0, m);
    } else if p > 2 {
      MulLe(2, p - 1, q - 1);
    }
  }
}
