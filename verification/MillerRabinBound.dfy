/** How often the test errs: at least half of the bases accuse an odd composite number, so each of the fifty
    rounds halves the share of draws that accept it. */
module MillerRabinBound {
  import opened IntMath
  import opened NumberTheory
  import opened Rsa
  import opened MillerRabin

  // ------------------------------------------------------------------ counting

  predicate IsBase(a: int, n: int) {
    1 <= a < n
  }

  function Bases(n: int): set<int> {
    set a | 1 <= a < n && IsBase(a, n)
  }

  ghost function Accusers(n: int): set<int>
    requires n > 0
  {
    set a | 1 <= a < n && Accuses(a, n)
  }

  lemma {:induction false} BasesCount(n: int)
    requires n >= 1
    ensures |Bases(n)| == n - 1
  {
    BasesStep(n - 1);
    if n > 1 {
      BasesCount(n - 1);
    }
  }

  lemma BasesStep(k: nat)
    ensures Bases(k + 1) == if k == 0 then {} else Bases(k) + {k}
  {
    var s := if k == 0 then {} else Bases(k) + {k};
    forall a ensures a in Bases(k + 1) <==> a in s {
      assert IsBase(a, k + 1) <==> IsBase(a, k) || (k > 0 && a == k);
    }
  }

  /** An injection of some of the bases of k + 1 into a set. */
  lemma {:induction false} NoMoreThan(s: set<int>, t: set<int>, f: int -> int, k: nat)
    requires s <= Bases(k + 1) && forall x :: x in s ==> f(x) in t
    requires forall x, y :: x in s && y in s && f(x) == f(y) ==> x == y
    ensures |s| <= |t|
  {
    BasesStep(k);
    if k == 0 {
    } else if k in s {
      NoMoreThan(s - {k}, t - {f(k)}, f, k - 1);
    } else {
      NoMoreThan(s, t, f, k - 1);
    }
  }

  // ------------------------------------------------------------------ one multiplier is enough

  function Times(g: int, n: int): int -> int
    requires n > 0
  {
    x => (x * g) % n
  }

  lemma TimesUnit(x: int, g: int, c: int, n: int)
    requires n > 1 && 1 <= x < n && Cong(g * c, 1, n)
    ensures Cong(Times(g, n)(x) * c, x, n)
    ensures 1 <= Times(g, n)(x) < n
  {
    var y := Times(g, n)(x);
    CongMod(x * g, n);
    CongMul(y, x * g, c, c, n);
    CongMul(x, x, g * c, 1, n);
    assert (x * g) * c == x * (g * c);
    SmallMod(x, n);
    if y == 0 {
      SmallMod(0, n);
    }
  }

  /** If a property holds of every base that does not accuse n, and is lost when a base is multiplied by the
      unit g, then at least half of the bases accuse n. */
  lemma HalfAccuse(n: int, g: int, c: int, kept: int -> bool)
    requires n > 2 && Cong(g * c, 1, n)
    requires forall x :: 1 <= x < n && !Accuses(x, n) ==> kept(x)
    requires forall x :: 1 <= x < n && kept(x) ==> !kept(Times(g, n)(x))
    ensures 2 * |Accusers(n)| >= n - 1
  {
    hide Accuses;
    var s, t, f := Bases(n) - Accusers(n), Accusers(n), Times(g, n);
    forall x | x in s ensures f(x) in t {
      TimesUnit(x, g, c, n);
    }
    forall x, y | x in s && y in s && f(x) == f(y) ensures x == y {
      TimesUnit(x, g, c, n);
      TimesUnit(y, g, c, n);
      SmallMod(x, n);
      SmallMod(y, n);
    }
    NoMoreThan(s, t, f, n - 1);
    BasesCount(n);
    assert Accusers(n) <= Bases(n);
    assert |s| == |Bases(n)| - |Accusers(n)|;
  }

  lemma {:induction false} PowProduct(x: int, y: int, e: nat)
    ensures Pow(x * y, e) == Pow(x, e) * Pow(y, e)
  {
    if e > 0 {
      PowProduct(x, y, e - 1);
      Regroup(x, y, Pow(x, e - 1), Pow(y, e - 1));
    }
  }

  lemma Regroup(x: int, y: int, p: int, q: int)
    ensures (x * y) * (p * q) == (x * p) * (y * q)
  {
    assert (x * y) * (p * q) == x * (y * (p * q));
    assert y * (p * q) == p * (y * q);
    assert x * (p * (y * q)) == (x * p) * (y * q);
  }

  lemma PowTimes(x: int, g: int, e: nat, n: int)
    requires n > 0
    ensures Cong(Pow(Times(g, n)(x), e), Pow(x, e) * Pow(g, e), n)
  {
    CongMod(x * g, n);
    CongPow(Times(g, n)(x), x * g, e, n);
    PowProduct(x, g, e);
  }

  // ------------------------------------------------------------------ numbers with a Fermat witness

  function IsOne(e: nat, n: int): int -> bool
    requires n > 0
  {
    x => Pow(x, e) % n == 1
  }

  /** A unit whose power to n - 1 is not 1. */
  lemma FermatHalf(n: int, g: int, c: int)
    requires n > 2 && Cong(g * c, 1, n) && Pow(g, n - 1) % n != 1
    ensures 2 * |Accusers(n)| >= n - 1
  {
    hide Pow;
    var kept := IsOne(n - 1, n);
    SmallMod(1, n);
    forall x | 1 <= x < n && !Accuses(x, n) ensures kept(x) {
    }
    forall x | 1 <= x < n && kept(x) ensures !kept(Times(g, n)(x)) {
      PowTimes(x, g, n - 1, n);
      CongMul(Pow(x, n - 1), 1, Pow(g, n - 1), Pow(g, n - 1), n);
    }
    HalfAccuse(n, g, c, kept);
  }

  lemma {:induction false} PowOfOneMore(h: int, k: nat, n: int)
    requires n > 0 && (h * h) % n == 0
    ensures Cong(Pow(1 + h, k), 1 + k * h, n)
  {
    if k > 0 {
      PowOfOneMore(h, k - 1, n);
      CongMul(1 + h, 1 + h, Pow(1 + h, k - 1), 1 + (k - 1) * h, n);
      var j := (h * h) / n;
      assert h * h == j * n;
      Expand(h, k);
      assert ((k - 1) * j) * n == (k - 1) * (h * h);
      CongByMultiple((1 + h) * (1 + (k - 1) * h), 1 + k * h, (k - 1) * j, n);
    }
  }

  lemma Expand(h: int, k: int)
    ensures (1 + h) * (1 + (k - 1) * h) == 1 + k * h + (k - 1) * (h * h)
  {
    var w := (k - 1) * h;
    assert (1 + h) * (1 + w) == 1 + w + h + h * w;
    assert h * w == (k - 1) * (h * h);
    assert w + h == k * h;
  }

  lemma Square(p: int, q: int)
    ensures (p * q) * (p * q) == q * (p * (p * q))
  {
    var h := p * q;
    assert h * h == (q * p) * h;
    assert (q * p) * h == q * (p * h);
  }

  lemma Conjugate(h: int)
    ensures (1 + h) * (1 - h) == 1 - h * h
  {
  }

  /** A number that a square divides has such a unit: 1 + n/p. */
  lemma SquareHalf(n: int, p: int, q: int)
    requires n > 2 && p > 1 && q > 0 && n == p * (p * q)
    ensures 2 * |Accusers(n)| >= n - 1
  {
    hide Accuses, Pow;
    var h := p * q;
    MulLe(1, p, q);
    MulLe(2, p, h);
    Square(p, q);
    RootOfZero(n, h, q);
    FermatHalf(n, 1 + h, 1 - h);
  }

  /** If n divides the square of h, then 1 + h is a unit whose power to n - 1 is 1 - h. */
  lemma RootOfZero(n: int, h: int, q: int)
    requires n > 2 && 0 < h < n && h * h == q * n
    ensures Cong((1 + h) * (1 - h), 1, n) && Pow(1 + h, n - 1) % n != 1
  {
    hide Pow;
    MultipleMod(q, n);
    PowOfOneMore(h, n - 1, n);
    Spread(n, h);
    ModAddMul(1 - h, h, n);
    if Cong(1 - h, 1, n) {
      CongAdd(1 - h, 1, h - 1, h - 1, n);
      SmallMod(h, n);
      SmallMod(0, n);
    }
    SmallMod(1, n);
    Conjugate(h);
    CongByMultiple(1, (1 + h) * (1 - h), q, n);
  }

  lemma Spread(n: int, h: int)
    ensures 1 + (n - 1) * h == (1 - h) + h * n
  {
  }

  // ------------------------------------------------------------------ two coprime factors

  /** Congruence modulo a prime p and modulo m, which it does not divide, is congruence modulo their product. */
  lemma CongBoth(a: int, b: int, p: int, m: int)
    requires Prime(p) && m > 0 && m % p != 0 && Cong(a, b, p) && Cong(a, b, m)
    ensures p * m > 0 && Cong(a, b, p * m)
  {
    hide Gcd;
    MulLe(1, p, m);
    var k := CongMultiple(a, b, m);
    CongAdd(a, b, -b, -b, p);
    assert m * k == k * m;
    EuclidLemma(m, k, p);
    RegroupFactor(k, p, m);
    CongByMultiple(a, b, k / p, p * m);
  }

  lemma RegroupFactor(k: int, p: int, m: int)
    requires p > 0 && k % p == 0
    ensures k * m == (k / p) * (p * m)
  {
    var i := k / p;
    assert k == i * p;
    assert (i * p) * m == i * (p * m);
  }

  lemma CongFactor(a: int, b: int, p: int, m: int)
    requires p > 0 && m > 0 && p * m > 0 && Cong(a, b, p * m)
    ensures Cong(a, b, p) && Cong(a, b, m)
  {
    var k := CongMultiple(a, b, p * m);
    assert k * (p * m) == (k * m) * p == (k * p) * m;
    CongByMultiple(a, b, k * m, p);
    CongByMultiple(a, b, k * p, m);
  }

  /** A number that is v modulo p and 1 modulo m. */
  lemma Mixed(v: int, p: int, m: int) returns (g: int)
    requires Prime(p) && m > 0 && m % p != 0
    ensures Cong(g, v, p) && Cong(g, 1, m)
  {
    hide Gcd, Bezout;
    PrimeCoprime(m, p);
    BezoutIdentity(m, p);
    var (x, y) := Bezout(m, p);
    var w := v - 1;
    g := 1 + (w * x) * m;
    CongByMultiple(g, 1, w * x, m);
    ScaleUnit(m, w, p, x, y);
    Turn(m, w, x);
    CongByMultiple(v, g, w * y, p);
  }

  lemma Turn(m: int, w: int, x: int)
    ensures (m * w) * x == (w * x) * m
  {
    assert (m * w) * x == m * (w * x);
  }

  /** 1 and -1 differ modulo everything above 2. */
  lemma SignsDiffer(n: int)
    requires n > 2
    ensures !Cong(1, -1, n) && !Cong(-1, 1, n)
  {
    SmallMod(1, n);
    assert -1 == (-1) * n + (n - 1);
    DivModUnique(-1, -1, n - 1, n);
  }

  function IsSign(e: nat, n: int): int -> bool
    requires n > 0
  {
    x => Cong(Pow(x, e), 1, n) || Cong(Pow(x, e), -1, n)
  }

  /** The multiplier turns a sign modulo p and leaves it modulo m. */
  lemma SignIsLost(x: int, g: int, e: nat, p: int, m: int)
    requires p > 2 && m > 2 && p * m > 0
    requires Cong(Pow(g, e), -1, p) && Cong(Pow(g, e), 1, m)
    requires IsSign(e, p * m)(x)
    ensures !IsSign(e, p * m)(Times(g, p * m)(x))
  {
    hide Pow;
    var n, y := p * m, Times(g, p * m)(x);
    var s := if Cong(Pow(x, e), 1, n) then 1 else -1;
    PowTimes(x, g, e, n);
    CongFactor(Pow(x, e), s, p, m);
    CongFactor(Pow(y, e), Pow(x, e) * Pow(g, e), p, m);
    CongMul(Pow(x, e), s, Pow(g, e), -1, p);
    CongMul(Pow(x, e), s, Pow(g, e), 1, m);
    assert Cong(Pow(y, e), -s, p) && Cong(Pow(y, e), s, m);
    SignsDiffer(p);
    SignsDiffer(m);
    if IsSign(e, n)(y) {
      var r := if Cong(Pow(y, e), 1, n) then 1 else -1;
      CongFactor(Pow(y, e), r, p, m);
    }
  }

  // ------------------------------------------------------------------ the squarings of the loop

  /** n - 1 without i factors 2. */
  function Half(n: bigint, i: nat): nat
    requires n > 1 && i <= NBITS
  {
    Prefix(n - 1, i)
  }

  /** The first i halvings of n - 1 leave no remainder. */
  predicate Halves(n: bigint, i: nat) {
    n > 1 && i <= NBITS && forall k :: 0 <= k < i ==> Half(n, k) == 2 * Half(n, k + 1)
  }

  lemma HalfStart(n: bigint)
    requires n > 1
    ensures Half(n, 0) == n - 1 && Half(n, NBITS) == 0
  {
    UnsignedNonNegative(n - 1);
    PrefixEnds(n - 1);
  }

  lemma HalfStep(n: bigint, i: nat)
    requires n > 1 && i < NBITS
    ensures Half(n, i) == 2 * Half(n, i + 1) + Half(n, i) % 2
  {
    hide Prefix, Bit;
    PrefixBit(n - 1, i);
  }

  lemma Unfold(x: int, e: nat, n: int)
    requires n > 0
    ensures var y := ModPow(x, e, n); (y * y) % n == Pow(x, 2 * e) % n
  {
    var y := ModPow(x, e, n);
    CongMod(Pow(x, e), n);
    CongMul(y, Pow(x, e), y, Pow(x, e), n);
    PowAdd(x, e, e);
  }

  /** Some number has the power -1 at the i-th halving. */
  ghost predicate Minus(n: bigint, i: nat)
    requires n > 1 && i <= NBITS
  {
    exists v :: ModPow(v, Half(n, i), n) == n - 1
  }

  lemma {:induction false} OddPowerOfMinusOne(e: nat)
    ensures Pow(-1, 2 * e) == 1 && Pow(-1, 2 * e + 1) == -1
  {
    if e > 0 {
      OddPowerOfMinusOne(e - 1);
      assert Pow(-1, 2 * e) == -1 * Pow(-1, 2 * e - 1);
    }
  }

  lemma MinusOne(n: int)
    requires n > 1
    ensures -1 % n == n - 1
  {
    assert -1 == (-1) * n + (n - 1);
    DivModUnique(-1, -1, n - 1, n);
  }

  /** The first halving for which there is one. */
  lemma FirstMinus(n: bigint) returns (i: nat)
    requires n > 2 && n % 2 == 1
    ensures i <= NBITS && Halves(n, i) && Minus(n, i) && forall k :: 0 <= k < i ==> !Minus(n, k)
  {
    hide Minus, Half;
    HalfStart(n);
    i := 0;
    while !Minus(n, i)
      invariant i <= NBITS && Halves(n, i) && Half(n, i) > 0
      invariant forall k :: 0 <= k < i ==> !Minus(n, k)
      decreases NBITS - i
    {
      if Half(n, i) % 2 == 1 {
        OddMinus(n, i);
        assert false;
      }
      assert i < NBITS;
      HalfStep(n, i);
      i := i + 1;
    }
  }

  lemma OddMinus(n: bigint, i: nat)
    requires n > 2 && i <= NBITS && Half(n, i) % 2 == 1
    ensures Minus(n, i)
  {
    OddPowerOfMinusOne(Half(n, i) / 2);
    MinusOne(n);
    assert ModPow(-1, Half(n, i), n) == n - 1;
  }

  /** A base that does not accuse n has the power 1 at every halving before that one, and 1 or -1 there. */
  lemma {:induction false} NoRoots(n: bigint, x: int, i: nat, k: nat)
    requires n > 2 && 1 <= x < n && !Accuses(x, n) && Halves(n, i) && k <= i
    requires forall j :: 0 <= j < i ==> !Minus(n, j)
    ensures ModPow(x, Half(n, k), n) == 1 || (k == i && ModPow(x, Half(n, k), n) == n - 1)
  {
    hide Half, Accuses, Minus, Pow;
    NoRootAt(n, x, k);
    if k > 0 {
      NoRoots(n, x, i, k - 1);
      assert Half(n, k - 1) == 2 * Half(n, k);
      if k < i && ModPow(x, Half(n, k), n) == n - 1 {
        MinusAt(n, x, k);
      }
    }
  }

  lemma MinusAt(n: bigint, x: int, k: nat)
    requires n > 2 && k <= NBITS && ModPow(x, Half(n, k), n) == n - 1
    ensures Minus(n, k)
  {
  }

  lemma NoRootAt(n: bigint, x: int, k: nat)
    requires n > 2 && 1 <= x < n && !Accuses(x, n) && k <= NBITS
    ensures Pow(x, Half(n, 0)) % n == 1
    ensures var y := ModPow(x, Half(n, k), n);
            k > 0 && Pow(x, 2 * Half(n, k)) % n == 1 ==> y == 1 || y == n - 1
  {
    hide Prefix, Pow;
    HalfStart(n);
    Unfold(x, Half(n, k), n);
    if k > 0 {
      assert !NontrivialRoot(x, n, k - 1);
    }
  }

  // ------------------------------------------------------------------ all composite numbers

  /** The power of a number to some exponent is a sign only if the number is a unit. */
  lemma SignIsUnit(v: int, e: nat, n: int) returns (c: int)
    requires n > 2 && e > 0 && Cong(Pow(v, e), -1, n)
    ensures Cong(v * c, 1, n)
  {
    c := -Pow(v, e - 1);
    assert v * c == -(v * Pow(v, e - 1));
    var k := CongMultiple(Pow(v, e), -1, n);
    assert (-k) * n == -(k * n);
    CongByMultiple(v * c, 1, -k, n);
  }

  lemma OneIsUnit(g: int, e: nat, n: int) returns (c: int)
    requires n > 2 && e > 0 && Cong(Pow(g, e), 1, n)
    ensures Cong(g * c, 1, n)
  {
    c := Pow(g, e - 1);
  }

  /** A number with two coprime factors and no Fermat witness among its units: g is -1 at the first halving
      modulo the one factor, and 1 modulo the other. */
  lemma CarmichaelHalf(n: bigint, p: int, m: int)
    requires n > 2 && n % 2 == 1 && n == p * m && Prime(p) && p > 2 && m > 2 && m % p != 0
    requires forall g, c :: Cong(g * c, 1, n) ==> Pow(g, n - 1) % n == 1
    ensures 2 * |Accusers(n)| >= n - 1
  {
    hide Accuses, Halves, Pow;
    var i := FirstMinus(n);
    var e := Half(n, i);
    var v :| ModPow(v, e, n) == n - 1;
    MinusOne(n);
    HalfPositive(n, i, v);
    BeforeTheFirst(n, i, v);
    var g := Mixed(v, p, m);
    CongPow(g, v, e, p);
    CongPow(g, 1, e, m);
    PowOne(e);
    CongFactor(Pow(v, e), -1, p, m);
    var c := MixedUnit(g, e, p, m);
    var kept := IsSign(e, n);
    forall x | 1 <= x < n && !Accuses(x, n) ensures kept(x) {
      NoRoots(n, x, i, i);
      SmallMod(1, n);
    }
    forall x | 1 <= x < n && kept(x) ensures !kept(Times(g, n)(x)) {
      SignIsLost(x, g, e, p, m);
    }
    HalfAccuse(n, g, c, kept);
  }

  lemma HalfPositive(n: bigint, i: nat, v: int)
    requires n > 2 && i <= NBITS && ModPow(v, Half(n, i), n) == n - 1
    ensures Half(n, i) > 0
  {
    if Half(n, i) == 0 {
      SmallMod(1, n);
    }
  }

  /** The first halving with a power -1 is not n - 1 itself. */
  lemma BeforeTheFirst(n: bigint, i: nat, v: int)
    requires n > 2 && i <= NBITS && ModPow(v, Half(n, i), n) == n - 1 && Half(n, i) > 0
    requires forall g, c :: Cong(g * c, 1, n) ==> Pow(g, n - 1) % n == 1
    ensures i > 0
  {
    hide Pow, Half;
    HalfStart(n);
    MinusOne(n);
    if i == 0 {
      var c := SignIsUnit(v, n - 1, n);
    }
  }

  lemma MixedUnit(g: int, e: nat, p: int, m: int) returns (c: int)
    requires Prime(p) && p > 2 && m > 2 && m % p != 0 && p * m > 2 && e > 0
    requires Cong(Pow(g, e), -1, p) && Cong(Pow(g, e), 1, m)
    ensures Cong(g * c, 1, p * m)
  {
    var w := Pow(g, e);
    PowAdd(g, e, e);
    CongMul(w, -1, w, -1, p);
    CongMul(w, 1, w, 1, m);
    CongBoth(Pow(g, e + e), 1, p, m);
    c := OneIsUnit(g, e + e, p * m);
  }

  lemma PrimeFactor(n: int, d: int) returns (p: int)
    requires 1 < d && n % d == 0
    ensures Prime(p) && n % p == 0 && p <= d
    decreases d
  {
    if Prime(d) {
      p := d;
    } else {
      var f :| 1 < f < d && d % f == 0;
      Through(n, d, f);
      p := PrimeFactor(n, f);
    }
  }

  lemma Through(n: int, d: int, f: int)
    requires d > 0 && f > 0 && n % d == 0 && d % f == 0
    ensures n % f == 0
  {
    DividesMod(f, d);
    DividesMod(d, n);
    DividesMod(f, n);
    assert 0 == 0 * f;
    DividesCombination(f, d, 0, n / d, 0);
    assert d * (n / d) + 0 * 0 == n;
  }

  lemma TwoFactors(n: int) returns (p: int, m: int)
    requires n > 2 && n % 2 == 1 && !Prime(n)
    ensures Prime(p) && n == p * m && p > 2 && m > 2
  {
    var d :| 1 < d < n && n % d == 0;
    p := PrimeFactor(n, d);
    m := n / p;
    assert n == m * p && n == p * m;
    OddFactors(n, p, m);
    Cofactor(n, p, m);
  }

  /** At least half of the bases accuse an odd composite number. */
  lemma HalfOfBases(n: bigint)
    requires n > 2 && n % 2 == 1 && !Prime(n)
    ensures 2 * |Accusers(n)| >= n - 1
  {
    hide Accuses, Pow, Prime;
    var p, m := TwoFactors(n);
    if m % p == 0 {
      assert m == p * (m / p);
      SquareHalf(n, p, m / p);
    } else if g, c :| Cong(g * c, 1, n) && Pow(g, n - 1) % n != 1 {
      FermatHalf(n, g, c);
    } else {
      CarmichaelHalf(n, p, m);
    }
  }

  /** Over k rounds with bases drawn from 1 to n - 1: of the (n - 1)^k sequences of bases at most one in 2^k
      consists of bases that do not accuse n. */
  lemma {:induction false} RoundsErr(n: bigint, k: nat)
    requires n > 2 && n % 2 == 1 && !Prime(n)
    ensures Pow(2, k) * Pow(|Bases(n) - Accusers(n)|, k) <= Pow(n - 1, k)
  {
    hide Accuses;
    if k > 0 {
      RoundsErr(n, k - 1);
      HalfOfBases(n);
      var liars := |Bases(n) - Accusers(n)|;
      BasesCount(n);
      assert Accusers(n) <= Bases(n);
      assert liars == n - 1 - |Accusers(n)|;
      NonNegativePower(liars, k - 1);
      NonNegativePower(2, k - 1);
      RoundMore(liars, n - 1, Pow(2, k - 1), Pow(liars, k - 1), Pow(n - 1, k - 1));
    }
  }

  lemma {:induction false} NonNegativePower(x: nat, e: nat)
    ensures Pow(x, e) >= 0
  {
    if e > 0 {
      NonNegativePower(x, e - 1);
      MulLe(0, x, Pow(x, e - 1));
    }
  }

  lemma RoundMore(x: nat, m: nat, a: nat, b: nat, c: nat)
    requires 2 * x <= m && a * b <= c
    ensures (2 * a) * (x * b) <= m * c
  {
    Regroup(2, x, a, b);
    Regroup(2, a, x, b);
    MulLe(0, a, b);
    MulLe(2 * x, m, a * b);
    MulLe(a * b, c, m);
    assert m * (a * b) == (a * b) * m && c * m == m * c;
  }
}
