/** 64-bit multiplication with a 128-bit product, from 32-bit halves. */
module MulDiv {
  import opened IntMath
  import NumberTheory

  const HALF: int := 0x1_0000_0000

  const WORD: int := 0x1_0000_0000_0000_0000

  /** Arithmetic on u64 and on u32 wraps around. */
  function U64(x: int): nat {
    x % WORD
  }

  function U32(x: int): nat {
    x % HALF
  }

  /** Assignment of a u64 to an i64. */
  function I64(x: int): int {
    if x % WORD < WORD / 2 then x % WORD else x % WORD - WORD
  }

  predicate IsU64(x: int) {
    0 <= x < WORD
  }

  predicate IsI64(x: int) {
    -(WORD / 2) <= x < WORD / 2
  }

  // ------------------------------------------------------------------ unsigned

  /** A product of halves with a carry fits in a word. */
  lemma HalfProduct(x: nat, y: nat, k: nat)
    requires x < HALF && y < HALF && k < HALF
    ensures x * y + k < WORD && x * y < WORD
  {
    MulLe(x, HALF - 1, y);
    MulLe(y, HALF - 1, HALF - 1);
    assert (HALF - 1) * y == y * (HALF - 1);
  }

  lemma U64Fits(x: int)
    requires IsU64(x)
    ensures U64(x) == x
  {
  }

  lemma Halves(x: nat)
    requires x < WORD
    ensures x == (x / HALF) * HALF + U32(x) && x / HALF < HALF && U32(x) < HALF
  {
  }

  /** The schoolbook product of two-digit numbers, digit by digit. */
  lemma Digits(a1: nat, u: nat, b1: nat, v: nat, k0: nat, w3: nat, w1: nat, k1: nat, k2: nat, t2: nat)
    requires u * v == k0 * HALF + w3
    requires a1 * v + k0 == w1 * HALF + k1
    requires u * b1 + k1 == k2 * HALF + t2
    ensures (a1 * HALF + u) * (b1 * HALF + v) == (a1 * b1 + w1 + k2) * WORD + (t2 * HALF + w3)
  {
    var h: nat := HALF;
    Expand(a1, u, b1, v, h);
    assert (a1 * v + u * b1) == w1 * h + k1 - k0 + k2 * h + t2 - k1;
    Collect(w1, k0, k2, t2, h);
    Square(a1 * b1);
    Square(w1);
    Square(k2);
  }

  lemma Expand(a1: nat, u: nat, b1: nat, v: nat, h: nat)
    ensures (a1 * h + u) * (b1 * h + v) == (a1 * b1) * h * h + (a1 * v + u * b1) * h + u * v
  {
    assert (a1 * h + u) * (b1 * h + v) == (a1 * h) * (b1 * h) + (a1 * h) * v + u * (b1 * h) + u * v;
    assert (a1 * h) * (b1 * h) == (a1 * b1) * h * h;
    assert (a1 * h) * v == (a1 * v) * h;
    assert u * (b1 * h) == (u * b1) * h;
    assert (a1 * v + u * b1) * h == (a1 * v) * h + (u * b1) * h;
  }

  lemma Collect(w1: nat, k0: nat, k2: nat, t2: nat, h: nat)
    ensures (w1 * h - k0 + k2 * h + t2) * h + k0 * h == (w1 * h) * h + (k2 * h) * h + t2 * h
  {
  }

  lemma Square(x: nat)
    ensures x * HALF * HALF == x * WORD
  {
  }

  /** umul64_slow: no carry is lost, the two words are the whole product. */
  method UMul64Slow(a0: nat, b0: nat) returns (hi: nat, lo: nat)
    requires IsU64(a0) && IsU64(b0)
    ensures IsU64(hi) && IsU64(lo) && hi * WORD + lo == a0 * b0
  {
    hide U64, U32;
    var a, b := a0, b0;
    Halves(a);
    Halves(b);
    var u := U32(a);
    var v := U32(b);
    HalfProduct(u, v, 0);
    U64Fits(u * v);
    var t := U64(u * v);
    Halves(t);
    var w3 := U32(t);
    var k := t / HALF;
    ghost var k0 := k;

    a := a / HALF;
    HalfProduct(a, v, k);
    U64Fits(a * v + k);
    t := U64(a * v + k);
    Halves(t);
    k := U32(t);
    var w1 := t / HALF;
    ghost var k1 := k;

    b := b / HALF;
    HalfProduct(u, b, k);
    U64Fits(u * b + k);
    t := U64(u * b + k);
    Halves(t);
    k := t / HALF;

    Digits(a, u, b, v, k0, w3, w1, k1, k, U32(t));
    HighFits(a0, b0, a * b + w1 + k, U32(t) * HALF + w3);
    U64Fits(a * b + w1 + k);
    LowWord(t, w3);
    hi := U64(a * b + w1 + k);
    lo := U64(U64(t * HALF) + w3);
  }

  /** The shift drops the upper half, and the sum with the lower half fits. */
  lemma LowWord(t: nat, w3: nat)
    requires t < WORD && w3 < HALF
    ensures U64(U64(t * HALF) + w3) == U32(t) * HALF + w3
  {
    var q, r := t / HALF, t % HALF;
    assert t == q * HALF + r;
    assert t * HALF == q * WORD + r * HALF;
    DivModUnique(t * HALF, q, r * HALF, WORD);
  }

  lemma HighFits(a: nat, b: nat, hi: nat, lo: nat)
    requires a < WORD && b < WORD && a * b == hi * WORD + lo
    ensures hi < WORD
  {
    MulLe(a, WORD - 1, b);
    MulLe(b, WORD - 1, WORD - 1);
    assert (WORD - 1) * b == b * (WORD - 1);
    Grows(hi, WORD);
  }

  lemma Grows(x: int, w: nat)
    ensures x >= w ==> x * w >= w * w
  {
    if x >= w {
      MulLe(w, x, w);
    }
  }

  // ------------------------------------------------------------------ signed

  /** imul64_slow: the two words are the product in two's complement. */
  method IMul64Slow(a: int, b: int) returns (hi: int, lo: int)
    requires IsI64(a) && IsI64(b)
    ensures IsI64(hi) && IsI64(lo) && hi * WORD + U64(lo) == a * b
  {
    hide U64, I64;
    var ua: int, ub: int := U64(a), U64(b);
    FromI64(a);
    FromI64(b);
    var uhi: int, ulo: nat;
    uhi, ulo := UMul64Slow(ua, ub);
    ghost var uhi0: int := uhi;
    if b < 0 {
      uhi := U64(uhi - ua);
    }
    ghost var uhi1: int := uhi;
    if a < 0 {
      uhi := U64(uhi - ub);
    }
    hi := I64(uhi);
    lo := I64(ulo);
    ToI64(uhi);
    ToI64(ulo);
    Signed(a, b, ua, ub, uhi0, uhi1, uhi, ulo);
  }

  lemma FromI64(x: int)
    requires IsI64(x)
    ensures U64(x) == if x < 0 then x + WORD else x
    ensures IsU64(U64(x))
  {
  }

  lemma ToI64(x: int)
    ensures IsI64(I64(x)) && (IsU64(x) ==> U64(I64(x)) == x)
  {
  }

  lemma Signed(a: int, b: int, ua: int, ub: int, h0: int, h1: int, h2: int, lo: nat)
    requires IsI64(a) && IsI64(b) && IsU64(h0) && IsU64(lo) && h0 * WORD + lo == ua * ub
    requires ua == (if a < 0 then a + WORD else a) && ub == (if b < 0 then b + WORD else b)
    requires h1 == (if b < 0 then U64(h0 - ua) else h0) && h2 == (if a < 0 then U64(h1 - ub) else h1)
    ensures I64(h2) * WORD + lo == a * b
  {
    var x := h0 - (if b < 0 then ua else 0) - (if a < 0 then ub else 0);
    var j := (h0 - (if b < 0 then ua else 0)) / WORD;
    assert h2 == U64(x) by {
      Wraps(h0, if b < 0 then ua else 0, if a < 0 then ub else 0);
      U64Fits(h0);
      if a >= 0 {
        U64Fits(h1);
      }
    }
    Product(a, b, ua, ub);
    var both := if a < 0 && b < 0 then 1 else 0;
    assert x * WORD + lo == a * b - both * WORD * WORD by {
      Spread(h0, if b < 0 then ua else 0, if a < 0 then ub else 0);
    }
    ProductBounds(a, b);
    InRange(x, lo, a * b, both);
  }

  lemma Wraps(h: int, p: int, q: int)
    ensures U64(U64(h - p) - q) == U64(h - p - q)
  {
    var k := (h - p) / WORD;
    assert U64(h - p) == h - p - k * WORD;
    ModAddMul(h - p - q, -k, WORD);
  }

  lemma Product(a: int, b: int, ua: int, ub: int)
    requires ua == (if a < 0 then a + WORD else a) && ub == (if b < 0 then b + WORD else b)
    ensures ua * ub - (if b < 0 then ua else 0) * WORD - (if a < 0 then ub else 0) * WORD
            == a * b - (if a < 0 && b < 0 then 1 else 0) * WORD * WORD
  {
    var w: int := WORD;
    if a < 0 && b < 0 {
      assert (a + w) * (b + w) == a * b + a * w + b * w + w * w;
      assert (a + w) * w == a * w + w * w && (b + w) * w == b * w + w * w;
    } else if a < 0 {
      assert (a + w) * b == a * b + b * w;
    } else if b < 0 {
      assert a * (b + w) == a * b + a * w;
    }
  }

  lemma Spread(h: int, p: int, q: int)
    ensures (h - p - q) * WORD == h * WORD - p * WORD - q * WORD
  {
  }

  lemma ProductBounds(a: int, b: int)
    requires IsI64(a) && IsI64(b)
    ensures -(WORD / 2 * (WORD / 2)) <= a * b <= WORD / 2 * (WORD / 2)
  {
    var m: nat := WORD / 2;
    MulLe(Abs(a), m, Abs(b));
    MulLe(Abs(b), m, m);
    assert m * Abs(b) == Abs(b) * m;
    NumberTheory.AbsMul(a, b);
  }

  /** The upper word is determined by the range of the product. */
  lemma InRange(x: int, lo: nat, product: int, both: int)
    requires lo < WORD && x * WORD + lo == product - both * WORD * WORD
    requires -(WORD / 2 * (WORD / 2)) <= product <= WORD / 2 * (WORD / 2) && 0 <= both <= 1
    ensures I64(U64(x)) * WORD + lo == product
  {
    var y := x + both * WORD;
    assert y * WORD + lo == product;
    ModAddMul(x, both, WORD);
    assert U64(x) == U64(y);
    assert -(WORD / 2) <= y < WORD / 2;
    assert I64(U64(y)) == y;
  }
}
