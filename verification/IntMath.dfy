/** Integer arithmetic shared by the models: division that truncates toward zero, as C++ and
    sc_bigint have it, powers, and congruences modulo a positive number. */
module IntMath {

  function Abs(x: int): nat {
    if x < 0 then -x else x
  }

  function Max(x: int, y: int): int {
    if x < y then y else x
  }

  /** Quotient rounded toward zero. */
  function TruncDiv(a: int, b: int): int
    requires b != 0
  {
    var q := Abs(a) / Abs(b);
    if (a < 0) == (b < 0) then q else -q
  }

  /** Remainder that takes the sign of the dividend. */
  function TruncMod(a: int, b: int): (r: int)
    requires b != 0
    ensures Abs(r) < Abs(b)
    ensures a >= 0 ==> r >= 0
    ensures a <= 0 ==> r <= 0
  {
    if a < 0 then -(Abs(a) % Abs(b)) else Abs(a) % Abs(b)
  }

  lemma TruncDivMod(a: int, b: int)
    requires b != 0
    ensures a == TruncDiv(a, b) * b + TruncMod(a, b)
    ensures Abs(TruncDiv(a, b)) * Abs(b) + Abs(TruncMod(a, b)) == Abs(a)
  {
    DivModIdentity(Abs(a), Abs(b));
    MulSigns(Abs(a) / Abs(b), Abs(b));
  }

  lemma DivModIdentity(a: nat, b: nat)
    requires b > 0
    ensures a == (a / b) * b + a % b
    ensures a / b >= 0
  {
  }

  lemma MulSigns(x: int, y: int)
    ensures (-x) * y == x * (-y) == -(x * y)
    ensures (-x) * (-y) == x * y
  {
  }

  lemma MulLe(a: int, b: int, c: nat)
    requires a <= b
    ensures a * c <= b * c
  {
    assert (b - a) * c >= 0;
  }

  /** Quotient and remainder are determined by the division equation. */
  lemma DivModUnique(x: int, q: int, r: int, n: int)
    requires 0 <= r < n
    requires x == q * n + r
    ensures x / n == q && x % n == r
  {
    var q' := x / n;
    assert x == q' * n + x % n;
    assert (q + 1) * n == q * n + n && (q' + 1) * n == q' * n + n;
    if q < q' {
      MulLe(q + 1, q', n);
    } else if q' < q {
      MulLe(q' + 1, q, n);
    }
  }

  lemma SmallMod(x: int, n: int)
    requires 0 <= x < n
    ensures x % n == x
  {
    DivModUnique(x, 0, x, n);
  }

  lemma MultipleMod(k: int, n: int)
    requires n > 0
    ensures (k * n) % n == 0 && (n * k) % n == 0
  {
    ModAddMul(0, k, n);
  }

  lemma ModAddMul(a: int, k: int, n: int)
    requires n > 0
    ensures (a + k * n) % n == a % n
  {
    var q := a / n;
    assert a + k * n == (q + k) * n + a % n by {
      assert a == q * n + a % n;
      assert (q + k) * n == q * n + k * n;
    }
    DivModUnique(a + k * n, q + k, a % n, n);
  }

  /** a and b leave the same remainder modulo n. */
  predicate Cong(a: int, b: int, n: int)
    requires n > 0
  {
    a % n == b % n
  }

  lemma CongByMultiple(a: int, b: int, k: int, n: int)
    requires n > 0
    requires a == b + k * n
    ensures Cong(a, b, n)
  {
    ModAddMul(b, k, n);
  }

  lemma CongMod(a: int, n: int)
    requires n > 0
    ensures Cong(a % n, a, n)
  {
    assert a == a % n + (a / n) * n;
    CongByMultiple(a, a % n, a / n, n);
  }

  /** Congruence means that the difference is a multiple. */
  lemma CongMultiple(a: int, b: int, n: int) returns (k: int)
    requires n > 0
    requires Cong(a, b, n)
    ensures a == b + k * n
  {
    k := a / n - b / n;
    assert a == (a / n) * n + a % n && b == (b / n) * n + b % n;
    assert k * n == (a / n) * n - (b / n) * n;
  }

  lemma CongAdd(a: int, a': int, b: int, b': int, n: int)
    requires n > 0
    requires Cong(a, a', n) && Cong(b, b', n)
    ensures Cong(a + b, a' + b', n)
  {
    var k := CongMultiple(a, a', n);
    var j := CongMultiple(b, b', n);
    assert a + b == a' + b' + (k + j) * n by {
      assert (k + j) * n == k * n + j * n;
    }
    CongByMultiple(a + b, a' + b', k + j, n);
  }

  lemma CongMul(a: int, a': int, b: int, b': int, n: int)
    requires n > 0
    requires Cong(a, a', n) && Cong(b, b', n)
    ensures Cong(a * b, a' * b', n)
  {
    var k := CongMultiple(a, a', n);
    var j := CongMultiple(b, b', n);
    ProductOfSums(a, a', b, b', k, j, n);
    CongByMultiple(a * b, a' * b', a' * j + k * b, n);
  }

  lemma ProductOfSums(a: int, a': int, b: int, b': int, k: int, j: int, n: int)
    requires a == a' + k * n && b == b' + j * n
    ensures a * b == a' * b' + (a' * j + k * b) * n
  {
    assert a * b == a' * b + (k * n) * b;
    assert a' * b == a' * b' + a' * (j * n);
    assert (k * n) * b == (k * b) * n;
    assert a' * (j * n) == (a' * j) * n;
    assert (a' * j + k * b) * n == (a' * j) * n + (k * b) * n;
  }

  lemma TruncModCong(a: int, n: int)
    requires n > 0
    ensures Cong(TruncMod(a, n), a, n)
  {
    TruncDivMod(a, n);
    CongByMultiple(a, TruncMod(a, n), TruncDiv(a, n), n);
  }

  // ---------------------------------------------------------------- powers

  function Pow(a: int, e: nat): int {
    if e == 0 then 1 else a * Pow(a, e - 1)
  }

  lemma {:induction false} PowAdd(a: int, e: nat, f: nat)
    ensures Pow(a, e + f) == Pow(a, e) * Pow(a, f)
  {
    if e == 0 {
    } else {
      PowAdd(a, e - 1, f);
      assert a * (Pow(a, e - 1) * Pow(a, f)) == (a * Pow(a, e - 1)) * Pow(a, f);
    }
  }

  lemma {:induction false} PowOne(e: nat)
    ensures Pow(1, e) == 1
  {
    if e == 0 {
    } else {
      PowOne(e - 1);
    }
  }

  lemma {:induction false} PowMul(a: int, e: nat, f: nat)
    ensures Pow(Pow(a, e), f) == Pow(a, e * f)
  {
    if f == 0 {
      assert e * f == 0;
    } else {
      PowMul(a, e, f - 1);
      assert e * f == e + e * (f - 1);
      PowAdd(a, e, e * (f - 1));
    }
  }

  lemma {:induction false} PowPositive(a: int, e: nat)
    requires a > 0
    ensures Pow(a, e) > 0
  {
    if e == 0 {
    } else {
      PowPositive(a, e - 1);
      MulLe(1, Pow(a, e - 1), a);
    }
  }

  lemma {:induction false} CongPow(a: int, b: int, e: nat, n: int)
    requires n > 0
    requires Cong(a, b, n)
    ensures Cong(Pow(a, e), Pow(b, e), n)
  {
    if e == 0 {
    } else {
      CongPow(a, b, e - 1, n);
      CongMul(a, b, Pow(a, e - 1), Pow(b, e - 1), n);
    }
  }

  /** a to the power e, reduced modulo n. */
  function ModPow(a: int, e: nat, n: int): (r: nat)
    requires n > 0
    ensures r < n
  {
    Pow(a, e) % n
  }
}
