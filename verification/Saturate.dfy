/** Saturating addition of signed integers of any width; half is 2 to the width minus one. */
module Saturate {
  import opened IntMath

  predicate Fits(x: int, half: int) {
    -half <= x < half
  }

  /** The unsigned representation, its top bit, and the way back. */
  function Unsigned(x: int, half: int): nat
    requires half > 0
  {
    x % (2 * half)
  }

  predicate Top(u: int, half: int) {
    u >= half
  }

  function Signed(u: int, half: int): int {
    if Top(u, half) then u - 2 * half else u
  }

  /** The nearest value that fits. */
  function Clamp(x: int, half: int): (r: int)
    requires half > 0
    ensures Fits(r, half)
    ensures Fits(x, half) ==> r == x
    ensures !Fits(x, half) ==> forall v :: Fits(v, half) ==> if x < 0 then r <= v else v <= r
  {
    if x < -half then -half else if x >= half then half - 1 else x
  }

  lemma UnsignedIs(x: int, half: int)
    requires half > 0 && -2 * half <= x < 2 * half
    ensures Unsigned(x, half) == if x < 0 then x + 2 * half else x
  {
    if x < 0 {
      DivModUnique(x, -1, x + 2 * half, 2 * half);
    } else {
      DivModUnique(x, 0, x, 2 * half);
    }
  }

  lemma WrapSum(x: int, y: int, half: int)
    requires half > 0 && Fits(x, half) && Fits(y, half)
    ensures Unsigned(Unsigned(x, half) + Unsigned(y, half), half)
            == if x + y >= 0 then x + y else x + y + 2 * half
  {
    hide Unsigned;
    UnsignedIs(x, half);
    UnsignedIs(y, half);
    var s := Unsigned(x, half) + Unsigned(y, half);
    if s >= 2 * half {
      Reduced(s, half);
    } else {
      UnsignedIs(s, half);
    }
  }

  lemma Reduced(s: int, half: int)
    requires half > 0 && 2 * half <= s < 4 * half
    ensures Unsigned(s, half) == s - 2 * half
  {
    DivModUnique(s, 1, s - 2 * half, 2 * half);
  }

  /** sat_add of two operands: bitwise expressions are evaluated on the top bits, which decide the signs. */
  method SatAdd(x: int, y: int, half: int) returns (r: int, sat: bool)
    requires half > 0 && Fits(x, half) && Fits(y, half)
    ensures r == Clamp(x + y, half) && (sat <==> !Fits(x + y, half))
  {
    hide Unsigned;
    WrapSum(x, y, half);
    UnsignedIs(x, half);
    UnsignedIs(y, half);
    var ux := Unsigned(x, half);
    var uy := Unsigned(y, half);
    var res := Unsigned(ux + uy, half);
    sat := false;
    ux := (if Top(ux, half) then 1 else 0) + (half - 1);
    // the sign of (ux ^ uy) | ~(uy ^ res)
    if !((Top(ux, half) != Top(uy, half)) || !(Top(uy, half) != Top(res, half))) {
      res := ux;
      sat := true;
    }
    r := Signed(res, half);
  }

  /** sat_add of three operands: the result is the clamped sum, and sat tells exactly whether the true sum
      was out of range. */
  method SatAdd3(x: int, y: int, z: int, half: int) returns (res: int, sat: bool)
    requires half > 0 && Fits(x, half) && Fits(y, half) && Fits(z, half)
    ensures res == Clamp(x + y + z, half) && (sat <==> !Fits(x + y + z, half))
  {
    var a, b := y, z;
    // the sign of (y ^ z) & (x ^ z)
    if (y < 0) != (z < 0) && (x < 0) != (z < 0) {
      a, b := z, y;
    }
    var sat1, sat2;
    res, sat1 := SatAdd(x, a, half);
    res, sat2 := SatAdd(res, b, half);
    sat := sat1 || sat2;
  }

  /** The exchange is needed: adding from left to right would let an intermediate saturation show. */
  lemma LeftToRightDiffers(half: int)
    requires half > 1
    ensures var x, y, z := -half, -half, half - 1;
            && Fits(x, half) && Fits(y, half) && Fits(z, half)
            && Clamp(Clamp(x + y, half) + z, half) != Clamp(x + y + z, half)
  {
    assert Clamp(-half + -half, half) == -half;
  }
}
