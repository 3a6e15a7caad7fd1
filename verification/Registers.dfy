/** Shift registers in a 32-bit word: a register of fewer bits sits at the top of the word, with zeros below.
    poly is the divisor without its leading term, in the same position. */
module Registers {
  import opened Polynomials

  predicate Top(r: bv32) {
    r & 0x8000_0000 != 0
  }

  function Shl(r: bv32): bv32 {
    r << 1
  }

  function Add(r: bv32, s: bv32): bv32 {
    r ^ s
  }

  lemma TopOfSum(r: bv32, s: bv32)
    ensures Top(Add(r, s)) == (Top(r) != Top(s))
  {
    assert (r ^ s) & 0x8000_0000 == (r & 0x8000_0000) ^ (s & 0x8000_0000);
    assert r & 0x8000_0000 == 0 || r & 0x8000_0000 == 0x8000_0000;
    assert s & 0x8000_0000 == 0 || s & 0x8000_0000 == 0x8000_0000;
  }

  lemma ShlOfSum(r: bv32, s: bv32)
    ensures Shl(Add(r, s)) == Add(Shl(r), Shl(s))
  {
  }

  lemma AddAssoc(r: bv32, s: bv32, p: bv32)
    ensures Add(Add(r, s), p) == Add(r, Add(s, p))
  {
  }

  lemma AddComm(r: bv32, s: bv32)
    ensures Add(r, s) == Add(s, r) && Add(r, r) == 0 && Add(r, 0) == r
  {
  }

  lemma AddZero(r: bv32, s: bv32)
    ensures Add(r, s) == 0 <==> r == s
  {
    hide Add;
    AddComm(s, s);
    AddComm(r, 0);
    AddComm(s, 0);
    AddAssoc(r, s, s);
  }

  lemma AddCancel(r: bv32, s: bv32, p: bv32)
    ensures Add(Add(r, p), Add(s, p)) == Add(r, s)
    ensures Add(Add(r, p), s) == Add(Add(r, s), p) == Add(r, Add(s, p))
  {
    hide Add;
    AddAssoc(r, p, Add(s, p));
    AddComm(s, p);
    AddAssoc(p, p, s);
    AddComm(p, p);
    AddComm(s, 0);
    AddAssoc(r, p, s);
    AddAssoc(r, s, p);
  }

  // ------------------------------------------------------------------ registers as coefficients

  /** The register holds these coefficients from its top bit down, and zeros below them. */
  predicate Holds(r: bv32, p: Poly)
    decreases |p|
  {
    if p == [] then r == 0 else p[0] == Top(r) && Holds(Shl(r), p[1..])
  }

  /** The first k coefficients from the top of a register. */
  function Coefs(r: bv32, k: nat): (p: Poly)
    ensures |p| == k
    decreases k
  {
    if k == 0 then [] else [Top(r)] + Coefs(Shl(r), k - 1)
  }

  /** Nothing is left after k shifts. */
  predicate Gone(r: bv32, k: nat)
    decreases k
  {
    if k == 0 then r == 0 else Gone(Shl(r), k - 1)
  }

  /** A register holds its first k coefficients, and only these, if it has no others. */
  lemma {:induction false} HoldsCoefs(r: bv32, p: Poly)
    ensures Holds(r, p) <==> Gone(r, |p|) && p == Coefs(r, |p|)
    decreases |p|
  {
    hide Top, Shl;
    if p != [] {
      HoldsCoefs(Shl(r), p[1..]);
      assert p == [p[0]] + p[1..];
    }
  }

  function Shl8(r: bv32): bv32 {
    Shl(Shl(Shl(Shl(Shl(Shl(Shl(Shl(r))))))))
  }

  lemma GoneAfter8(r: bv32, k: nat)
    ensures Gone(r, k + 8) <==> Gone(Shl8(r), k)
  {
    hide Shl, Gone;
    var r1 := Shl(r);
    var r2 := Shl(r1);
    var r3 := Shl(r2);
    var r4 := Shl(r3);
    var r5 := Shl(r4);
    var r6 := Shl(r5);
    var r7 := Shl(r6);
    GoneCons(r, k + 7);
    GoneCons(r1, k + 6);
    GoneCons(r2, k + 5);
    GoneCons(r3, k + 4);
    GoneCons(r4, k + 3);
    GoneCons(r5, k + 2);
    GoneCons(r6, k + 1);
    GoneCons(r7, k);
  }

  lemma GoneCons(r: bv32, k: nat)
    ensures Gone(r, k + 1) <==> Gone(Shl(r), k)
    ensures Gone(r, 0) <==> r == 0
  {
  }

  /** A word has 32 bits, and a register in its upper half 16. */
  lemma GoneAfterWord(r: bv32)
    ensures Gone(r, 32)
    ensures r & 0xffff == 0 ==> Gone(r, 16)
  {
    hide Gone, Shl8;
    GoneAfter8(r, 24);
    GoneAfter8(Shl8(r), 16);
    GoneAfter8(Shl8(Shl8(r)), 8);
    GoneAfter8(Shl8(Shl8(Shl8(r))), 0);
    GoneAfter8(r, 8);
    GoneAfter8(Shl8(r), 0);
    GoneCons(Shl8(Shl8(Shl8(Shl8(r)))), 0);
    GoneCons(Shl8(Shl8(r)), 0);
    ShiftedOut(r);
  }

  lemma ShiftedOut(r: bv32)
    ensures Shl8(Shl8(Shl8(Shl8(r)))) == 0 && (r & 0xffff == 0 ==> Shl8(Shl8(r)) == 0)
  {
  }

  lemma {:induction false} AddHolds(r: bv32, s: bv32, p: Poly, q: Poly)
    requires |p| == |q| && Holds(r, p) && Holds(s, q)
    ensures Holds(Add(r, s), Xor(p, q))
    decreases |p|
  {
    hide Xor, Top, Shl, Add;
    TopOfSum(r, s);
    ShlOfSum(r, s);
    if p == [] {
      AddComm(0, 0);
    } else {
      AddHolds(Shl(r), Shl(s), p[1..], q[1..]);
      assert Xor(p, q)[1..] == Xor(p[1..], q[1..]);
    }
  }

  lemma {:induction false} AppendHolds(r: bv32, p: Poly)
    requires Holds(r, p)
    ensures Holds(r, p + [false])
    decreases |p|
  {
    if p == [] {
      assert (p + [false])[1..] == [];
    } else {
      AppendHolds(Shl(r), p[1..]);
      assert (p + [false])[1..] == p[1..] + [false];
    }
  }

  // ------------------------------------------------------------------ division

  function Step(r: bv32, bit: bool, poly: bv32): bv32 {
    if Top(r) != bit then Add(Shl(r), poly) else Shl(r)
  }

  function Four(r: bv32, b3: bool, b2: bool, b1: bool, b0: bool, poly: bv32): bv32 {
    Step(Step(Step(Step(r, b3, poly), b2, poly), b1, poly), b0, poly)
  }

  /** Eight bits of a message, most significant first. */
  function Byte(r: bv32, x: bv8, poly: bv32): bv32 {
    Four(Four(r, x & 0x80 != 0, x & 0x40 != 0, x & 0x20 != 0, x & 0x10 != 0, poly),
         x & 0x08 != 0, x & 0x04 != 0, x & 0x02 != 0, x & 0x01 != 0, poly)
  }

  function Sum(buffer: seq<bv8>, r: bv32, poly: bv32): bv32
    decreases |buffer|
  {
    if buffer == [] then r else Sum(buffer[1..], Byte(r, buffer[0], poly), poly)
  }

  lemma StepShifts(r: bv32, bit: bool, p: Poly, poly: bv32, tail: Poly)
    requires Holds(r, p) && Holds(poly, tail) && |p| == |tail| > 0
    ensures Holds(Step(r, bit, poly), ShiftBit(p, bit, tail))
  {
    hide Xor, Add, Shl, Top;
    AppendHolds(Shl(r), p[1..]);
    AddHolds(Shl(r), poly, p[1..] + [false], tail);
  }

  lemma FourShifts(r: bv32, b3: bool, b2: bool, b1: bool, b0: bool, p: Poly, poly: bv32, tail: Poly)
    requires Holds(r, p) && Holds(poly, tail) && |p| == |tail| > 0
    ensures Holds(Four(r, b3, b2, b1, b0, poly), ShiftFour(p, b3, b2, b1, b0, tail))
  {
    hide Holds, Step, ShiftBit;
    var r3, p3 := Step(r, b3, poly), ShiftBit(p, b3, tail);
    var r2, p2 := Step(r3, b2, poly), ShiftBit(p3, b2, tail);
    var r1, p1 := Step(r2, b1, poly), ShiftBit(p2, b1, tail);
    StepShifts(r, b3, p, poly, tail);
    StepShifts(r3, b2, p3, poly, tail);
    StepShifts(r2, b1, p2, poly, tail);
    StepShifts(r1, b0, p1, poly, tail);
  }

  lemma ByteShifts(r: bv32, x: bv8, p: Poly, poly: bv32, tail: Poly)
    requires Holds(r, p) && Holds(poly, tail) && |p| == |tail| > 0
    ensures Holds(Byte(r, x, poly), ShiftByte(p, x, tail))
  {
    hide Holds, Four, ShiftFour;
    FourShifts(r, x & 0x80 != 0, x & 0x40 != 0, x & 0x20 != 0, x & 0x10 != 0, p, poly, tail);
    var q := ShiftFour(p, x & 0x80 != 0, x & 0x40 != 0, x & 0x20 != 0, x & 0x10 != 0, tail);
    var s := Four(r, x & 0x80 != 0, x & 0x40 != 0, x & 0x20 != 0, x & 0x10 != 0, poly);
    FourShifts(s, x & 0x08 != 0, x & 0x04 != 0, x & 0x02 != 0, x & 0x01 != 0, q, poly, tail);
  }

  /** The register ends with the remainder of the message, with the start value added to its head, times x^n
      divided by the polynomial. */
  lemma {:induction false} Divides(buffer: seq<bv8>, start: bv32, reg: Poly, poly: bv32, tail: Poly)
    requires Holds(start, reg) && Holds(poly, tail) && |reg| == |tail| > 0
    ensures Holds(Sum(buffer, start, poly), Remainder(Dividend(MessageBits(buffer), reg), tail))
    decreases |buffer|
  {
    hide Holds, ShiftByte, Byte, Remainder, Dividend, Register, MessageBits;
    RegisterIsRemainder(MessageBits(buffer), reg, tail);
    RegisterBytes(buffer, reg, tail);
    if buffer != [] {
      var reg' := ShiftByte(reg, buffer[0], tail);
      ByteShifts(start, buffer[0], reg, poly, tail);
      Divides(buffer[1..], Byte(start, buffer[0], poly), reg', poly, tail);
      RegisterIsRemainder(MessageBits(buffer[1..]), reg', tail);
    }
  }

  // ------------------------------------------------------------------ linearity

  lemma StepLinear(r: bv32, s: bv32, b: bool, c: bool, poly: bv32)
    ensures Step(Add(r, s), b != c, poly) == Add(Step(r, b, poly), Step(s, c, poly))
  {
    hide Top, Shl, Add;
    TopOfSum(r, s);
    ShlOfSum(r, s);
    AddCancel(Shl(r), Shl(s), poly);
  }

  lemma FourLinear(r: bv32, s: bv32, b3: bool, b2: bool, b1: bool, b0: bool, c3: bool, c2: bool, c1: bool, c0: bool,
                   poly: bv32)
    ensures Four(Add(r, s), b3 != c3, b2 != c2, b1 != c1, b0 != c0, poly)
            == Add(Four(r, b3, b2, b1, b0, poly), Four(s, c3, c2, c1, c0, poly))
  {
    hide Step, Add;
    var r3, s3 := Step(r, b3, poly), Step(s, c3, poly);
    var r2, s2 := Step(r3, b2, poly), Step(s3, c2, poly);
    var r1, s1 := Step(r2, b1, poly), Step(s2, c1, poly);
    StepLinear(r, s, b3, c3, poly);
    StepLinear(r3, s3, b2, c2, poly);
    StepLinear(r2, s2, b1, c1, poly);
    StepLinear(r1, s1, b0, c0, poly);
  }

  /** The division is linear, in the register and in the message. */
  lemma ByteLinear(r: bv32, s: bv32, x: bv8, y: bv8, poly: bv32)
    ensures Byte(Add(r, s), x ^ y, poly) == Add(Byte(r, x, poly), Byte(s, y, poly))
  {
    hide Four, Add;
    XorBits(x, y);
    var r' := Four(r, x & 0x80 != 0, x & 0x40 != 0, x & 0x20 != 0, x & 0x10 != 0, poly);
    var s' := Four(s, y & 0x80 != 0, y & 0x40 != 0, y & 0x20 != 0, y & 0x10 != 0, poly);
    FourLinear(r, s, x & 0x80 != 0, x & 0x40 != 0, x & 0x20 != 0, x & 0x10 != 0,
               y & 0x80 != 0, y & 0x40 != 0, y & 0x20 != 0, y & 0x10 != 0, poly);
    FourLinear(r', s', x & 0x08 != 0, x & 0x04 != 0, x & 0x02 != 0, x & 0x01 != 0,
               y & 0x08 != 0, y & 0x04 != 0, y & 0x02 != 0, y & 0x01 != 0, poly);
  }

  // ------------------------------------------------------------------ errors

  /** The polynomial ends in its lowest place, and the register has nothing below that place. */
  predicate Aligned(r: bv32, poly: bv32, low: bv32) {
    && low & (low + 1) == 0 && low != 0xffff_ffff
    && r & low == 0 && poly & low == 0 && poly & (low + 1) != 0
  }

  /** It stays like that, and without a message it becomes zero only if it was. */
  lemma StepAligned(r: bv32, bit: bool, poly: bv32, low: bv32)
    requires Aligned(r, poly, low)
    ensures Aligned(Step(r, bit, poly), poly, low) && (!bit && Step(r, bit, poly) == 0 ==> r == 0)
  {
  }

  lemma FourAligned(r: bv32, b3: bool, b2: bool, b1: bool, b0: bool, poly: bv32, low: bv32)
    requires Aligned(r, poly, low)
    ensures var f := Four(r, b3, b2, b1, b0, poly);
            Aligned(f, poly, low) && (!b3 && !b2 && !b1 && !b0 && f == 0 ==> r == 0)
  {
    hide Step, Aligned;
    var r3 := Step(r, b3, poly);
    var r2 := Step(r3, b2, poly);
    var r1 := Step(r2, b1, poly);
    StepAligned(r, b3, poly, low);
    StepAligned(r3, b2, poly, low);
    StepAligned(r2, b1, poly, low);
    StepAligned(r1, b0, poly, low);
  }

  lemma ByteAligned(r: bv32, x: bv8, poly: bv32, low: bv32)
    requires Aligned(r, poly, low)
    ensures Aligned(Byte(r, x, poly), poly, low) && (x == 0 && Byte(r, x, poly) == 0 ==> r == 0)
  {
    hide Four, Aligned;
    ByteFacts(0, 0);
    var f := Four(r, x & 0x80 != 0, x & 0x40 != 0, x & 0x20 != 0, x & 0x10 != 0, poly);
    FourAligned(r, x & 0x80 != 0, x & 0x40 != 0, x & 0x20 != 0, x & 0x10 != 0, poly, low);
    FourAligned(f, x & 0x08 != 0, x & 0x04 != 0, x & 0x02 != 0, x & 0x01 != 0, poly, low);
  }

  /** Registers that differ stay different, whatever bytes follow. */
  lemma {:induction false} SumDiffers(buffer: seq<bv8>, r: bv32, s: bv32, poly: bv32, low: bv32)
    requires r != s && Aligned(Add(r, s), poly, low)
    ensures Sum(buffer, r, poly) != Sum(buffer, s, poly)
    decreases |buffer|
  {
    hide Byte, Add, Aligned;
    if buffer != [] {
      var x := buffer[0];
      ByteLinear(r, s, x, x, poly);
      ByteFacts(x, x);
      AddZero(r, s);
      AddZero(Byte(r, x, poly), Byte(s, x, poly));
      ByteAligned(Add(r, s), 0, poly, low);
      SumDiffers(buffer[1..], Byte(r, x, poly), Byte(s, x, poly), poly, low);
    }
  }

  lemma {:induction false} SumAppend(a: seq<bv8>, b: seq<bv8>, r: bv32, poly: bv32)
    ensures Sum(a + b, r, poly) == Sum(b, Sum(a, r, poly), poly)
    decreases |a|
  {
    hide Byte;
    if a == [] {
      assert a + b == b;
    } else {
      assert (a + b)[1..] == a[1..] + b;
      SumAppend(a[1..], b, Byte(r, a[0], poly), poly);
    }
  }

  /** A change of one byte goes unnoticed exactly when the change alone leaves no remainder. */
  lemma ByteChange(a: seq<bv8>, x: bv8, y: bv8, c: seq<bv8>, start: bv32, poly: bv32, low: bv32)
    requires Aligned(0, poly, low)
    ensures Sum(a + ([x] + c), start, poly) == Sum(a + ([y] + c), start, poly) <==> Byte(0, x ^ y, poly) == 0
  {
    hide Byte, Add, Aligned;
    var mid := Sum(a, start, poly);
    SumAppend(a, [x] + c, start, poly);
    SumAppend(a, [y] + c, start, poly);
    assert ([x] + c)[1..] == c && ([y] + c)[1..] == c;
    ByteAligned(0, x ^ y, poly, low);
    ByteLinear(mid, mid, x, y, poly);
    AddComm(mid, mid);
    AddZero(Byte(mid, x, poly), Byte(mid, y, poly));
    if Byte(mid, x, poly) != Byte(mid, y, poly) {
      SumDiffers(c, Byte(mid, x, poly), Byte(mid, y, poly), poly, low);
    }
  }
}
