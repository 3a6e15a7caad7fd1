/** Polynomials over GF(2), their long division, and the shift register that performs it. */
module Polynomials {

  // ------------------------------------------------------------------ polynomials

  /** Coefficients, highest power first. */
  type Poly = seq<bool>

  function Xor(a: Poly, b: Poly): (r: Poly)
    requires |a| == |b|
    ensures |r| == |a|
    ensures forall i :: 0 <= i < |a| ==> r[i] == (a[i] != b[i])
  {
    seq(|a|, i requires 0 <= i < |a| && |a| == |b| => a[i] != b[i])
  }

  function Zeros(n: nat): (r: Poly)
    ensures |r| == n && forall i :: 0 <= i < n ==> !r[i]
  {
    seq(n, _ => false)
  }

  /** Schoolbook long division: while the dividend is longer than the divisor's tail, subtract the divisor
      if the leading coefficient is one, and drop it. The divisor is x^n plus its tail of length n. */
  function Remainder(dividend: Poly, tail: Poly): (r: Poly)
    requires |tail| <= |dividend|
    ensures |r| == |tail|
    decreases |dividend|
  {
    var n := |tail|;
    if |dividend| == n then dividend
    else if dividend[0] then Remainder(Xor(dividend[1..n + 1], tail) + dividend[n + 1..], tail)
    else Remainder(dividend[1..], tail)
  }

  /** The message times x^n, with a start value added to its first n coefficients. */
  function Dividend(msg: seq<bool>, start: Poly): (r: Poly)
    ensures |r| == |msg| + |start|
    ensures forall i :: 0 <= i < |r| ==> r[i] == (At(msg, i) != At(start, i))
  {
    var p := msg + Zeros(|start|);
    Xor(p[..|start|], start) + p[|start|..]
  }

  /** A coefficient, zero beyond the end. */
  predicate At(p: Poly, i: nat) {
    i < |p| && p[i]
  }

  /** The shift register: one bit of the message against the leading coefficient. */
  function ShiftBit(reg: Poly, bit: bool, tail: Poly): (r: Poly)
    requires |reg| == |tail| > 0
    ensures |r| == |tail|
    ensures forall i :: 0 <= i < |r| ==> r[i] == (At(reg, i + 1) != ((reg[0] != bit) && tail[i]))
  {
    var s := reg[1..] + [false];
    if reg[0] != bit then Xor(s, tail) else s
  }

  function Register(msg: seq<bool>, reg: Poly, tail: Poly): (r: Poly)
    requires |reg| == |tail| > 0
    ensures |r| == |tail|
    decreases |msg|
  {
    if msg == [] then reg else Register(msg[1..], ShiftBit(reg, msg[0], tail), tail)
  }

  lemma {:induction false} RegisterAppend(a: seq<bool>, b: seq<bool>, reg: Poly, tail: Poly)
    requires |reg| == |tail| > 0
    ensures Register(a + b, reg, tail) == Register(b, Register(a, reg, tail), tail)
    decreases |a|
  {
    if a == [] {
      assert a + b == b;
    } else {
      assert (a + b)[1..] == a[1..] + b;
      RegisterAppend(a[1..], b, ShiftBit(reg, a[0], tail), tail);
    }
  }

  /** The register computes the remainder of the long division. */
  lemma {:induction false} RegisterIsRemainder(msg: seq<bool>, reg: Poly, tail: Poly)
    requires |reg| == |tail| > 0
    ensures Register(msg, reg, tail) == Remainder(Dividend(msg, reg), tail)
    decreases |msg|
  {
    if msg == [] {
      assert Dividend(msg, reg) == reg;
    } else {
      RegisterIsRemainder(msg[1..], ShiftBit(reg, msg[0], tail), tail);
      DivisionStep(msg, reg, tail);
    }
  }

  /** One step of the division is one shift of the register. */
  lemma DivisionStep(msg: seq<bool>, reg: Poly, tail: Poly)
    requires |reg| == |tail| > 0 && msg != []
    ensures var d, n := Dividend(msg, reg), |tail|;
            && d[0] == (reg[0] != msg[0])
            && Dividend(msg[1..], ShiftBit(reg, msg[0], tail))
               == if d[0] then Xor(d[1..n + 1], tail) + d[n + 1..] else d[1..]
  {
    hide Dividend, ShiftBit;
    var d, n := Dividend(msg, reg), |tail|;
    var e := Dividend(msg[1..], ShiftBit(reg, msg[0], tail));
    var f := if d[0] then Xor(d[1..n + 1], tail) + d[n + 1..] else d[1..];
    forall i | 0 <= i < |e| ensures e[i] == f[i] {
      assert At(msg[1..], i) == At(msg, i + 1);
      assert f[i] == (d[i + 1] != (d[0] && At(tail, i)));
    }
  }

  // ------------------------------------------------------------------ bytes as coefficients

  /** Most significant bit first. */
  function ByteBits(x: bv8): (r: seq<bool>)
    ensures |r| == 8
  {
    [x & 0x80 != 0, x & 0x40 != 0, x & 0x20 != 0, x & 0x10 != 0,
     x & 0x08 != 0, x & 0x04 != 0, x & 0x02 != 0, x & 0x01 != 0]
  }

  function MessageBits(buffer: seq<bv8>): seq<bool> {
    if buffer == [] then [] else ByteBits(buffer[0]) + MessageBits(buffer[1..])
  }

  /** Four shifts, and eight. */
  function ShiftFour(reg: Poly, b3: bool, b2: bool, b1: bool, b0: bool, tail: Poly): (r: Poly)
    requires |reg| == |tail| > 0
    ensures |r| == |tail|
  {
    ShiftBit(ShiftBit(ShiftBit(ShiftBit(reg, b3, tail), b2, tail), b1, tail), b0, tail)
  }

  function ShiftByte(reg: Poly, x: bv8, tail: Poly): (r: Poly)
    requires |reg| == |tail| > 0
    ensures |r| == |tail|
  {
    ShiftFour(ShiftFour(reg, x & 0x80 != 0, x & 0x40 != 0, x & 0x20 != 0, x & 0x10 != 0, tail),
              x & 0x08 != 0, x & 0x04 != 0, x & 0x02 != 0, x & 0x01 != 0, tail)
  }

  lemma RegisterFrom(bits: seq<bool>, k: nat, reg: Poly, tail: Poly)
    requires |reg| == |tail| > 0 && k < |bits|
    ensures Register(bits[k..], reg, tail) == Register(bits[k + 1..], ShiftBit(reg, bits[k], tail), tail)
  {
    assert bits[k..][1..] == bits[k + 1..];
  }

  lemma RegisterFour(bits: seq<bool>, k: nat, reg: Poly, tail: Poly)
    requires |reg| == |tail| > 0 && k + 4 <= |bits|
    ensures Register(bits[k..], reg, tail)
            == Register(bits[k + 4..], ShiftFour(reg, bits[k], bits[k + 1], bits[k + 2], bits[k + 3], tail), tail)
  {
    hide ShiftBit, Register;
    var r3 := ShiftBit(reg, bits[k], tail);
    var r2 := ShiftBit(r3, bits[k + 1], tail);
    var r1 := ShiftBit(r2, bits[k + 2], tail);
    RegisterFrom(bits, k, reg, tail);
    RegisterFrom(bits, k + 1, r3, tail);
    RegisterFrom(bits, k + 2, r2, tail);
    RegisterFrom(bits, k + 3, r1, tail);
  }

  lemma RegisterByte(x: bv8, reg: Poly, tail: Poly)
    requires |reg| == |tail| > 0
    ensures Register(ByteBits(x), reg, tail) == ShiftByte(reg, x, tail)
  {
    hide ShiftFour, Register;
    var bits := ByteBits(x);
    RegisterFour(bits, 0, reg, tail);
    var half := ShiftFour(reg, bits[0], bits[1], bits[2], bits[3], tail);
    RegisterFour(bits, 4, half, tail);
    RegisterNone(ShiftFour(half, bits[4], bits[5], bits[6], bits[7], tail), tail);
    assert bits[0..] == bits && bits[8..] == [];
  }

  lemma RegisterNone(reg: Poly, tail: Poly)
    requires |reg| == |tail| > 0
    ensures Register([], reg, tail) == reg
  {
  }

  /** The register takes a message byte by byte. */
  lemma RegisterBytes(buffer: seq<bv8>, reg: Poly, tail: Poly)
    requires |reg| == |tail| > 0
    ensures Register(MessageBits([]), reg, tail) == reg
    ensures buffer != [] ==> Register(MessageBits(buffer), reg, tail)
                             == Register(MessageBits(buffer[1..]), ShiftByte(reg, buffer[0], tail), tail)
  {
    hide ShiftByte, ShiftBit, ByteBits;
    RegisterNone(reg, tail);
    if buffer != [] {
      RegisterAppend(ByteBits(buffer[0]), MessageBits(buffer[1..]), reg, tail);
      RegisterByte(buffer[0], reg, tail);
    }
  }

  lemma XorBits(x: bv8, y: bv8)
    ensures ((x ^ y) & 0x80 != 0) == ((x & 0x80 != 0) != (y & 0x80 != 0))
    ensures ((x ^ y) & 0x40 != 0) == ((x & 0x40 != 0) != (y & 0x40 != 0))
    ensures ((x ^ y) & 0x20 != 0) == ((x & 0x20 != 0) != (y & 0x20 != 0))
    ensures ((x ^ y) & 0x10 != 0) == ((x & 0x10 != 0) != (y & 0x10 != 0))
    ensures ((x ^ y) & 0x08 != 0) == ((x & 0x08 != 0) != (y & 0x08 != 0))
    ensures ((x ^ y) & 0x04 != 0) == ((x & 0x04 != 0) != (y & 0x04 != 0))
    ensures ((x ^ y) & 0x02 != 0) == ((x & 0x02 != 0) != (y & 0x02 != 0))
    ensures ((x ^ y) & 0x01 != 0) == ((x & 0x01 != 0) != (y & 0x01 != 0))
  {
  }

  lemma ByteFacts(x: bv8, y: bv8)
    ensures x ^ y == 0 <==> x == y
    ensures (0 as bv8) & 0x80 == 0 && (0 as bv8) & 0x40 == 0 && (0 as bv8) & 0x20 == 0 && (0 as bv8) & 0x10 == 0
    ensures (0 as bv8) & 0x08 == 0 && (0 as bv8) & 0x04 == 0 && (0 as bv8) & 0x02 == 0 && (0 as bv8) & 0x01 == 0
  {
  }
}
