/** crc32: bit by bit, the least significant bit of each byte first. */
module Crc32 {
  import opened CrcTables
  import opened Polynomials
  import opened Registers

  const POLY: bv32 := 0x04c1_1db7

  // ------------------------------------------------------------------ reversed bytes

  /** The table reverses the bits of a byte. */
  lemma Reversed(x: bv8)
    ensures var y := BitrevTable(x);
            && (y & 0x80 != 0) == (x & 1 != 0) && (y & 0x40 != 0) == ((x >> 1) & 1 != 0)
            && (y & 0x20 != 0) == ((x >> 2) & 1 != 0) && (y & 0x10 != 0) == ((x >> 3) & 1 != 0)
            && (y & 0x08 != 0) == ((x >> 4) & 1 != 0) && (y & 0x04 != 0) == ((x >> 5) & 1 != 0)
            && (y & 0x02 != 0) == ((x >> 6) & 1 != 0) && (y & 0x01 != 0) == ((x >> 7) & 1 != 0)
  {
  }

  /** Reversing twice gives the byte back. */
  lemma ReversedTwice(x: bv8)
    ensures BitrevTable(BitrevTable(x)) == x
  {
    hide BitrevTable;
    var y := BitrevTable(x);
    Reversed(x);
    Reversed(y);
  }

  function ReversedBytes(buffer: seq<bv8>): seq<bv8> {
    if buffer == [] then [] else [BitrevTable(buffer[0])] + ReversedBytes(buffer[1..])
  }

  lemma {:induction false} ReversedAppend(a: seq<bv8>, b: seq<bv8>)
    ensures ReversedBytes(a + b) == ReversedBytes(a) + ReversedBytes(b)
  {
    hide BitrevTable;
    if a == [] {
      assert a + b == b;
    } else {
      assert (a + b)[1..] == a[1..] + b;
      ReversedAppend(a[1..], b);
    }
  }

  // ------------------------------------------------------------------ the loops

  /** What the loops compute. */
  function LoopSum(buffer: seq<bv8>, crc: bv32): bv32
    decreases |buffer|
  {
    if buffer == [] then crc else LoopSum(buffer[1..], Byte(crc, BitrevTable(buffer[0]), POLY))
  }

  method Checksum(buffer: seq<bv8>, start: bv32) returns (crc: bv32)
    ensures crc == LoopSum(buffer, start)
  {
    hide Byte, BitrevTable;
    crc := start;
    var i := 0;
    while i < |buffer|
      invariant i <= |buffer| && LoopSum(buffer[i..], crc) == LoopSum(buffer, start)
    {
      assert buffer[i..][1..] == buffer[i + 1..];
      crc := FeedByte(crc, buffer[i]);
      i := i + 1;
    }
  }

  /** The inner loop: the least significant bit of the byte meets the most significant bit of the register. */
  method FeedByte(start: bv32, x: bv8) returns (crc: bv32)
    ensures crc == Byte(start, BitrevTable(x), POLY)
  {
    hide Byte, BitrevTable, Step, Fed, Shifted;
    FedStart(start, x);
    crc := start;
    var j, byte := 0, x;
    while j < 8
      invariant 0 <= j <= 8 && crc == Fed(start, x, j) && byte == Shifted(x, j)
    {
      FedNext(start, x, j);
      FeedBit(crc, byte);
      if ((crc >> 31) as bv8 ^ byte) & 1 != 0 {
        crc := (crc << 1) ^ 0x04c1_1db7;
      } else {
        crc := crc << 1;
      }
      byte := byte >> 1;
      j := j + 1;
    }
    FedAll(start, x);
  }

  lemma FeedBit(r: bv32, y: bv8)
    ensures Step(r, y & 1 != 0, POLY) == if ((r >> 31) as bv8 ^ y) & 1 != 0 then (r << 1) ^ 0x04c1_1db7 else r << 1
  {
  }

  /** The byte after j turns. */
  function Shifted(x: bv8, j: nat): bv8 {
    if j == 0 then x else Shifted(x, j - 1) >> 1
  }

  /** The register after j turns. */
  function Fed(r: bv32, x: bv8, j: nat): bv32 {
    if j == 0 then r else Step(Fed(r, x, j - 1), Shifted(x, j - 1) & 1 != 0, POLY)
  }

  lemma FedStart(r: bv32, x: bv8)
    ensures Fed(r, x, 0) == r && Shifted(x, 0) == x
  {
  }

  lemma FedNext(r: bv32, x: bv8, j: nat)
    ensures Fed(r, x, j + 1) == Step(Fed(r, x, j), Shifted(x, j) & 1 != 0, POLY)
    ensures Shifted(x, j + 1) == Shifted(x, j) >> 1
  {
    hide Step;
  }

  lemma FedAll(r: bv32, x: bv8)
    ensures Fed(r, x, 8) == Byte(r, BitrevTable(x), POLY)
  {
    hide Step, BitrevTable, Shifted, Fed;
    ShiftedBits(x);
    FedStart(r, x);
    FedNext(r, x, 0);
    FedNext(r, x, 1);
    FedNext(r, x, 2);
    FedNext(r, x, 3);
    FedNext(r, x, 4);
    FedNext(r, x, 5);
    FedNext(r, x, 6);
    FedNext(r, x, 7);
  }

  lemma ShiftedBits(x: bv8)
    ensures var y := BitrevTable(x);
            && (y & 0x80 != 0) == (Shifted(x, 0) & 1 != 0) && (y & 0x40 != 0) == (Shifted(x, 1) & 1 != 0)
            && (y & 0x20 != 0) == (Shifted(x, 2) & 1 != 0) && (y & 0x10 != 0) == (Shifted(x, 3) & 1 != 0)
            && (y & 0x08 != 0) == (Shifted(x, 4) & 1 != 0) && (y & 0x04 != 0) == (Shifted(x, 5) & 1 != 0)
            && (y & 0x02 != 0) == (Shifted(x, 6) & 1 != 0) && (y & 0x01 != 0) == (Shifted(x, 7) & 1 != 0)
  {
    hide BitrevTable;
    Reversed(x);
    assert Shifted(x, 1) == x >> 1;
    assert Shifted(x, 2) == x >> 2;
    assert Shifted(x, 3) == x >> 3;
    assert Shifted(x, 4) == x >> 4;
    assert Shifted(x, 5) == x >> 5;
    assert Shifted(x, 6) == x >> 6;
    assert Shifted(x, 7) == x >> 7;
  }

  lemma {:induction false} LoopIsSum(buffer: seq<bv8>, start: bv32)
    ensures LoopSum(buffer, start) == Sum(ReversedBytes(buffer), start, POLY)
    decreases |buffer|
  {
    hide Byte, BitrevTable;
    if buffer != [] {
      LoopIsSum(buffer[1..], Byte(start, BitrevTable(buffer[0]), POLY));
      assert ReversedBytes(buffer)[1..] == ReversedBytes(buffer[1..]);
    }
  }

  // ------------------------------------------------------------------ results

  /** The coefficients of a checksum, and those of the divisor without its leading term. */
  function Bits(r: bv32): Poly {
    Coefs(r, 32)
  }

  function Tail(): Poly {
    Coefs(POLY, 32)
  }

  /** With the start value at the head of the message, crc32 is the remainder of the message with every byte
      reversed, times x^32, divided by the polynomial. */
  lemma RemainderExactly(buffer: seq<bv8>, start: bv32)
    ensures Bits(LoopSum(buffer, start))
            == Remainder(Dividend(MessageBits(ReversedBytes(buffer)), Bits(start)), Tail())
  {
    hide LoopSum, Holds, Coefs, Gone, Remainder, Dividend, MessageBits, ReversedBytes, Sum;
    var bytes := ReversedBytes(buffer);
    GoneAfterWord(start);
    GoneAfterWord(POLY);
    HoldsCoefs(start, Bits(start));
    HoldsCoefs(POLY, Tail());
    Divides(bytes, start, Bits(start), POLY, Tail());
    LoopIsSum(buffer, start);
    HoldsCoefs(LoopSum(buffer, start), Remainder(Dividend(MessageBits(bytes), Bits(start)), Tail()));
  }

  /** A message with one byte changed has a different checksum. */
  lemma DetectsByte(a: seq<bv8>, x: bv8, y: bv8, c: seq<bv8>, start: bv32)
    ensures LoopSum(a + ([x] + c), start) == LoopSum(a + ([y] + c), start) <==> x == y
  {
    hide LoopSum, Sum, Byte, BitrevTable;
    var x', y' := BitrevTable(x), BitrevTable(y);
    LoopIsSum(a + ([x] + c), start);
    LoopIsSum(a + ([y] + c), start);
    ReversedAppend(a, [x] + c);
    ReversedAppend(a, [y] + c);
    assert ([x] + c)[1..] == c && ([y] + c)[1..] == c;
    ReversedTwice(x);
    ReversedTwice(y);
    Change(x' ^ y');
    ByteFacts(x', y');
    ByteChange(ReversedBytes(a), x', y', ReversedBytes(c), start, POLY, 0);
  }

  lemma Change(d: bv8)
    ensures Byte(0, d, POLY) == 0 <==> d == 0
  {
  }
}
