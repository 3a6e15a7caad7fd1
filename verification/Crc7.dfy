/** crc7: a table of 256 entries, the checksum in the upper seven bits of a byte. */
module Crc7 {
  import opened CrcTables
  import opened Polynomials
  import opened Registers

  /** x^7 + x^3 + 1, without its leading term. */
  const POLY: bv32 := 0x1200_0000

  function Wide(r: bv8): bv32 {
    (r as bv32) << 24
  }

  /** One turn of the table-driven loop. */
  function Next(crc: bv8, x: bv8): bv8 {
    Crc7Table(crc ^ x)
  }

  /** What the loop computes. */
  function TableSum(buffer: seq<bv8>, crc: bv8): bv8
    decreases |buffer|
  {
    if buffer == [] then crc else TableSum(buffer[1..], Next(crc, buffer[0]))
  }

  method Checksum(buffer: seq<bv8>, start: bv8) returns (crc: bv8)
    ensures crc == TableSum(buffer, start)
  {
    crc := start;
    var i := 0;
    while i < |buffer|
      invariant i <= |buffer| && TableSum(buffer[i..], crc) == TableSum(buffer, start)
    {
      assert buffer[i..][1..] == buffer[i + 1..];
      crc := Crc7Table(crc ^ buffer[i]);
      i := i + 1;
    }
  }

  // ------------------------------------------------------------------ the table

  /** An entry is the effect of eight zero bits on its index. */
  lemma TableEntry(y: bv8)
    ensures Wide(Crc7Table(y)) == Byte(Wide(y), 0, POLY)
  {
    hide Byte, Crc7Table, Add, Plus;
    HighLow(y);
    HighEntry(y & 0xf0);
    LowEntry(y & 0x0f);
    Nibbles(y);
    ByteLinear(Wide(y & 0xf0), Wide(y & 0x0f), 0, 0, POLY);
    WideAdd(Crc7Table(y & 0xf0), Crc7Table(y & 0x0f));
  }

  lemma Nibbles(y: bv8)
    ensures Wide(y) == Add(Wide(y & 0xf0), Wide(y & 0x0f)) && (0 as bv8) ^ 0 == 0
  {
  }

  lemma WideAdd(r: bv8, s: bv8)
    ensures Wide(Plus(r, s)) == Add(Wide(r), Wide(s))
  {
  }

  function Plus(r: bv8, s: bv8): bv8 {
    r ^ s
  }

  lemma LowEntry(y: bv8)
    requires y & 0xf0 == 0
    ensures Wide(Crc7Table(y)) == Byte(Wide(y), 0, POLY)
  {
  }

  lemma HighEntry(y: bv8)
    requires y & 0x0f == 0
    ensures Wide(Crc7Table(y)) == Byte(Wide(y), 0, POLY)
  {
  }

  /** The table is the sum of its first row and its first column. */
  lemma HighLow(y: bv8)
    ensures Crc7Table(y) == Plus(Crc7Table(y & 0xf0), Crc7Table(y & 0x0f))
  {
    hide Crc7Cell, Plus;
    Halve(y);
    CellSum(y >> 4, y & 0x0f);
  }

  lemma CellSum(h: bv8, k: bv8)
    requires h & 0xf0 == 0 && k & 0xf0 == 0
    ensures Crc7Cell(h, k) == Plus(Crc7Cell(h, 0), Crc7Cell(0, k))
  {
    hide Crc7Cell, Plus;
    if h & 0x08 == 0 {
      FirstRows(h, k);
    } else {
      LastRows(h, k);
    }
  }

  lemma FirstRows(h: bv8, k: bv8)
    requires h & 0xf8 == 0 && k & 0xf0 == 0
    ensures Crc7Cell(h, k) == Plus(Crc7Cell(h, 0), Crc7Cell(0, k))
  {
    hide Plus, Crc7TableRow0, Crc7TableRow1, Crc7TableRow2, Crc7TableRow3, Crc7TableRow4, Crc7TableRow5, Crc7TableRow6, Crc7TableRow7,
         Crc7TableRow8, Crc7TableRow9, Crc7TableRowa, Crc7TableRowb, Crc7TableRowc, Crc7TableRowd, Crc7TableRowe, Crc7TableRowf;
    match h
    case 0 => Origin(k);
    case 1 => Rows1(k);
    case 2 => Rows1(k);
    case 3 => Rows1(k);
    case 4 => Rows4(k);
    case 5 => Rows4(k);
    case 6 => Rows4(k);
    case _ => Rows4(k);
  }

  lemma LastRows(h: bv8, k: bv8)
    requires h & 0xf8 == 8 && k & 0xf0 == 0
    ensures Crc7Cell(h, k) == Plus(Crc7Cell(h, 0), Crc7Cell(0, k))
  {
    hide Plus, Crc7TableRow0, Crc7TableRow1, Crc7TableRow2, Crc7TableRow3, Crc7TableRow4, Crc7TableRow5, Crc7TableRow6, Crc7TableRow7,
         Crc7TableRow8, Crc7TableRow9, Crc7TableRowa, Crc7TableRowb, Crc7TableRowc, Crc7TableRowd, Crc7TableRowe, Crc7TableRowf;
    match h
    case 8 => Rows8(k);
    case 9 => Rows8(k);
    case 10 => Rows8(k);
    case 11 => Rows8(k);
    case 12 => Rows12(k);
    case 13 => Rows12(k);
    case 14 => Rows12(k);
    case _ => Rows12(k);
  }

  lemma Origin(k: bv8)
    ensures Crc7TableRow0(k) == Plus(Crc7TableRow0(0), Crc7TableRow0(k))
  {
  }

  lemma Halve(y: bv8)
    ensures (y & 0x0f) >> 4 == 0 && (y & 0xf0) >> 4 == y >> 4
    ensures (y & 0xf0) & 0x0f == 0 && (y & 0x0f) & 0x0f == y & 0x0f
    ensures (y >> 4) & 0xf0 == 0 && (y & 0x0f) & 0xf0 == 0
  {
  }

  lemma Rows1(k: bv8)
    requires k & 0xf0 == 0
    ensures Crc7TableRow1(k) == Plus(Crc7TableRow1(0), Crc7TableRow0(k))
    ensures Crc7TableRow2(k) == Plus(Crc7TableRow2(0), Crc7TableRow0(k))
    ensures Crc7TableRow3(k) == Plus(Crc7TableRow3(0), Crc7TableRow0(k))
  {
  }

  lemma Rows4(k: bv8)
    requires k & 0xf0 == 0
    ensures Crc7TableRow4(k) == Plus(Crc7TableRow4(0), Crc7TableRow0(k))
    ensures Crc7TableRow5(k) == Plus(Crc7TableRow5(0), Crc7TableRow0(k))
    ensures Crc7TableRow6(k) == Plus(Crc7TableRow6(0), Crc7TableRow0(k))
    ensures Crc7TableRow7(k) == Plus(Crc7TableRow7(0), Crc7TableRow0(k))
  {
  }

  lemma Rows8(k: bv8)
    requires k & 0xf0 == 0
    ensures Crc7TableRow8(k) == Plus(Crc7TableRow8(0), Crc7TableRow0(k))
    ensures Crc7TableRow9(k) == Plus(Crc7TableRow9(0), Crc7TableRow0(k))
    ensures Crc7TableRowa(k) == Plus(Crc7TableRowa(0), Crc7TableRow0(k))
    ensures Crc7TableRowb(k) == Plus(Crc7TableRowb(0), Crc7TableRow0(k))
  {
  }

  lemma Rows12(k: bv8)
    requires k & 0xf0 == 0
    ensures Crc7TableRowc(k) == Plus(Crc7TableRowc(0), Crc7TableRow0(k))
    ensures Crc7TableRowd(k) == Plus(Crc7TableRowd(0), Crc7TableRow0(k))
    ensures Crc7TableRowe(k) == Plus(Crc7TableRowe(0), Crc7TableRow0(k))
    ensures Crc7TableRowf(k) == Plus(Crc7TableRowf(0), Crc7TableRow0(k))
  {
  }

  lemma Cancel(x: bv8)
    ensures Byte(Wide(x), x, POLY) == 0
  {
  }

  lemma Split(r: bv8, x: bv8)
    ensures Wide(r) == Add(Wide(r ^ x), Wide(x)) && 0 ^ x == x
  {
  }

  /** A turn of the loop is eight bits of division. */
  lemma Table(r: bv8, x: bv8)
    ensures Wide(Next(r, x)) == Byte(Wide(r), x, POLY)
  {
    hide Byte, Crc7Table, Add, Wide;
    Split(r, x);
    ByteLinear(Wide(r ^ x), Wide(x), 0, x, POLY);
    TableEntry(r ^ x);
    Cancel(x);
    AddComm(Byte(Wide(r ^ x), 0, POLY), 0);
  }

  lemma {:induction false} SumIsTable(buffer: seq<bv8>, start: bv8)
    ensures Wide(TableSum(buffer, start)) == Sum(buffer, Wide(start), POLY)
    decreases |buffer|
  {
    hide Byte, Next, Wide;
    if buffer != [] {
      Table(start, buffer[0]);
      SumIsTable(buffer[1..], Next(start, buffer[0]));
    }
  }

  // ------------------------------------------------------------------ results

  lemma PolyFits()
    ensures Gone(POLY, 7)
  {
    assert Gone(0x0000_0000, 0);
    assert Gone(0x8000_0000, 1);
    assert Gone(0x4000_0000, 2);
    assert Gone(0x2000_0000, 3);
    assert Gone(0x9000_0000, 4);
    assert Gone(0x4800_0000, 5);
    assert Gone(0x2400_0000, 6);
  }

  /** Seven bits are enough exactly for even registers. */
  lemma EvenFits(r: bv8)
    ensures Gone(Wide(r), 7) <==> r & 1 == 0
  {
    hide Gone, Wide, Shl;
    GoneAfter8(Wide(r), 0);
    var r1 := Shl(Wide(r));
    var r2 := Shl(r1);
    var r3 := Shl(r2);
    var r4 := Shl(r3);
    var r5 := Shl(r4);
    var r6 := Shl(r5);
    var r7 := Shl(r6);
    GoneCons(Wide(r), 6);
    GoneCons(r1, 5);
    GoneCons(r2, 4);
    GoneCons(r3, 3);
    GoneCons(r4, 2);
    GoneCons(r5, 1);
    GoneCons(r6, 0);
    GoneCons(r7, 0);
    SevenShifts(r);
  }

  lemma SevenShifts(r: bv8)
    ensures Shl(Shl(Shl(Shl(Shl(Shl(Shl(Wide(r)))))))) == 0 <==> r & 1 == 0
  {
  }

  /** An odd start value never gives the checksum of the even one below it. */
  lemma EvenStartNeeded(buffer: seq<bv8>, start: bv8)
    ensures TableSum(buffer, start) == TableSum(buffer, start & 0xfe) <==> start & 1 == 0
  {
    hide Byte, Add, Next, Wide;
    var even := start & 0xfe;
    EvenPart(start);
    if start & 1 != 0 && buffer != [] {
      var x := buffer[0];
      SumIsTable(buffer, start);
      SumIsTable(buffer, even);
      ByteLinear(Wide(start), Wide(even), x, x, POLY);
      ByteFacts(x, x);
      AddZero(Byte(Wide(start), x, POLY), Byte(Wide(even), x, POLY));
      OddBit();
      SumDiffers(buffer[1..], Byte(Wide(start), x, POLY), Byte(Wide(even), x, POLY), POLY, 0x01ff_ffff);
    }
  }

  lemma EvenPart(r: bv8)
    ensures (r & 0xfe) & 1 == 0 && (r & 1 == 0 ==> r & 0xfe == r) && (r & 1 != 0 ==> r & 0xfe != r)
    ensures r & 1 != 0 ==> Add(Wide(r), Wide(r & 0xfe)) == 0x0100_0000
  {
  }

  lemma OddBit()
    ensures Byte(0x0100_0000, 0, POLY) == 0x1200_0000 && Aligned(0x1200_0000, POLY, 0x01ff_ffff)
  {
  }

  /** The coefficients of a checksum, and those of the divisor without its leading term. */
  function Bits(r: bv8): Poly {
    Coefs(Wide(r), 7)
  }

  function Tail(): Poly {
    Coefs(POLY, 7)
  }

  /** With its start value at the head of the message, crc7 is the remainder of the message times x^7 divided
      by x^7 + x^3 + 1, if and only if the start value is even. */
  lemma RemainderExactly(buffer: seq<bv8>, start: bv8)
    ensures var sum := TableSum(buffer, start);
            && sum & 1 == 0 && Bits(sum) == Remainder(Dividend(MessageBits(buffer), Bits(start)), Tail())
            <==> start & 1 == 0
  {
    hide TableSum, Holds, Coefs, Gone, Remainder, Dividend, MessageBits, Wide, Sum;
    var even, sum := start & 0xfe, TableSum(buffer, start);
    var division := Remainder(Dividend(MessageBits(buffer), Bits(start)), Tail());
    EvenPart(start);
    SameBits(start);
    EvenFits(even);
    PolyFits();
    HoldsCoefs(Wide(even), Bits(even));
    HoldsCoefs(POLY, Tail());
    Divides(buffer, Wide(even), Bits(even), POLY, Tail());
    SumIsTable(buffer, even);
    HoldsCoefs(Wide(TableSum(buffer, even)), division);
    EvenFits(TableSum(buffer, even));
    EvenStartNeeded(buffer, start);
    if sum & 1 == 0 && Bits(sum) == division {
      EvenFits(sum);
      HoldsCoefs(Wide(sum), division);
      HoldsInjective(Wide(sum), Wide(TableSum(buffer, even)), division);
      WideInjective(sum, TableSum(buffer, even));
    }
  }

  lemma WideInjective(r: bv8, s: bv8)
    ensures Wide(r) == Wide(s) <==> r == s
  {
  }

  lemma {:induction false} HoldsInjective(r: bv32, s: bv32, p: Poly)
    requires Holds(r, p) && Holds(s, p)
    ensures r == s
    decreases |p|
  {
    if p != [] {
      HoldsInjective(Shl(r), Shl(s), p[1..]);
    }
  }

  /** The lowest bit does not show in the coefficients. */
  lemma SameBits(r: bv8)
    ensures Bits(r) == Bits(r & 0xfe)
  {
    hide Top, Shl, Coefs, Wide;
    var s := r & 0xfe;
    TopsAgree(r);
    var r1, s1 := Shl(Wide(r)), Shl(Wide(s));
    var r2, s2 := Shl(r1), Shl(s1);
    var r3, s3 := Shl(r2), Shl(s2);
    var r4, s4 := Shl(r3), Shl(s3);
    var r5, s5 := Shl(r4), Shl(s4);
    var r6, s6 := Shl(r5), Shl(s5);
    CoefsCons(Shl(r6), Shl(s6), 0);
    CoefsCons(r6, s6, 1);
    CoefsCons(r5, s5, 2);
    CoefsCons(r4, s4, 3);
    CoefsCons(r3, s3, 4);
    CoefsCons(r2, s2, 5);
    CoefsCons(r1, s1, 6);
    CoefsCons(Wide(r), Wide(s), 7);
  }

  lemma CoefsCons(r: bv32, s: bv32, k: nat)
    ensures Coefs(r, 0) == Coefs(s, 0)
    ensures k > 0 && Top(r) == Top(s) && Coefs(Shl(r), k - 1) == Coefs(Shl(s), k - 1) ==> Coefs(r, k) == Coefs(s, k)
  {
    hide Top, Shl;
  }

  lemma TopsAgree(b: bv8)
    ensures var r, s := Wide(b), Wide(b & 0xfe);
            && Top(r) == Top(s) && Top(Shl(r)) == Top(Shl(s)) && Top(Shl(Shl(r))) == Top(Shl(Shl(s)))
            && Top(Shl(Shl(Shl(r)))) == Top(Shl(Shl(Shl(s))))
            && Top(Shl(Shl(Shl(Shl(r))))) == Top(Shl(Shl(Shl(Shl(s)))))
            && Top(Shl(Shl(Shl(Shl(Shl(r)))))) == Top(Shl(Shl(Shl(Shl(Shl(s))))))
            && Top(Shl(Shl(Shl(Shl(Shl(Shl(r))))))) == Top(Shl(Shl(Shl(Shl(Shl(Shl(s)))))))
  {
  }

  /** One changed byte goes unnoticed exactly when the change is the polynomial itself. */
  lemma DetectsByte(a: seq<bv8>, x: bv8, y: bv8, c: seq<bv8>, start: bv8)
    ensures TableSum(a + ([x] + c), start) == TableSum(a + ([y] + c), start) <==> x ^ y == 0 || x ^ y == 0x89
  {
    hide TableSum, Sum, Wide, Byte;
    SumIsTable(a + ([x] + c), start);
    SumIsTable(a + ([y] + c), start);
    WideInjective(TableSum(a + ([x] + c), start), TableSum(a + ([y] + c), start));
    Change(x ^ y);
    ByteChange(a, x, y, c, Wide(start), POLY, 0x01ff_ffff);
  }

  lemma Change(d: bv8)
    ensures Byte(0, d, POLY) == 0 <==> d == 0 || d == 0x89
  {
  }
}
