/** crc16: a table of 256 entries indexed by the upper byte. */
module Crc16 {
  import opened CrcTables
  import opened Polynomials
  import opened Registers

  /** x^16 + x^12 + x^5 + 1, without its leading term. */
  const POLY: bv32 := 0x1021_0000

  function Wide(r: bv16): bv32 {
    (r as bv32) << 16
  }

  /** One turn of the table-driven loop. */
  function Next(crc: bv16, x: bv8): bv16 {
    (crc << 8) ^ Crc16Table(((crc >> 8) ^ (x as bv16)) as bv8)
  }

  /** What the loop computes. */
  function TableSum(buffer: seq<bv8>, crc: bv16): bv16
    decreases |buffer|
  {
    if buffer == [] then crc else TableSum(buffer[1..], Next(crc, buffer[0]))
  }

  method Checksum(buffer: seq<bv8>, start: bv16) returns (crc: bv16)
    ensures crc == TableSum(buffer, start)
  {
    crc := start;
    var i := 0;
    while i < |buffer|
      invariant i <= |buffer| && TableSum(buffer[i..], crc) == TableSum(buffer, start)
    {
      assert buffer[i..][1..] == buffer[i + 1..];
      crc := (crc << 8) ^ Crc16Table(((crc >> 8) ^ (buffer[i] as bv16)) as bv8);
      i := i + 1;
    }
  }

  // ------------------------------------------------------------------ the table

  /** An entry is the effect of eight zero bits on its index in the upper byte. */
  lemma TableEntry(y: bv8)
    ensures Wide(Crc16Table(y)) == Byte((y as bv32) << 24, 0, POLY)
  {
    hide Byte, Crc16Table, Add, Plus;
    HighLow(y);
    HighEntry(y & 0xf0);
    LowEntry(y & 0x0f);
    Nibbles(y);
    ByteLinear(((y & 0xf0) as bv32) << 24, ((y & 0x0f) as bv32) << 24, 0, 0, POLY);
    WideAdd(Crc16Table(y & 0xf0), Crc16Table(y & 0x0f));
  }

  lemma Nibbles(y: bv8)
    ensures (y as bv32) << 24 == Add(((y & 0xf0) as bv32) << 24, ((y & 0x0f) as bv32) << 24) && (0 as bv8) ^ 0 == 0
  {
  }

  lemma WideAdd(r: bv16, s: bv16)
    ensures Wide(Plus(r, s)) == Add(Wide(r), Wide(s))
  {
  }

  function Plus(r: bv16, s: bv16): bv16 {
    r ^ s
  }

  lemma LowEntry(y: bv8)
    requires y & 0xf0 == 0
    ensures Wide(Crc16Table(y)) == Byte((y as bv32) << 24, 0, POLY)
  {
  }

  lemma HighEntry(y: bv8)
    requires y & 0x0f == 0
    ensures Wide(Crc16Table(y)) == Byte((y as bv32) << 24, 0, POLY)
  {
  }

  /** The table is the sum of its first row and its first column. */
  lemma HighLow(y: bv8)
    ensures Crc16Table(y) == Plus(Crc16Table(y & 0xf0), Crc16Table(y & 0x0f))
  {
    hide Crc16Cell, Plus;
    Halve(y);
    CellSum(y >> 4, y & 0x0f);
  }

  lemma CellSum(h: bv8, k: bv8)
    requires h & 0xf0 == 0 && k & 0xf0 == 0
    ensures Crc16Cell(h, k) == Plus(Crc16Cell(h, 0), Crc16Cell(0, k))
  {
    hide Crc16Cell, Plus;
    if h & 0x08 == 0 {
      FirstRows(h, k);
    } else {
      LastRows(h, k);
    }
  }

  lemma FirstRows(h: bv8, k: bv8)
    requires h & 0xf8 == 0 && k & 0xf0 == 0
    ensures Crc16Cell(h, k) == Plus(Crc16Cell(h, 0), Crc16Cell(0, k))
  {
    hide Plus, Crc16TableRow0, Crc16TableRow1, Crc16TableRow2, Crc16TableRow3, Crc16TableRow4, Crc16TableRow5, Crc16TableRow6, Crc16TableRow7,
         Crc16TableRow8, Crc16TableRow9, Crc16TableRowa, Crc16TableRowb, Crc16TableRowc, Crc16TableRowd, Crc16TableRowe, Crc16TableRowf;
    match h
    case 0 => Origin(k);
    case 1 => Rows1(k);
    case 2 => Rows1(k);
    case 3 => Rows1(k);
    case 4 => Rows4(k);
    case 5 => Rows4(k);
    case 6 => Rows4(k);
    case _ => Rows4(k);
  }

  lemma LastRows(h: bv8, k: bv8)
    requires h & 0xf8 == 8 && k & 0xf0 == 0
    ensures Crc16Cell(h, k) == Plus(Crc16Cell(h, 0), Crc16Cell(0, k))
  {
    hide Plus, Crc16TableRow0, Crc16TableRow1, Crc16TableRow2, Crc16TableRow3, Crc16TableRow4, Crc16TableRow5, Crc16TableRow6, Crc16TableRow7,
         Crc16TableRow8, Crc16TableRow9, Crc16TableRowa, Crc16TableRowb, Crc16TableRowc, Crc16TableRowd, Crc16TableRowe, Crc16TableRowf;
    match h
    case 8 => Rows8(k);
    case 9 => Rows8(k);
    case 10 => Rows8(k);
    case 11 => Rows8(k);
    case 12 => Rows12(k);
    case 13 => Rows12(k);
    case 14 => Rows12(k);
    case _ => Rows12(k);
  }

  lemma Origin(k: bv8)
    ensures Crc16TableRow0(k) == Plus(Crc16TableRow0(0), Crc16TableRow0(k))
  {
  }

  lemma Halve(y: bv8)
    ensures (y & 0x0f) >> 4 == 0 && (y & 0xf0) >> 4 == y >> 4
    ensures (y & 0xf0) & 0x0f == 0 && (y & 0x0f) & 0x0f == y & 0x0f
    ensures (y >> 4) & 0xf0 == 0 && (y & 0x0f) & 0xf0 == 0
  {
  }

  lemma Rows1(k: bv8)
    requires k & 0xf0 == 0
    ensures Crc16TableRow1(k) == Plus(Crc16TableRow1(0), Crc16TableRow0(k))
    ensures Crc16TableRow2(k) == Plus(Crc16TableRow2(0), Crc16TableRow0(k))
    ensures Crc16TableRow3(k) == Plus(Crc16TableRow3(0), Crc16TableRow0(k))
  {
  }

  lemma Rows4(k: bv8)
    requires k & 0xf0 == 0
    ensures Crc16TableRow4(k) == Plus(Crc16TableRow4(0), Crc16TableRow0(k))
    ensures Crc16TableRow5(k) == Plus(Crc16TableRow5(0), Crc16TableRow0(k))
    ensures Crc16TableRow6(k) == Plus(Crc16TableRow6(0), Crc16TableRow0(k))
    ensures Crc16TableRow7(k) == Plus(Crc16TableRow7(0), Crc16TableRow0(k))
  {
  }

  lemma Rows8(k: bv8)
    requires k & 0xf0 == 0
    ensures Crc16TableRow8(k) == Plus(Crc16TableRow8(0), Crc16TableRow0(k))
    ensures Crc16TableRow9(k) == Plus(Crc16TableRow9(0), Crc16TableRow0(k))
    ensures Crc16TableRowa(k) == Plus(Crc16TableRowa(0), Crc16TableRow0(k))
    ensures Crc16TableRowb(k) == Plus(Crc16TableRowb(0), Crc16TableRow0(k))
  {
  }

  lemma Rows12(k: bv8)
    requires k & 0xf0 == 0
    ensures Crc16TableRowc(k) == Plus(Crc16TableRowc(0), Crc16TableRow0(k))
    ensures Crc16TableRowd(k) == Plus(Crc16TableRowd(0), Crc16TableRow0(k))
    ensures Crc16TableRowe(k) == Plus(Crc16TableRowe(0), Crc16TableRow0(k))
    ensures Crc16TableRowf(k) == Plus(Crc16TableRowf(0), Crc16TableRow0(k))
  {
  }

  lemma LowHalf(r: bv32)
    requires r & 0xff00_0000 == 0
    ensures Byte(r, 0, POLY) == r << 8
  {
  }

  lemma Cancel(x: bv8)
    ensures Byte((x as bv32) << 24, x, POLY) == 0
  {
  }

  /** A turn of the loop is eight bits of division. */
  lemma Table(r: bv16, x: bv8)
    ensures Wide(Next(r, x)) == Byte(Wide(r), x, POLY)
  {
    hide Byte, Crc16Table, Add, Next, Wide;
    var y := ((r >> 8) ^ (x as bv16)) as bv8;
    var lo, hi, shifted := Wide(r & 0x00ff), (y as bv32) << 24, (x as bv32) << 24;
    Halves(r, x);
    ByteLinear(Add(lo, hi), shifted, 0, x, POLY);
    ByteLinear(lo, hi, 0, 0, POLY);
    LowHalf(lo);
    TableEntry(y);
    Cancel(x);
    AddComm(Add(Byte(lo, 0, POLY), Byte(hi, 0, POLY)), 0);
    NextSplit(r, x);
  }

  /** A register and a byte are the low half, the index of the table, and a part that cancels. */
  lemma Halves(r: bv16, x: bv8)
    ensures var y := ((r >> 8) ^ (x as bv16)) as bv8;
            var lo, hi, shifted := Wide(r & 0x00ff), (y as bv32) << 24, (x as bv32) << 24;
            Wide(r) == Add(Add(lo, hi), shifted) && lo & 0xff00_0000 == 0
    ensures 0 ^ x == x && (0 as bv8) ^ 0 == 0
  {
    hide Add, Wide;
    var y := ((r >> 8) ^ (x as bv16)) as bv8;
    LowAndHigh(r);
    HighHalf(r, x);
    AddAssoc(Wide(r & 0x00ff), (y as bv32) << 24, (x as bv32) << 24);
    NoChange(x);
  }

  lemma LowAndHigh(r: bv16)
    ensures Wide(r) == Add(Wide(r & 0x00ff), Wide(r & 0xff00)) && Wide(r & 0x00ff) & 0xff00_0000 == 0
  {
  }

  lemma HighHalf(r: bv16, x: bv8)
    ensures var y := ((r >> 8) ^ (x as bv16)) as bv8;
            Wide(r & 0xff00) == Add((y as bv32) << 24, (x as bv32) << 24)
  {
  }

  lemma NoChange(x: bv8)
    ensures 0 ^ x == x && (0 as bv8) ^ 0 == 0
  {
  }

  lemma NextSplit(r: bv16, x: bv8)
    ensures var y := ((r >> 8) ^ (x as bv16)) as bv8;
            Wide(Next(r, x)) == Add(Wide(r & 0x00ff) << 8, Wide(Crc16Table(y)))
  {
    hide Crc16Table;
    WideXor(r << 8, Crc16Table(((r >> 8) ^ (x as bv16)) as bv8));
    LowByte(r);
  }

  lemma WideXor(r: bv16, s: bv16)
    ensures Wide(r ^ s) == Add(Wide(r), Wide(s))
  {
  }

  lemma LowByte(r: bv16)
    ensures Wide(r << 8) == Wide(r & 0x00ff) << 8
  {
  }

  lemma {:induction false} SumIsTable(buffer: seq<bv8>, start: bv16)
    ensures Wide(TableSum(buffer, start)) == Sum(buffer, Wide(start), POLY)
    decreases |buffer|
  {
    hide Byte, Next, Wide;
    if buffer != [] {
      Table(start, buffer[0]);
      SumIsTable(buffer[1..], Next(start, buffer[0]));
    }
  }

  // ------------------------------------------------------------------ results

  lemma HalfWord(r: bv16)
    ensures Wide(r) & 0xffff == 0 && POLY & 0xffff == 0
  {
  }

  /** The coefficients of a checksum, and those of the divisor without its leading term. */
  function Bits(r: bv16): Poly {
    Coefs(Wide(r), 16)
  }

  function Tail(): Poly {
    Coefs(POLY, 16)
  }

  /** With the start value at the head of the message, crc16 is the remainder of the message times x^16
      divided by x^16 + x^12 + x^5 + 1. */
  lemma RemainderExactly(buffer: seq<bv8>, start: bv16)
    ensures Bits(TableSum(buffer, start)) == Remainder(Dividend(MessageBits(buffer), Bits(start)), Tail())
  {
    hide TableSum, Holds, Coefs, Gone, Remainder, Dividend, MessageBits, Wide, Sum;
    HalfWord(start);
    GoneAfterWord(Wide(start));
    GoneAfterWord(POLY);
    HoldsCoefs(Wide(start), Bits(start));
    HoldsCoefs(POLY, Tail());
    Divides(buffer, Wide(start), Bits(start), POLY, Tail());
    SumIsTable(buffer, start);
    HoldsCoefs(Wide(TableSum(buffer, start)), Remainder(Dividend(MessageBits(buffer), Bits(start)), Tail()));
  }

  /** A message with one byte changed has a different checksum. */
  lemma DetectsByte(a: seq<bv8>, x: bv8, y: bv8, c: seq<bv8>, start: bv16)
    ensures TableSum(a + ([x] + c), start) == TableSum(a + ([y] + c), start) <==> x == y
  {
    hide TableSum, Sum, Wide, Byte;
    SumIsTable(a + ([x] + c), start);
    SumIsTable(a + ([y] + c), start);
    WideInjective(TableSum(a + ([x] + c), start), TableSum(a + ([y] + c), start));
    Change(x ^ y);
    ByteFacts(x, y);
    ByteChange(a, x, y, c, Wide(start), POLY, 0x0000_ffff);
  }

  lemma WideInjective(r: bv16, s: bv16)
    ensures Wide(r) == Wide(s) <==> r == s
  {
  }

  lemma Change(d: bv8)
    ensures Byte(0, d, POLY) == 0 <==> d == 0
  {
  }
}
