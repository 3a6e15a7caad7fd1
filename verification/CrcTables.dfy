/** The constant tables of the checksum functions. */
module CrcTables {

  /** CRC7_TABLE: rows of sixteen, by the upper and the lower half of the index. */
  function Crc7Table(x: bv8): bv8 {
    Crc7Cell(x >> 4, x & 0x0f)
  }

  function Crc7Cell(h: bv8, k: bv8): bv8 {
    match h
    case 0 => Crc7TableRow0(k)
    case 1 => Crc7TableRow1(k)
    case 2 => Crc7TableRow2(k)
    case 3 => Crc7TableRow3(k)
    case 4 => Crc7TableRow4(k)
    case 5 => Crc7TableRow5(k)
    case 6 => Crc7TableRow6(k)
    case 7 => Crc7TableRow7(k)
    case 8 => Crc7TableRow8(k)
    case 9 => Crc7TableRow9(k)
    case 10 => Crc7TableRowa(k)
    case 11 => Crc7TableRowb(k)
    case 12 => Crc7TableRowc(k)
    case 13 => Crc7TableRowd(k)
    case 14 => Crc7TableRowe(k)
    case _ => Crc7TableRowf(k)
  }

  function Crc7TableRow0(k: bv8): bv8 {
    match k
    case 0 => 0x00 case 1 => 0x12 case 2 => 0x24 case 3 => 0x36
    case 4 => 0x48 case 5 => 0x5a case 6 => 0x6c case 7 => 0x7e
    case 8 => 0x90 case 9 => 0x82 case 10 => 0xb4 case 11 => 0xa6
    case 12 => 0xd8 case 13 => 0xca case 14 => 0xfc case _ => 0xee
  }

  function Crc7TableRow1(k: bv8): bv8 {
    match k
    case 0 => 0x32 case 1 => 0x20 case 2 => 0x16 case 3 => 0x04
    case 4 => 0x7a case 5 => 0x68 case 6 => 0x5e case 7 => 0x4c
    case 8 => 0xa2 case 9 => 0xb0 case 10 => 0x86 case 11 => 0x94
    case 12 => 0xea case 13 => 0xf8 case 14 => 0xce case _ => 0xdc
  }

  function Crc7TableRow2(k: bv8): bv8 {
    match k
    case 0 => 0x64 case 1 => 0x76 case 2 => 0x40 case 3 => 0x52
    case 4 => 0x2c case 5 => 0x3e case 6 => 0x08 case 7 => 0x1a
    case 8 => 0xf4 case 9 => 0xe6 case 10 => 0xd0 case 11 => 0xc2
    case 12 => 0xbc case 13 => 0xae case 14 => 0x98 case _ => 0x8a
  }

  function Crc7TableRow3(k: bv8): bv8 {
    match k
    case 0 => 0x56 case 1 => 0x44 case 2 => 0x72 case 3 => 0x60
    case 4 => 0x1e case 5 => 0x0c case 6 => 0x3a case 7 => 0x28
    case 8 => 0xc6 case 9 => 0xd4 case 10 => 0xe2 case 11 => 0xf0
    case 12 => 0x8e case 13 => 0x9c case 14 => 0xaa case _ => 0xb8
  }

  function Crc7TableRow4(k: bv8): bv8 {
    match k
    case 0 => 0xc8 case 1 => 0xda case 2 => 0xec case 3 => 0xfe
    case 4 => 0x80 case 5 => 0x92 case 6 => 0xa4 case 7 => 0xb6
    case 8 => 0x58 case 9 => 0x4a case 10 => 0x7c case 11 => 0x6e
    case 12 => 0x10 case 13 => 0x02 case 14 => 0x34 case _ => 0x26
  }

  function Crc7TableRow5(k: bv8): bv8 {
    match k
    case 0 => 0xfa case 1 => 0xe8 case 2 => 0xde case 3 => 0xcc
    case 4 => 0xb2 case 5 => 0xa0 case 6 => 0x96 case 7 => 0x84
    case 8 => 0x6a case 9 => 0x78 case 10 => 0x4e case 11 => 0x5c
    case 12 => 0x22 case 13 => 0x30 case 14 => 0x06 case _ => 0x14
  }

  function Crc7TableRow6(k: bv8): bv8 {
    match k
    case 0 => 0xac case 1 => 0xbe case 2 => 0x88 case 3 => 0x9a
    case 4 => 0xe4 case 5 => 0xf6 case 6 => 0xc0 case 7 => 0xd2
    case 8 => 0x3c case 9 => 0x2e case 10 => 0x18 case 11 => 0x0a
    case 12 => 0x74 case 13 => 0x66 case 14 => 0x50 case _ => 0x42
  }

  function Crc7TableRow7(k: bv8): bv8 {
    match k
    case 0 => 0x9e case 1 => 0x8c case 2 => 0xba case 3 => 0xa8
    case 4 => 0xd6 case 5 => 0xc4 case 6 => 0xf2 case 7 => 0xe0
    case 8 => 0x0e case 9 => 0x1c case 10 => 0x2a case 11 => 0x38
    case 12 => 0x46 case 13 => 0x54 case 14 => 0x62 case _ => 0x70
  }

  function Crc7TableRow8(k: bv8): bv8 {
    match k
    case 0 => 0x82 case 1 => 0x90 case 2 => 0xa6 case 3 => 0xb4
    case 4 => 0xca case 5 => 0xd8 case 6 => 0xee case 7 => 0xfc
    case 8 => 0x12 case 9 => 0x00 case 10 => 0x36 case 11 => 0x24
    case 12 => 0x5a case 13 => 0x48 case 14 => 0x7e case _ => 0x6c
  }

  function Crc7TableRow9(k: bv8): bv8 {
    match k
    case 0 => 0xb0 case 1 => 0xa2 case 2 => 0x94 case 3 => 0x86
    case 4 => 0xf8 case 5 => 0xea case 6 => 0xdc case 7 => 0xce
    case 8 => 0x20 case 9 => 0x32 case 10 => 0x04 case 11 => 0x16
    case 12 => 0x68 case 13 => 0x7a case 14 => 0x4c case _ => 0x5e
  }

  function Crc7TableRowa(k: bv8): bv8 {
    match k
    case 0 => 0xe6 case 1 => 0xf4 case 2 => 0xc2 case 3 => 0xd0
    case 4 => 0xae case 5 => 0xbc case 6 => 0x8a case 7 => 0x98
    case 8 => 0x76 case 9 => 0x64 case 10 => 0x52 case 11 => 0x40
    case 12 => 0x3e case 13 => 0x2c case 14 => 0x1a case _ => 0x08
  }

  function Crc7TableRowb(k: bv8): bv8 {
    match k
    case 0 => 0xd4 case 1 => 0xc6 case 2 => 0xf0 case 3 => 0xe2
    case 4 => 0x9c case 5 => 0x8e case 6 => 0xb8 case 7 => 0xaa
    case 8 => 0x44 case 9 => 0x56 case 10 => 0x60 case 11 => 0x72
    case 12 => 0x0c case 13 => 0x1e case 14 => 0x28 case _ => 0x3a
  }

  function Crc7TableRowc(k: bv8): bv8 {
    match k
    case 0 => 0x4a case 1 => 0x58 case 2 => 0x6e case 3 => 0x7c
    case 4 => 0x02 case 5 => 0x10 case 6 => 0x26 case 7 => 0x34
    case 8 => 0xda case 9 => 0xc8 case 10 => 0xfe case 11 => 0xec
    case 12 => 0x92 case 13 => 0x80 case 14 => 0xb6 case _ => 0xa4
  }

  function Crc7TableRowd(k: bv8): bv8 {
    match k
    case 0 => 0x78 case 1 => 0x6a case 2 => 0x5c case 3 => 0x4e
    case 4 => 0x30 case 5 => 0x22 case 6 => 0x14 case 7 => 0x06
    case 8 => 0xe8 case 9 => 0xfa case 10 => 0xcc case 11 => 0xde
    case 12 => 0xa0 case 13 => 0xb2 case 14 => 0x84 case _ => 0x96
  }

  function Crc7TableRowe(k: bv8): bv8 {
    match k
    case 0 => 0x2e case 1 => 0x3c case 2 => 0x0a case 3 => 0x18
    case 4 => 0x66 case 5 => 0x74 case 6 => 0x42 case 7 => 0x50
    case 8 => 0xbe case 9 => 0xac case 10 => 0x9a case 11 => 0x88
    case 12 => 0xf6 case 13 => 0xe4 case 14 => 0xd2 case _ => 0xc0
  }

  function Crc7TableRowf(k: bv8): bv8 {
    match k
    case 0 => 0x1c case 1 => 0x0e case 2 => 0x38 case 3 => 0x2a
    case 4 => 0x54 case 5 => 0x46 case 6 => 0x70 case 7 => 0x62
    case 8 => 0x8c case 9 => 0x9e case 10 => 0xa8 case 11 => 0xba
    case 12 => 0xc4 case 13 => 0xd6 case 14 => 0xe0 case _ => 0xf2
  }

  /** CRC16_TABLE. */
  function Crc16Table(x: bv8): bv16 {
    Crc16Cell(x >> 4, x & 0x0f)
  }

  function Crc16Cell(h: bv8, k: bv8): bv16 {
    match h
    case 0 => Crc16TableRow0(k)
    case 1 => Crc16TableRow1(k)
    case 2 => Crc16TableRow2(k)
    case 3 => Crc16TableRow3(k)
    case 4 => Crc16TableRow4(k)
    case 5 => Crc16TableRow5(k)
    case 6 => Crc16TableRow6(k)
    case 7 => Crc16TableRow7(k)
    case 8 => Crc16TableRow8(k)
    case 9 => Crc16TableRow9(k)
    case 10 => Crc16TableRowa(k)
    case 11 => Crc16TableRowb(k)
    case 12 => Crc16TableRowc(k)
    case 13 => Crc16TableRowd(k)
    case 14 => Crc16TableRowe(k)
    case _ => Crc16TableRowf(k)
  }

  function Crc16TableRow0(k: bv8): bv16 {
    match k
    case 0 => 0x0000 case 1 => 0x1021 case 2 => 0x2042 case 3 => 0x3063
    case 4 => 0x4084 case 5 => 0x50a5 case 6 => 0x60c6 case 7 => 0x70e7
    case 8 => 0x8108 case 9 => 0x9129 case 10 => 0xa14a case 11 => 0xb16b
    case 12 => 0xc18c case 13 => 0xd1ad case 14 => 0xe1ce case _ => 0xf1ef
  }

  function Crc16TableRow1(k: bv8): bv16 {
    match k
    case 0 => 0x1231 case 1 => 0x0210 case 2 => 0x3273 case 3 => 0x2252
    case 4 => 0x52b5 case 5 => 0x4294 case 6 => 0x72f7 case 7 => 0x62d6
    case 8 => 0x9339 case 9 => 0x8318 case 10 => 0xb37b case 11 => 0xa35a
    case 12 => 0xd3bd case 13 => 0xc39c case 14 => 0xf3ff case _ => 0xe3de
  }

  function Crc16TableRow2(k: bv8): bv16 {
    match k
    case 0 => 0x2462 case 1 => 0x3443 case 2 => 0x0420 case 3 => 0x1401
    case 4 => 0x64e6 case 5 => 0x74c7 case 6 => 0x44a4 case 7 => 0x5485
    case 8 => 0xa56a case 9 => 0xb54b case 10 => 0x8528 case 11 => 0x9509
    case 12 => 0xe5ee case 13 => 0xf5cf case 14 => 0xc5ac case _ => 0xd58d
  }

  function Crc16TableRow3(k: bv8): bv16 {
    match k
    case 0 => 0x3653 case 1 => 0x2672 case 2 => 0x1611 case 3 => 0x0630
    case 4 => 0x76d7 case 5 => 0x66f6 case 6 => 0x5695 case 7 => 0x46b4
    case 8 => 0xb75b case 9 => 0xa77a case 10 => 0x9719 case 11 => 0x8738
    case 12 => 0xf7df case 13 => 0xe7fe case 14 => 0xd79d case _ => 0xc7bc
  }

  function Crc16TableRow4(k: bv8): bv16 {
    match k
    case 0 => 0x48c4 case 1 => 0x58e5 case 2 => 0x6886 case 3 => 0x78a7
    case 4 => 0x0840 case 5 => 0x1861 case 6 => 0x2802 case 7 => 0x3823
    case 8 => 0xc9cc case 9 => 0xd9ed case 10 => 0xe98e case 11 => 0xf9af
    case 12 => 0x8948 case 13 => 0x9969 case 14 => 0xa90a case _ => 0xb92b
  }

  function Crc16TableRow5(k: bv8): bv16 {
    match k
    case 0 => 0x5af5 case 1 => 0x4ad4 case 2 => 0x7ab7 case 3 => 0x6a96
    case 4 => 0x1a71 case 5 => 0x0a50 case 6 => 0x3a33 case 7 => 0x2a12
    case 8 => 0xdbfd case 9 => 0xcbdc case 10 => 0xfbbf case 11 => 0xeb9e
    case 12 => 0x9b79 case 13 => 0x8b58 case 14 => 0xbb3b case _ => 0xab1a
  }

  function Crc16TableRow6(k: bv8): bv16 {
    match k
    case 0 => 0x6ca6 case 1 => 0x7c87 case 2 => 0x4ce4 case 3 => 0x5cc5
    case 4 => 0x2c22 case 5 => 0x3c03 case 6 => 0x0c60 case 7 => 0x1c41
    case 8 => 0xedae case 9 => 0xfd8f case 10 => 0xcdec case 11 => 0xddcd
    case 12 => 0xad2a case 13 => 0xbd0b case 14 => 0x8d68 case _ => 0x9d49
  }

  function Crc16TableRow7(k: bv8): bv16 {
    match k
    case 0 => 0x7e97 case 1 => 0x6eb6 case 2 => 0x5ed5 case 3 => 0x4ef4
    case 4 => 0x3e13 case 5 => 0x2e32 case 6 => 0x1e51 case 7 => 0x0e70
    case 8 => 0xff9f case 9 => 0xefbe case 10 => 0xdfdd case 11 => 0xcffc
    case 12 => 0xbf1b case 13 => 0xaf3a case 14 => 0x9f59 case _ => 0x8f78
  }

  function Crc16TableRow8(k: bv8): bv16 {
    match k
    case 0 => 0x9188 case 1 => 0x81a9 case 2 => 0xb1ca case 3 => 0xa1eb
    case 4 => 0xd10c case 5 => 0xc12d case 6 => 0xf14e case 7 => 0xe16f
    case 8 => 0x1080 case 9 => 0x00a1 case 10 => 0x30c2 case 11 => 0x20e3
    case 12 => 0x5004 case 13 => 0x4025 case 14 => 0x7046 case _ => 0x6067
  }

  function Crc16TableRow9(k: bv8): bv16 {
    match k
    case 0 => 0x83b9 case 1 => 0x9398 case 2 => 0xa3fb case 3 => 0xb3da
    case 4 => 0xc33d case 5 => 0xd31c case 6 => 0xe37f case 7 => 0xf35e
    case 8 => 0x02b1 case 9 => 0x1290 case 10 => 0x22f3 case 11 => 0x32d2
    case 12 => 0x4235 case 13 => 0x5214 case 14 => 0x6277 case _ => 0x7256
  }

  function Crc16TableRowa(k: bv8): bv16 {
    match k
    case 0 => 0xb5ea case 1 => 0xa5cb case 2 => 0x95a8 case 3 => 0x8589
    case 4 => 0xf56e case 5 => 0xe54f case 6 => 0xd52c case 7 => 0xc50d
    case 8 => 0x34e2 case 9 => 0x24c3 case 10 => 0x14a0 case 11 => 0x0481
    case 12 => 0x7466 case 13 => 0x6447 case 14 => 0x5424 case _ => 0x4405
  }

  function Crc16TableRowb(k: bv8): bv16 {
    match k
    case 0 => 0xa7db case 1 => 0xb7fa case 2 => 0x8799 case 3 => 0x97b8
    case 4 => 0xe75f case 5 => 0xf77e case 6 => 0xc71d case 7 => 0xd73c
    case 8 => 0x26d3 case 9 => 0x36f2 case 10 => 0x0691 case 11 => 0x16b0
    case 12 => 0x6657 case 13 => 0x7676 case 14 => 0x4615 case _ => 0x5634
  }

  function Crc16TableRowc(k: bv8): bv16 {
    match k
    case 0 => 0xd94c case 1 => 0xc96d case 2 => 0xf90e case 3 => 0xe92f
    case 4 => 0x99c8 case 5 => 0x89e9 case 6 => 0xb98a case 7 => 0xa9ab
    case 8 => 0x5844 case 9 => 0x4865 case 10 => 0x7806 case 11 => 0x6827
    case 12 => 0x18c0 case 13 => 0x08e1 case 14 => 0x3882 case _ => 0x28a3
  }

  function Crc16TableRowd(k: bv8): bv16 {
    match k
    case 0 => 0xcb7d case 1 => 0xdb5c case 2 => 0xeb3f case 3 => 0xfb1e
    case 4 => 0x8bf9 case 5 => 0x9bd8 case 6 => 0xabbb case 7 => 0xbb9a
    case 8 => 0x4a75 case 9 => 0x5a54 case 10 => 0x6a37 case 11 => 0x7a16
    case 12 => 0x0af1 case 13 => 0x1ad0 case 14 => 0x2ab3 case _ => 0x3a92
  }

  function Crc16TableRowe(k: bv8): bv16 {
    match k
    case 0 => 0xfd2e case 1 => 0xed0f case 2 => 0xdd6c case 3 => 0xcd4d
    case 4 => 0xbdaa case 5 => 0xad8b case 6 => 0x9de8 case 7 => 0x8dc9
    case 8 => 0x7c26 case 9 => 0x6c07 case 10 => 0x5c64 case 11 => 0x4c45
    case 12 => 0x3ca2 case 13 => 0x2c83 case 14 => 0x1ce0 case _ => 0x0cc1
  }

  function Crc16TableRowf(k: bv8): bv16 {
    match k
    case 0 => 0xef1f case 1 => 0xff3e case 2 => 0xcf5d case 3 => 0xdf7c
    case 4 => 0xaf9b case 5 => 0xbfba case 6 => 0x8fd9 case 7 => 0x9ff8
    case 8 => 0x6e17 case 9 => 0x7e36 case 10 => 0x4e55 case 11 => 0x5e74
    case 12 => 0x2e93 case 13 => 0x3eb2 case 14 => 0x0ed1 case _ => 0x1ef0
  }

  /** BITREV_TABLE. */
  function BitrevTable(x: bv8): bv8 {
    var k := x & 0x0f;
    match x >> 4
    case 0 => BitrevTableRow0(k)
    case 1 => BitrevTableRow1(k)
    case 2 => BitrevTableRow2(k)
    case 3 => BitrevTableRow3(k)
    case 4 => BitrevTableRow4(k)
    case 5 => BitrevTableRow5(k)
    case 6 => BitrevTableRow6(k)
    case 7 => BitrevTableRow7(k)
    case 8 => BitrevTableRow8(k)
    case 9 => BitrevTableRow9(k)
    case 10 => BitrevTableRowa(k)
    case 11 => BitrevTableRowb(k)
    case 12 => BitrevTableRowc(k)
    case 13 => BitrevTableRowd(k)
    case 14 => BitrevTableRowe(k)
    case _ => BitrevTableRowf(k)
  }

  function BitrevTableRow0(k: bv8): bv8 {
    match k
    case 0 => 0x00 case 1 => 0x80 case 2 => 0x40 case 3 => 0xc0
    case 4 => 0x20 case 5 => 0xa0 case 6 => 0x60 case 7 => 0xe0
    case 8 => 0x10 case 9 => 0x90 case 10 => 0x50 case 11 => 0xd0
    case 12 => 0x30 case 13 => 0xb0 case 14 => 0x70 case _ => 0xf0
  }

  function BitrevTableRow1(k: bv8): bv8 {
    match k
    case 0 => 0x08 case 1 => 0x88 case 2 => 0x48 case 3 => 0xc8
    case 4 => 0x28 case 5 => 0xa8 case 6 => 0x68 case 7 => 0xe8
    case 8 => 0x18 case 9 => 0x98 case 10 => 0x58 case 11 => 0xd8
    case 12 => 0x38 case 13 => 0xb8 case 14 => 0x78 case _ => 0xf8
  }

  function BitrevTableRow2(k: bv8): bv8 {
    match k
    case 0 => 0x04 case 1 => 0x84 case 2 => 0x44 case 3 => 0xc4
    case 4 => 0x24 case 5 => 0xa4 case 6 => 0x64 case 7 => 0xe4
    case 8 => 0x14 case 9 => 0x94 case 10 => 0x54 case 11 => 0xd4
    case 12 => 0x34 case 13 => 0xb4 case 14 => 0x74 case _ => 0xf4
  }

  function BitrevTableRow3(k: bv8): bv8 {
    match k
    case 0 => 0x0c case 1 => 0x8c case 2 => 0x4c case 3 => 0xcc
    case 4 => 0x2c case 5 => 0xac case 6 => 0x6c case 7 => 0xec
    case 8 => 0x1c case 9 => 0x9c case 10 => 0x5c case 11 => 0xdc
    case 12 => 0x3c case 13 => 0xbc case 14 => 0x7c case _ => 0xfc
  }

  function BitrevTableRow4(k: bv8): bv8 {
    match k
    case 0 => 0x02 case 1 => 0x82 case 2 => 0x42 case 3 => 0xc2
    case 4 => 0x22 case 5 => 0xa2 case 6 => 0x62 case 7 => 0xe2
    case 8 => 0x12 case 9 => 0x92 case 10 => 0x52 case 11 => 0xd2
    case 12 => 0x32 case 13 => 0xb2 case 14 => 0x72 case _ => 0xf2
  }

  function BitrevTableRow5(k: bv8): bv8 {
    match k
    case 0 => 0x0a case 1 => 0x8a case 2 => 0x4a case 3 => 0xca
    case 4 => 0x2a case 5 => 0xaa case 6 => 0x6a case 7 => 0xea
    case 8 => 0x1a case 9 => 0x9a case 10 => 0x5a case 11 => 0xda
    case 12 => 0x3a case 13 => 0xba case 14 => 0x7a case _ => 0xfa
  }

  function BitrevTableRow6(k: bv8): bv8 {
    match k
    case 0 => 0x06 case 1 => 0x86 case 2 => 0x46 case 3 => 0xc6
    case 4 => 0x26 case 5 => 0xa6 case 6 => 0x66 case 7 => 0xe6
    case 8 => 0x16 case 9 => 0x96 case 10 => 0x56 case 11 => 0xd6
    case 12 => 0x36 case 13 => 0xb6 case 14 => 0x76 case _ => 0xf6
  }

  function BitrevTableRow7(k: bv8): bv8 {
    match k
    case 0 => 0x0e case 1 => 0x8e case 2 => 0x4e case 3 => 0xce
    case 4 => 0x2e case 5 => 0xae case 6 => 0x6e case 7 => 0xee
    case 8 => 0x1e case 9 => 0x9e case 10 => 0x5e case 11 => 0xde
    case 12 => 0x3e case 13 => 0xbe case 14 => 0x7e case _ => 0xfe
  }

  function BitrevTableRow8(k: bv8): bv8 {
    match k
    case 0 => 0x01 case 1 => 0x81 case 2 => 0x41 case 3 => 0xc1
    case 4 => 0x21 case 5 => 0xa1 case 6 => 0x61 case 7 => 0xe1
    case 8 => 0x11 case 9 => 0x91 case 10 => 0x51 case 11 => 0xd1
    case 12 => 0x31 case 13 => 0xb1 case 14 => 0x71 case _ => 0xf1
  }

  function BitrevTableRow9(k: bv8): bv8 {
    match k
    case 0 => 0x09 case 1 => 0x89 case 2 => 0x49 case 3 => 0xc9
    case 4 => 0x29 case 5 => 0xa9 case 6 => 0x69 case 7 => 0xe9
    case 8 => 0x19 case 9 => 0x99 case 10 => 0x59 case 11 => 0xd9
    case 12 => 0x39 case 13 => 0xb9 case 14 => 0x79 case _ => 0xf9
  }

  function BitrevTableRowa(k: bv8): bv8 {
    match k
    case 0 => 0x05 case 1 => 0x85 case 2 => 0x45 case 3 => 0xc5
    case 4 => 0x25 case 5 => 0xa5 case 6 => 0x65 case 7 => 0xe5
    case 8 => 0x15 case 9 => 0x95 case 10 => 0x55 case 11 => 0xd5
    case 12 => 0x35 case 13 => 0xb5 case 14 => 0x75 case _ => 0xf5
  }

  function BitrevTableRowb(k: bv8): bv8 {
    match k
    case 0 => 0x0d case 1 => 0x8d case 2 => 0x4d case 3 => 0xcd
    case 4 => 0x2d case 5 => 0xad case 6 => 0x6d case 7 => 0xed
    case 8 => 0x1d case 9 => 0x9d case 10 => 0x5d case 11 => 0xdd
    case 12 => 0x3d case 13 => 0xbd case 14 => 0x7d case _ => 0xfd
  }

  function BitrevTableRowc(k: bv8): bv8 {
    match k
    case 0 => 0x03 case 1 => 0x83 case 2 => 0x43 case 3 => 0xc3
    case 4 => 0x23 case 5 => 0xa3 case 6 => 0x63 case 7 => 0xe3
    case 8 => 0x13 case 9 => 0x93 case 10 => 0x53 case 11 => 0xd3
    case 12 => 0x33 case 13 => 0xb3 case 14 => 0x73 case _ => 0xf3
  }

  function BitrevTableRowd(k: bv8): bv8 {
    match k
    case 0 => 0x0b case 1 => 0x8b case 2 => 0x4b case 3 => 0xcb
    case 4 => 0x2b case 5 => 0xab case 6 => 0x6b case 7 => 0xeb
    case 8 => 0x1b case 9 => 0x9b case 10 => 0x5b case 11 => 0xdb
    case 12 => 0x3b case 13 => 0xbb case 14 => 0x7b case _ => 0xfb
  }

  function BitrevTableRowe(k: bv8): bv8 {
    match k
    case 0 => 0x07 case 1 => 0x87 case 2 => 0x47 case 3 => 0xc7
    case 4 => 0x27 case 5 => 0xa7 case 6 => 0x67 case 7 => 0xe7
    case 8 => 0x17 case 9 => 0x97 case 10 => 0x57 case 11 => 0xd7
    case 12 => 0x37 case 13 => 0xb7 case 14 => 0x77 case _ => 0xf7
  }

  function BitrevTableRowf(k: bv8): bv8 {
    match k
    case 0 => 0x0f case 1 => 0x8f case 2 => 0x4f case 3 => 0xcf
    case 4 => 0x2f case 5 => 0xaf case 6 => 0x6f case 7 => 0xef
    case 8 => 0x1f case 9 => 0x9f case 10 => 0x5f case 11 => 0xdf
    case 12 => 0x3f case 13 => 0xbf case 14 => 0x7f case _ => 0xff
  }

}
