/** The checksums of src/frame.c:76-160: table-driven updates equal the bitwise
    definitions, and a frame check sequence is accepted exactly when it matches. */
module Crc {
  import opened Basics

  // ---------- the 16-bit frame check sequence ----------

  // One bit of the reflected polynomial x^16 + x^12 + x^5 + 1.
  function Bit16(c: bv16): bv16 { (c >> 1) ^ (0x8408 & (0 - (c & 1))) }

  function Byte16(c: bv16): bv16 { Bit16(Bit16(Bit16(Bit16(Bit16(Bit16(Bit16(Bit16(c)))))))) }

  // The state after one more byte (appendix C.2 of RFC 1662).
  function Update16(c: bv16, b: bv8): bv16 { SealedUpdate16(SEALS, c, b) }

  function SealedUpdate16(seals: seq<bool>, c: bv16, b: bv8): bv16 {
    if |seals| > 0 then SealedUpdate16(seals[1..], c, b) else Byte16(c ^ (b as bv16))
  }

  lemma {:induction false} OpenUpdate16(seals: seq<bool>, c: bv16, b: bv8)
    ensures SealedUpdate16(seals, c, b) == Byte16(c ^ (b as bv16))
  {
    if |seals| > 0 { OpenUpdate16(seals[1..], c, b); }
  }

  // The state after m, from all ones.
  function Fcs(m: seq<bv8>): bv16 {
    if |m| == 0 then 0xffff else Update16(Fcs(m[..|m| - 1]), m[|m| - 1])
  }

  // One entry of the table a sixteenth of the byte values at a time.

  function FcsRow0(j: bv8): bv16 {
    if j == 0 then 0x0000 else if j == 1 then 0x1189 else if j == 2 then 0x2312 else if j == 3 then 0x329b else
    if j == 4 then 0x4624 else if j == 5 then 0x57ad else if j == 6 then 0x6536 else if j == 7 then 0x74bf else
    if j == 8 then 0x8c48 else if j == 9 then 0x9dc1 else if j == 10 then 0xaf5a else if j == 11 then 0xbed3 else
    if j == 12 then 0xca6c else if j == 13 then 0xdbe5 else if j == 14 then 0xe97e else 0xf8f7
  }

  function FcsRow1(j: bv8): bv16 {
    if j == 0 then 0x1081 else if j == 1 then 0x0108 else if j == 2 then 0x3393 else if j == 3 then 0x221a else
    if j == 4 then 0x56a5 else if j == 5 then 0x472c else if j == 6 then 0x75b7 else if j == 7 then 0x643e else
    if j == 8 then 0x9cc9 else if j == 9 then 0x8d40 else if j == 10 then 0xbfdb else if j == 11 then 0xae52 else
    if j == 12 then 0xdaed else if j == 13 then 0xcb64 else if j == 14 then 0xf9ff else 0xe876
  }

  function FcsRow2(j: bv8): bv16 {
    if j == 0 then 0x2102 else if j == 1 then 0x308b else if j == 2 then 0x0210 else if j == 3 then 0x1399 else
    if j == 4 then 0x6726 else if j == 5 then 0x76af else if j == 6 then 0x4434 else if j == 7 then 0x55bd else
    if j == 8 then 0xad4a else if j == 9 then 0xbcc3 else if j == 10 then 0x8e58 else if j == 11 then 0x9fd1 else
    if j == 12 then 0xeb6e else if j == 13 then 0xfae7 else if j == 14 then 0xc87c else 0xd9f5
  }

  function FcsRow3(j: bv8): bv16 {
    if j == 0 then 0x3183 else if j == 1 then 0x200a else if j == 2 then 0x1291 else if j == 3 then 0x0318 else
    if j == 4 then 0x77a7 else if j == 5 then 0x662e else if j == 6 then 0x54b5 else if j == 7 then 0x453c else
    if j == 8 then 0xbdcb else if j == 9 then 0xac42 else if j == 10 then 0x9ed9 else if j == 11 then 0x8f50 else
    if j == 12 then 0xfbef else if j == 13 then 0xea66 else if j == 14 then 0xd8fd else 0xc974
  }

  function FcsRow4(j: bv8): bv16 {
    if j == 0 then 0x4204 else if j == 1 then 0x538d else if j == 2 then 0x6116 else if j == 3 then 0x709f else
    if j == 4 then 0x0420 else if j == 5 then 0x15a9 else if j == 6 then 0x2732 else if j == 7 then 0x36bb else
    if j == 8 then 0xce4c else if j == 9 then 0xdfc5 else if j == 10 then 0xed5e else if j == 11 then 0xfcd7 else
    if j == 12 then 0x8868 else if j == 13 then 0x99e1 else if j == 14 then 0xab7a else 0xbaf3
  }

  function FcsRow5(j: bv8): bv16 {
    if j == 0 then 0x5285 else if j == 1 then 0x430c else if j == 2 then 0x7197 else if j == 3 then 0x601e else
    if j == 4 then 0x14a1 else if j == 5 then 0x0528 else if j == 6 then 0x37b3 else if j == 7 then 0x263a else
    if j == 8 then 0xdecd else if j == 9 then 0xcf44 else if j == 10 then 0xfddf else if j == 11 then 0xec56 else
    if j == 12 then 0x98e9 else if j == 13 then 0x8960 else if j == 14 then 0xbbfb else 0xaa72
  }

  function FcsRow6(j: bv8): bv16 {
    if j == 0 then 0x6306 else if j == 1 then 0x728f else if j == 2 then 0x4014 else if j == 3 then 0x519d else
    if j == 4 then 0x2522 else if j == 5 then 0x34ab else if j == 6 then 0x0630 else if j == 7 then 0x17b9 else
    if j == 8 then 0xef4e else if j == 9 then 0xfec7 else if j == 10 then 0xcc5c else if j == 11 then 0xddd5 else
    if j == 12 then 0xa96a else if j == 13 then 0xb8e3 else if j == 14 then 0x8a78 else 0x9bf1
  }

  function FcsRow7(j: bv8): bv16 {
    if j == 0 then 0x7387 else if j == 1 then 0x620e else if j == 2 then 0x5095 else if j == 3 then 0x411c else
    if j == 4 then 0x35a3 else if j == 5 then 0x242a else if j == 6 then 0x16b1 else if j == 7 then 0x0738 else
    if j == 8 then 0xffcf else if j == 9 then 0xee46 else if j == 10 then 0xdcdd else if j == 11 then 0xcd54 else
    if j == 12 then 0xb9eb else if j == 13 then 0xa862 else if j == 14 then 0x9af9 else 0x8b70
  }

  function FcsRow8(j: bv8): bv16 {
    if j == 0 then 0x8408 else if j == 1 then 0x9581 else if j == 2 then 0xa71a else if j == 3 then 0xb693 else
    if j == 4 then 0xc22c else if j == 5 then 0xd3a5 else if j == 6 then 0xe13e else if j == 7 then 0xf0b7 else
    if j == 8 then 0x0840 else if j == 9 then 0x19c9 else if j == 10 then 0x2b52 else if j == 11 then 0x3adb else
    if j == 12 then 0x4e64 else if j == 13 then 0x5fed else if j == 14 then 0x6d76 else 0x7cff
  }

  function FcsRow9(j: bv8): bv16 {
    if j == 0 then 0x9489 else if j == 1 then 0x8500 else if j == 2 then 0xb79b else if j == 3 then 0xa612 else
    if j == 4 then 0xd2ad else if j == 5 then 0xc324 else if j == 6 then 0xf1bf else if j == 7 then 0xe036 else
    if j == 8 then 0x18c1 else if j == 9 then 0x0948 else if j == 10 then 0x3bd3 else if j == 11 then 0x2a5a else
    if j == 12 then 0x5ee5 else if j == 13 then 0x4f6c else if j == 14 then 0x7df7 else 0x6c7e
  }

  function FcsRowA(j: bv8): bv16 {
    if j == 0 then 0xa50a else if j == 1 then 0xb483 else if j == 2 then 0x8618 else if j == 3 then 0x9791 else
    if j == 4 then 0xe32e else if j == 5 then 0xf2a7 else if j == 6 then 0xc03c else if j == 7 then 0xd1b5 else
    if j == 8 then 0x2942 else if j == 9 then 0x38cb else if j == 10 then 0x0a50 else if j == 11 then 0x1bd9 else
    if j == 12 then 0x6f66 else if j == 13 then 0x7eef else if j == 14 then 0x4c74 else 0x5dfd
  }

  function FcsRowB(j: bv8): bv16 {
    if j == 0 then 0xb58b else if j == 1 then 0xa402 else if j == 2 then 0x9699 else if j == 3 then 0x8710 else
    if j == 4 then 0xf3af else if j == 5 then 0xe226 else if j == 6 then 0xd0bd else if j == 7 then 0xc134 else
    if j == 8 then 0x39c3 else if j == 9 then 0x284a else if j == 10 then 0x1ad1 else if j == 11 then 0x0b58 else
    if j == 12 then 0x7fe7 else if j == 13 then 0x6e6e else if j == 14 then 0x5cf5 else 0x4d7c
  }

  function FcsRowC(j: bv8): bv16 {
    if j == 0 then 0xc60c else if j == 1 then 0xd785 else if j == 2 then 0xe51e else if j == 3 then 0xf497 else
    if j == 4 then 0x8028 else if j == 5 then 0x91a1 else if j == 6 then 0xa33a else if j == 7 then 0xb2b3 else
    if j == 8 then 0x4a44 else if j == 9 then 0x5bcd else if j == 10 then 0x6956 else if j == 11 then 0x78df else
    if j == 12 then 0x0c60 else if j == 13 then 0x1de9 else if j == 14 then 0x2f72 else 0x3efb
  }

  function FcsRowD(j: bv8): bv16 {
    if j == 0 then 0xd68d else if j == 1 then 0xc704 else if j == 2 then 0xf59f else if j == 3 then 0xe416 else
    if j == 4 then 0x90a9 else if j == 5 then 0x8120 else if j == 6 then 0xb3bb else if j == 7 then 0xa232 else
    if j == 8 then 0x5ac5 else if j == 9 then 0x4b4c else if j == 10 then 0x79d7 else if j == 11 then 0x685e else
    if j == 12 then 0x1ce1 else if j == 13 then 0x0d68 else if j == 14 then 0x3ff3 else 0x2e7a
  }

  function FcsRowE(j: bv8): bv16 {
    if j == 0 then 0xe70e else if j == 1 then 0xf687 else if j == 2 then 0xc41c else if j == 3 then 0xd595 else
    if j == 4 then 0xa12a else if j == 5 then 0xb0a3 else if j == 6 then 0x8238 else if j == 7 then 0x93b1 else
    if j == 8 then 0x6b46 else if j == 9 then 0x7acf else if j == 10 then 0x4854 else if j == 11 then 0x59dd else
    if j == 12 then 0x2d62 else if j == 13 then 0x3ceb else if j == 14 then 0x0e70 else 0x1ff9
  }

  function FcsRowF(j: bv8): bv16 {
    if j == 0 then 0xf78f else if j == 1 then 0xe606 else if j == 2 then 0xd49d else if j == 3 then 0xc514 else
    if j == 4 then 0xb1ab else if j == 5 then 0xa022 else if j == 6 then 0x92b9 else if j == 7 then 0x8330 else
    if j == 8 then 0x7bc7 else if j == 9 then 0x6a4e else if j == 10 then 0x58d5 else if j == 11 then 0x495c else
    if j == 12 then 0x3de3 else if j == 13 then 0x2c6a else if j == 14 then 0x1ef1 else 0x0f78
  }

  // fcs_tab: the high half of the index selects the row.
  function FcsTab(b: bv8): bv16 {
    var r, j := b >> 4, b & 15;
    if r == 0 then FcsRow0(j) else if r == 1 then FcsRow1(j) else if r == 2 then FcsRow2(j) else if r == 3 then FcsRow3(j) else
    if r == 4 then FcsRow4(j) else if r == 5 then FcsRow5(j) else if r == 6 then FcsRow6(j) else if r == 7 then FcsRow7(j) else
    if r == 8 then FcsRow8(j) else if r == 9 then FcsRow9(j) else if r == 10 then FcsRowA(j) else if r == 11 then FcsRowB(j) else
    if r == 12 then FcsRowC(j) else if r == 13 then FcsRowD(j) else if r == 14 then FcsRowE(j) else FcsRowF(j)
  }

  lemma FcsRow0Is(j: bv8)
    requires j < 16
    ensures FcsRow0(j) == Byte16((0 + j) as bv16)
  {
  }

  lemma FcsRow1Is(j: bv8)
    requires j < 16
    ensures FcsRow1(j) == Byte16((16 + j) as bv16)
  {
  }

  lemma FcsRow2Is(j: bv8)
    requires j < 16
    ensures FcsRow2(j) == Byte16((32 + j) as bv16)
  {
  }

  lemma FcsRow3Is(j: bv8)
    requires j < 16
    ensures FcsRow3(j) == Byte16((48 + j) as bv16)
  {
  }

  lemma FcsRow4Is(j: bv8)
    requires j < 16
    ensures FcsRow4(j) == Byte16((64 + j) as bv16)
  {
  }

  lemma FcsRow5Is(j: bv8)
    requires j < 16
    ensures FcsRow5(j) == Byte16((80 + j) as bv16)
  {
  }

  lemma FcsRow6Is(j: bv8)
    requires j < 16
    ensures FcsRow6(j) == Byte16((96 + j) as bv16)
  {
  }

  lemma FcsRow7Is(j: bv8)
    requires j < 16
    ensures FcsRow7(j) == Byte16((112 + j) as bv16)
  {
  }

  lemma FcsRow8Is(j: bv8)
    requires j < 16
    ensures FcsRow8(j) == Byte16((128 + j) as bv16)
  {
  }

  lemma FcsRow9Is(j: bv8)
    requires j < 16
    ensures FcsRow9(j) == Byte16((144 + j) as bv16)
  {
  }

  lemma FcsRowAIs(j: bv8)
    requires j < 16
    ensures FcsRowA(j) == Byte16((160 + j) as bv16)
  {
  }

  lemma FcsRowBIs(j: bv8)
    requires j < 16
    ensures FcsRowB(j) == Byte16((176 + j) as bv16)
  {
  }

  lemma FcsRowCIs(j: bv8)
    requires j < 16
    ensures FcsRowC(j) == Byte16((192 + j) as bv16)
  {
  }

  lemma FcsRowDIs(j: bv8)
    requires j < 16
    ensures FcsRowD(j) == Byte16((208 + j) as bv16)
  {
  }

  lemma FcsRowEIs(j: bv8)
    requires j < 16
    ensures FcsRowE(j) == Byte16((224 + j) as bv16)
  {
  }

  lemma FcsRowFIs(j: bv8)
    requires j < 16
    ensures FcsRowF(j) == Byte16((240 + j) as bv16)
  {
  }

  lemma FcsTabIs(b: bv8)
    ensures FcsTab(b) == Byte16((b) as bv16)
  {
    var j := b & 15;
    FcsHalves(b);
    FcsRow0Is(j); FcsRow1Is(j);
    FcsRow2Is(j); FcsRow3Is(j);
    FcsRow4Is(j); FcsRow5Is(j);
    FcsRow6Is(j); FcsRow7Is(j);
    FcsRow8Is(j); FcsRow9Is(j);
    FcsRowAIs(j); FcsRowBIs(j);
    FcsRowCIs(j); FcsRowDIs(j);
    FcsRowEIs(j); FcsRowFIs(j);
  }

  lemma FcsHalves(b: bv8)
    ensures b & 15 < 16 && b >> 4 < 16 && b == 16 * (b >> 4) + (b & 15)
  {
  }

  // ---------- the 8-bit checksum of audio packets ----------

  // One bit of the polynomial x^8 + x^5 + x^4 + 1.
  function Bit8(c: bv8): bv8 { (c << 1) ^ (0x31 & (0 - (c >> 7))) }

  function Byte8(c: bv8): bv8 { Bit8(Bit8(Bit8(Bit8(Bit8(Bit8(Bit8(Bit8(c)))))))) }

  // The state after one more byte.
  function Update8(c: bv8, b: bv8): bv8 { SealedUpdate8(SEALS, c, b) }

  function SealedUpdate8(seals: seq<bool>, c: bv8, b: bv8): bv8 {
    if |seals| > 0 then SealedUpdate8(seals[1..], c, b) else Byte8(c ^ b)
  }

  lemma {:induction false} OpenUpdate8(seals: seq<bool>, c: bv8, b: bv8)
    ensures SealedUpdate8(seals, c, b) == Byte8(c ^ b)
  {
    if |seals| > 0 { OpenUpdate8(seals[1..], c, b); }
  }

  // The state after m, from all ones.
  function Crc8(m: seq<bv8>): bv8 {
    if |m| == 0 then 0xff else Update8(Crc8(m[..|m| - 1]), m[|m| - 1])
  }

  function CrcRow0(j: bv8): bv8 {
    if j == 0 then 0x00 else if j == 1 then 0x31 else if j == 2 then 0x62 else if j == 3 then 0x53 else
    if j == 4 then 0xc4 else if j == 5 then 0xf5 else if j == 6 then 0xa6 else if j == 7 then 0x97 else
    if j == 8 then 0xb9 else if j == 9 then 0x88 else if j == 10 then 0xdb else if j == 11 then 0xea else
    if j == 12 then 0x7d else if j == 13 then 0x4c else if j == 14 then 0x1f else 0x2e
  }

  function CrcRow1(j: bv8): bv8 {
    if j == 0 then 0x43 else if j == 1 then 0x72 else if j == 2 then 0x21 else if j == 3 then 0x10 else
    if j == 4 then 0x87 else if j == 5 then 0xb6 else if j == 6 then 0xe5 else if j == 7 then 0xd4 else
    if j == 8 then 0xfa else if j == 9 then 0xcb else if j == 10 then 0x98 else if j == 11 then 0xa9 else
    if j == 12 then 0x3e else if j == 13 then 0x0f else if j == 14 then 0x5c else 0x6d
  }

  function CrcRow2(j: bv8): bv8 {
    if j == 0 then 0x86 else if j == 1 then 0xb7 else if j == 2 then 0xe4 else if j == 3 then 0xd5 else
    if j == 4 then 0x42 else if j == 5 then 0x73 else if j == 6 then 0x20 else if j == 7 then 0x11 else
    if j == 8 then 0x3f else if j == 9 then 0x0e else if j == 10 then 0x5d else if j == 11 then 0x6c else
    if j == 12 then 0xfb else if j == 13 then 0xca else if j == 14 then 0x99 else 0xa8
  }

  function CrcRow3(j: bv8): bv8 {
    if j == 0 then 0xc5 else if j == 1 then 0xf4 else if j == 2 then 0xa7 else if j == 3 then 0x96 else
    if j == 4 then 0x01 else if j == 5 then 0x30 else if j == 6 then 0x63 else if j == 7 then 0x52 else
    if j == 8 then 0x7c else if j == 9 then 0x4d else if j == 10 then 0x1e else if j == 11 then 0x2f else
    if j == 12 then 0xb8 else if j == 13 then 0x89 else if j == 14 then 0xda else 0xeb
  }

  function CrcRow4(j: bv8): bv8 {
    if j == 0 then 0x3d else if j == 1 then 0x0c else if j == 2 then 0x5f else if j == 3 then 0x6e else
    if j == 4 then 0xf9 else if j == 5 then 0xc8 else if j == 6 then 0x9b else if j == 7 then 0xaa else
    if j == 8 then 0x84 else if j == 9 then 0xb5 else if j == 10 then 0xe6 else if j == 11 then 0xd7 else
    if j == 12 then 0x40 else if j == 13 then 0x71 else if j == 14 then 0x22 else 0x13
  }

  function CrcRow5(j: bv8): bv8 {
    if j == 0 then 0x7e else if j == 1 then 0x4f else if j == 2 then 0x1c else if j == 3 then 0x2d else
    if j == 4 then 0xba else if j == 5 then 0x8b else if j == 6 then 0xd8 else if j == 7 then 0xe9 else
    if j == 8 then 0xc7 else if j == 9 then 0xf6 else if j == 10 then 0xa5 else if j == 11 then 0x94 else
    if j == 12 then 0x03 else if j == 13 then 0x32 else if j == 14 then 0x61 else 0x50
  }

  function CrcRow6(j: bv8): bv8 {
    if j == 0 then 0xbb else if j == 1 then 0x8a else if j == 2 then 0xd9 else if j == 3 then 0xe8 else
    if j == 4 then 0x7f else if j == 5 then 0x4e else if j == 6 then 0x1d else if j == 7 then 0x2c else
    if j == 8 then 0x02 else if j == 9 then 0x33 else if j == 10 then 0x60 else if j == 11 then 0x51 else
    if j == 12 then 0xc6 else if j == 13 then 0xf7 else if j == 14 then 0xa4 else 0x95
  }

  function CrcRow7(j: bv8): bv8 {
    if j == 0 then 0xf8 else if j == 1 then 0xc9 else if j == 2 then 0x9a else if j == 3 then 0xab else
    if j == 4 then 0x3c else if j == 5 then 0x0d else if j == 6 then 0x5e else if j == 7 then 0x6f else
    if j == 8 then 0x41 else if j == 9 then 0x70 else if j == 10 then 0x23 else if j == 11 then 0x12 else
    if j == 12 then 0x85 else if j == 13 then 0xb4 else if j == 14 then 0xe7 else 0xd6
  }

  function CrcRow8(j: bv8): bv8 {
    if j == 0 then 0x7a else if j == 1 then 0x4b else if j == 2 then 0x18 else if j == 3 then 0x29 else
    if j == 4 then 0xbe else if j == 5 then 0x8f else if j == 6 then 0xdc else if j == 7 then 0xed else
    if j == 8 then 0xc3 else if j == 9 then 0xf2 else if j == 10 then 0xa1 else if j == 11 then 0x90 else
    if j == 12 then 0x07 else if j == 13 then 0x36 else if j == 14 then 0x65 else 0x54
  }

  function CrcRow9(j: bv8): bv8 {
    if j == 0 then 0x39 else if j == 1 then 0x08 else if j == 2 then 0x5b else if j == 3 then 0x6a else
    if j == 4 then 0xfd else if j == 5 then 0xcc else if j == 6 then 0x9f else if j == 7 then 0xae else
    if j == 8 then 0x80 else if j == 9 then 0xb1 else if j == 10 then 0xe2 else if j == 11 then 0xd3 else
    if j == 12 then 0x44 else if j == 13 then 0x75 else if j == 14 then 0x26 else 0x17
  }

  function CrcRowA(j: bv8): bv8 {
    if j == 0 then 0xfc else if j == 1 then 0xcd else if j == 2 then 0x9e else if j == 3 then 0xaf else
    if j == 4 then 0x38 else if j == 5 then 0x09 else if j == 6 then 0x5a else if j == 7 then 0x6b else
    if j == 8 then 0x45 else if j == 9 then 0x74 else if j == 10 then 0x27 else if j == 11 then 0x16 else
    if j == 12 then 0x81 else if j == 13 then 0xb0 else if j == 14 then 0xe3 else 0xd2
  }

  function CrcRowB(j: bv8): bv8 {
    if j == 0 then 0xbf else if j == 1 then 0x8e else if j == 2 then 0xdd else if j == 3 then 0xec else
    if j == 4 then 0x7b else if j == 5 then 0x4a else if j == 6 then 0x19 else if j == 7 then 0x28 else
    if j == 8 then 0x06 else if j == 9 then 0x37 else if j == 10 then 0x64 else if j == 11 then 0x55 else
    if j == 12 then 0xc2 else if j == 13 then 0xf3 else if j == 14 then 0xa0 else 0x91
  }

  function CrcRowC(j: bv8): bv8 {
    if j == 0 then 0x47 else if j == 1 then 0x76 else if j == 2 then 0x25 else if j == 3 then 0x14 else
    if j == 4 then 0x83 else if j == 5 then 0xb2 else if j == 6 then 0xe1 else if j == 7 then 0xd0 else
    if j == 8 then 0xfe else if j == 9 then 0xcf else if j == 10 then 0x9c else if j == 11 then 0xad else
    if j == 12 then 0x3a else if j == 13 then 0x0b else if j == 14 then 0x58 else 0x69
  }

  function CrcRowD(j: bv8): bv8 {
    if j == 0 then 0x04 else if j == 1 then 0x35 else if j == 2 then 0x66 else if j == 3 then 0x57 else
    if j == 4 then 0xc0 else if j == 5 then 0xf1 else if j == 6 then 0xa2 else if j == 7 then 0x93 else
    if j == 8 then 0xbd else if j == 9 then 0x8c else if j == 10 then 0xdf else if j == 11 then 0xee else
    if j == 12 then 0x79 else if j == 13 then 0x48 else if j == 14 then 0x1b else 0x2a
  }

  function CrcRowE(j: bv8): bv8 {
    if j == 0 then 0xc1 else if j == 1 then 0xf0 else if j == 2 then 0xa3 else if j == 3 then 0x92 else
    if j == 4 then 0x05 else if j == 5 then 0x34 else if j == 6 then 0x67 else if j == 7 then 0x56 else
    if j == 8 then 0x78 else if j == 9 then 0x49 else if j == 10 then 0x1a else if j == 11 then 0x2b else
    if j == 12 then 0xbc else if j == 13 then 0x8d else if j == 14 then 0xde else 0xef
  }

  function CrcRowF(j: bv8): bv8 {
    if j == 0 then 0x82 else if j == 1 then 0xb3 else if j == 2 then 0xe0 else if j == 3 then 0xd1 else
    if j == 4 then 0x46 else if j == 5 then 0x77 else if j == 6 then 0x24 else if j == 7 then 0x15 else
    if j == 8 then 0x3b else if j == 9 then 0x0a else if j == 10 then 0x59 else if j == 11 then 0x68 else
    if j == 12 then 0xff else if j == 13 then 0xce else if j == 14 then 0x9d else 0xac
  }

  // crc8_tab: the high half of the index selects the row.
  function CrcTab(b: bv8): bv8 {
    var r, j := b >> 4, b & 15;
    if r == 0 then CrcRow0(j) else if r == 1 then CrcRow1(j) else if r == 2 then CrcRow2(j) else if r == 3 then CrcRow3(j) else
    if r == 4 then CrcRow4(j) else if r == 5 then CrcRow5(j) else if r == 6 then CrcRow6(j) else if r == 7 then CrcRow7(j) else
    if r == 8 then CrcRow8(j) else if r == 9 then CrcRow9(j) else if r == 10 then CrcRowA(j) else if r == 11 then CrcRowB(j) else
    if r == 12 then CrcRowC(j) else if r == 13 then CrcRowD(j) else if r == 14 then CrcRowE(j) else CrcRowF(j)
  }

  lemma CrcRow0Is(j: bv8)
    requires j < 16
    ensures CrcRow0(j) == Byte8(0 + j)
  {
  }

  lemma CrcRow1Is(j: bv8)
    requires j < 16
    ensures CrcRow1(j) == Byte8(16 + j)
  {
  }

  lemma CrcRow2Is(j: bv8)
    requires j < 16
    ensures CrcRow2(j) == Byte8(32 + j)
  {
  }

  lemma CrcRow3Is(j: bv8)
    requires j < 16
    ensures CrcRow3(j) == Byte8(48 + j)
  {
  }

  lemma CrcRow4Is(j: bv8)
    requires j < 16
    ensures CrcRow4(j) == Byte8(64 + j)
  {
  }

  lemma CrcRow5Is(j: bv8)
    requires j < 16
    ensures CrcRow5(j) == Byte8(80 + j)
  {
  }

  lemma CrcRow6Is(j: bv8)
    requires j < 16
    ensures CrcRow6(j) == Byte8(96 + j)
  {
  }

  lemma CrcRow7Is(j: bv8)
    requires j < 16
    ensures CrcRow7(j) == Byte8(112 + j)
  {
  }

  lemma CrcRow8Is(j: bv8)
    requires j < 16
    ensures CrcRow8(j) == Byte8(128 + j)
  {
  }

  lemma CrcRow9Is(j: bv8)
    requires j < 16
    ensures CrcRow9(j) == Byte8(144 + j)
  {
  }

  lemma CrcRowAIs(j: bv8)
    requires j < 16
    ensures CrcRowA(j) == Byte8(160 + j)
  {
  }

  lemma CrcRowBIs(j: bv8)
    requires j < 16
    ensures CrcRowB(j) == Byte8(176 + j)
  {
  }

  lemma CrcRowCIs(j: bv8)
    requires j < 16
    ensures CrcRowC(j) == Byte8(192 + j)
  {
  }

  lemma CrcRowDIs(j: bv8)
    requires j < 16
    ensures CrcRowD(j) == Byte8(208 + j)
  {
  }

  lemma CrcRowEIs(j: bv8)
    requires j < 16
    ensures CrcRowE(j) == Byte8(224 + j)
  {
  }

  lemma CrcRowFIs(j: bv8)
    requires j < 16
    ensures CrcRowF(j) == Byte8(240 + j)
  {
  }

  lemma CrcTabIs(b: bv8)
    ensures CrcTab(b) == Byte8(b)
  {
    var j := b & 15;
    CrcHalves(b);
    CrcRow0Is(j); CrcRow1Is(j);
    CrcRow2Is(j); CrcRow3Is(j);
    CrcRow4Is(j); CrcRow5Is(j);
    CrcRow6Is(j); CrcRow7Is(j);
    CrcRow8Is(j); CrcRow9Is(j);
    CrcRowAIs(j); CrcRowBIs(j);
    CrcRowCIs(j); CrcRowDIs(j);
    CrcRowEIs(j); CrcRowFIs(j);
  }

  lemma CrcHalves(b: bv8)
    ensures b & 15 < 16 && b >> 4 < 16 && b == 16 * (b >> 4) + (b & 15)
  {
  }

  // ---------- the loops ----------

  /** One pass of the loop in fcs16. */
  method FcsStep(c: bv16, b: bv8) returns (r: bv16)
    ensures r == Update16(c, b)
  {
    var low := ((c ^ (b as bv16)) & 0xff) as bv8;
    FcsTabIs(low);
    ByteSplits(c ^ (b as bv16), c, b);
    OpenUpdate16(SEALS, c, b);
    r := (c >> 8) ^ FcsTab(low);
  }

  /** One pass of the loop in crc8. */
  method CrcStep(c: bv8, b: bv8) returns (r: bv8)
    ensures r == Update8(c, b)
  {
    CrcTabIs(c ^ b);
    OpenUpdate8(SEALS, c, b);
    r := CrcTab(c ^ b);
  }

  // Eight steps move the high byte down and transform the low one.
  lemma ByteSplits(x: bv16, c: bv16, b: bv8)
    requires x == c ^ (b as bv16)
    ensures Byte16(x) == (c >> 8) ^ Byte16(((x & 0xff) as bv8) as bv16)
  {
  }

  /** fcs16 */
  method Fcs16(cp: seq<bv8>) returns (crc: bv16)
    ensures crc == Fcs(cp)
  {
    crc := 0xffff;
    var i := 0;
    while i < |cp|
      invariant 0 <= i <= |cp| && crc == Fcs(cp[..i])
    {
      assert cp[..i + 1][..i] == cp[..i];
      crc := FcsStep(crc, cp[i]);
      i := i + 1;
    }
    assert cp[..|cp|] == cp;
  }

  /** crc8 */
  method PacketCrc(pkt: seq<bv8>) returns (crc: bv8)
    ensures crc == Crc8(pkt)
  {
    crc := 0xff;
    var i := 0;
    while i < |pkt|
      invariant 0 <= i <= |pkt| && crc == Crc8(pkt[..i])
    {
      assert pkt[..i + 1][..i] == pkt[..i];
      crc := CrcStep(crc, pkt[i]);
      i := i + 1;
    }
    assert pkt[..|pkt|] == pkt;
  }

  // ---------- the residue ----------

  const VALIDFCS16: bv16 := 0xf0b8

  // The complement of the state c, low byte first.
  function Complement(c: bv16): seq<bv8> { [(!c & 0xff) as bv8, (!c >> 8) as bv8] }

  // The check sequence that follows a message.
  function Trailer(m: seq<bv8>): seq<bv8> { Complement(Fcs(m)) }

  lemma ResidueIff(c: bv16, a: bv8, b: bv8)
    ensures Update16(Update16(c, a), b) == VALIDFCS16 <==> [a, b] == Complement(c)
  {
    OpenUpdate16(SEALS, c, a);
    OpenUpdate16(SEALS, Byte16(c ^ (a as bv16)), b);
    ResidueBytes(c, a, b);
    assert [a, b][0] == a && [a, b][1] == b;
  }

  lemma ResidueBytes(c: bv16, a: bv8, b: bv8)
    ensures Byte16(Byte16(c ^ (a as bv16)) ^ (b as bv16)) == VALIDFCS16 <==>
            a == (!c & 0xff) as bv8 && b == (!c >> 8) as bv8
  {
  }

  /** A message with two more bytes passes the check exactly when they are its
      complemented check sequence. */
  lemma ValidIff(m: seq<bv8>, a: bv8, b: bv8)
    ensures Fcs(m + [a, b]) == VALIDFCS16 <==> [a, b] == Trailer(m)
  {
    var t := m + [a, b];
    assert t[..|m| + 1] == m + [a] && (m + [a])[..|m|] == m;
    assert Fcs(t) == Update16(Fcs(t[..|m| + 1]), b);
    ResidueIff(Fcs(m), a, b);
  }

  /** An audio packet and its last byte check to zero exactly when that byte is
      the checksum of the rest. */
  lemma PacketCrcIff(m: seq<bv8>, c: bv8)
    ensures Crc8(m + [c]) == 0 <==> c == Crc8(m)
  {
    var t := m + [c];
    assert t[..|m|] == m;
    OpenUpdate8(SEALS, Crc8(m), c);
    ByteZeroOnly(Crc8(m) ^ c);
    XorZero(Crc8(m), c);
  }

  lemma ByteZeroOnly(x: bv8)
    ensures Byte8(x) == 0 <==> x == 0
  {
  }

  lemma XorZero(x: bv8, y: bv8)
    ensures x ^ y == 0 <==> x == y
  {
  }

  // Nothing shorter than two bytes passes.
  lemma ShortInvalid(m: seq<bv8>)
    requires |m| < 2
    ensures Fcs(m) != VALIDFCS16
  {
    if |m| == 1 {
      assert m[..0] == [];
      OpenUpdate16(SEALS, 0xffff, m[0]);
      OneByteInvalid(m[0]);
    }
  }

  lemma OneByteInvalid(b: bv8)
    ensures Byte16(0xffff ^ (b as bv16)) != VALIDFCS16
  {
  }
}
