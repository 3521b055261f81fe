/**
 The 16-bit checksum of the compressed stream, as the program computes it: a table indexed by
 the upper byte of the running sum.
 */
module Crc {
  import opened Bits

  /** a ^ b */
  function Xor(a: nat, b: nat): (r: nat) {
    if a == 0 then b else if b == 0 then a
    else 2 * Xor(a / 2, b / 2) + if a % 2 != b % 2 then 1 else 0
  }

  const ROW_0: seq<int> := [0x0000, 0x1021, 0x2042, 0x3063, 0x4084, 0x50a5, 0x60c6, 0x70e7,
                         0x8108, 0x9129, 0xa14a, 0xb16b, 0xc18c, 0xd1ad, 0xe1ce, 0xf1ef]
  const ROW_1: seq<int> := [0x1231, 0x0210, 0x3273, 0x2252, 0x52b5, 0x4294, 0x72f7, 0x62d6,
                         0x9339, 0x8318, 0xb37b, 0xa35a, 0xd3bd, 0xc39c, 0xf3ff, 0xe3de]
  const ROW_2: seq<int> := [0x2462, 0x3443, 0x0420, 0x1401, 0x64e6, 0x74c7, 0x44a4, 0x5485,
                         0xa56a, 0xb54b, 0x8528, 0x9509, 0xe5ee, 0xf5cf, 0xc5ac, 0xd58d]
  const ROW_3: seq<int> := [0x3653, 0x2672, 0x1611, 0x0630, 0x76d7, 0x66f6, 0x5695, 0x46b4,
                         0xb75b, 0xa77a, 0x9719, 0x8738, 0xf7df, 0xe7fe, 0xd79d, 0xc7bc]
  const ROW_4: seq<int> := [0x48c4, 0x58e5, 0x6886, 0x78a7, 0x0840, 0x1861, 0x2802, 0x3823,
                         0xc9cc, 0xd9ed, 0xe98e, 0xf9af, 0x8948, 0x9969, 0xa90a, 0xb92b]
  const ROW_5: seq<int> := [0x5af5, 0x4ad4, 0x7ab7, 0x6a96, 0x1a71, 0x0a50, 0x3a33, 0x2a12,
                         0xdbfd, 0xcbdc, 0xfbbf, 0xeb9e, 0x9b79, 0x8b58, 0xbb3b, 0xab1a]
  const ROW_6: seq<int> := [0x6ca6, 0x7c87, 0x4ce4, 0x5cc5, 0x2c22, 0x3c03, 0x0c60, 0x1c41,
                         0xedae, 0xfd8f, 0xcdec, 0xddcd, 0xad2a, 0xbd0b, 0x8d68, 0x9d49]
  const ROW_7: seq<int> := [0x7e97, 0x6eb6, 0x5ed5, 0x4ef4, 0x3e13, 0x2e32, 0x1e51, 0x0e70,
                         0xff9f, 0xefbe, 0xdfdd, 0xcffc, 0xbf1b, 0xaf3a, 0x9f59, 0x8f78]
  const ROW_8: seq<int> := [0x9188, 0x81a9, 0xb1ca, 0xa1eb, 0xd10c, 0xc12d, 0xf14e, 0xe16f,
                         0x1080, 0x00a1, 0x30c2, 0x20e3, 0x5004, 0x4025, 0x7046, 0x6067]
  const ROW_9: seq<int> := [0x83b9, 0x9398, 0xa3fb, 0xb3da, 0xc33d, 0xd31c, 0xe37f, 0xf35e,
                         0x02b1, 0x1290, 0x22f3, 0x32d2, 0x4235, 0x5214, 0x6277, 0x7256]
  const ROW_A: seq<int> := [0xb5ea, 0xa5cb, 0x95a8, 0x8589, 0xf56e, 0xe54f, 0xd52c, 0xc50d,
                         0x34e2, 0x24c3, 0x14a0, 0x0481, 0x7466, 0x6447, 0x5424, 0x4405]
  const ROW_B: seq<int> := [0xa7db, 0xb7fa, 0x8799, 0x97b8, 0xe75f, 0xf77e, 0xc71d, 0xd73c,
                         0x26d3, 0x36f2, 0x0691, 0x16b0, 0x6657, 0x7676, 0x4615, 0x5634]
  const ROW_C: seq<int> := [0xd94c, 0xc96d, 0xf90e, 0xe92f, 0x99c8, 0x89e9, 0xb98a, 0xa9ab,
                         0x5844, 0x4865, 0x7806, 0x6827, 0x18c0, 0x08e1, 0x3882, 0x28a3]
  const ROW_D: seq<int> := [0xcb7d, 0xdb5c, 0xeb3f, 0xfb1e, 0x8bf9, 0x9bd8, 0xabbb, 0xbb9a,
                         0x4a75, 0x5a54, 0x6a37, 0x7a16, 0x0af1, 0x1ad0, 0x2ab3, 0x3a92]
  const ROW_E: seq<int> := [0xfd2e, 0xed0f, 0xdd6c, 0xcd4d, 0xbdaa, 0xad8b, 0x9de8, 0x8dc9,
                         0x7c26, 0x6c07, 0x5c64, 0x4c45, 0x3ca2, 0x2c83, 0x1ce0, 0x0cc1]
  const ROW_F: seq<int> := [0xef1f, 0xff3e, 0xcf5d, 0xdf7c, 0xaf9b, 0xbfba, 0x8fd9, 0x9ff8,
                         0x6e17, 0x7e36, 0x4e55, 0x5e74, 0x2e93, 0x3eb2, 0x0ed1, 0x1ef0]

  function Row(k: nat): (r: seq<int>)
    requires k < 16
    ensures |r| == 16
  {
    match k
    case 0 => ROW_0 case 1 => ROW_1 case 2 => ROW_2 case 3 => ROW_3
    case 4 => ROW_4 case 5 => ROW_5 case 6 => ROW_6 case 7 => ROW_7
    case 8 => ROW_8 case 9 => ROW_9 case 10 => ROW_A case 11 => ROW_B
    case 12 => ROW_C case 13 => ROW_D case 14 => ROW_E case _ => ROW_F
  }

  function Table(i: nat): (v: int)
    requires i < 256
  {
    Row(i / 16)[i % 16]
  }

  /** Multiply a remainder by x and reduce modulo x^16 + x^12 + x^5 + 1. */
  function TimesX(v: int): (r: int) {
    if v < 0x8000 then 2 * v else FlipPoly(2 * v - 65536)
  }

  /** Flip the bits of x^12, x^5 and 1. */
  function FlipPoly(v: int): (r: int) {
    v + (if v / 4096 % 2 == 1 then -4096 else 4096) + (if v / 32 % 2 == 1 then -32 else 32)
    + (if v % 2 == 1 then -1 else 1)
  }

  /** The pair of entries under entry v. */
  ghost predicate Pair(v: int, even: int, odd: int) {
    even == TimesX(v) && odd == FlipPoly(even) && 0 <= even < 65536 && 0 <= odd < 65536
  }

  /** Row b pairs up under the half of row a that starts at o. */
  ghost predicate RowPairs(a: seq<int>, o: nat, b: seq<int>)
    requires |a| == 16 && |b| == 16 && o <= 8
  {
    && Pair(a[o], b[0], b[1]) && Pair(a[o + 1], b[2], b[3]) && Pair(a[o + 2], b[4], b[5]) && Pair(a[o + 3], b[6], b[7])
    && Pair(a[o + 4], b[8], b[9]) && Pair(a[o + 5], b[10], b[11])
    && Pair(a[o + 6], b[12], b[13]) && Pair(a[o + 7], b[14], b[15])
  }

  lemma Pairs0()
    ensures |ROW_0| == |ROW_0| == 16
    ensures Pair(ROW_0[0], ROW_0[0], ROW_0[1]) && Pair(ROW_0[1], ROW_0[2], ROW_0[3])
    ensures Pair(ROW_0[2], ROW_0[4], ROW_0[5]) && Pair(ROW_0[3], ROW_0[6], ROW_0[7])
    ensures Pair(ROW_0[4], ROW_0[8], ROW_0[9]) && Pair(ROW_0[5], ROW_0[10], ROW_0[11])
    ensures Pair(ROW_0[6], ROW_0[12], ROW_0[13]) && Pair(ROW_0[7], ROW_0[14], ROW_0[15])
  {
  }

  lemma Pairs1()
    ensures |ROW_1| == |ROW_0| == 16
    ensures Pair(ROW_0[8], ROW_1[0], ROW_1[1]) && Pair(ROW_0[9], ROW_1[2], ROW_1[3])
    ensures Pair(ROW_0[10], ROW_1[4], ROW_1[5]) && Pair(ROW_0[11], ROW_1[6], ROW_1[7])
    ensures Pair(ROW_0[12], ROW_1[8], ROW_1[9]) && Pair(ROW_0[13], ROW_1[10], ROW_1[11])
    ensures Pair(ROW_0[14], ROW_1[12], ROW_1[13]) && Pair(ROW_0[15], ROW_1[14], ROW_1[15])
  {
  }

  lemma Pairs2()
    ensures |ROW_2| == |ROW_1| == 16
    ensures Pair(ROW_1[0], ROW_2[0], ROW_2[1]) && Pair(ROW_1[1], ROW_2[2], ROW_2[3])
    ensures Pair(ROW_1[2], ROW_2[4], ROW_2[5]) && Pair(ROW_1[3], ROW_2[6], ROW_2[7])
    ensures Pair(ROW_1[4], ROW_2[8], ROW_2[9]) && Pair(ROW_1[5], ROW_2[10], ROW_2[11])
    ensures Pair(ROW_1[6], ROW_2[12], ROW_2[13]) && Pair(ROW_1[7], ROW_2[14], ROW_2[15])
  {
  }

  lemma Pairs3()
    ensures |ROW_3| == |ROW_1| == 16
    ensures Pair(ROW_1[8], ROW_3[0], ROW_3[1]) && Pair(ROW_1[9], ROW_3[2], ROW_3[3])
    ensures Pair(ROW_1[10], ROW_3[4], ROW_3[5]) && Pair(ROW_1[11], ROW_3[6], ROW_3[7])
    ensures Pair(ROW_1[12], ROW_3[8], ROW_3[9]) && Pair(ROW_1[13], ROW_3[10], ROW_3[11])
    ensures Pair(ROW_1[14], ROW_3[12], ROW_3[13]) && Pair(ROW_1[15], ROW_3[14], ROW_3[15])
  {
  }

  lemma Pairs4()
    ensures |ROW_4| == |ROW_2| == 16
    ensures Pair(ROW_2[0], ROW_4[0], ROW_4[1]) && Pair(ROW_2[1], ROW_4[2], ROW_4[3])
    ensures Pair(ROW_2[2], ROW_4[4], ROW_4[5]) && Pair(ROW_2[3], ROW_4[6], ROW_4[7])
    ensures Pair(ROW_2[4], ROW_4[8], ROW_4[9]) && Pair(ROW_2[5], ROW_4[10], ROW_4[11])
    ensures Pair(ROW_2[6], ROW_4[12], ROW_4[13]) && Pair(ROW_2[7], ROW_4[14], ROW_4[15])
  {
  }

  lemma Pairs5()
    ensures |ROW_5| == |ROW_2| == 16
    ensures Pair(ROW_2[8], ROW_5[0], ROW_5[1]) && Pair(ROW_2[9], ROW_5[2], ROW_5[3])
    ensures Pair(ROW_2[10], ROW_5[4], ROW_5[5]) && Pair(ROW_2[11], ROW_5[6], ROW_5[7])
    ensures Pair(ROW_2[12], ROW_5[8], ROW_5[9]) && Pair(ROW_2[13], ROW_5[10], ROW_5[11])
    ensures Pair(ROW_2[14], ROW_5[12], ROW_5[13]) && Pair(ROW_2[15], ROW_5[14], ROW_5[15])
  {
  }

  lemma Pairs6()
    ensures |ROW_6| == |ROW_3| == 16
    ensures Pair(ROW_3[0], ROW_6[0], ROW_6[1]) && Pair(ROW_3[1], ROW_6[2], ROW_6[3])
    ensures Pair(ROW_3[2], ROW_6[4], ROW_6[5]) && Pair(ROW_3[3], ROW_6[6], ROW_6[7])
    ensures Pair(ROW_3[4], ROW_6[8], ROW_6[9]) && Pair(ROW_3[5], ROW_6[10], ROW_6[11])
    ensures Pair(ROW_3[6], ROW_6[12], ROW_6[13]) && Pair(ROW_3[7], ROW_6[14], ROW_6[15])
  {
  }

  lemma Pairs7()
    ensures |ROW_7| == |ROW_3| == 16
    ensures Pair(ROW_3[8], ROW_7[0], ROW_7[1]) && Pair(ROW_3[9], ROW_7[2], ROW_7[3])
    ensures Pair(ROW_3[10], ROW_7[4], ROW_7[5]) && Pair(ROW_3[11], ROW_7[6], ROW_7[7])
    ensures Pair(ROW_3[12], ROW_7[8], ROW_7[9]) && Pair(ROW_3[13], ROW_7[10], ROW_7[11])
    ensures Pair(ROW_3[14], ROW_7[12], ROW_7[13]) && Pair(ROW_3[15], ROW_7[14], ROW_7[15])
  {
  }

  lemma Pairs8()
    ensures |ROW_8| == |ROW_4| == 16
    ensures Pair(ROW_4[0], ROW_8[0], ROW_8[1]) && Pair(ROW_4[1], ROW_8[2], ROW_8[3])
    ensures Pair(ROW_4[2], ROW_8[4], ROW_8[5]) && Pair(ROW_4[3], ROW_8[6], ROW_8[7])
    ensures Pair(ROW_4[4], ROW_8[8], ROW_8[9]) && Pair(ROW_4[5], ROW_8[10], ROW_8[11])
    ensures Pair(ROW_4[6], ROW_8[12], ROW_8[13]) && Pair(ROW_4[7], ROW_8[14], ROW_8[15])
  {
  }

  lemma Pairs9()
    ensures |ROW_9| == |ROW_4| == 16
    ensures Pair(ROW_4[8], ROW_9[0], ROW_9[1]) && Pair(ROW_4[9], ROW_9[2], ROW_9[3])
    ensures Pair(ROW_4[10], ROW_9[4], ROW_9[5]) && Pair(ROW_4[11], ROW_9[6], ROW_9[7])
    ensures Pair(ROW_4[12], ROW_9[8], ROW_9[9]) && Pair(ROW_4[13], ROW_9[10], ROW_9[11])
    ensures Pair(ROW_4[14], ROW_9[12], ROW_9[13]) && Pair(ROW_4[15], ROW_9[14], ROW_9[15])
  {
  }

  lemma PairsA()
    ensures |ROW_A| == |ROW_5| == 16
    ensures Pair(ROW_5[0], ROW_A[0], ROW_A[1]) && Pair(ROW_5[1], ROW_A[2], ROW_A[3])
    ensures Pair(ROW_5[2], ROW_A[4], ROW_A[5]) && Pair(ROW_5[3], ROW_A[6], ROW_A[7])
    ensures Pair(ROW_5[4], ROW_A[8], ROW_A[9]) && Pair(ROW_5[5], ROW_A[10], ROW_A[11])
    ensures Pair(ROW_5[6], ROW_A[12], ROW_A[13]) && Pair(ROW_5[7], ROW_A[14], ROW_A[15])
  {
  }

  lemma PairsB()
    ensures |ROW_B| == |ROW_5| == 16
    ensures Pair(ROW_5[8], ROW_B[0], ROW_B[1]) && Pair(ROW_5[9], ROW_B[2], ROW_B[3])
    ensures Pair(ROW_5[10], ROW_B[4], ROW_B[5]) && Pair(ROW_5[11], ROW_B[6], ROW_B[7])
    ensures Pair(ROW_5[12], ROW_B[8], ROW_B[9]) && Pair(ROW_5[13], ROW_B[10], ROW_B[11])
    ensures Pair(ROW_5[14], ROW_B[12], ROW_B[13]) && Pair(ROW_5[15], ROW_B[14], ROW_B[15])
  {
  }

  lemma PairsC()
    ensures |ROW_C| == |ROW_6| == 16
    ensures Pair(ROW_6[0], ROW_C[0], ROW_C[1]) && Pair(ROW_6[1], ROW_C[2], ROW_C[3])
    ensures Pair(ROW_6[2], ROW_C[4], ROW_C[5]) && Pair(ROW_6[3], ROW_C[6], ROW_C[7])
    ensures Pair(ROW_6[4], ROW_C[8], ROW_C[9]) && Pair(ROW_6[5], ROW_C[10], ROW_C[11])
    ensures Pair(ROW_6[6], ROW_C[12], ROW_C[13]) && Pair(ROW_6[7], ROW_C[14], ROW_C[15])
  {
  }

  lemma PairsD()
    ensures |ROW_D| == |ROW_6| == 16
    ensures Pair(ROW_6[8], ROW_D[0], ROW_D[1]) && Pair(ROW_6[9], ROW_D[2], ROW_D[3])
    ensures Pair(ROW_6[10], ROW_D[4], ROW_D[5]) && Pair(ROW_6[11], ROW_D[6], ROW_D[7])
    ensures Pair(ROW_6[12], ROW_D[8], ROW_D[9]) && Pair(ROW_6[13], ROW_D[10], ROW_D[11])
    ensures Pair(ROW_6[14], ROW_D[12], ROW_D[13]) && Pair(ROW_6[15], ROW_D[14], ROW_D[15])
  {
  }

  lemma PairsE()
    ensures |ROW_E| == |ROW_7| == 16
    ensures Pair(ROW_7[0], ROW_E[0], ROW_E[1]) && Pair(ROW_7[1], ROW_E[2], ROW_E[3])
    ensures Pair(ROW_7[2], ROW_E[4], ROW_E[5]) && Pair(ROW_7[3], ROW_E[6], ROW_E[7])
    ensures Pair(ROW_7[4], ROW_E[8], ROW_E[9]) && Pair(ROW_7[5], ROW_E[10], ROW_E[11])
    ensures Pair(ROW_7[6], ROW_E[12], ROW_E[13]) && Pair(ROW_7[7], ROW_E[14], ROW_E[15])
  {
  }

  lemma PairsF()
    ensures |ROW_F| == |ROW_7| == 16
    ensures Pair(ROW_7[8], ROW_F[0], ROW_F[1]) && Pair(ROW_7[9], ROW_F[2], ROW_F[3])
    ensures Pair(ROW_7[10], ROW_F[4], ROW_F[5]) && Pair(ROW_7[11], ROW_F[6], ROW_F[7])
    ensures Pair(ROW_7[12], ROW_F[8], ROW_F[9]) && Pair(ROW_7[13], ROW_F[10], ROW_F[11])
    ensures Pair(ROW_7[14], ROW_F[12], ROW_F[13]) && Pair(ROW_7[15], ROW_F[14], ROW_F[15])
  {
  }

  lemma RowsPair(k: nat)
    requires k < 16
    ensures RowPairs(Row(k / 2), k % 2 * 8, Row(k))
  {
    hide Row, RowPairs;
    if k < 8 { LowRows(k); } else { HighRows(k); }
  }

  lemma LowRows(k: nat)
    requires k < 8
    ensures RowPairs(Row(k / 2), k % 2 * 8, Row(k))
  {
    hide Pair;
    match k
    case 0 => Pairs0();
    case 1 => Pairs1();
    case 2 => Pairs2();
    case 3 => Pairs3();
    case 4 => Pairs4();
    case 5 => Pairs5();
    case 6 => Pairs6();
    case _ => Pairs7();
  }

  lemma HighRows(k: nat)
    requires 8 <= k < 16
    ensures RowPairs(Row(k / 2), k % 2 * 8, Row(k))
  {
    hide Pair;
    match k
    case 8 => Pairs8();
    case 9 => Pairs9();
    case 10 => PairsA();
    case 11 => PairsB();
    case 12 => PairsC();
    case 13 => PairsD();
    case 14 => PairsE();
    case _ => PairsF();
  }

  /** Every entry is twice another, or that with the divisor added. */
  lemma TablePairs(i: nat)
    requires i < 128
    ensures Pair(Table(i), Table(2 * i), Table(2 * i + 1))
  {
    hide Pair, Row;
    var k, j := i / 8, i % 8;
    RowsPair(k);
    assert i / 16 == k / 2 && i % 16 == k % 2 * 8 + j;
    assert 2 * i / 16 == k && 2 * i % 16 == 2 * j && (2 * i + 1) / 16 == k && (2 * i + 1) % 16 == 2 * j + 1;
  }

  lemma TableRange(i: nat)
    requires i < 256
    ensures 0 <= Table(i) < 65536
  {
    hide Table;
    TablePairs(i / 2);
    assert i == 2 * (i / 2) || i == 2 * (i / 2) + 1;
  }

  lemma {:induction false} XorBound(a: nat, b: nat, n: nat)
    requires a < Shl(1, n) && b < Shl(1, n)
    ensures Xor(a, b) < Shl(1, n)
    decreases n
  {
    if n > 0 && a != 0 && b != 0 {
      ShlLast(1, n);
      XorBound(a / 2, b / 2, n - 1);
    }
  }

  type sum16 = x: int | 0 <= x < 65536

  lemma SumRange(c: byte, sum: sum16)
    ensures 0 <= Table(sum / 256) && Xor(Xor(sum % 256 * 256, Table(sum / 256)), c) < 65536
  {
    hide Xor, Table;
    TableRange(sum / 256);
    Shl16();
    XorBound(sum % 256 * 256, Table(sum / 256), 16);
    XorBound(Xor(sum % 256 * 256, Table(sum / 256)), c, 16);
  }

  /** One byte into the running sum. */
  function Update(c: byte, sum: sum16): (r: sum16) {
    SumRange(c, sum);
    Xor(Xor(sum % 256 * 256, Table(sum / 256)), c)
  }

  /** The running sum over a string. */
  function Running(sum: sum16, p: seq<byte>): (r: sum16) {
    if p == [] then sum else Update(p[|p| - 1], Running(sum, p[..|p| - 1]))
  }

  /** The checksum: two zero bytes are appended. */
  function Checksum(p: seq<byte>): (r: sum16) { Running(0, p + [0, 0]) }

  /** How the string is cut up does not matter to the running sum. */
  lemma {:induction false} RunningConcat(s: sum16, a: seq<byte>, b: seq<byte>)
    ensures Running(s, a + b) == Running(Running(s, a), b)
    decreases |b|
  {
    hide Update;
    if b == [] {
      assert a + b == a;
    } else {
      RunningConcat(s, a, b[..|b| - 1]);
      assert (a + b)[..|a + b| - 1] == a + b[..|b| - 1];
    }
  }

  /** The checksum as an io.Writer keeps it. */
  class CrcWriter {
    var sum: sum16

    constructor ()
      ensures sum == 0
    {
      sum := 0;
    }

    method Write(p: seq<byte>) returns (n: nat)
      modifies this
      ensures sum == Running(old(sum), p) && n == |p|
    {
      for i := 0 to |p|
        invariant sum == Running(old(sum), p[..i])
      {
        assert p[..i + 1][..i] == p[..i];
        sum := Update(p[i], sum);
      }
      assert p[..|p|] == p;
      n := |p|;
    }

    /** What was written, with the two zero bytes appended; the writer itself goes on unchanged. */
    method Sum() returns (r: sum16)
      ensures r == Running(sum, [0, 0])
    {
      var zeros: seq<byte> := [0, 0];
      r := sum;
      for i := 0 to |zeros|
        invariant r == Running(sum, zeros[..i])
      {
        assert zeros[..i + 1][..i] == zeros[..i];
        r := Update(zeros[i], r);
      }
      assert zeros[..|zeros|] == zeros;
    }
  }

  /** The checksum of a string at once. */
  method ComputeCrc(p: seq<byte>) returns (r: sum16)
    ensures r == Checksum(p)
  {
    hide Update;
    var q := p + [0, 0];
    r := 0;
    for i := 0 to |q|
      invariant r == Running(0, q[..i])
    {
      assert q[..i + 1][..i] == q[..i];
      r := Update(q[i], r);
    }
    assert q[..|q|] == q;
  }
}
