/**
 What the checksum is: the remainder of the string, followed by sixteen zero bits, on
 division by x^16 + x^12 + x^5 + 1 over GF(2), and why one changed byte cannot go unnoticed.
 */
module CrcDivision {
  import opened Bits
  import opened Crc

  const POLY: seq<bit> := [0, 0, 0, 1, 0, 0, 0, 0, 0, 0, 1, 0, 0, 0, 0, 1]

  /** Addition of polynomials over GF(2). */
  function Add(a: seq<bit>, b: seq<bit>): (r: seq<bit>)
    requires |a| == |b|
    ensures |r| == |a|
    ensures forall i :: 0 <= i < |a| ==> r[i] == if a[i] == b[i] then 0 else 1
  {
    seq(|a|, i requires 0 <= i < |a| => if a[i] == b[i] then 0 else 1)
  }

  /** One step of the long division: take in a bit, subtract the divisor if a one falls out. */
  function ShiftIn(r: seq<bit>, b: bit): (q: seq<bit>)
    requires |r| == 16
    ensures |q| == 16
  {
    if r[0] == 1 then Add(r[1..] + [b], POLY) else r[1..] + [b]
  }

  /** The remainder after taking in a string of bits. */
  function Divide(r: seq<bit>, bs: seq<bit>): (q: seq<bit>)
    requires |r| == 16
    ensures |q| == 16
  {
    if bs == [] then r else ShiftIn(Divide(r, bs[..|bs| - 1]), bs[|bs| - 1])
  }

  lemma {:induction false} DivideConcat(r: seq<bit>, a: seq<bit>, b: seq<bit>)
    requires |r| == 16
    ensures Divide(r, a + b) == Divide(Divide(r, a), b)
    decreases |b|
  {
    hide ShiftIn;
    if b == [] {
      assert a + b == a;
    } else {
      DivideConcat(r, a, b[..|b| - 1]);
      assert (a + b)[..|a + b| - 1] == a + b[..|b| - 1];
    }
  }

  lemma ShiftInLinear(r: seq<bit>, u: seq<bit>, b: bit, c: bit)
    requires |r| == |u| == 16
    ensures ShiftIn(Add(r, u), Add([b], [c])[0]) == Add(ShiftIn(r, b), ShiftIn(u, c))
  {
  }

  /** Division is linear. */
  lemma {:induction false} DivideLinear(r: seq<bit>, u: seq<bit>, x: seq<bit>, y: seq<bit>)
    requires |r| == |u| == 16 && |x| == |y|
    ensures Divide(Add(r, u), Add(x, y)) == Add(Divide(r, x), Divide(u, y))
    decreases |x|
  {
    hide ShiftIn;
    if x != [] {
      var n := |x| - 1;
      DivideLinear(r, u, x[..n], y[..n]);
      assert Add(x, y)[..n] == Add(x[..n], y[..n]);
      assert Add(x, y)[n] == Add([x[n]], [y[n]])[0];
      ShiftInLinear(Divide(r, x[..n]), Divide(u, y[..n]), x[n], y[n]);
    } else {
      assert Add(x, y) == [];
    }
  }

  /** Bits taken in behind enough zeros never fall out. */
  lemma {:induction false} DivideSmall(l: seq<bit>, bs: seq<bit>)
    requires |l| + |bs| <= 16
    ensures |Zeros(16 - |l|) + l| == 16
    ensures Divide(Zeros(16 - |l|) + l, bs) == Zeros(16 - |l| - |bs|) + l + bs
    decreases |bs|
  {
    var r := Zeros(16 - |l|) + l;
    if bs == [] {
      assert r == Zeros(16 - |l|) + l + bs;
    } else {
      var n := |bs| - 1;
      DivideSmall(l, bs[..n]);
      var q := Divide(r, bs[..n]);
      assert q[0] == 0;
      assert q[1..] + [bs[n]] == Zeros(16 - |l| - |bs|) + l + bs;
    }
  }

  /** A register is its upper and its lower byte. */
  lemma DivideByteSplit(r: seq<bit>, c: seq<bit>)
    requires |r| == 16 && |c| == 8
    ensures |r[..8] + Zeros(8)| == 16
    ensures Divide(r, c) == Add(Divide(r[..8] + Zeros(8), Zeros(8)), r[8..] + c)
  {
    hide ShiftIn, Divide;
    var h, l := r[..8] + Zeros(8), Zeros(8) + r[8..];
    assert r == Add(h, l);
    assert c == Add(Zeros(8), c);
    DivideLinear(h, l, Zeros(8), c);
    DivideSmall(r[8..], c);
    assert Zeros(0) + r[8..] + c == r[8..] + c;
  }

  /** x^16 times a polynomial, reduced. */
  function Reduced(bs: seq<bit>): (r: seq<bit>)
    ensures |r| == 16
  {
    Divide(Zeros(16), bs + Zeros(16))
  }

  lemma ReducedByte(h: seq<bit>)
    requires |h| == 8
    ensures |h + Zeros(8)| == 16
    ensures Reduced(h) == Divide(h + Zeros(8), Zeros(8))
  {
    hide ShiftIn, Divide;
    assert h + Zeros(16) == (h + Zeros(8)) + Zeros(8);
    DivideConcat(Zeros(16), h + Zeros(8), Zeros(8));
    DivideSmall([], h + Zeros(8));
    assert Zeros(16) + [] == Zeros(16);
    assert Zeros(0) + [] + (h + Zeros(8)) == h + Zeros(8);
  }

  /** Appending a bit doubles, and adds the divisor for a one. */
  lemma ReducedSnoc(bs: seq<bit>, b: bit)
    ensures Reduced(bs + [b]) == if b == 1 then Add(ShiftIn(Reduced(bs), 0), POLY) else ShiftIn(Reduced(bs), 0)
  {
    hide ShiftIn, Divide;
    var n := |bs|;
    var even := bs + [0];
    assert even + Zeros(16) == (bs + Zeros(16)) + [0];
    DivideConcat(Zeros(16), bs + Zeros(16), [0]);
    DivideOne(Reduced(bs), 0);
    if b == 1 {
      var one := Zeros(n) + [1];
      assert (bs + [1]) + Zeros(16) == Add(even + Zeros(16), one + Zeros(16));
      assert Zeros(16) == Add(Zeros(16), Zeros(16));
      DivideLinear(Zeros(16), Zeros(16), even + Zeros(16), one + Zeros(16));
      ReducedOne(n);
    }
  }

  lemma DivideOne(r: seq<bit>, b: bit)
    requires |r| == 16
    ensures Divide(r, [b]) == ShiftIn(r, b)
  {
    assert [b][..0] == [];
  }

  lemma {:induction false} DivideZeros(n: nat)
    ensures Divide(Zeros(16), Zeros(n)) == Zeros(16)
  {
    if n == 0 {
    } else {
      DivideZeros(n - 1);
      assert Zeros(n)[..n - 1] == Zeros(n - 1);
      assert Zeros(16)[1..] + [0] == Zeros(16);
    }
  }

  lemma ReducedOne(n: nat)
    ensures Reduced(Zeros(n) + [1]) == POLY
  {
    hide ShiftIn, Divide;
    assert Zeros(n) + [1] + Zeros(16) == Zeros(n) + (([1] + Zeros(15)) + [0]);
    DivideConcat(Zeros(16), Zeros(n), ([1] + Zeros(15)) + [0]);
    DivideZeros(n);
    DivideConcat(Zeros(16), [1] + Zeros(15), [0]);
    DivideSmall([], [1] + Zeros(15));
    assert Zeros(16) + [] == Zeros(16);
    assert Zeros(0) + [] + ([1] + Zeros(15)) == [1] + Zeros(15);
    DivideOne([1] + Zeros(15), 0);
    TopOne();
  }

  lemma TopOne()
    ensures ShiftIn([1] + Zeros(15), 0) == POLY
  {
  }

  lemma {:induction false} XorBits(a: nat, b: nat, n: nat)
    ensures ToBits(Xor(a, b), n) == Add(ToBits(a, n), ToBits(b, n))
    decreases n
  {
    if n == 0 {
    } else {
      XorHalf(a, b);
      XorBits(a / 2, b / 2, n - 1);
    }
  }

  lemma XorHalf(a: nat, b: nat)
    ensures Xor(a, b) / 2 == Xor(a / 2, b / 2) && Xor(a, b) % 2 == if a % 2 == b % 2 then 0 else 1
  {
  }

  /** Flipping one bit of a number flips one bit of its string. */
  lemma {:induction false} FlipBit(v: int, k: nat, n: nat, w: int)
    requires v >= 0 && k < n && w == v + (if Shr(v, k) % 2 == 1 then 0 - Shl(1, k) else Shl(1, k))
    ensures w >= 0 && ToBits(w, n) == ToBits(v, n)[n - 1 - k := 1 - ToBits(v, n)[n - 1 - k]]
    decreases k
  {
    if k == 0 {
    } else {
      ShlLast(1, k);
      FlipBit(v / 2, k - 1, n - 1, w / 2);
    }
  }

  lemma {:induction false} BitAt(v: nat, k: nat, n: nat)
    requires k < n
    ensures ToBits(v, n)[n - 1 - k] == Shr(v, k) % 2
    decreases k
  {
    if k == 0 {
    } else {
      BitAt(v / 2, k - 1, n - 1);
    }
  }

  lemma Weights(v: nat)
    ensures Shr(v, 5) == v / 32 && Shr(v, 12) == v / 4096 && Shl(1, 5) == 32 && Shl(1, 12) == 4096
  {
    ShrShr(v, 8, 4);
    Shift8(v);
    assert Shr(v / 256, 4) == v / 256 / 16;
    ShlShl(1, 8, 4);
    Shift8(1);
    assert Shl(256, 4) == 4096;
  }

  /** Flipping the three bits is adding the divisor. */
  lemma FlipPolyBits(v: nat)
    ensures FlipPoly(v) >= 0 && ToBits(FlipPoly(v), 16) == Add(ToBits(v, 16), POLY)
  {
    hide ToBits, Shr, Shl;
    var v1 := v + (if v / 4096 % 2 == 1 then -4096 else 4096);
    Weights(v);
    FlipBit(v, 12, 16, v1);
    Weights(v1);
    BitAt(v, 5, 16);
    BitAt(v1, 5, 16);
    var v2 := v1 + (if v / 32 % 2 == 1 then -32 else 32);
    FlipBit(v1, 5, 16, v2);
    BitAt(v, 0, 16);
    BitAt(v2, 0, 16);
    LastBit(v);
    LastBit(v2);
    FlipBit(v2, 0, 16, FlipPoly(v));
  }

  lemma LastBit(v: nat)
    ensures Shr(v, 0) == v && Shl(1, 0) == 1
  {
  }

  lemma TimesXBits(v: sum16)
    ensures TimesX(v) >= 0 && ToBits(TimesX(v), 16) == ShiftIn(ToBits(v, 16), 0)
  {
    hide ToBits;
    var b: bit := if v < 0x8000 then 0 else 1;
    var y := v - 0x8000 * b;
    TopBit(b, y);
    DoubleBits(y);
    if b == 1 { FlipPolyBits(2 * y); }
  }

  lemma DoubleBits(y: nat)
    ensures ToBits(2 * y, 16) == ToBits(y, 15) + [0]
  {
  }

  /** Table entry i is x^16 times i, reduced. */
  lemma {:induction false} TableReduced(i: nat, n: nat)
    requires i < 256 && i < Shl(1, n)
    ensures Table(i) >= 0 && ToBits(Table(i), 16) == Reduced(ToBits(i, n))
    decreases n
  {
    hide Table, ShiftIn, TimesX, FlipPoly, Reduced;
    TableRange(i);
    if n == 0 {
      TableZero();
      ReducedNothing();
    } else {
      ShlLast(1, n);
      var j := i / 2;
      TableReduced(j, n - 1);
      TablePairs(j);
      TableRange(j);
      TimesXBits(Table(j));
      FlipPolyBits(Table(2 * j));
      ReducedSnoc(ToBits(j, n - 1), i % 2);
      assert i == 2 * j + i % 2;
    }
  }

  lemma TableZero()
    ensures Table(0) == 0
  {
  }

  lemma ReducedNothing()
    ensures Reduced([]) == Zeros(16) == ToBits(0, 16)
  {
    hide Divide;
    assert [] + Zeros(16) == Zeros(16);
    DivideZeros(16);
    ValueZeros(16);
    BitsOfValue(Zeros(16));
  }

  lemma HighLow(s: sum16)
    ensures ToBits(s, 16)[..8] == ToBits(s / 256, 8)
    ensures ToBits(s % 256 * 256, 16) == ToBits(s, 16)[8..] + Zeros(8)
  {
    hide ToBits;
    WindowBytes(s);
    WindowBytes(s % 256 * 256);
    ByteZeros();
  }

  lemma ByteZeros()
    ensures ToBits(0, 8) == Zeros(8)
  {
    ValueZeros(8);
    BitsOfValue(Zeros(8));
  }

  lemma ByteBits(c: byte)
    ensures ToBits(c, 16) == Zeros(8) + ToBits(c, 8)
  {
    hide ToBits;
    WindowBytes(c);
    ByteZeros();
  }

  /** The table-driven update of one byte is eight steps of the long division. */
  lemma UpdateDivides(c: byte, s: sum16)
    ensures ToBits(Update(c, s), 16) == Divide(ToBits(s, 16), ToBits(c, 8))
  {
    hide ToBits, Table, Xor, Divide, Reduced;
    var r, i := ToBits(s, 16), s / 256;
    SumRange(c, s);
    XorBits(Xor(s % 256 * 256, Table(i)), c, 16);
    XorBits(s % 256 * 256, Table(i), 16);
    HighLow(s);
    ByteBits(c);
    Shift8(1);
    TableReduced(i, 8);
    ReducedByte(r[..8]);
    DivideByteSplit(r, ToBits(c, 8));
    AddShuffle(r[8..], ToBits(Table(i), 16), ToBits(c, 8));
  }

  lemma AddShuffle(l: seq<bit>, t: seq<bit>, c: seq<bit>)
    requires |l| == |c| == 8 && |t| == 16
    ensures Add(Add(l + Zeros(8), t), Zeros(8) + c) == Add(t, l + c)
  {
  }

  lemma {:induction false} RunningDivides(s: sum16, p: seq<byte>)
    ensures ToBits(Running(s, p), 16) == Divide(ToBits(s, 16), BytesBits(p))
    decreases |p|
  {
    hide ToBits, Update, Divide;
    if p == [] {
      DivideNothing(ToBits(s, 16));
    } else {
      var q, c := p[..|p| - 1], p[|p| - 1];
      RunningDivides(s, q);
      UpdateDivides(c, Running(s, q));
      DivideConcat(ToBits(s, 16), BytesBits(q), ToBits(c, 8));
    }
  }

  lemma DivideNothing(r: seq<bit>)
    requires |r| == 16
    ensures Divide(r, []) == r
  {
  }

  /** The checksum is the remainder of the string followed by sixteen zero bits. */
  lemma ChecksumIsRemainder(p: seq<byte>)
    ensures ToBits(Checksum(p), 16) == Divide(Zeros(16), BytesBits(p) + Zeros(16))
  {
    hide ToBits, Divide, Update;
    RunningDivides(0, p + [0, 0]);
    BytesBitsSnoc(p, 0);
    BytesBitsSnoc(p + [0], 0);
    assert p + [0] + [0] == p + [0, 0];
    ByteZeros();
    ByteBits(0);
    assert Zeros(8) + Zeros(8) == Zeros(16);
    assert BytesBits(p) + Zeros(8) + Zeros(8) == BytesBits(p) + Zeros(16);
  }

  /** A step of the division loses nothing. */
  lemma ShiftInInjective(r: seq<bit>, u: seq<bit>, b: bit)
    requires |r| == |u| == 16 && ShiftIn(r, b) == ShiftIn(u, b)
    ensures r == u
  {
    var x, y := ShiftIn(r, b), ShiftIn(u, b);
    assert x[15] == (if r[0] == 1 then 1 - b else b) && y[15] == (if u[0] == 1 then 1 - b else b);
    assert r[0] == u[0];
    forall i | 1 <= i < 16
      ensures r[i] == u[i]
    {
      assert (r[1..] + [b])[i - 1] == r[i] && (u[1..] + [b])[i - 1] == u[i];
      assert x[i - 1] == y[i - 1];
    }
  }

  lemma {:induction false} DivideInjective(r: seq<bit>, u: seq<bit>, bs: seq<bit>)
    requires |r| == |u| == 16 && Divide(r, bs) == Divide(u, bs)
    ensures r == u
    decreases |bs|
  {
    hide ShiftIn;
    if bs == [] {
    } else {
      var n := |bs| - 1;
      ShiftInInjective(Divide(r, bs[..n]), Divide(u, bs[..n]), bs[n]);
      DivideInjective(r, u, bs[..n]);
    }
  }

  /** Changing exactly one byte always changes the checksum. */
  lemma SingleByteDetected(p: seq<byte>, k: nat, b: byte)
    requires k < |p| && b != p[k]
    ensures Checksum(p[k := b]) != Checksum(p)
  {
    hide ToBits, Update, Divide;
    var front, rest := p[..k], p[k + 1..] + [0, 0];
    assert p + [0, 0] == front + [p[k]] + rest;
    assert p[k := b] + [0, 0] == front + [b] + rest;
    if Checksum(p[k := b]) == Checksum(p) {
      SameTail(front + [p[k]], front + [b], rest);
      BytesBitsSnoc(front, p[k]);
      BytesBitsSnoc(front, b);
      SameByte(Divide(Zeros(16), BytesBits(front)), p[k], b) by {
        DivideConcat(Zeros(16), BytesBits(front), ToBits(p[k], 8));
        DivideConcat(Zeros(16), BytesBits(front), ToBits(b, 8));
      }
      assert false;
    }
  }

  lemma SameTail(a: seq<byte>, b: seq<byte>, rest: seq<byte>)
    requires Running(0, a + rest) == Running(0, b + rest)
    ensures Divide(Zeros(16), BytesBits(a)) == Divide(Zeros(16), BytesBits(b))
  {
    hide ToBits, Update, Divide;
    RunningDivides(0, a + rest);
    RunningDivides(0, b + rest);
    BytesBitsConcat(a, rest);
    BytesBitsConcat(b, rest);
    ByteBits(0);
    ByteZeros();
    assert Zeros(8) + Zeros(8) == Zeros(16);
    DivideConcat(Zeros(16), BytesBits(a), BytesBits(rest));
    DivideConcat(Zeros(16), BytesBits(b), BytesBits(rest));
    DivideInjective(Divide(Zeros(16), BytesBits(a)), Divide(Zeros(16), BytesBits(b)), BytesBits(rest));
  }

  /** Different bytes into the same register differ. */
  lemma SameByte(r: seq<bit>, c: byte, d: byte)
    requires |r| == 16 && Divide(r, ToBits(c, 8)) == Divide(r, ToBits(d, 8))
    ensures c == d
  {
    hide ToBits, Divide;
    DivideByteSplit(r, ToBits(c, 8));
    DivideByteSplit(r, ToBits(d, 8));
    var t := Divide(r[..8] + Zeros(8), Zeros(8));
    var x, y := r[8..] + ToBits(c, 8), r[8..] + ToBits(d, 8);
    forall i | 0 <= i < 8
      ensures ToBits(c, 8)[i] == ToBits(d, 8)[i]
    {
      assert Add(t, x)[8 + i] == Add(t, y)[8 + i];
    }
    assert ToBits(c, 8) == ToBits(d, 8);
    Shift8(1);
    ValueOfBits(c, 8);
    ValueOfBits(d, 8);
  }
}
