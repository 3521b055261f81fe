/** Bit strings, most significant bit first, the numbers they denote, and shifts. */
module Bits {

  type bit = x: int | 0 <= x <= 1
  type byte = x: int | 0 <= x < 256

  /** v >> n */
  function Shr(v: nat, n: nat): (r: nat)
    ensures r <= v
    decreases n
  {
    if n == 0 then v else Shr(v / 2, n - 1)
  }

  /** v << n, before any truncation */
  function Shl(v: nat, n: nat): (r: nat)
    ensures r >= v
    decreases n
  {
    if n == 0 then v else Shl(2 * v, n - 1)
  }

  lemma {:induction false} ShrLast(v: nat, n: nat)
    requires n > 0
    ensures Shr(v, n) == Shr(v, n - 1) / 2
    decreases n
  {
    if n <= 1 {
    } else {
      ShrLast(v / 2, n - 1);
    }
  }

  lemma {:induction false} ShlLast(v: nat, n: nat)
    requires n > 0
    ensures Shl(v, n) == 2 * Shl(v, n - 1)
    decreases n
  {
    if n <= 1 {
    } else {
      ShlLast(2 * v, n - 1);
    }
  }

  lemma {:induction false} ShlAdd(a: nat, b: nat, n: nat)
    ensures Shl(a + b, n) == Shl(a, n) + Shl(b, n)
    decreases n
  {
    if n == 0 {
    } else {
      ShlAdd(2 * a, 2 * b, n - 1);
    }
  }

  lemma {:induction false} ShlShl(v: nat, a: nat, b: nat)
    ensures Shl(Shl(v, a), b) == Shl(v, a + b)
    decreases a
  {
    if a == 0 {
    } else {
      ShlShl(2 * v, a - 1, b);
    }
  }

  function Value(bs: seq<bit>): (v: nat) {
    if bs == [] then 0 else 2 * Value(bs[..|bs| - 1]) + bs[|bs| - 1]
  }

  function ToBits(v: nat, n: nat): (bs: seq<bit>)
    ensures |bs| == n
  {
    if n == 0 then [] else ToBits(v / 2, n - 1) + [v % 2]
  }

  lemma {:induction false} BitsOfValue(bs: seq<bit>)
    ensures ToBits(Value(bs), |bs|) == bs
    decreases |bs|
  {
    if bs == [] {
    } else {
      BitsOfValue(bs[..|bs| - 1]);
      assert bs == bs[..|bs| - 1] + [bs[|bs| - 1]];
    }
  }

  lemma {:induction false} ValueOfBits(v: nat, n: nat)
    ensures Shl(1, n) > v ==> Value(ToBits(v, n)) == v
    decreases n
  {
    hide ToBits, Value, Shl;
    BitsLast(v, n);
    if n == 0 {
    } else {
      ValueOfBits(v / 2, n - 1);
      ShlLast(1, n);
      ValueLast(ToBits(v / 2, n - 1), v % 2);
    }
  }

  lemma BitsLast(v: nat, n: nat)
    ensures n == 0 ==> Shl(1, n) == 1 && Value(ToBits(v, n)) == 0
    ensures n > 0 ==> ToBits(v, n) == ToBits(v / 2, n - 1) + [v % 2]
  {
  }

  lemma NoBits()
    ensures Value([]) == 0
  {
  }

  lemma ValueLast(bs: seq<bit>, b: bit)
    ensures Value(bs + [b]) == 2 * Value(bs) + b
  {
    assert (bs + [b])[..|bs|] == bs;
  }

  lemma ShlFirst(v: nat, n: nat)
    requires n > 0
    ensures Shl(v, n) == Shl(2 * v, n - 1)
  {
  }

  lemma ModUnique(v: nat, m: nat, q: nat, r: nat)
    requires m >= 1 && v == m * q + r && r < m
    ensures v % m == r
  {
    var e := v / m - q;
    assert v == m * (v / m) + v % m;
    assert m * e == r - v % m;
    assert e <= -1 ==> m * e + m <= 0;
    assert e >= 1 ==> m * e >= m;
  }

  lemma NoShift(n: nat)
    ensures Shr(n, 0) == n && Shl(n, 0) == n
  {
  }

  lemma {:induction false} ValueBound(bs: seq<bit>)
    ensures Value(bs) < Shl(1, |bs|)
    decreases |bs|
  {
    if bs == [] {
    } else {
      ValueBound(bs[..|bs| - 1]);
      ShlLast(1, |bs|);
    }
  }

  lemma {:induction false} ValueConcat(a: seq<bit>, b: seq<bit>)
    ensures Value(a + b) == Shl(Value(a), |b|) + Value(b)
    decreases |b|
  {
    if b == [] {
      assert a + b == a;
    } else {
      ValueConcat(a, b[..|b| - 1]);
      assert (a + b)[..|a + b| - 1] == a + b[..|b| - 1];
      ShlLast(Value(a), |b|);
    }
  }

  /** The low b bits follow the rest. */
  lemma {:induction false} ToBitsSplit(v: nat, a: nat, b: nat)
    ensures ToBits(v, a + b) == ToBits(Shr(v, b), a) + ToBits(v, b)
    decreases b
  {
    if b == 0 {
    } else {
      ToBitsSplit(v / 2, a, b - 1);
    }
  }

  function BytesBits(bytes: seq<byte>): (bs: seq<bit>)
    ensures |bs| == 8 * |bytes|
  {
    if bytes == [] then [] else BytesBits(bytes[..|bytes| - 1]) + ToBits(bytes[|bytes| - 1], 8)
  }

  lemma BytesBitsSnoc(a: seq<byte>, b: byte)
    ensures BytesBits(a + [b]) == BytesBits(a) + ToBits(b, 8)
  {
    hide ToBits;
    assert (a + [b])[..|a|] == a;
  }

  lemma {:induction false} BytesBitsConcat(a: seq<byte>, b: seq<byte>)
    ensures BytesBits(a + b) == BytesBits(a) + BytesBits(b)
    decreases |b|
  {
    hide ToBits;
    if b == [] {
      assert a + b == a;
    } else {
      BytesBitsConcat(a, b[..|b| - 1]);
      assert (a + b)[..|a + b| - 1] == a + b[..|b| - 1];
    }
  }

  function Zeros(n: nat): (bs: seq<bit>)
    ensures |bs| == n && forall i :: 0 <= i < n ==> bs[i] == 0
  {
    seq(n, _ => 0)
  }

  /**
   A code held left-aligned in a 16-bit window: its first bit has weight 0x8000 and bits
   beyond the sixteenth fall off.
   */
  function Align(bs: seq<bit>): (v: nat)
    ensures v < 65536
  {
    if bs == [] then 0 else 0x8000 * bs[0] + Align(bs[1..]) / 2
  }

  /** For codes that fit, the window holds the code padded with zeros. */
  lemma {:induction false} AlignValue(bs: seq<bit>)
    requires |bs| <= 16
    ensures Align(bs) == Value(bs + Zeros(16 - |bs|))
    decreases |bs|
  {
    hide Value, Zeros;
    var z: seq<bit> := Zeros(16 - |bs|);
    if bs == [] {
      ValueZeros(16);
      assert bs + z == z;
    } else {
      var first: seq<bit>, rest: seq<bit> := [bs[0]], bs[1..];
      AlignValue(rest);
      AppendZero(rest, 16 - |bs|);
      var tail: seq<bit> := rest + z;
      assert bs + z == first + tail;
      ValueConcat(first, tail);
      ShlBit(bs[0]);
    }
  }

  lemma AppendZero(bs: seq<bit>, n: nat)
    ensures Value(bs + Zeros(n + 1)) == 2 * Value(bs + Zeros(n))
  {
    assert (bs + Zeros(n + 1))[..|bs| + n] == bs + Zeros(n);
  }

  lemma AlignEven(bs: seq<bit>)
    requires |bs| <= 15
    ensures Align(bs) % 2 == 0
  {
    hide Align, Value, Zeros;
    AlignValue(bs);
    AppendZero(bs, 15 - |bs|);
  }

  lemma ShlBit(b: bit)
    ensures Value([b]) == b && Shl(b, 15) == 0x8000 * b
  {
    assert [b][..0] == [];
    if b == 0 { assert Shl(0, 15) == 0; } else { assert Shl(1, 15) == 0x8000; }
  }

  lemma {:induction false} ValueZeros(n: nat)
    ensures Value(Zeros(n)) == 0
  {
    if n == 0 {
    } else {
      ValueZeros(n - 1);
      assert Zeros(n)[..n - 1] == Zeros(n - 1);
    }
  }

  /** Placing a code after n pending bits is a shift and an addition. */
  lemma {:induction false} AlignConcat(p: seq<bit>, b: seq<bit>)
    requires |p| <= 16
    ensures Align(p + b) == Align(p) + Shr(Align(b), |p|)
    decreases |p|
  {
    if p == [] {
      assert p + b == b;
    } else {
      AlignConcat(p[1..], b);
      assert (p + b)[1..] == p[1..] + b;
      AlignEven(p[1..]);
      ShrLast(Align(b), |p|);
    }
  }

  lemma DoubleMod(v: nat)
    ensures (2 * v) % 65536 == (2 * (v % 65536)) % 65536
  {
    var q, w := v / 65536, v % 65536;
    if 2 * w < 65536 {
      ModIs(2 * v, 2 * q, 2 * w);
    } else {
      ModIs(2 * v, 2 * q + 1, 2 * w - 65536);
      ModIs(2 * w, 1, 2 * w - 65536);
    }
  }

  lemma ModIs(a: nat, k: nat, r: nat)
    requires a == 65536 * k + r && r < 65536
    ensures a % 65536 == r
  {
  }

  lemma {:induction false} ShlMod(v: nat, n: nat)
    ensures Shl(v, n) % 65536 == Shl(v % 65536, n) % 65536
    decreases n
  {
    if n == 0 {
    } else {
      var w := v % 65536;
      ShlMod(2 * v, n - 1);
      ShlMod(2 * w, n - 1);
      DoubleMod(v);
    }
  }

  /** Dropping the first k bits of a code is a left shift in the window. */
  lemma {:induction false} AlignDrop(b: seq<bit>, k: nat)
    requires k <= |b| <= 16
    ensures Shl(Align(b), k) % 65536 == Align(b[k..])
    decreases k
  {
    if k == 0 {
      assert b[k..] == b;
    } else {
      var c := b[1..];
      AlignDrop(c, k - 1);
      AlignTail(b);
      ShlMod(2 * Align(b), k - 1);
      assert c[k - 1..] == b[k..];
    }
  }

  lemma AlignTail(b: seq<bit>)
    requires 1 <= |b| <= 16
    ensures (2 * Align(b)) % 65536 == Align(b[1..])
  {
    hide Align;
    var a := Align(b[1..]);
    AlignEven(b[1..]);
    AlignFirst(b);
    ModIs(2 * Align(b), b[0], a);
  }

  lemma AlignFirst(b: seq<bit>)
    requires b != []
    ensures Align(b) == 32768 * b[0] + Align(b[1..]) / 2
  {
  }

  /** The two bytes of the window are the code padded with zeros. */
  lemma AlignBytes(b: seq<bit>)
    requires |b| <= 16
    ensures ToBits(Align(b) / 256, 8) + ToBits(Align(b) % 256, 8) == b + Zeros(16 - |b|)
  {
    var v := Align(b);
    AlignValue(b);
    BitsOfValue(b + Zeros(16 - |b|));
    WindowBytes(v);
  }

  lemma WindowBytes(v: nat)
    ensures ToBits(v, 16) == ToBits(v / 256, 8) + ToBits(v % 256, 8)
  {
    ToBitsSplit(v, 8, 8);
    Shift8(v);
    ToBitsHigh(v % 256, v / 256, 8);
  }

  lemma Shift8(v: nat)
    ensures Shr(v, 8) == v / 256 && Shl(v, 8) == 256 * v
  {
  }

  /** Bits above the n-th do not matter to the low n. */
  lemma {:induction false} ToBitsHigh(v: nat, h: nat, n: nat)
    ensures ToBits(v + Shl(h, n), n) == ToBits(v, n)
    decreases n
  {
    if n == 0 {
    } else {
      ToBitsHigh(v / 2, h, n - 1);
      ShlLast(h, n);
      assert (v + Shl(h, n)) / 2 == v / 2 + Shl(h, n - 1);
    }
  }

  lemma TopBit(b: bit, y: nat)
    requires y < 0x8000
    ensures ToBits(0x8000 * b + y, 16) == [b] + ToBits(y, 15)
  {
    hide ToBits, Shr, Shl;
    var v := 0x8000 * b + y;
    ToBitsSplit(v, 1, 15);
    ShlBit(b);
    ToBitsHigh(y, b, 15);
    Shift15(v);
    ToBitsOne(b);
  }

  lemma ToBitsOne(b: bit)
    ensures ToBits(b, 1) == [b]
  {
    assert ToBits(b / 2, 0) == [];
  }

  lemma Shift15(v: nat)
    ensures Shr(v, 15) == v / 0x8000
  {
    ShrShr(v, 8, 7);
    Shift8(v);
    assert Shr(v / 256, 7) == v / 256 / 128;
  }

  lemma {:induction false} ShrShr(v: nat, a: nat, b: nat)
    ensures Shr(Shr(v, a), b) == Shr(v, a + b)
    decreases a
  {
    if a == 0 {
    } else {
      ShrShr(v / 2, a - 1, b);
    }
  }

  lemma Shl16()
    ensures Shl(1, 16) == 65536
  {
    ShlShl(1, 8, 8);
    Shift8(1);
    Shift8(256);
  }
}
