/**
 The static code for match positions: the upper six bits go through a fixed prefix code,
 the lower six are sent as they are.  The four tables are given by their ranges.
 */
module PositionCode {
  import opened Bits
  import opened HuffmanCode

  function PLen(i: nat): (n: nat)
    requires i < 64
    ensures 3 <= n <= 8
  {
    if i < 1 then 3 else if i < 4 then 4 else if i < 12 then 5
    else if i < 24 then 6 else if i < 48 then 7 else 8
  }

  function PCode(i: nat): (v: byte)
    requires i < 64
  {
    if i < 1 then 0 else if i < 4 then 0x20 + 16 * (i - 1) else if i < 12 then 0x50 + 8 * (i - 4)
    else if i < 24 then 0x90 + 4 * (i - 12) else if i < 48 then 0xC0 + 2 * (i - 24) else 0xF0 + (i - 48)
  }

  function DCode(b: byte): (i: nat)
    ensures i < 64
  {
    if b < 0x20 then 0 else if b < 0x50 then 1 + (b - 0x20) / 16 else if b < 0x90 then 4 + (b - 0x50) / 8
    else if b < 0xC0 then 12 + (b - 0x90) / 4 else if b < 0xF0 then 24 + (b - 0xC0) / 2 else 48 + (b - 0xF0)
  }

  function DLen(b: byte): (n: nat)
    ensures 3 <= n <= 8
  {
    if b < 0x20 then 3 else if b < 0x50 then 4 else if b < 0x90 then 5
    else if b < 0xC0 then 6 else if b < 0xF0 then 7 else 8
  }

  /** The prefix code word of the upper six bits. */
  function PosPrefix(i: nat): (bs: seq<bit>)
    requires i < 64
    ensures |bs| == PLen(i)
  {
    ToBits(Shr(PCode(i), 8 - PLen(i)), PLen(i))
  }

  function PosBits(c: nat): (bs: seq<bit>)
    requires c < 4096
    ensures 9 <= |bs| == PLen(c / 64) + 6 <= 14
  {
    PosPrefix(c / 64) + ToBits(c % 64, 6)
  }

  /** Append n more bits to the number read so far. */
  function TakeMore(bits: seq<bit>, s: Cursor, v: nat, n: nat): (r: (nat, Cursor))
    ensures s.pos <= r.1.pos && (s.pos <= |bits| ==> r.1.pos <= |bits|) && (r.1.ok ==> s.ok)
    decreases n
  {
    if n == 0 then (v, s)
    else var (b, s') := Take(bits, s, 1); TakeMore(bits, s', 2 * v + b, n - 1)
  }

  lemma Take8(bits: seq<bit>, s: Cursor)
    ensures Take(bits, s, 8).0 < 256
  {
    if s.pos + 8 <= |bits| {
      ValueBound(bits[s.pos..s.pos + 8]);
      assert Shl(1, 8) == 256;
    }
  }

  function DecodePosition(bits: seq<bit>, s: Cursor): (r: (nat, Cursor))
    ensures r.0 < 4096
    ensures s.pos <= r.1.pos && (s.pos <= |bits| ==> r.1.pos <= |bits|) && (r.1.ok ==> s.ok)
  {
    Take8(bits, s);
    var (i, s1) := Take(bits, s, 8);
    var (w, s2) := TakeMore(bits, s1, i, DLen(i) - 2);
    (64 * DCode(i) + w % 64, s2)
  }

  lemma {:induction false} TakeMoreValue(bits: seq<bit>, s: Cursor, v: nat, n: nat)
    requires s.pos + n <= |bits|
    ensures TakeMore(bits, s, v, n) == (Shl(v, n) + Value(bits[s.pos..s.pos + n]), Cursor(s.pos + n, s.ok))
    decreases n
  {
    hide Value, Shl;
    if n == 0 {
      NoShift(v);
      assert bits[s.pos..s.pos] == [];
      NoBits();
    } else {
      TakeBit(bits, s);
      var b := bits[s.pos];
      TakeMoreValue(bits, Cursor(s.pos + 1, s.ok), 2 * v + b, n - 1);
      var rest := bits[s.pos + 1..s.pos + n];
      assert bits[s.pos..s.pos + n] == [b] + rest;
      ValueConcat([b], rest);
      ShlBit(b);
      ShlFirst(v, n);
      ShlAdd(2 * v, b, n - 1);
    }
  }


  lemma PrefixValue(i: nat)
    requires i < 64
    ensures Shl(Value(PosPrefix(i)), 8 - PLen(i)) == PCode(i)
    ensures Align(PosPrefix(i)) == 256 * PCode(i)
  {
    hide PCode, PLen, Shl, Shr, Value, ToBits, Align;
    var n := PLen(i);
    var p := Shr(PCode(i), 8 - n);
    PrefixShift(i);
    ValueOfBits(p, n);
    AlignValue(PosPrefix(i));
    ValueConcat(PosPrefix(i), Zeros(16 - n));
    ValueZeros(16 - n);
    ShlShl(p, 8 - n, 8);
    Shift8(PCode(i));
  }

  lemma PrefixShift(i: nat)
    requires i < 64
    ensures var p := Shr(PCode(i), 8 - PLen(i)); p < Shl(1, PLen(i)) && Shl(p, 8 - PLen(i)) == PCode(i)
  {
    var n := PLen(i);
    var q := if i < 1 then 0 else if i < 4 then 1 + i else if i < 12 then 6 + i
             else if i < 24 then 24 + i else if i < 48 then 72 + i else 192 + i;
    SmallShifts(q);
    SmallShifts(1);
    assert PCode(i) == Shl(q, 8 - n);
    ShrShl(q, 8 - n);
  }

  lemma SmallShifts(q: nat)
    ensures Shl(q, 0) == q && Shl(q, 1) == 2 * q && Shl(q, 2) == 4 * q && Shl(q, 3) == 8 * q
    ensures Shl(q, 4) == 16 * q && Shl(q, 5) == 32 * q && Shl(q, 6) == 64 * q && Shl(q, 7) == 128 * q
    ensures Shl(q, 8) == 256 * q
  {
    hide Shl;
    NoShift(q);
    ShlLast(q, 1);
    ShlLast(q, 2);
    ShlLast(q, 3);
    ShlLast(q, 4);
    ShlLast(q, 5);
    ShlLast(q, 6);
    ShlLast(q, 7);
    ShlLast(q, 8);
  }

  lemma {:induction false} ShrShl(v: nat, n: nat)
    ensures Shr(Shl(v, n), n) == v
    decreases n
  {
    if n == 0 {
    } else {
      ShlLast(v, n);
      ShrShl(v, n - 1);
    }
  }


  /** The low six bits as a code word for the window. */
  lemma LowAlign(c: nat)
    requires c < 64
    ensures Align(ToBits(c, 6)) == 1024 * c
  {
    assert Shl(1, 6) == 64;
    ValueOfBits(c, 6);
    AlignValue(ToBits(c, 6));
    ValueConcat(ToBits(c, 6), Zeros(10));
    ValueZeros(10);
    Shift10(c);
  }

  lemma Shift10(c: nat)
    ensures Shl(c, 10) == 1024 * c
  {
  }

  /** A byte in the range of a code word hits its table entry. */
  lemma TableInverse(i: nat, v: nat)
    requires i < 64
    requires PCode(i) <= v < PCode(i) + Shl(1, 8 - PLen(i))
    ensures v < 256 && DCode(v) == i && DLen(v) == PLen(i)
  {
    SmallShifts(1);
  }

  /** The first eight bits of a position code lie in the range of its code word. */
  lemma FirstByteRange(n: nat, p: nat, low: nat, v: nat, rest: nat)
    requires 3 <= n <= 8 && low < 64 && rest < Shl(1, n - 2)
    requires Shl(v, n - 2) + rest == 64 * p + low
    ensures Shl(p, 8 - n) <= v < Shl(p, 8 - n) + Shl(1, 8 - n)
  {
    hide Shl;
    SmallShifts(p);
    SmallShifts(v);
    SmallShifts(1);
    assert n == 3 || n == 4 || n == 5 || n == 6 || n == 7 || n == 8;
  }

  /** Reading a position code gives the position back and consumes exactly its bits. */
  lemma DecodePositionCode(c: nat, bits: seq<bit>, s: Cursor)
    requires c < 4096 && StartsAt(bits, s.pos, PosBits(c))
    ensures DecodePosition(bits, s) == (c, Cursor(s.pos + |PosBits(c)|, s.ok))
  {
    hide PCode, PLen, DCode, DLen, ToBits, Shr, Shl, Value, PosBits, PosPrefix, TakeMore;
    var i, low := c / 64, c % 64;
    var n := PLen(i);
    var a, b := bits[s.pos..s.pos + 8], bits[s.pos + 8..s.pos + 6 + n];
    assert a + b == PosBits(c);
    PosCodeValue(c, a, b);
    FirstByteRange(n, Value(PosPrefix(i)), low, Value(a), Value(b));
    PrefixValue(i);
    TableInverse(i, Value(a));
    TakeMoreValue(bits, Cursor(s.pos + 8, s.ok), Value(a), n - 2);
    assert (64 * Value(PosPrefix(i)) + low) % 64 == low;
  }

  lemma PosCodeValue(c: nat, a: seq<bit>, b: seq<bit>)
    requires c < 4096 && a + b == PosBits(c) && |a| == 8
    ensures Shl(Value(a), |b|) + Value(b) == 64 * Value(PosPrefix(c / 64)) + c % 64
    ensures Value(b) < Shl(1, |b|)
  {
    hide PCode, PLen, ToBits, Shr;
    ValueConcat(a, b);
    ValueBound(b);
    LowValue(c % 64);
    ValueConcat(PosPrefix(c / 64), ToBits(c % 64, 6));
    SmallShifts(Value(PosPrefix(c / 64)));
  }

  lemma LowValue(low: nat)
    requires low < 64
    ensures Value(ToBits(low, 6)) == low
  {
    SmallShifts(1);
    ValueOfBits(low, 6);
  }

  lemma TakeMoreOnce(bits: seq<bit>, s: Cursor, v: nat, n: nat)
    requires n > 0
    ensures var (b, e) := Take(bits, s, 1); TakeMore(bits, s, v, n) == TakeMore(bits, e, 2 * v + b, n - 1)
  {
  }

  lemma TakeMoreNone(bits: seq<bit>, s: Cursor, v: nat)
    ensures TakeMore(bits, s, v, 0) == (v, s)
  {
  }

  lemma {:induction false} TakeMoreOk(bits: seq<bit>, s: Cursor, v: nat, n: nat)
    ensures TakeMore(bits, s, v, n).1.ok ==> n == 0 || s.pos + n <= |bits|
    decreases n
  {
    if n == 0 {
    } else {
      TakeMoreOnce(bits, s, v, n);
      var (b, e) := Take(bits, s, 1);
      TakeMoreOk(bits, e, 2 * v + b, n - 1);
    }
  }

  /** Every byte lies in the range of the code word its table entry names. */
  lemma TableForward(v: byte)
    ensures var i := DCode(v); DLen(v) == PLen(i) && PCode(i) <= v < PCode(i) + Shl(1, 8 - PLen(i))
  {
    SmallShifts(1);
  }

  lemma PrefixOfByte(n: nat, p: nat, v: nat, rest: nat)
    requires 3 <= n <= 8 && rest < Shl(1, n - 2) && Shl(p, 8 - n) <= v < Shl(p, 8 - n) + Shl(1, 8 - n)
    ensures (Shl(v, n - 2) + rest) / 64 == p
  {
    hide Shl;
    SmallShifts(p);
    SmallShifts(v);
    SmallShifts(1);
    assert n == 3 || n == 4 || n == 5 || n == 6 || n == 7 || n == 8;
  }

  /** Whatever position is read within the stream, the bits consumed are its code. */
  lemma DecodePositionReads(bits: seq<bit>, s: Cursor)
    requires s.ok && s.pos <= |bits|
    ensures var (p, e) := DecodePosition(bits, s); e.ok ==> bits[s.pos..e.pos] == PosBits(p)
  {
    hide PCode, PLen, DCode, DLen, ToBits, Shr, Shl, Value, PosPrefix, TakeMore;
    Take8(bits, s);
    var (p, e) := DecodePosition(bits, s);
    if e.ok {
      var (i, s1) := Take(bits, s, 8);
      var n := DLen(i);
      TakeMoreOk(bits, s1, i, n - 2);
      TakeMoreStart(bits, s1, i, n - 2);
      TakeMoreValue(bits, s1, i, n - 2);
      var a, b := bits[s.pos..s.pos + 8], bits[s.pos + 8..s.pos + 6 + n];
      assert bits[s.pos..e.pos] == a + b;
      TableForward(i);
      SameCode(a, b, p);
    }
  }

  lemma TakeMoreStart(bits: seq<bit>, s: Cursor, v: nat, n: nat)
    ensures TakeMore(bits, s, v, n).1.ok ==> s.ok
  {
  }

  lemma SameCode(a: seq<bit>, b: seq<bit>, p: nat)
    requires |a| == 8 && Value(a) < 256 && |b| == DLen(Value(a)) - 2
    requires p == 64 * DCode(Value(a)) + (Shl(Value(a), |b|) + Value(b)) % 64
    ensures p < 4096 && a + b == PosBits(p)
  {
    hide PCode, PLen, DCode, DLen, ToBits, Shr, Shl, Value, PosPrefix;
    var v, d := Value(a), DCode(Value(a));
    TableForward(v);
    PrefixValue(d);
    ValueConcat(a, b);
    ValueBound(b);
    PrefixOfByte(PLen(d), Value(PosPrefix(d)), v, Value(b));
    var w := Value(a + b);
    PosValue(p);
    assert w == 64 * (w / 64) + w % 64;
    assert p / 64 == d && p % 64 == w % 64;
    BitsOfValue(a + b);
    BitsOfValue(PosBits(p));
  }

  lemma PosValue(c: nat)
    requires c < 4096
    ensures Value(PosBits(c)) == 64 * Value(PosPrefix(c / 64)) + c % 64
  {
    hide PCode, PLen, ToBits, Shr;
    LowValue(c % 64);
    ValueConcat(PosPrefix(c / 64), ToBits(c % 64, 6));
    SmallShifts(Value(PosPrefix(c / 64)));
  }

  // Which code words they are.

  /** The prefix code is the canonical one: no word is shorter than the one before, and each follows on it. */
  lemma PrefixCanonical(i: nat)
    requires i < 64
    ensures i == 0 ==> PCode(i) == 0
    ensures i < 63 ==> PLen(i) <= PLen(i + 1) && PCode(i + 1) == PCode(i) + Shl(1, 8 - PLen(i))
    ensures i == 63 ==> PCode(i) + Shl(1, 8 - PLen(i)) == 256
  {
    SmallShifts(1);
  }

  /** How many of the first k words have n bits. */
  function Words(n: nat, k: nat): (c: nat)
    requires k <= 64
  {
    if k == 0 then 0 else Words(n, k - 1) + if PLen(k - 1) == n then 1 else 0
  }

  lemma {:induction false} WordsUpTo(k: nat)
    requires k <= 64
    ensures Words(3, k) == (if k < 1 then k else 1)
    ensures Words(4, k) == (if k < 1 then 0 else if k < 4 then k - 1 else 3)
    ensures Words(5, k) == (if k < 4 then 0 else if k < 12 then k - 4 else 8)
    ensures Words(6, k) == (if k < 12 then 0 else if k < 24 then k - 12 else 12)
    ensures Words(7, k) == (if k < 24 then 0 else if k < 48 then k - 24 else 24)
    ensures Words(8, k) == (if k < 48 then 0 else k - 48)
    decreases k
  {
    if k == 0 {
    } else {
      WordsUpTo(k - 1);
    }
  }

  /** There are 1, 3, 8, 12, 24 and 16 words of three to eight bits. */
  lemma PrefixLengths()
    ensures Words(3, 64) == 1 && Words(4, 64) == 3 && Words(5, 64) == 8
    ensures Words(6, 64) == 12 && Words(7, 64) == 24 && Words(8, 64) == 16
  {
    hide Words;
    WordsUpTo(64);
  }

  /** The code word of a position, moved to the top of fourteen bits. */
  function Aligned14(c: nat): (v: nat)
    requires c < 4096
  {
    Shl(Value(PosBits(c)), 14 - |PosBits(c)|)
  }

  lemma AlignedIs(c: nat)
    requires c < 4096
    ensures Aligned14(c) == 64 * PCode(c / 64) + Shl(c % 64, 8 - PLen(c / 64))
  {
    hide PCode, PLen, Shl, Value, ToBits, Shr, PosPrefix;
    var i, l := c / 64, c % 64;
    var n := PLen(i);
    ValueConcat(PosPrefix(i), ToBits(l, 6));
    LowValue(l);
    ShlAdd(Shl(Value(PosPrefix(i)), 6), l, 8 - n);
    ShlSwap(Value(PosPrefix(i)), 6, 8 - n);
    PrefixValue(i);
    SmallShifts(PCode(i));
  }

  lemma ShlSwap(v: nat, a: nat, b: nat)
    ensures Shl(Shl(v, a), b) == Shl(Shl(v, b), a)
  {
    hide Shl;
    ShlShl(v, a, b);
    ShlShl(v, b, a);
  }

  /**
   So is the code of whole positions: the word of each follows on the word before, the first is all zeros and
   the last all ones.
   */
  lemma PositionsCanonical(c: nat)
    requires c < 4096
    ensures c == 0 ==> Aligned14(c) == 0
    ensures c < 4095 ==> |PosBits(c)| <= |PosBits(c + 1)|
    ensures c < 4095 ==> Aligned14(c + 1) == Aligned14(c) + Shl(1, 14 - |PosBits(c)|)
    ensures c == 4095 ==> Aligned14(c) + Shl(1, 14 - |PosBits(c)|) == 16384
  {
    hide PosBits, Aligned14, PCode, PLen, Shl;
    var i, l := c / 64, c % 64;
    PrefixCanonical(i);
    AlignedIs(c);
    SmallShifts(l);
    SmallShifts(1);
    SmallShifts(0);
    WordLengths(i);
    if c < 4095 {
      AlignedIs(c + 1);
      if l < 63 {
        ShlAdd(l, 1, 8 - PLen(i));
        assert (c + 1) / 64 == i && (c + 1) % 64 == l + 1;
      } else {
        assert (c + 1) / 64 == i + 1 && (c + 1) % 64 == 0;
        WordLengths(i + 1);
        ShlAdd(63, 1, 8 - PLen(i));
        SmallShifts(64);
      }
    }
  }

  lemma WordLengths(i: nat)
    requires i < 64
    ensures PLen(i) == 3 || PLen(i) == 4 || PLen(i) == 5 || PLen(i) == 6 || PLen(i) == 7 || PLen(i) == 8
  {
  }
}
