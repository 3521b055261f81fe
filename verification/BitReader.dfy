/**
 The input side of the bit stream: a byte source that feeds the checksum as it reads ahead, and a bit reader on
 top.
 */
module BitReader {
  import opened Bits
  import opened BitPacker
  import opened Crc
  import opened HuffmanCode

  /** A buffered byte reader over a stream; whatever it fetches is also written to the checksum. */
  class ByteSource {
    const data: seq<byte>
    const crcw: CrcWriter
    var at: nat
    var fetched: nat

    constructor (data: seq<byte>, crcw: CrcWriter)
      ensures this.data == data && this.crcw == crcw && at == fetched == 0
    {
      this.data, this.crcw, at, fetched := data, crcw, 0, 0;
    }

    ghost predicate Valid()
      reads this
    {
      at <= fetched <= |data|
    }

    /** The next byte, or none at the end of the stream. */
    method ReadByte() returns (ok: bool, b: byte)
      requires Valid()
      modifies this, crcw
      ensures Valid()
      ensures ok == (old(at) < |data|)
      ensures ok ==> b == data[old(at)] && at == old(at) + 1
      ensures !ok ==> at == old(at)
      ensures old(fetched) <= fetched && crcw.sum == Running(old(crcw.sum), data[old(fetched)..fetched])
    {
      hide Update;
      if at == fetched {
        var n := if |data| - fetched < 4096 then |data| - fetched else 4096;
        var _ := crcw.Write(data[fetched..fetched + n]);
        fetched := fetched + n;
      } else {
        RunningNothing(crcw.sum);
        assert data[fetched..fetched] == [];
      }
      if at == fetched {
        return false, 0;
      }
      ok, b := true, data[at];
      at := at + 1;
    }
  }

  lemma RunningNothing(s: sum16)
    ensures Running(s, []) == s
  {
  }

  lemma {:induction false} ValueToBits(v: nat, k: nat)
    ensures Value(ToBits(v, k)) == v % Shl(1, k)
    decreases k
  {
    if k == 0 {
    } else {
      ValueToBits(v / 2, k - 1);
      ShlLast(1, k);
      assert ToBits(v, k)[..k - 1] == ToBits(v / 2, k - 1);
      HalfMod(v, Shl(1, k - 1));
    }
  }

  lemma HalfMod(v: nat, m: nat)
    requires m >= 1
    ensures v % (2 * m) == 2 * (v / 2 % m) + v % 2
  {
    var q, r := v / 2 / m, v / 2 % m;
    assert v / 2 == m * q + r;
    assert v == 2 * (m * q + r) + v % 2;
    assert v == (2 * m) * q + (2 * r + v % 2);
    ModUnique(v, 2 * m, q, 2 * r + v % 2);
  }

  /** Of the bits at hand, the 64-bit register holds the last 64. */
  function Kept(bits: nat): (m: nat)
    ensures m <= 64
  {
    if bits < 64 then bits else 64
  }

  /** The register holds the bits fetched but not yet handed out. */
  ghost predicate Holds(data: seq<byte>, at: nat, n: nat, bits: nat) {
    && at <= |data| && bits <= 8 * at && n < WORD
    && ToBits(n, Kept(bits)) == BytesBits(data)[8 * at - Kept(bits)..8 * at]
  }

  lemma HoldsNext(data: seq<byte>, at: nat, n: nat, bits: nat)
    requires Holds(data, at, n, bits) && at < |data| && bits < 64
    ensures Holds(data, at + 1, (Shl(n, 8) % WORD) + data[at], bits + 8)
  {
    hide ToBits, BytesBits, Shl;
    var k := Kept(bits + 8) - 8;
    var all := BytesBits(data);
    LastBits(n, bits, k);
    assert all[8 * at - bits..8 * at][bits - k..] == all[8 * at - k..8 * at];
    Append8(n, data[at], k);
    BytesAt(data, at);
    assert all[8 * at - k..8 * at + 8] == all[8 * at - k..8 * at] + all[8 * at..8 * at + 8];
    WordRoom(n, data[at]);
  }

  lemma LastBits(n: nat, bits: nat, k: nat)
    requires k <= bits
    ensures ToBits(n, bits)[bits - k..] == ToBits(n, k)
  {
    hide ToBits, Shr;
    ToBitsSplit(n, bits - k, k);
  }

  lemma WordRoom(n: nat, b: byte)
    ensures (Shl(n, 8) % WORD) + b < WORD
  {
    hide Shl;
    Shift8(n);
    var m: nat := 0x100_0000_0000_0000;
    var q, r := n / m, n % m;
    assert n == m * q + r;
    ModUnique(256 * n, WORD, q, 256 * r);
  }

  lemma {:induction false} BytesAt(data: seq<byte>, at: nat)
    requires at < |data|
    ensures BytesBits(data)[8 * at..8 * at + 8] == ToBits(data[at], 8)
    decreases |data|
  {
    hide ToBits;
    var n := |data| - 1;
    var head := BytesBits(data[..n]);
    if at < n {
      BytesAt(data[..n], at);
      assert (head + ToBits(data[n], 8))[8 * at..8 * at + 8] == head[8 * at..8 * at + 8];
    } else {
      assert (head + ToBits(data[n], 8))[8 * n..8 * n + 8] == ToBits(data[n], 8);
    }
  }

  /** Shifting in a byte appends its bits, whatever falls off the 64-bit word. */
  lemma Append8(n: nat, b: byte, bits: nat)
    requires bits <= 56
    ensures ToBits((Shl(n, 8) % WORD) + b, bits + 8) == ToBits(n, bits) + ToBits(b, 8)
  {
    hide ToBits, Shl, Shr;
    var v := Shl(n, 8);
    var h := v / WORD;
    Shift8(n);
    WordIsShl(h, bits + 8);
    var low := v % WORD + b;
    assert v + b == low + WORD * h;
    ToBitsHigh(low, Shl(h, 56 - bits), bits + 8);
    ToBitsSplit(v + b, bits, 8);
    Shift8(v + b);
    ToBitsHigh(b, n, 8);
    assert (v + b) / 256 == n;
  }

  lemma WordIsShl(h: nat, m: nat)
    requires m <= 64
    ensures Shl(Shl(h, 64 - m), m) == WORD * h
  {
    hide Shl;
    ShlShl(h, 64 - m, m);
    ShlShl(h, 32, 32);
    Shift32(h);
    Shift32(0x1_0000_0000 * h);
  }

  lemma Shift32(h: nat)
    ensures Shl(h, 32) == 0x1_0000_0000 * h
  {
    hide Shl;
    ShlShl(h, 16, 16);
    Shift16(h);
    Shift16(65536 * h);
  }

  lemma Shift16(h: nat)
    ensures Shl(h, 16) == 65536 * h
  {
    hide Shl;
    ShlShl(h, 8, 8);
    Shift8(h);
    Shift8(256 * h);
  }

  lemma HoldsTake(data: seq<byte>, at: nat, n: nat, bits: nat, k: nat)
    requires Holds(data, at, n, bits) && bits - 64 <= k <= bits
    ensures Holds(data, at, n, bits - k)
    ensures Shr(n, bits - k) % Shl(1, k) == Value(BytesBits(data)[8 * at - Kept(bits)..8 * at - (bits - k)])
  {
    hide ToBits, BytesBits, Shl, Shr;
    var m, left := Kept(bits), bits - k;
    var all := BytesBits(data)[8 * at - m..8 * at];
    LastBits(n, m, left);
    assert all[m - left..] == BytesBits(data)[8 * at - left..8 * at];
    ToBitsSplit(n, m - left, left);
    var hi, lo := ToBits(Shr(n, left), m - left), ToBits(n, left);
    assert (hi + lo)[..m - left] == hi;
    assert all[..m - left] == BytesBits(data)[8 * at - m..8 * at - left];
    ValueToBits(Shr(n, left), m - left);
    if m < bits { WideMod(n, left, k); }
  }

  /** With more than 64 bits at hand, what is left of the register after the shift fits the mask. */
  lemma WideMod(n: nat, left: nat, k: nat)
    requires n < WORD && left <= 64 < left + k
    ensures Shr(n, left) % Shl(1, k) == Shr(n, left) % Shl(1, 64 - left)
  {
    hide Shl, Shr;
    ShrFits(n, left);
    ShlGrows(64 - left, k);
    SmallMod(Shr(n, left), Shl(1, k));
    SmallMod(Shr(n, left), Shl(1, 64 - left));
  }

  lemma SmallMod(x: nat, m: nat)
    requires x < m
    ensures x % m == x
  {
  }

  lemma {:induction false} ShrFits(n: nat, left: nat)
    requires n < WORD && left <= 64
    ensures Shr(n, left) < Shl(1, 64 - left)
    decreases left
  {
    hide Shl, Shr;
    if left == 0 {
      WordIsShl(1, 64);
      NoShift(n);
      NoShift(1);
    } else {
      ShrFits(n, left - 1);
      ShrLast(n, left);
      ShlLast(1, 65 - left);
    }
  }

  lemma {:induction false} ShlGrows(a: nat, b: nat)
    requires a <= b
    ensures Shl(1, a) <= Shl(1, b)
    decreases b
  {
    if a >= b {
    } else {
      ShlGrows(a, b - 1);
      ShlLast(1, b);
    }
  }

  /** The bits at hand once there are k. */
  function Filled(bits: nat, k: nat): (f: nat)
    ensures k <= f && (f == bits || f < k + 8)
    decreases k - bits
  {
    if k <= bits then bits else Filled(bits + 8, k)
  }

  /** Reads numbers of any width off a byte source; an error is remembered. */
  class Reader {
    const r: ByteSource
    var n: nat
    var bits: nat
    var err: bool

    constructor (r: ByteSource)
      requires r.Valid()
      ensures this.r == r && n == bits == 0 && !err
    {
      this.r, n, bits, err := r, 0, 0, false;
    }

    ghost predicate Valid()
      reads this, r
    {
      r.Valid() && Holds(r.data, r.at, n, bits) && bits < 64
    }

    ghost function Pos(): (c: Cursor)
      reads this, r
      requires Valid()
    {
      Cursor(8 * r.at - bits, !err)
    }

    /**
     The next k bits as a number, 0 if there are not that many left.  A read of more than 56 bits loses its
     first bits if more than 64 had to be at hand for it.
     */
    method ReadBits64(k: nat) returns (v: nat)
      requires Valid() && k <= 64
      modifies this, r, r.crcw
      ensures Valid()
      ensures var all, c, f := BytesBits(r.data), old(Pos()), Filled(old(bits), k);
              && Pos() == Take(all, c, k).1
              && v == if c.pos + k > |all| then 0 else Value(all[c.pos + f - Kept(f)..c.pos + k])
      ensures k <= 56 ==> (v, Pos()) == Take(BytesBits(r.data), old(Pos()), k)
      ensures old(r.fetched) <= r.fetched
      ensures r.crcw.sum == Running(old(r.crcw.sum), r.data[old(r.fetched)..r.fetched])
    {
      hide BytesBits, Shl, Shr, Update, Holds, Value, Running, Filled;
      Refill(k);
      HoldsRange(r.data, r.at, n, bits);
      if k > bits {
        err := true;
        return 0;
      }
      HoldsTake(r.data, r.at, n, bits, k);
      v := Shr(n, bits - k) % Shl(1, k);
      bits := bits - k;
    }

    /** Take in bytes until k bits are at hand or there are no more. */
    method Refill(k: nat)
      requires Valid() && k <= 64
      modifies this, r, r.crcw
      ensures r.Valid() && Holds(r.data, r.at, n, bits) && 8 * r.at - bits == old(8 * r.at - bits) && err == old(err)
      ensures k > bits ==> r.at == |r.data|
      ensures k <= bits ==> bits == Filled(old(bits), k)
      ensures bits < 64 || k <= bits
      ensures old(r.fetched) <= r.fetched
      ensures r.crcw.sum == Running(old(r.crcw.sum), r.data[old(r.fetched)..r.fetched])
    {
      hide ToBits, BytesBits, Shl, Shr, Holds, Value, Running;
      ghost var c, b0 := Pos(), bits;
      RunningNothing(r.crcw.sum);
      assert r.data[r.fetched..r.fetched] == [];
      HoldsRange(r.data, r.at, n, bits);
      while k > bits
        invariant r.Valid() && Holds(r.data, r.at, n, bits) && 8 * r.at - bits == c.pos && err == !c.ok
        invariant Filled(bits, k) == Filled(b0, k)
        invariant old(r.fetched) <= r.fetched
        invariant r.crcw.sum == Running(old(r.crcw.sum), r.data[old(r.fetched)..r.fetched])
        decreases |r.data| - r.at
      {
        HoldsRange(r.data, r.at, n, bits);
        ghost var f, s := r.fetched, r.crcw.sum;
        ghost var a := r.at;
        var ok, b := r.ReadByte();
        RunningOn(r.data, old(r.crcw.sum), old(r.fetched), f, r.fetched);
        if !ok {
          return;
        }
        HoldsNext(r.data, a, n, bits);
        n := (Shl(n, 8) % WORD) + b;
        bits := bits + 8;
      }
    }
  }

  lemma RunningOn(data: seq<byte>, s: sum16, a: nat, b: nat, c: nat)
    requires a <= b <= c <= |data|
    ensures Running(s, data[a..c]) == Running(Running(s, data[a..b]), data[b..c])
  {
    hide Running;
    RunningConcat(s, data[a..b], data[b..c]);
    assert data[a..b] + data[b..c] == data[a..c];
  }

  lemma HoldsRange(data: seq<byte>, at: nat, n: nat, bits: nat)
    requires Holds(data, at, n, bits)
    ensures at <= |data| && bits <= 8 * at
  {
  }

  lemma HoldsStart(data: seq<byte>)
    ensures Holds(data, 0, 0, 0)
  {
    assert BytesBits(data)[0..0] == [];
  }
}
