/**
 The output side of the bit stream: codes, left-aligned in a 16-bit window, are packed into bytes;
 the last byte is padded with zeros.  The window holds the first sixteen bits of what is pending, so
 codes longer than that, or put behind a longer backlog, are not sent as they are.
 */
module BitPacker {
  import opened Common
  import opened Bits

  const WORD: nat := 0x1_0000_0000_0000_0000

  /** a | b */
  function Or(a: nat, b: nat): (r: nat) {
    if a == 0 then b else if b == 0 then a
    else 2 * Or(a / 2, b / 2) + if a % 2 == 1 || b % 2 == 1 then 1 else 0
  }

  /** Bytes written, and the window with its count of pending bits. */
  datatype Packer = Packer(out: seq<byte>, putbuf: nat, putlen: nat)

  const EMPTY := Packer([], 0, 0)

  /** Output the first l bits of the left-aligned code c. */
  function PutCode(p: Packer, l: nat, c: nat): (q: Packer) {
    var b := Or(p.putbuf, Shr(c, p.putlen));
    var n := (p.putlen + l) % 256;
    if n < 8 then Packer(p.out, b, n)
    else if n < 16 then Packer(p.out + [b / 256 % 256], Shl(b, 8) % WORD, n - 8)
    else Packer(p.out + [b / 256 % 256] + [b % 256],
                if l >= n - 16 then Shl(c, l - (n - 16)) % WORD else 0, n - 16)
  }

  /** Write the last, partial byte. */
  function PutEnd(p: Packer): (q: seq<byte>) {
    if p.putlen == 0 then p.out else p.out + [p.putbuf / 256 % 256]
  }

  /** The bits accepted but not yet written: those of the window, and zeros behind it. */
  function Tail(p: Packer): (bs: seq<bit>)
    ensures |bs| == p.putlen
  {
    (ToBits(p.putbuf % 65536, 16) + Zeros(p.putlen))[..p.putlen]
  }

  /** Everything accepted so far. */
  function Written(p: Packer): (bs: seq<bit>)
    ensures |bs| == 8 * |p.out| + p.putlen
  {
    BytesBits(p.out) + Tail(p)
  }

  /** The window holds nothing but what is pending. */
  ghost predicate PackOk(p: Packer) {
    p.putbuf % 65536 == Align(Tail(p))
  }

  /** What is left of a code after the 16-bit window: later bits are sent as zeros. */
  function Clipped(code: seq<bit>): (r: seq<bit>)
    ensures |r| == |code|
  {
    if |code| <= 16 then code else code[..16] + Zeros(|code| - 16)
  }

  /** A code as it is sent when n bits are pending: behind more than sixteen, nothing of it is. */
  function SentAs(n: nat, code: seq<bit>): (r: seq<bit>)
    ensures |r| == |code|
  {
    if n <= 16 then Clipped(code) else Zeros(|code|)
  }

  lemma {:induction false} OrDisjoint(h: nat, k: nat, b: nat)
    requires b < Shl(1, k)
    ensures Or(Shl(h, k), b) == Shl(h, k) + b
    decreases k
  {
    if k == 0 {
    } else {
      ShlLast(1, k);
      ShlLast(h, k);
      OrDisjoint(h, k - 1, b / 2);
    }
  }

  /** The window shows the first sixteen bits of a code of any length, padded with zeros. */
  lemma {:induction false} AlignBits(bs: seq<bit>)
    ensures ToBits(Align(bs), 16) == (bs + Zeros(16))[..16]
    decreases |bs|
  {
    if bs == [] {
      ValueZeros(16);
      BitsOfValue(Zeros(16));
      assert bs + Zeros(16) == Zeros(16);
    } else {
      var a := Align(bs[1..]);
      AlignBits(bs[1..]);
      TopBit(bs[0], a / 2);
      assert ToBits(a, 16) == ToBits(a / 2, 15) + [a % 2];
      assert ToBits(a, 16)[..15] == ToBits(a / 2, 15);
      assert (bs + Zeros(16))[..16] == [bs[0]] + (bs[1..] + Zeros(16))[..16][..15];
    }
  }

  /** Codes that agree on their first sixteen bits, with zeros behind them, look the same in the window. */
  lemma SameWindow(a: seq<bit>, b: seq<bit>)
    requires (a + Zeros(16))[..16] == (b + Zeros(16))[..16]
    ensures Align(a) == Align(b)
  {
    hide ToBits, Shl, Align, Zeros;
    AlignBits(a);
    AlignBits(b);
    Shl16();
    ValueOfBits(Align(a), 16);
    ValueOfBits(Align(b), 16);
  }

  /** What is pending is determined by the window and the count, if there is nothing set beyond the sixteenth bit. */
  lemma TailUnique(p: Packer, bs: seq<bit>)
    requires |bs| == p.putlen && p.putbuf % 65536 == Align(bs)
    requires forall i :: 16 <= i < |bs| ==> bs[i] == 0
    ensures PackOk(p) && Tail(p) == bs
  {
    hide ToBits, Align;
    AlignBits(bs);
    var w: seq<bit> := (bs + Zeros(16))[..16];
    assert (w + Zeros(|bs|))[..|bs|] == bs;
  }

  lemma TailClear(p: Packer)
    ensures forall i :: 16 <= i < p.putlen ==> Tail(p)[i] == 0
  {
    hide ToBits;
  }

  /** Merging the code into the window is exact: pending bits and code do not overlap. */
  lemma MergeCode(p: Packer, code: seq<bit>)
    requires PackOk(p) && p.putlen <= 16
    ensures Or(p.putbuf, Shr(Align(code), p.putlen)) % 65536 == Align(Tail(p) + code)
  {
    hide ToBits, Shl, Shr, Align, Value, Or, Tail;
    var n := p.putlen;
    var pend := Tail(p);
    var c := Shr(Align(code), n);
    AlignValue(pend);
    ValueConcat(pend, Zeros(16 - n));
    ValueZeros(16 - n);
    var g := p.putbuf / 65536;
    WordShift(g, n);
    ShlAdd(Shl(g, n), Value(pend), 16 - n);
    ShrBound(Align(code), n);
    OrDisjoint(Shl(g, n) + Value(pend), 16 - n, c);
    AlignConcat(pend, code);
    assert p.putbuf == 65536 * g + p.putbuf % 65536;
    AlignFits(pend + code);
    ModUnique(65536 * g + Align(pend + code), 65536, g, Align(pend + code));
  }

  lemma AlignFits(bs: seq<bit>)
    ensures Align(bs) < 65536
  {
    hide ToBits;
    AlignBits(bs);
  }

  lemma WordShift(g: nat, n: nat)
    requires n <= 16
    ensures Shl(Shl(g, n), 16 - n) == 65536 * g
  {
    hide Shl;
    ShlShl(g, n, 16 - n);
    ShlShl(g, 8, 8);
    Shift8(g);
    Shift8(256 * g);
  }

  lemma {:induction false} ShrBound(v: nat, n: nat)
    requires v < 65536 && n <= 16
    ensures Shr(v, n) < Shl(1, 16 - n)
    decreases n
  {
    if n == 0 {
      Shl16();
    } else {
      ShrBound(v, n - 1);
      ShrLast(v, n);
      ShlLast(1, 17 - n);
    }
  }

  /** Nothing of a 16-bit value is left after sixteen shifts. */
  lemma {:induction false} ShrNothing(v: nat, n: nat)
    requires v < 65536 && n >= 16
    ensures Shr(v, n) == 0
    decreases n
  {
    hide Shr, Shl;
    if n == 16 {
      ShrBound(v, 16);
      ShlNone(1);
    } else {
      ShrNothing(v, n - 1);
      ShrLast(v, n);
    }
  }

  lemma ShlNone(v: nat)
    ensures Shl(v, 0) == v
  {
  }

  lemma WindowOf(b: nat)
    ensures b / 256 % 256 == b % 65536 / 256 && b % 256 == b % 65536 % 256
  {
    var q, w := b / 65536, b % 65536;
    var h, l := w / 256, w % 256;
    assert b == 256 * (256 * q + h) + l;
    assert b / 256 == 256 * q + h;
  }

  lemma WordMod(v: nat)
    ensures v % WORD % 65536 == v % 65536
  {
    var k, w := v / WORD, v % WORD;
    var h, l := w / 65536, w % 65536;
    assert v == WORD * k + w && w == 65536 * h + l;
    ModUnique(v, 65536, 0x1_0000_0000_0000 * k + h, l);
  }

  /** The byte written first carries the first eight bits of the window. */
  lemma FirstByte(q: seq<bit>, b: nat)
    requires 8 <= |q| <= 16 && b % 65536 == Align(q)
    ensures ToBits(b / 256 % 256, 8) == q[..8]
    ensures Shl(b, 8) % WORD % 65536 == Align(q[8..])
  {
    hide ToBits, Align, Shl;
    AlignBytes(q);
    var hi, lo := ToBits(Align(q) / 256, 8), ToBits(Align(q) % 256, 8);
    WindowOf(b);
    assert hi == (hi + lo)[..8] == (q + Zeros(16 - |q|))[..8] == q[..8];
    AlignDrop(q, 8);
    ShlMod(b, 8);
    WordMod(Shl(b, 8));
  }

  lemma BothBytes(q: seq<bit>, b: nat)
    requires |q| >= 16 && b % 65536 == Align(q)
    ensures ToBits(b / 256 % 256, 8) + ToBits(b % 256, 8) == q[..16]
  {
    hide ToBits, Align, Shl;
    SameWindow(q, q[..16]);
    AlignBytes(q[..16]);
    WindowOf(b);
    assert q[..16] + Zeros(0) == q[..16];
  }

  lemma PutOneByte(p: Packer, q: Packer, all: seq<bit>, b: nat)
    requires 8 <= |all| < 16 && b % 65536 == Align(all)
    requires q == Packer(p.out + [b / 256 % 256], Shl(b, 8) % WORD, |all| - 8)
    ensures PackOk(q) && Written(q) == BytesBits(p.out) + all
  {
    hide ToBits, Align, Shl, Tail, BytesBits;
    FirstByte(all, b);
    TailUnique(q, all[8..]);
    BytesBitsSnoc(p.out, b / 256 % 256);
    assert all == all[..8] + all[8..];
    Regroup(BytesBits(p.out), all[..8], all[8..]);
  }

  /** The two bytes written, and what stays. */
  lemma PutTwoBytes(p: Packer, q: Packer, first: seq<bit>, rest: seq<bit>, b: nat)
    requires |first| == 16 && ToBits(b / 256 % 256, 8) + ToBits(b % 256, 8) == first
    requires q.out == p.out + [b / 256 % 256] + [b % 256] && |rest| == q.putlen && q.putbuf % 65536 == Align(rest)
    requires forall i :: 16 <= i < |rest| ==> rest[i] == 0
    ensures PackOk(q) && Written(q) == BytesBits(p.out) + (first + rest)
  {
    hide ToBits, Align, Shl, Tail, BytesBits;
    TailUnique(q, rest);
    var hi, lo := ToBits(b / 256 % 256, 8), ToBits(b % 256, 8);
    BytesBitsSnoc(p.out, b / 256 % 256);
    BytesBitsSnoc(p.out + [b / 256 % 256], b % 256);
    Regroup(BytesBits(p.out), hi, lo);
    Regroup(BytesBits(p.out), first, rest);
  }

  /** What stays of a code of which the first k bits are written. */
  lemma Remainder(code: seq<bit>, k: nat)
    requires k <= 16 && k <= |code|
    ensures Shl(Align(code), k) % WORD % 65536 == Align(Clipped(code)[k..])
    ensures forall i :: 16 <= i < |code| - k ==> Clipped(code)[k..][i] == 0
  {
    hide Align, Shl;
    var head: seq<bit> := if |code| <= 16 then code else code[..16];
    var rest: seq<bit> := Clipped(code)[k..];
    SameWindow(head, code);
    AlignDrop(head, k);
    WordMod(Shl(Align(code), k));
    assert (head[k..] + Zeros(16))[..16] == (rest + Zeros(16))[..16];
    SameWindow(head[k..], rest);
  }

  lemma PutCodeShape(p: Packer, l: nat, c: nat)
    requires p.putlen + l < 256
    ensures var b, n := Or(p.putbuf, Shr(c, p.putlen)), p.putlen + l;
            PutCode(p, l, c) ==
              if n < 8 then Packer(p.out, b, n)
              else if n < 16 then Packer(p.out + [b / 256 % 256], Shl(b, 8) % WORD, n - 8)
              else Packer(p.out + [b / 256 % 256] + [b % 256],
                          if p.putlen <= 16 then Shl(c, 16 - p.putlen) % WORD else 0, n - 16)
  {
    hide Shl, Shr, Or;
  }

  /** Behind up to sixteen pending bits a code goes out with its bits beyond the sixteenth cleared. */
  lemma PutNear(p: Packer, code: seq<bit>)
    requires PackOk(p) && p.putlen <= 16 && p.putlen + |code| < 256
    ensures var q := PutCode(p, |code|, Align(code)); PackOk(q) && Written(q) == Written(p) + Clipped(code)
  {
    hide ToBits, Align, Shl, Shr, Or, Tail, BytesBits, PutCode, PackOk, Clipped;
    var q := PutCode(p, |code|, Align(code));
    PutCodeShape(p, |code|, Align(code));
    var pend := Tail(p);
    var all: seq<bit> := pend + code;
    var b := Or(p.putbuf, Shr(Align(code), p.putlen));
    MergeCode(p, code);
    Regroup(BytesBits(p.out), pend, Clipped(code));
    if |all| < 16 {
      ClippedShort(code);
      if |all| < 8 { TailUnique(q, all); } else { PutOneByte(p, q, all, b); }
    } else {
      var k := 16 - p.putlen;
      BothBytes(all, b);
      Remainder(code, k);
      SplitAt(pend, code, k);
      PutTwoBytes(p, q, all[..16], Clipped(code)[k..], b);
    }
  }

  lemma ClippedShort(code: seq<bit>)
    requires |code| <= 16
    ensures Clipped(code) == code
  {
  }

  lemma SplitAt(pend: seq<bit>, code: seq<bit>, k: nat)
    requires |pend| + k == 16 && k <= |code|
    ensures (pend + code)[..16] + Clipped(code)[k..] == pend + Clipped(code)
  {
  }

  /** Behind more than sixteen pending bits nothing of a code goes out. */
  lemma PutFar(p: Packer, code: seq<bit>)
    requires PackOk(p) && 16 < p.putlen && p.putlen + |code| < 256
    ensures var q := PutCode(p, |code|, Align(code)); PackOk(q) && Written(q) == Written(p) + Zeros(|code|)
  {
    hide ToBits, Align, Shl, Shr, Or, BytesBits, PutCode, Tail;
    var q := PutCode(p, |code|, Align(code));
    PutCodeShape(p, |code|, Align(code));
    ShrNothing(Align(code), p.putlen);
    OrNothing(p.putbuf);
    var pend := Tail(p);
    BothBytes(pend, p.putbuf);
    TailClear(p);
    var rest := Zeros(q.putlen);
    SameWindow(rest, []);
    AlignNothing();
    assert pend[..16] + rest == pend + Zeros(|code|);
    PutTwoBytes(p, q, pend[..16], rest, p.putbuf);
    Regroup(BytesBits(p.out), pend, Zeros(|code|));
  }

  lemma OrNothing(a: nat)
    ensures Or(a, 0) == a
  {
  }

  lemma AlignNothing()
    ensures Align([]) == 0
  {
  }

  /** Whatever is put, as long as the count of pending bits does not overflow. */
  lemma PutSends(p: Packer, code: seq<bit>)
    requires PackOk(p) && p.putlen + |code| < 256
    ensures var q := PutCode(p, |code|, Align(code)); PackOk(q) && Written(q) == Written(p) + SentAs(p.putlen, code)
  {
    hide PackOk, PutCode, Written, Align, Clipped, Zeros;
    if p.putlen <= 16 { PutNear(p, code); } else { PutFar(p, code); }
  }

  /** The end writes one byte: up to eight pending bits are padded with zeros, and more are cut off. */
  lemma PutEndCuts(p: Packer)
    requires PackOk(p)
    ensures BytesBits(PutEnd(p)) ==
            if p.putlen <= 8 then Written(p) + Zeros((8 - p.putlen) % 8) else Written(p)[..8 * |p.out| + 8]
  {
    hide ToBits, Align, BytesBits, Tail;
    var pend := Tail(p);
    if p.putlen == 0 {
      assert Written(p) + Zeros(0) == BytesBits(p.out);
    } else {
      EndByte(p);
      BytesBitsSnoc(p.out, p.putbuf / 256 % 256);
      Regroup(BytesBits(p.out), pend, Zeros((8 - p.putlen) % 8));
    }
  }

  lemma EndByte(p: Packer)
    requires PackOk(p) && p.putlen > 0
    ensures ToBits(p.putbuf / 256 % 256, 8) ==
            if p.putlen <= 8 then Tail(p) + Zeros((8 - p.putlen) % 8) else Tail(p)[..8]
  {
    hide ToBits, Align, Tail;
    var pend := Tail(p);
    var w: seq<bit> := (pend + Zeros(16))[..16];
    SameWindow(w, pend);
    AlignBytes(w);
    var hi, lo := ToBits(Align(w) / 256, 8), ToBits(Align(w) % 256, 8);
    WindowOf(p.putbuf);
    assert hi == (hi + lo)[..8] == (w + Zeros(0))[..8] == w[..8];
  }
}
