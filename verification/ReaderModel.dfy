/**
 The decompressor as a function on states: one symbol at a time, a literal goes to the output
 and the ring, a copy repeats ring bytes one by one.  It is total on arbitrary bit strings.
 */
module ReaderModel {
  import opened Bits
  import opened HT = HuffmanTree
  import HB = HuffmanRebuild
  import opened HuffmanCode
  import opened PositionCode
  import Tokens

  const RING: nat := 2048
  const TEXT: nat := 2107
  const START: nat := 1422

  datatype State = State(tree: Tree, cur: Cursor, text: seq<byte>, r: nat, pos: int)

  ghost predicate Ok(bits: seq<bit>, st: State) {
    Inv(st.tree) && st.cur.pos <= |bits| && |st.text| == TEXT && st.r < RING
  }

  /** Copy k bytes to slot r on from slot i on; later bytes may read earlier copies. */
  function CopyRing(text: seq<byte>, r: nat, i: nat, k: nat): (x: (seq<byte>, seq<byte>))
    requires |text| == TEXT
    ensures |x.0| == TEXT && |x.1| == k
    decreases k
  {
    if k == 0 then (text, [])
    else
      var (u, out) := CopyRing(text, r, i, k - 1);
      var b := u[(i + k - 1) % RING];
      (u[(r + k - 1) % RING := b], out + [b])
  }

  /** A 32-bit counter stepped n times. */
  function Steps32(pos: int, n: nat): (r: int) {
    if n == 0 then pos
    else var p := Steps32(pos, n - 1); if p == 0x7fff_ffff then -0x8000_0000 else p + 1
  }

  /** A count as the 32-bit counter holds it. */
  function Wrap32(n: nat): (v: int)
    ensures -0x8000_0000 <= v < 0x8000_0000
  {
    (n + 0x8000_0000) % 0x1_0000_0000 - 0x8000_0000
  }

  lemma WrapSmall(n: nat)
    requires n <= 0x7fff_ffff
    ensures Wrap32(n) == n
  {
  }

  lemma WrapNext(n: nat)
    ensures Wrap32(n + 1) == if Wrap32(n) == 0x7fff_ffff then -0x8000_0000 else Wrap32(n) + 1
  {
  }

  lemma {:induction false} StepsWrap(n: nat, k: nat)
    ensures Steps32(Wrap32(n), k) == Wrap32(n + k)
    decreases k
  {
    hide Wrap32;
    if k == 0 {
    } else {
      StepsWrap(n, k - 1);
      WrapNext(n + k - 1);
    }
  }

  /** Store one byte and move on. */
  function PutByte(st: State, b: byte): (u: State)
    requires |st.text| == TEXT && st.r < RING
  {
    State(st.tree, st.cur, st.text[st.r := b], (st.r + 1) % RING, Steps32(st.pos, 1))
  }

  /** Copy n bytes from p + 1 back. */
  function PutCopy(st: State, p: nat, n: nat): (x: (State, seq<byte>))
    requires |st.text| == TEXT
  {
    var (text, out) := CopyRing(st.text, st.r, (st.r - p - 1) % RING, n);
    (State(st.tree, st.cur, text, (st.r + n) % RING, Steps32(st.pos, n)), out)
  }

  /** Decode one symbol and what belongs to it. */
  function Step(bits: seq<bit>, st: State): (x: (State, seq<byte>))
    requires Ok(bits, st)
    ensures Ok(bits, x.0)
    ensures x.0.cur.ok ==> st.cur.ok && x.0.cur.pos > st.cur.pos
  {
    DecodeProgress(st.tree, bits, st.cur);
    var (c, cur) := DecodeChar(st.tree, bits, st.cur);
    var after := st.(tree := HB.Update(st.tree, c), cur := cur);
    if c < 256 then
      (PutByte(after, c), [c])
    else
      var (p, cur') := DecodePosition(bits, cur);
      PutCopy(after.(cur := cur'), p, c - 255 + 2)
  }

  /** The state after the symbol, and what the symbol then does. */
  lemma StepOnce(bits: seq<bit>, st: State)
    requires Ok(bits, st)
    ensures var (c, cur) := DecodeChar(st.tree, bits, st.cur);
            var after := st.(tree := HB.Update(st.tree, c), cur := cur);
            && Ok(bits, after)
            && (c < 256 ==> Step(bits, st) == (PutByte(after, c), [c]))
            && (c >= 256 ==> var (p, cur') := DecodePosition(bits, cur);
                             Step(bits, st) == PutCopy(after.(cur := cur'), p, c - 255 + 2))
  {
    hide DecodeChar, DecodePosition, PutByte, PutCopy, HB.Update, Inv;
  }

  /** A symbol takes at least one bit. */
  lemma DecodeProgress(t: Tree, bits: seq<bit>, s: Cursor)
    requires Balanced(t, T)
    ensures DecodeChar(t, bits, s).1.ok ==> DecodeChar(t, bits, s).1.pos > s.pos
  {
    RootChildren(t, T);
    assert SonOk(t, ROOT);
  }

  /** Decode until the announced size is reached or the bits run out. */
  function Run(bits: seq<bit>, size: int, st: State): (x: (State, seq<byte>))
    requires Ok(bits, st)
    ensures Ok(bits, x.0)
    decreases if st.cur.ok then 1 else 0, |bits| - st.cur.pos
  {
    if !st.cur.ok || st.pos >= size then (st, [])
    else
      var (u, out) := Step(bits, st);
      var (v, rest) := Run(bits, size, u);
      (v, out + rest)
  }

  function FreshReader(t: Tree): State { State(t, Cursor(0, true), Tokens.FreshText(), START, 0) }

  lemma CopyNone(st: State, p: nat)
    requires |st.text| == TEXT && st.r < RING
    ensures PutCopy(st, p, 0) == (st, [])
  {
  }

  /** A copy, byte by byte. */
  lemma CopyOnce(st: State, p: nat, m: nat)
    requires |st.text| == TEXT && st.r < RING
    ensures var (u, o) := PutCopy(st, p, m);
            && |u.text| == TEXT && u.r < RING
            && var c := u.text[((st.r - p - 1) % RING + m) % RING];
               PutCopy(st, p, m + 1) == (PutByte(u, c), o + [c])
  {
    hide Steps32, CopyRing;
    RingNext(st.r, m);
    Steps32Next(st.pos, m);
    CopyRingNext(st.text, st.r, (st.r - p - 1) % RING, m);
  }

  lemma Steps32Next(pos: int, m: nat)
    ensures Steps32(Steps32(pos, m), 1) == Steps32(pos, m + 1)
  {
  }

  lemma CopyRingNext(text: seq<byte>, r: nat, i: nat, m: nat)
    requires |text| == TEXT
    ensures var (u, o) := CopyRing(text, r, i, m);
            && |u| == TEXT
            && var b := u[(i + m) % RING]; CopyRing(text, r, i, m + 1) == (u[(r + m) % RING := b], o + [b])
  {
  }

  lemma RingNext(r: nat, m: nat)
    ensures ((r + m) % RING + 1) % RING == (r + m + 1) % RING
  {
  }

  lemma RunOnce(bits: seq<bit>, size: int, st: State)
    requires Ok(bits, st) && st.cur.ok && st.pos < size
    ensures var (u, out) := Step(bits, st);
            Run(bits, size, st) == (Run(bits, size, u).0, out + Run(bits, size, u).1)
  {
  }

  lemma RunStops(bits: seq<bit>, size: int, st: State)
    requires Ok(bits, st)
    ensures !st.cur.ok || st.pos >= size ==> Run(bits, size, st) == (st, [])
  {
  }

  lemma StepDelivers(bits: seq<bit>, st: State)
    requires Ok(bits, st)
    ensures |Step(bits, st).1| >= 1
  {
    hide Inv, DecodeChar, DecodePosition, HB.Update;
  }

  /** A run without error started without error; a run without output stays where it is. */
  lemma {:induction false} RunFacts(bits: seq<bit>, size: int, st: State)
    requires Ok(bits, st)
    ensures Run(bits, size, st).0.cur.ok ==> st.cur.ok
    ensures Run(bits, size, st).1 == [] ==> Run(bits, size, st).0 == st && (!st.cur.ok || st.pos >= size)
    decreases if st.cur.ok then 1 else 0, |bits| - st.cur.pos
  {
    hide Inv, Step;
    if st.cur.ok && st.pos < size {
      StepDelivers(bits, st);
    }
  }

  /** A round hands out one to sixty bytes and counts them. */
  lemma StepCounts(bits: seq<bit>, st: State)
    requires Ok(bits, st)
    ensures var (u, out) := Step(bits, st); 1 <= |out| <= 60 && u.pos == Steps32(st.pos, |out|)
  {
    hide DecodeChar, DecodePosition, HB.Update, Inv, CopyRing;
    StepOnce(bits, st);
  }

  lemma {:induction false} Steps32Plain(pos: int, n: nat)
    requires 0 <= pos && pos + n <= 0x7fff_ffff
    ensures Steps32(pos, n) == pos + n
    decreases n
  {
    if n == 0 {
    } else {
      Steps32Plain(pos, n - 1);
    }
  }

  /** No more than sixty bytes beyond the announced size are handed out. */
  lemma {:induction false} RunLength(bits: seq<bit>, size: int, st: State)
    requires Ok(bits, st) && 0 <= st.pos && size <= 0x7fff_ffff - 60
    ensures |Run(bits, size, st).1| <= if st.pos < size then size - st.pos + 59 else 0
    decreases if st.cur.ok then 1 else 0, |bits| - st.cur.pos
  {
    hide Step, Inv, Run;
    RunStops(bits, size, st);
    if st.cur.ok && st.pos < size {
      RunOnce(bits, size, st);
      StepCounts(bits, st);
      var (u, out) := Step(bits, st);
      Steps32Plain(st.pos, |out|);
      RunLength(bits, size, u);
    }
  }
}
