/**
 The reader undoes the writer: run on the bit stream of tokens that tile x, it outputs x,
 consumes exactly the stream and stops at the announced size.
 */
module ReaderCorrect {
  import opened Bits
  import opened Common
  import HT = HuffmanTree
  import HB = HuffmanRebuild
  import opened HuffmanCode
  import opened PositionCode
  import opened Tokens
  import opened ReaderModel

  /** Where the reader keeps text position j. */
  function RSlot(j: int): (s: nat)
    ensures s < RING
  {
    (START + j) % RING
  }

  lemma RSlotsDiffer(j: int, k: int)
    requires 0 < k - j < RING
    ensures RSlot(j) != RSlot(k)
  {
    var a, b := (START + j) / RING, (START + k) / RING;
    assert START + j == RING * a + RSlot(j);
    assert START + k == RING * b + RSlot(k);
    assert RSlot(j) == RSlot(k) ==> RING * (b - a) == k - j;
  }

  ghost predicate RingHolds(text: seq<byte>, out: seq<byte>, j: int)
    requires |text| == TEXT && j < |out|
  {
    text[RSlot(j)] == Hist(out, j)
  }

  /** The ring holds the last bytes of sixty spaces followed by the output. */
  ghost predicate RingOk(text: seq<byte>, out: seq<byte>) {
    && |text| == TEXT
    && forall j: int {:trigger RingHolds(text, out, j)} ::
         -60 <= j < |out| && |out| - RING <= j ==> RingHolds(text, out, j)
  }

  lemma RingPush(text: seq<byte>, out: seq<byte>, b: byte)
    requires RingOk(text, out)
    ensures RingOk(text[RSlot(|out|) := b], out + [b])
  {
    var u, y := text[RSlot(|out|) := b], out + [b];
    forall j: int | -60 <= j < |y| && |y| - RING <= j
      ensures RingHolds(u, y, j)
    {
      if j < |out| {
        assert RingHolds(text, out, j);
        RSlotsDiffer(j, |out|);
      }
    }
  }

  lemma FreshRing()
    ensures RingOk(FreshText(), [])
  {
    forall j: int | -60 <= j < 0 ensures RingHolds(FreshText(), [], j) { }
  }

  lemma RSlotAdd(j: int, k: nat)
    ensures (RSlot(j) + k) % RING == RSlot(j + k)
  {
    var a := (START + j) / RING;
    assert START + j == RING * a + RSlot(j);
    ModAdd(RSlot(j) + k, a);
  }

  lemma ModAdd(v: int, a: int)
    ensures (RING * a + v) % RING == v % RING
  {
    var q := v / RING;
    assert RING * a + v == RING * (a + q) + v % RING;
  }

  lemma SourceSlot(pos: nat, p: nat)
    ensures (RSlot(pos) - p - 1) % RING == RSlot(pos - (p + 1))
  {
    var a := (START + pos) / RING;
    assert START + pos == RING * a + RSlot(pos);
    ModAdd(RSlot(pos) - p - 1, a);
  }

  lemma CopyByte(text: seq<byte>, out: seq<byte>, dist: nat)
    requires RingOk(text, out) && 1 <= dist <= |out| + 60 && dist < RING
    ensures |text| == TEXT
    ensures var b := text[RSlot(|out| - dist)];
            b == Hist(out, |out| - dist) && RingOk(text[RSlot(|out|) := b], out + [b])
  {
    hide RSlot;
    RingReads(text, out, |out| - dist);
    RingPush(text, out, text[RSlot(|out| - dist)]);
  }

  lemma AppendOne(out: seq<byte>, o: seq<byte>, b: byte)
    ensures out + (o + [b]) == out + o + [b]
  {
  }

  lemma CopyRingLast(text: seq<byte>, out: seq<byte>, dist: nat, k: nat)
    requires |text| == TEXT && k > 0
    ensures var c := CopyRing(text, RSlot(|out|), RSlot(|out| - dist), k - 1);
            var b := c.0[RSlot(|out| - dist + k - 1)];
            CopyRing(text, RSlot(|out|), RSlot(|out| - dist), k) == (c.0[RSlot(|out| + k - 1) := b], c.1 + [b])
  {
    hide RSlot, CopyRing;
    RSlotAdd(|out| - dist, k - 1);
    RSlotAdd(|out|, k - 1);
    CopyRingNext(text, RSlot(|out|), RSlot(|out| - dist), k - 1);
  }

  lemma CopyBytesLast(out: seq<byte>, dist: nat, k: nat)
    requires dist >= 1 && k > 0
    ensures var y := CopyBytes(out, dist, k - 1);
            |y| == |out| + k - 1 && CopyBytes(out, dist, k) == y + [Hist(y, |y| - dist)]
    ensures CopyBytes(out, dist, 0) == out
  {
    hide Hist;
  }

  /** Copying in the ring appends the copied bytes to the output. */
  lemma {:induction false} CopyRingSound(text: seq<byte>, out: seq<byte>, dist: nat, k: nat)
    requires RingOk(text, out) && 1 <= dist <= |out| + 60 && dist < RING
    ensures |text| == TEXT
    ensures var (u, o) := CopyRing(text, RSlot(|out|), RSlot(|out| - dist), k);
            out + o == CopyBytes(out, dist, k) && RingOk(u, CopyBytes(out, dist, k))
    decreases k
  {
    hide RingOk, RSlot, Hist, CopyBytes;
    RingLen(text, out);
    if k == 0 {
      CopyBytesLast(out, dist, 1);
      assert out + [] == out;
    } else {
      hide CopyRing;
      CopyRingSound(text, out, dist, k - 1);
      var c := CopyRing(text, RSlot(|out|), RSlot(|out| - dist), k - 1);
      var y := CopyBytes(out, dist, k - 1);
      CopyRingLast(text, out, dist, k);
      CopyBytesLast(out, dist, k);
      CopyByte(c.0, y, dist);
      AppendOne(out, c.1, c.0[RSlot(|y| - dist)]);
    }
  }

  lemma RingReads(text: seq<byte>, out: seq<byte>, j: int)
    requires RingOk(text, out) && -60 <= j < |out| && |out| - RING <= j
    ensures |text| == TEXT && text[RSlot(j)] == Hist(out, j)
  {
    assert RingHolds(text, out, j);
  }

  /** The reader after output `out`, at bit `at`. */
  ghost predicate At(st: State, t: HT.Tree, at: nat, out: seq<byte>) {
    && st.tree == t && st.cur == Cursor(at, true)
    && RingOk(st.text, out) && st.r == RSlot(|out|) && st.pos == Wrap32(|out|)
  }

  /** What a token appends. */
  function ExpandOne(out: seq<byte>, k: Token): (r: seq<byte>)
    requires TokenOk(k)
  {
    match k case Literal(b) => out + [b] case Copy(dist, len) => CopyBytes(out, dist, len)
  }

  function Width(k: Token): nat { match k case Literal(_) => 1 case Copy(_, len) => len }

  /** The token k comes next in the bits. */
  ghost predicate Next(bits: seq<bit>, st: State, t: HT.Tree, at: nat, out: seq<byte>, k: Token) {
    && HT.Inv(t) && TokenOk(k) && At(st, t, at, out) && at <= |bits|
    && StartsAt(bits, at, TokenBits(t, k))
    && (k.Copy? ==> k.dist <= |out| + 60)
  }

  lemma NextSymbol(bits: seq<bit>, st: State, t: HT.Tree, at: nat, out: seq<byte>, k: Token)
    requires Next(bits, st, t, at, out, k)
    ensures Ok(bits, st)
    ensures DecodeChar(t, bits, st.cur) == (Symbol(k), Cursor(at + |Code(t, Symbol(k))|, true))
    ensures k.Copy?
            ==> DecodePosition(bits, Cursor(at + |Code(t, Symbol(k))|, true)) ==
                (k.dist - 1, Cursor(at + |TokenBits(t, k)|, true))
  {
    hide HT.Balanced, RingOk, Code, PosBits, DecodeChar, DecodePosition;
    RingLen(st.text, out);
    var code, all := Code(t, Symbol(k)), TokenBits(t, k);
    assert bits[at..at + |code|] == bits[at..at + |all|][..|code|] == code;
    DecodeCode(t, Symbol(k), bits, st.cur);
    if k.Copy? {
      var p := PosBits(k.dist - 1);
      var mid := Cursor(at + |code|, true);
      assert bits[mid.pos..mid.pos + |p|] == bits[at..at + |all|][|code|..] == p;
      DecodePositionCode(k.dist - 1, bits, mid);
    }
  }

  lemma StepCopy(st: State, out: seq<byte>, dist: nat, len: nat)
    requires RingOk(st.text, out) && st.r == RSlot(|out|) && st.pos == Wrap32(|out|)
    requires 1 <= dist <= |out| + 60 && dist < RING
    ensures |st.text| == TEXT
    ensures var (u, o) := CopyRing(st.text, st.r, (st.r - (dist - 1) - 1) % RING, len);
            && out + o == CopyBytes(out, dist, len) && RingOk(u, CopyBytes(out, dist, len))
            && (st.r + len) % RING == RSlot(|out| + len) && Steps32(st.pos, len) == Wrap32(|out| + len)
  {
    hide RingOk, RSlot, CopyRing, CopyBytes, Steps32, Wrap32;
    RingLen(st.text, out);
    SourceSlot(|out|, dist - 1);
    CopyRingSound(st.text, out, dist, len);
    StepsWrap(|out|, len);
    RSlotAdd(|out|, len);
  }

  /** One step of the reader on the bits of a token does what the token says. */
  lemma StepToken(bits: seq<bit>, st: State, t: HT.Tree, at: nat, out: seq<byte>, k: Token)
    requires Next(bits, st, t, at, out, k)
    ensures Ok(bits, st)
    ensures var (u, o) := Step(bits, st);
            && out + o == ExpandOne(out, k)
            && At(u, HB.Update(t, Symbol(k)), at + |TokenBits(t, k)|, ExpandOne(out, k))
  {
    hide HT.Balanced, RingOk, HB.Update, Code, PosBits, DecodeChar, DecodePosition, RSlot, CopyRing, CopyBytes,
         Steps32, Wrap32;
    NextSymbol(bits, st, t, at, out, k);
    match k
    case Literal(b) =>
      StepsWrap(|out|, 1);
      RingPush(st.text, out, b);
      RSlotAdd(|out|, 1);
    case Copy(dist, len) =>
      StepCopy(st, out, dist, len);
  }

  lemma RingLen(text: seq<byte>, out: seq<byte>)
    requires RingOk(text, out)
    ensures |text| == TEXT
  {
  }

  /** Prefixes of a tiling tile prefixes. */
  lemma {:induction false} CoversPrefix(x: seq<byte>, ks: seq<Token>, n: int, m: nat)
    requires TokensOk(ks) && Covers(x, ks, n) && m <= |ks|
    ensures Covers(x, ks[..m], |Expand(ks[..m])|)
    ensures m < |ks| ==> |Expand(ks[..m])| + Width(ks[m]) <= n
    ensures m < |ks| && ks[m].Copy? ==> CopyOk(x, |Expand(ks[..m])|, ks[m].dist, ks[m].len)
    decreases |ks|
  {
    hide Expand, CopyOk;
    if m == |ks| {
      assert ks[..m] == ks;
      CoversExpands(x, ks, n);
    } else {
      var front := ks[..|ks| - 1];
      var k := ks[|ks| - 1];
      CoversPrefix(x, front, n - Width(k), m);
      assert front[..m] == ks[..m];
      if m == |ks| - 1 { CoversExpands(x, front, n - Width(k)); assert front == ks[..m]; }
    }
  }

  /** The bits of token m sit in the stream after those of the tokens before it. */
  lemma {:induction false} StreamPrefix(t: HT.Tree, ks: seq<Token>, m: nat)
    requires HT.Inv(t) && TokensOk(ks) && m < |ks|
    ensures StartsAt(StreamBits(t, ks), |StreamBits(t, ks[..m])|, TokenBits(TreeAfter(t, ks[..m]), ks[m]))
    decreases |ks|
  {
    hide HT.Inv, TokenBits, TreeAfter;
    var front := ks[..|ks| - 1];
    if m == |ks| - 1 {
      assert front == ks[..m];
    } else {
      StreamPrefix(t, front, m);
      assert front[..m] == ks[..m];
      var at := |StreamBits(t, ks[..m])|;
      var b := TokenBits(TreeAfter(t, ks[..m]), ks[m]);
      assert StreamBits(t, ks)[at..at + |b|] == StreamBits(t, front)[at..at + |b|];
    }
  }

  /** One token further along. */
  lemma Longer(t: HT.Tree, ks: seq<Token>, m: nat)
    requires HT.Inv(t) && TokensOk(ks) && m < |ks|
    ensures TreeAfter(t, ks[..m + 1]) == HB.Update(TreeAfter(t, ks[..m]), Symbol(ks[m]))
    ensures |StreamBits(t, ks[..m + 1])| == |StreamBits(t, ks[..m])| + |TokenBits(TreeAfter(t, ks[..m]), ks[m])|
    ensures Expand(ks[..m + 1]) == ExpandOne(Expand(ks[..m]), ks[m])
  {
    hide HT.Inv, TokenBits, HB.Update, CopyBytes;
    var longer := ks[..m + 1];
    assert longer[..|longer| - 1] == ks[..m] && longer[|longer| - 1] == ks[m];
  }

  /** The bits begin with the stream of tokens that tile x. */
  ghost predicate Encodes(bits: seq<bit>, t: HT.Tree, ks: seq<Token>, x: seq<byte>) {
    && HT.Inv(t) && TokensOk(ks) && Covers(x, ks, |x|)
    && StartsAt(bits, 0, StreamBits(t, ks))
  }

  /** The reader after the first m tokens. */
  ghost predicate Midway(bits: seq<bit>, st: State, t: HT.Tree, ks: seq<Token>, m: nat)
    requires HT.Inv(t) && TokensOk(ks) && m <= |ks|
  {
    At(st, TreeAfter(t, ks[..m]), |StreamBits(t, ks[..m])|, Expand(ks[..m]))
  }

  lemma MidwayNext(bits: seq<bit>, st: State, t: HT.Tree, ks: seq<Token>, x: seq<byte>, m: nat)
    requires Encodes(bits, t, ks, x) && m < |ks| && Midway(bits, st, t, ks, m)
    ensures Next(bits, st, TreeAfter(t, ks[..m]), |StreamBits(t, ks[..m])|, Expand(ks[..m]), ks[m])
  {
    hide HT.Inv, StreamBits, TokenBits, Expand, Covers, RingOk;
    CoversPrefix(x, ks, |x|, m);
    StreamPrefix(t, ks, m);
    assert TokenOk(ks[m]);
    var at := |StreamBits(t, ks[..m])|;
    var b := TokenBits(TreeAfter(t, ks[..m]), ks[m]);
    StartsWithin(bits, StreamBits(t, ks), at, b);
  }

  /** The reader takes token m of the stream. */
  ghost predicate TakesToken(bits: seq<bit>, st: State, t: HT.Tree, ks: seq<Token>, m: nat)
    requires HT.Inv(t) && TokensOk(ks) && m < |ks|
  {
    && Ok(bits, st)
    && var (u, o) := Step(bits, st);
       Midway(bits, u, t, ks, m + 1) && Expand(ks[..m]) + o == Expand(ks[..m + 1])
  }

  lemma MidwayStep(bits: seq<bit>, st: State, t: HT.Tree, ks: seq<Token>, x: seq<byte>, m: nat)
    requires m < |ks| && TokensOk(ks) && Encodes(bits, t, ks, x) && Midway(bits, st, t, ks, m)
    ensures TakesToken(bits, st, t, ks, m)
  {
    hide HT.Inv, StreamBits, TokenBits, Expand, Next, Step, At;
    MidwayNext(bits, st, t, ks, x, m);
    StepToken(bits, st, TreeAfter(t, ks[..m]), |StreamBits(t, ks[..m])|, Expand(ks[..m]), ks[m]);
    Longer(t, ks, m);
  }

  /** The number of tokens after which a reader that has taken m stops: when the counter reaches the size. */
  function Stop(ks: seq<Token>, size: int, m: nat): (n: nat)
    requires TokensOk(ks) && m <= |ks|
    ensures m <= n <= |ks|
    decreases |ks| - m
  {
    if m == |ks| || Wrap32(|Expand(ks[..m])|) >= size then m else Stop(ks, size, m + 1)
  }

  /** The counter reaches the size at the end of the tokens at the latest. */
  ghost predicate Sized(ks: seq<Token>, size: int)
    requires TokensOk(ks)
  {
    Wrap32(|Expand(ks)|) >= size
  }

  /** Run from the middle of the stream, the reader delivers the text of the tokens up to where it stops. */
  lemma {:induction false} RunFrom(
    bits: seq<bit>, st: State, t: HT.Tree, ks: seq<Token>, x: seq<byte>, size: int, m: nat)
    requires Encodes(bits, t, ks, x) && m <= |ks| && Midway(bits, st, t, ks, m) && Sized(ks, size)
    ensures Ok(bits, st)
    ensures var (v, o) := Run(bits, size, st); var n := Stop(ks, size, m);
            Midway(bits, v, t, ks, n) && Expand(ks[..m]) + o == Expand(ks[..n])
    decreases |ks| - m
  {
    hide HT.Balanced, StreamBits, Expand, Covers, RingOk, Run, Step, Next, TakesToken, Wrap32;
    EncodesFacts(bits, t, ks, x);
    MidwayOk(bits, st, t, ks, x, m);
    RunStops(bits, size, st);
    assert ks[..|ks|] == ks;
    if st.pos >= size {
      assert Expand(ks[..m]) + [] == Expand(ks[..m]);
    } else {
      MidwayStep(bits, st, t, ks, x, m);
      RunOnce(bits, size, st);
      var (u, o) := Step(bits, st);
      TookToken(bits, st, t, ks, m);
      RunFrom(bits, u, t, ks, x, size, m + 1);
      var (v, rest) := Run(bits, size, u);
      assert Expand(ks[..m]) + (o + rest) == Expand(ks[..m]) + o + rest;
    }
  }

  lemma TookToken(bits: seq<bit>, st: State, t: HT.Tree, ks: seq<Token>, m: nat)
    requires HT.Inv(t) && TokensOk(ks) && m < |ks| && TakesToken(bits, st, t, ks, m)
    ensures Ok(bits, st)
    ensures var (u, o) := Step(bits, st); Midway(bits, u, t, ks, m + 1) && Expand(ks[..m]) + o == Expand(ks[..m + 1])
  {
    hide HT.Balanced, StreamBits, Expand, RingOk, Step;
  }

  lemma MidwayOk(bits: seq<bit>, st: State, t: HT.Tree, ks: seq<Token>, x: seq<byte>, m: nat)
    requires Encodes(bits, t, ks, x) && m <= |ks| && Midway(bits, st, t, ks, m)
    ensures Ok(bits, st)
  {
    hide HT.Inv, StreamBits, Expand, Covers, RingOk;
    RingLen(st.text, Expand(ks[..m]));
    StreamWithin(t, ks, m);
  }

  lemma {:induction false} StreamWithin(t: HT.Tree, ks: seq<Token>, m: nat)
    requires HT.Inv(t) && TokensOk(ks) && m <= |ks|
    ensures |StreamBits(t, ks[..m])| <= |StreamBits(t, ks)|
    decreases |ks|
  {
    hide HT.Inv, TokenBits, TreeAfter;
    if m == |ks| {
      assert ks[..m] == ks;
    } else {
      var front := ks[..|ks| - 1];
      StreamWithin(t, front, m);
      assert front[..m] == ks[..m];
    }
  }

  lemma EncodesFacts(bits: seq<bit>, t: HT.Tree, ks: seq<Token>, x: seq<byte>)
    requires Encodes(bits, t, ks, x)
    ensures HT.Inv(t) && TokensOk(ks)
  {
  }

  /** The reader delivers exactly the text of the tokens up to where the counter reaches the size, and stops there. */
  lemma ReaderDelivers(bits: seq<bit>, t: HT.Tree, ks: seq<Token>, x: seq<byte>, size: int)
    requires Encodes(bits, t, ks, x) && Sized(ks, size)
    ensures Ok(bits, FreshReader(t))
    ensures var (v, o) := Run(bits, size, FreshReader(t)); var n := Stop(ks, size, 0);
            o == Expand(ks[..n]) && v.cur == Cursor(|StreamBits(t, ks[..n])|, true) && v.pos == Wrap32(|o|)
  {
    hide HT.Balanced, Covers, Run, RingOk;
    FreshRing();
    assert ks[..0] == [];
    assert Expand([]) == [];
    RunFrom(bits, FreshReader(t), t, ks, x, size, 0);
    var (v, o) := Run(bits, size, FreshReader(t));
    assert [] + o == o;
  }

  lemma ShorterText(x: seq<byte>, ks: seq<Token>, m: nat)
    requires TokensOk(ks) && Covers(x, ks, |x|) && m <= |ks|
    ensures Expand(ks[..m]) <= x && (|Expand(ks[..m])| < |x| <==> m < |ks|)
  {
    hide Covers, Expand;
    CoversPrefix(x, ks, |x|, m);
    CoversExpands(x, ks[..m], |Expand(ks[..m])|);
    if m == |ks| {
      assert ks[..m] == ks;
      CoversExpands(x, ks, |x|);
    } else {
      assert TokenOk(ks[m]);
    }
  }

  /** As long as the counter does not wrap, it reaches the size at the end. */
  lemma {:induction false} StopsAtEnd(x: seq<byte>, ks: seq<Token>, m: nat)
    requires TokensOk(ks) && Covers(x, ks, |x|) && m <= |ks| && |x| <= 0x7fff_ffff
    ensures Stop(ks, |x|, m) == |ks|
    decreases |ks| - m
  {
    hide Covers, Expand, Wrap32;
    if m == |ks| {
    } else {
      ShorterText(x, ks, m);
      WrapSmall(|Expand(ks[..m])|);
      StopsAtEnd(x, ks, m + 1);
    }
  }

  /**
   Where the reader is after it has decoded exactly these tokens; nothing if at some point it decodes
   another symbol or another position, or runs out of bits.
   */
  function Follow(bits: seq<bit>, t: HT.Tree, ks: seq<Token>): (s: Option<Cursor>)
    requires HT.Inv(t) && TokensOk(ks)
    ensures s.Some? ==> s.value.ok && s.value.pos <= |bits|
  {
    if ks == [] then Some(Cursor(0, true))
    else
      var n := |ks| - 1;
      var s := Follow(bits, t, ks[..n]);
      if s.None? then None else FollowOne(bits, TreeAfter(t, ks[..n]), s.value, ks[n])
  }

  /** Decode one token and compare. */
  function FollowOne(bits: seq<bit>, t: HT.Tree, s: Cursor, k: Token): (e: Option<Cursor>)
    requires HT.Inv(t) && TokenOk(k) && s.pos <= |bits|
    ensures e.Some? ==> e.value.ok && e.value.pos <= |bits|
  {
    var (c, e) := DecodeChar(t, bits, s);
    if c != Symbol(k) || !e.ok then None
    else if k.Literal? then Some(e)
    else
      var (p, e') := DecodePosition(bits, e);
      if p != k.dist - 1 || !e'.ok then None else Some(e')
  }

  /** A token is decoded from bits exactly if they are its bits. */
  lemma FollowOneIff(bits: seq<bit>, t: HT.Tree, s: Cursor, k: Token)
    requires HT.Inv(t) && TokenOk(k) && s.ok && s.pos <= |bits|
    ensures FollowOne(bits, t, s, k).Some? <==> StartsAt(bits, s.pos, TokenBits(t, k))
    ensures FollowOne(bits, t, s, k).Some? ==> FollowOne(bits, t, s, k).value == Cursor(s.pos + |TokenBits(t, k)|, true)
  {
    hide HT.Balanced, Code, DecodeChar, DecodePosition, PosBits, StartsAt;
    var code := Code(t, Symbol(k));
    DecodeIff(t, Symbol(k), bits, s);
    assert code + [] == code;
    if k.Copy? {
      StartsConcat(bits, s.pos, code, PosBits(k.dist - 1));
      if StartsAt(bits, s.pos, code) { PositionIff(bits, Cursor(s.pos + |code|, true), k.dist - 1); }
    }
  }

  lemma PositionIff(bits: seq<bit>, s: Cursor, p: nat)
    requires s.ok && p < 4096
    ensures DecodePosition(bits, s).0 == p && DecodePosition(bits, s).1.ok <==> StartsAt(bits, s.pos, PosBits(p))
    ensures StartsAt(bits, s.pos, PosBits(p)) ==> DecodePosition(bits, s).1 == Cursor(s.pos + |PosBits(p)|, true)
  {
    hide DecodePosition, PosBits;
    if StartsAt(bits, s.pos, PosBits(p)) { DecodePositionCode(p, bits, s); }
    if s.pos <= |bits| { DecodePositionReads(bits, s); } else { PastTheEnd(bits, s); }
  }

  lemma PastTheEnd(bits: seq<bit>, s: Cursor)
    requires s.pos > |bits|
    ensures !DecodePosition(bits, s).1.ok
  {
    hide TakeMore, DLen;
    TakeMoreStart(bits, s.(ok := false), 0, DLen(0) - 2);
  }

  lemma {:induction false} FollowIff(bits: seq<bit>, t: HT.Tree, ks: seq<Token>)
    requires HT.Inv(t) && TokensOk(ks)
    ensures Follow(bits, t, ks).Some? <==> StartsAt(bits, 0, StreamBits(t, ks))
    ensures Follow(bits, t, ks).Some? ==> Follow(bits, t, ks).value == Cursor(|StreamBits(t, ks)|, true)
    decreases |ks|
  {
    hide HT.Balanced, TokenBits, TreeAfter, FollowOne, StartsAt;
    if ks == [] {
      assert bits[0..0] == [];
      StartsNothing(bits);
    } else {
      var n := |ks| - 1;
      FollowIff(bits, t, ks[..n]);
      var head, tree := StreamBits(t, ks[..n]), TreeAfter(t, ks[..n]);
      StartsConcat(bits, 0, head, TokenBits(tree, ks[n]));
      if StartsAt(bits, 0, head) {
        StartsBound(bits, head);
        FollowOneIff(bits, tree, Cursor(|head|, true), ks[n]);
      }
    }
  }

  lemma StartsNothing(bits: seq<bit>)
    ensures StartsAt(bits, 0, [])
  {
  }

  lemma StartsBound(bits: seq<bit>, p: seq<bit>)
    requires StartsAt(bits, 0, p)
    ensures |p| <= |bits|
  {
  }
}
