/**
 The compressor, byte by byte, as a function on states: fill the lookahead, register every
 position with the match finder, and emit a literal or a copy whenever the last one is used up.
 */
module WriterModel {
  import opened Common
  import opened Bits
  import opened BitPacker
  import opened PositionCode
  import HT = HuffmanTree
  import HB = HuffmanRebuild
  import HC = HuffmanCode
  import opened MatchForest
  import opened MatchFinder
  import opened Tokens
  import opened TextRing

  /** The writer's fields; log is the history of tokens emitted. */
  datatype State = State(
    tree: HT.Tree, forest: Forest, text: seq<byte>, matchLen: nat, matchPos: int,
    pack: Packer, len: nat, r: nat, s: nat, last: int, preFilled: bool, fileSize: int, log: seq<Token>)

  ghost predicate Base(w: State) {
    && HT.Inv(w.tree)
    && Shape(w.forest) && Forested(w.forest)
    && |w.text| == N + F - 1
    && w.r < N && w.s < N
  }

  /** Registered slots lie at most d behind the current one. */
  ghost predicate Within(f: Forest, r: nat, d: nat)
    requires Shape(f)
  {
    forall q: nat {:trigger Registered(f, q)} :: Registered(f, q) ==> 1 <= Dist(r, q) <= d
  }

  ghost predicate Ok(w: State) {
    Base(w) && w.s == (w.r + F) % N && w.len <= F && Within(w.forest, w.r, N - F)
  }

  /** A writer that still accepts bytes: either filling the lookahead, or with a full one. */
  ghost predicate Open(w: State) {
    && Ok(w)
    && (w.preFilled ==> w.len == F)
    && (!w.preFilled ==> w.r == N - F && w.len < F && Within(w.forest, w.r, w.len))
  }

  /** Register slot p and remember its match. */
  function InsertAt(w: State, p: nat): (v: State)
    requires Base(w) && p < N
  {
    var x := Insert(w.forest, w.text, p, w.matchPos);
    w.(forest := x.0, matchLen := x.1, matchPos := x.2)
  }

  lemma InsertAtKeeps(w: State, p: nat, d: nat)
    requires Base(w) && p < N && Within(w.forest, w.r, d) && !Registered(w.forest, p)
    ensures var v := InsertAt(w, p);
            && Base(v) && MatchReady(v)
            && (forall q: nat {:trigger Registered(v.forest, q)} ::
                  Registered(v.forest, q) ==> q == p || 1 <= Dist(w.r, q) <= d)
  {
    hide Insert, HT.Inv, Forested;
    InsertRegisters(w.forest, w.text, p, w.matchPos);
  }

  /** Emit the code of symbol c and adapt the tree. */
  function EncodeChar(w: State, c: nat): (v: State)
    requires HT.Inv(w.tree) && c < HT.NUM_CHAR
  {
    var code := HC.Code(w.tree, c);
    w.(pack := PutCode(w.pack, |code|, Align(code)), tree := HB.Update(w.tree, c))
  }

  function EncodePosition(w: State, c: nat): (v: State)
    requires c < 4096
  {
    var high := PutCode(w.pack, PLen(c / 64), 256 * PCode(c / 64));
    w.(pack := PutCode(high, 6, 1024 * (c % 64)))
  }

  /** Emitting bits leaves the token log alone. */
  lemma EmitFrame(w: State, c: nat, p: nat)
    requires HT.Inv(w.tree) && c < HT.NUM_CHAR && p < 4096
    ensures EncodePosition(EncodeChar(w, c), p).log == w.log
  {
    hide PutCode, HC.Code, HB.Update, HT.Inv, PLen, PCode;
  }

  ghost predicate MatchReady(w: State) {
    w.matchLen <= F && (w.matchLen > THRESHOLD ==> 0 <= w.matchPos < N)
  }

  /** Emit one token for the front of the lookahead. */
  function Encode(w: State): (v: State)
    requires Base(w) && (w.len == 0 || MatchReady(w))
  {
    if w.len == 0 then w
    else
      var m := if w.matchLen > w.len then w.len else w.matchLen;
      if m <= THRESHOLD then
        EncodeChar(w.(matchLen := 1), w.text[w.r]).(last := 1, log := w.log + [Literal(w.text[w.r])])
      else
        EncodePosition(EncodeChar(w.(matchLen := m), 255 - THRESHOLD + m), w.matchPos)
          .(last := m, log := w.log + [Copy(w.matchPos + 1, m)])
  }

  /** Take one byte into the lookahead. */
  function Load(w: State, c: Option<byte>): (v: State)
    requires Base(w)
  {
    match c
    case None => w
    case Some(b) => w.(text := Put(w.text, w.s, b), len := w.len + 1)
  }

  /** Register the front of the lookahead and, when the last token is used up, emit the next. */
  function Consume(w: State): (v: State)
    requires Base(w)
    requires MatchReady(InsertAt(w, w.r)) && Base(InsertAt(w, w.r))
  {
    var v := InsertAt(w, w.r);
    var u := v.(last := v.last - 1);
    if u.last == 0 then Encode(u) else u
  }

  /** Move the window one byte on. */
  function Shift(w: State): (v: State)
    requires Base(w) && w.len >= 1
  {
    w.(forest := Delete(w.forest, w.s), s := (w.s + 1) % N, r := (w.r + 1) % N, len := w.len - 1)
  }

  /** Process one byte from the lookahead, taking in c first if there is one. */
  function Advance(w: State, c: Option<byte>): (v: State)
    requires Ok(w) && (c.None? ==> w.len >= 1)
  {
    ConsumeReady(w, c);
    Shift(Consume(Load(w, c)))
  }

  lemma LoadFrame(w: State, c: Option<byte>)
    requires Ok(w)
    ensures var u := Load(w, c); u.forest == w.forest && u.r == w.r && u.s == w.s && u.tree == w.tree
    ensures c.None? ==> Load(w, c) == w
    ensures !Registered(w.forest, w.r)
  {
  }

  lemma ConsumeReady(w: State, c: Option<byte>)
    requires Ok(w) && (c.None? ==> w.len >= 1)
    ensures var u := Load(w, c);
            && Base(u) && Base(InsertAt(u, u.r)) && MatchReady(InsertAt(u, u.r))
            && Base(Consume(u)) && Consume(u).len == u.len >= 1
  {
    hide HT.Inv, Forested, InsertAt, Consume, Put, MatchReady;
    ConsumeKeeps(Load(w, c));
  }

  /** Emitting a token touches the coder and the match bookkeeping only. */
  lemma EncodeFrame(w: State)
    requires Base(w) && MatchReady(w)
    ensures var v := Encode(w);
            && HT.Inv(v.tree) && v.forest == w.forest && v.text == w.text && v.len == w.len && v.r == w.r && v.s == w.s
            && v.preFilled == w.preFilled && v.fileSize == w.fileSize
            && (w.len > 0 ==> 1 <= v.last <= w.len)
  {
  }

  lemma InsertAtFrame(w: State, p: nat)
    requires Base(w) && p < N
    ensures var v := InsertAt(w, p); v == w.(forest := v.forest, matchLen := v.matchLen, matchPos := v.matchPos)
  {
  }

  /** Consuming leaves the window alone and registers the front of the lookahead. */
  lemma ConsumeKeeps(w: State)
    requires Base(w) && Within(w.forest, w.r, N - F)
    ensures Base(InsertAt(w, w.r)) && MatchReady(InsertAt(w, w.r))
    ensures var v := Consume(w);
            && Base(v) && v.len == w.len && v.r == w.r && v.s == w.s && v.text == w.text
            && v.preFilled == w.preFilled && v.fileSize == w.fileSize
            && (forall q: nat {:trigger Registered(v.forest, q)} ::
                  Registered(v.forest, q) ==> q == w.r || 1 <= Dist(w.r, q) <= N - F)
  {
    hide HT.Inv, Forested, InsertAt, Encode, MatchReady;
    assert !Registered(w.forest, w.r);
    InsertAtKeeps(w, w.r, N - F);
    InsertAtFrame(w, w.r);
    var i := InsertAt(w, w.r);
    MatchReadyFrame(i, i.(last := i.last - 1));
    EncodeFrame(i.(last := i.last - 1));
  }

  lemma MatchReadyFrame(w: State, v: State)
    requires MatchReady(w) && v.matchLen == w.matchLen && v.matchPos == w.matchPos
    ensures MatchReady(v)
  {
  }

  /** Advancing keeps the writer's invariant; the lookahead shrinks by one unless a byte came in. */
  lemma AdvanceKeeps(w: State, c: Option<byte>)
    requires Ok(w) && (c.None? ==> w.len >= 1)
    ensures var v := Advance(w, c);
            && Ok(v) && v.len == (if c.None? then w.len - 1 else w.len) && v.preFilled == w.preFilled
            && v.r == (w.r + 1) % N && v.fileSize == w.fileSize
  {
    hide HT.Inv, Forested, InsertAt, Consume, Put, Delete;
    ConsumeKeeps(Load(w, c));
    ShiftKeeps(Consume(Load(w, c)));
  }

  lemma ShiftKeeps(w: State)
    requires Base(w) && w.s == (w.r + F) % N && 1 <= w.len <= F + 1
    requires forall q: nat {:trigger Registered(w.forest, q)} :: Registered(w.forest, q)
               ==> q == w.r || 1 <= Dist(w.r, q) <= N - F
    ensures Ok(Shift(w))
  {
    hide Delete, HT.Inv, Forested, Dist;
    Deletes(w.forest, w.s);
    AheadShift(w.r);
    var v := Shift(w);
    forall q: nat | Registered(v.forest, q)
      ensures 1 <= Dist(v.r, q) <= N - F
    {
      assert Registered(w.forest, q) && q != w.s;
      DistShift(w.r, q);
    }
  }

  lemma AheadShift(r: nat)
    requires r < N
    ensures ((r + F) % N + 1) % N == ((r + 1) % N + F) % N
  {
  }

  lemma Deletes(f: Forest, p: nat)
    requires Shape(f) && Forested(f) && p < N
    ensures var g := Delete(f, p);
            && Shape(g) && Forested(g)
            && forall q: nat :: q < N ==> (Registered(g, q) <==> q != p && Registered(f, q))
  {
    hide Delete, NodeOk, ChildOk;
    var lab, rank :| Wf(f, lab, rank);
    var rank' := DeleteKeeps(f, lab, rank, p);
    assert Wf(Delete(f, p), lab, rank');
  }

  lemma DistShift(r: nat, q: nat)
    requires r < N && q < N && q != (r + F) % N && (q == r || 1 <= Dist(r, q) <= N - F)
    ensures 1 <= Dist((r + 1) % N, q) <= N - F
  {
    DistStep(r, q);
    DistOfDeleted(r, q);
  }

  lemma DistOfDeleted(r: nat, q: nat)
    requires r < N && q < N
    ensures Dist(r, q) == N - F ==> q == (r + F) % N
  {
  }

  /** Accept one byte. */
  function WriteByte(w: State, b: byte): (v: State)
    requires Open(w)
  {
    if w.preFilled then
      var v := Advance(w, Some(b));
      v.(fileSize := Int32(v.fileSize + 1))
    else
      var u := w.(text := w.text[w.r + w.len := b], fileSize := Int32(w.fileSize + 1), len := w.len + 1);
      InsertAt(u, u.r - u.len).(last := 1, preFilled := u.len == F)
  }

  /** Two's complement wrap-around of a 32-bit counter that steps by one. */
  function Int32(v: int): int { if v == 0x8000_0000 then -0x8000_0000 else v }

  lemma WriteByteKeeps(w: State, b: byte)
    requires Open(w)
    ensures Open(WriteByte(w, b))
  {
    hide HT.Inv, Forested, InsertAt, Advance;
    if w.preFilled {
      AdvanceKeeps(w, Some(b));
    } else {
      var u := w.(text := w.text[w.r + w.len := b], fileSize := Int32(w.fileSize + 1), len := w.len + 1);
      var p := u.r - u.len;
      assert Dist(u.r, p) == u.len;
      InsertAtKeeps(u, p, w.len);
      InsertAtFrame(u, p);
    }
  }

  /** Accept a string of bytes. */
  function WriteAll(w: State, p: seq<byte>): (v: State)
    requires Open(w)
    ensures Open(v)
  {
    if p == [] then w
    else
      WriteByteKeeps(WriteAll(w, p[..|p| - 1]), p[|p| - 1]);
      WriteByte(WriteAll(w, p[..|p| - 1]), p[|p| - 1])
  }

  /** How the input is cut into writes does not matter. */
  lemma {:induction false} WriteAllConcat(w: State, a: seq<byte>, b: seq<byte>)
    requires Open(w)
    ensures WriteAll(w, a + b) == WriteAll(WriteAll(w, a), b)
    decreases |b|
  {
    hide Open, WriteByte;
    if b == [] {
      assert a + b == a;
    } else {
      WriteAllConcat(w, a, b[..|b| - 1]);
      assert (a + b)[..|a + b| - 1] == a + b[..|b| - 1];
    }
  }

  /** Drain the lookahead. */
  function Drain(w: State): (v: State)
    requires Ok(w)
    ensures Ok(v) && v.len == 0
    decreases w.len
  {
    if w.len == 0 then w
    else
      AdvanceKeeps(w, None);
      Drain(Advance(w, None))
  }

  /** A writer before the first byte. */
  function FreshWriter(t: HT.Tree): (w: State) {
    State(t, FreshForest(), FreshText(), 0, 0, Packer([], 0, 0), 0, N - F, 0, 0, false, 0, [])
  }

  lemma FreshWriterOpen(t: HT.Tree)
    requires HT.Inv(t)
    ensures Open(FreshWriter(t))
  {
    hide HT.Inv, Wf;
    FreshForestOk();
  }

  /** What accepting a byte does while the lookahead is being filled. */
  lemma FillIs(w: State, b: byte)
    requires Open(w) && !w.preFilled
    ensures w.len + 1 <= w.r && w.r + w.len < |w.text|
    ensures var u := w.(text := w.text[w.r + w.len := b], fileSize := Int32(w.fileSize + 1), len := w.len + 1);
            && Shape(u.forest) && Forested(u.forest) && |u.text| == N + F - 1
            && !Registered(u.forest, u.r - u.len)
            && WriteByte(w, b) == InsertAt(u, u.r - u.len).(last := 1, preFilled := u.len == F)
  {
    hide HT.Inv, Forested, InsertAt, Advance;
    FillReady(w, b);
  }

  lemma FillReady(w: State, b: byte)
    requires Open(w) && !w.preFilled
    ensures w.r + w.len < N + F - 1 && w.len + 1 <= w.r && w.r - (w.len + 1) < N
    ensures Shape(w.forest) && Forested(w.forest) && !Registered(w.forest, w.r - (w.len + 1))
  {
    hide HT.Inv, Forested;
    assert Dist(w.r, w.r - (w.len + 1)) == w.len + 1;
  }

  lemma WriteByteFull(w: State, b: byte)
    requires Open(w) && w.preFilled
    ensures Ok(w) && w.len == F && Advance(w, Some(b)).preFilled
    ensures WriteByte(w, b) == Advance(w, Some(b)).(fileSize := Int32(Advance(w, Some(b)).fileSize + 1))
  {
    hide HT.Inv, Forested, Advance;
    AdvanceKeeps(w, Some(b));
  }

  lemma OpenIsOk(w: State)
    requires Open(w)
    ensures Ok(w)
  {
  }

  lemma OkIsBase(w: State)
    requires Ok(w)
    ensures Base(w)
  {
  }

  lemma EncodeNothing(w: State)
    requires Base(w) && w.len == 0
    ensures Encode(w) == w
  {
  }

  lemma WriteAllNone(w: State, p: seq<byte>)
    requires Open(w)
    ensures WriteAll(w, p[..0]) == w
  {
  }

  lemma WriteAllSnoc(w: State, p: seq<byte>, n: nat)
    requires Open(w) && n < |p|
    ensures WriteAll(w, p[..n + 1]) == WriteByte(WriteAll(w, p[..n]), p[n])
  {
    hide Open, WriteByte;
    assert p[..n + 1][..n] == p[..n];
  }

  lemma WriteByteSize(w: State, b: byte)
    requires Open(w)
    ensures WriteByte(w, b).fileSize == Int32(w.fileSize + 1)
  {
    hide HT.Inv, Forested, Advance, InsertAt;
    if w.preFilled {
      AdvanceKeeps(w, Some(b));
    } else {
      FillReady(w, b);
      var u := w.(text := w.text[w.r + w.len := b], fileSize := Int32(w.fileSize + 1), len := w.len + 1);
      InsertAtFrame(u, u.r - u.len);
    }
  }
}
