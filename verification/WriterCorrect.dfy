/**
 What a writer has emitted: after any input, its bits are the stream of some tokens that tile
 the input, and its match finder knows only text the reader will also have.
 */
module WriterCorrect {
  import opened Common
  import opened Bits
  import opened BitPacker
  import BS = BitStream
  import opened PositionCode
  import HT = HuffmanTree
  import HB = HuffmanRebuild
  import HC = HuffmanCode
  import opened MatchForest
  import opened MatchFinder
  import opened Tokens
  import opened TextRing
  import opened WriterModel

  /** The input so far, how much of it has left the lookahead, and the tokens emitted. */
  datatype Trace = Trace(x: seq<byte>, pos: nat, ks: seq<Token>, lab: seq<nat>, rank: seq<nat>)

  /** Registered slots carry the text byte they stood for when they were registered. */
  ghost predicate Labelled(f: Forest, lab: seq<nat>, r: nat, x: seq<byte>, pos: nat)
    requires Shape(f) && |lab| == N
  {
    forall q: nat {:trigger Registered(f, q)} :: Registered(f, q) ==>
      Dist(r, q) <= pos + F && pos - Dist(r, q) < |x| && lab[q] == Hist(x, pos - Dist(r, q))
  }

  /** The coder's state is what emitting the tokens leaves behind. */
  ghost predicate Coded(w: State, t: HT.Tree, ks: seq<Token>) {
    && HT.Inv(t)
    && TokensOk(ks)
    && w.tree == TreeAfter(t, ks)
    && w.pack == BS.PackAll(Codes(t, ks))
  }

  /** The window: ring contents and match finder. */
  ghost predicate Window(w: State, tr: Trace) {
    && Base(w)
    && |tr.x| == tr.pos + w.len
    && w.r == Slot(tr.pos)
    && RingOk(w.text, tr.x)
    && Wf(w.forest, tr.lab, tr.rank)
    && Labelled(w.forest, tr.lab, w.r, tr.x, tr.pos)
  }

  ghost predicate Tiled(w: State, tr: Trace) {
    w.log == tr.ks &&
    if tr.x == [] then tr.ks == [] else 1 <= w.last && Covers(tr.x, tr.ks, tr.pos + w.last - 1)
  }

  /** The tokens reach up to the end of the token in use. */
  ghost predicate Ahead(w: State, tr: Trace) {
    w.log == tr.ks && 1 <= w.last && Covers(tr.x, tr.ks, tr.pos + w.last)
  }

  ghost predicate Tracks(w: State, t: HT.Tree, tr: Trace) {
    Ok(w) && Window(w, tr) && Coded(w, t, tr.ks) && Tiled(w, tr)
  }

  /** One more token: how the definitions on token strings grow. */
  lemma Snoc(t: HT.Tree, ks: seq<Token>, k: Token)
    requires HT.Inv(t) && TokensOk(ks) && TokenOk(k)
    ensures TokensOk(ks + [k])
    ensures TreeAfter(t, ks + [k]) == HB.Update(TreeAfter(t, ks), Symbol(k))
    ensures Codes(t, ks + [k]) == Codes(t, ks) + TokenCodes(TreeAfter(t, ks), k)
  {
    hide HT.Balanced, HB.Update, TokenCodes;
    assert (ks + [k])[..|ks|] == ks;
  }

  lemma CodedChar(w: State, t: HT.Tree, ks: seq<Token>, c: nat)
    requires Coded(w, t, ks) && c < HT.NUM_CHAR
    ensures var v := EncodeChar(w, c);
            && v.tree == HB.Update(TreeAfter(t, ks), c)
            && v.pack == BS.PackAll(Codes(t, ks) + [HC.Code(w.tree, c)])
  {
    hide HT.Balanced, PutCode, HB.Update, HC.Code, Codes, TreeAfter, Align;
    BS.Snoc(Codes(t, ks), HC.Code(w.tree, c));
  }

  lemma CodedLiteral(w: State, t: HT.Tree, ks: seq<Token>, b: byte)
    requires Coded(w, t, ks)
    ensures Coded(EncodeChar(w, b), t, ks + [Literal(b)])
  {
    hide HT.Balanced, HB.Update, HC.Code, Codes, TreeAfter, EncodeChar;
    Snoc(t, ks, Literal(b));
    CodedChar(w, t, ks, b);
    var code := HC.Code(w.tree, b);
    assert [code] + [] == [code];
  }

  /** A position is put as its two codes. */
  lemma EncodePositionPuts(w: State, c: nat, cs: seq<BS.Code>)
    requires c < 4096 && w.pack == BS.PackAll(cs)
    ensures EncodePosition(w, c).pack == BS.PackAll(cs + [PosPrefix(c / 64)] + [ToBits(c % 64, 6)])
  {
    hide PutCode, PCode, PLen, ToBits, Shr, Align, BS.PackAll;
    PrefixValue(c / 64);
    LowAlign(c % 64);
    BS.Snoc(cs, PosPrefix(c / 64));
    BS.Snoc(cs + [PosPrefix(c / 64)], ToBits(c % 64, 6));
  }

  lemma CodedCopy(w: State, t: HT.Tree, ks: seq<Token>, k: Token)
    requires Coded(w, t, ks) && k.Copy? && TokenOk(k)
    ensures Coded(EncodePosition(EncodeChar(w, Symbol(k)), k.dist - 1), t, ks + [k])
  {
    hide HT.Balanced, HB.Update, HC.Code, Codes, TreeAfter, EncodeChar, EncodePosition, PosPrefix, ToBits, BS.PackAll;
    Snoc(t, ks, k);
    CodedChar(w, t, ks, Symbol(k));
    var v := EncodeChar(w, Symbol(k));
    EncodePositionFrame(v, k.dist - 1);
    var cs, code := Codes(t, ks), HC.Code(w.tree, Symbol(k));
    var hi, lo := PosPrefix((k.dist - 1) / 64), ToBits((k.dist - 1) % 64, 6);
    EncodePositionPuts(v, k.dist - 1, cs + [code]);
    assert cs + [code] + [hi] + [lo] == cs + ([code] + [hi, lo]);
  }

  lemma EncodePositionFrame(w: State, c: nat)
    requires c < 4096
    ensures EncodePosition(w, c).tree == w.tree
  {
  }

  /** The two texts a match compares are text positions, as far as the input reaches. */
  lemma ComparedBytes(w: State, tr: Trace, q: nat, i: nat)
    requires Window(w, tr) && 1 <= w.len <= F + 1 && q < N && i < F && i < w.len
    requires 1 <= Dist(w.r, q) <= N - F && Dist(w.r, q) <= tr.pos + F
    ensures w.text[w.r + i] == Hist(tr.x, tr.pos + i)
    ensures i >= 1 ==> w.text[q + i] == Hist(tr.x, tr.pos + i - Dist(w.r, q))
  {
    hide HT.Inv, Forested, Wf, Labelled, Slot, Dist;
    RingRead(w.text, tr.x, tr.pos, i);
    SlotOfDist(tr.pos, q);
    if i >= 1 { RingRead(w.text, tr.x, tr.pos - Dist(w.r, q), i); }
  }

  /** Whatever the match finder reports, copying from there reproduces the input. */
  lemma MatchSound(w: State, tr: Trace)
    requires Window(w, tr) && 1 <= w.len <= F + 1 && Within(w.forest, w.r, N - F)
    ensures var v := InsertAt(w, w.r); var m := if v.matchLen > w.len then w.len else v.matchLen;
            && v.matchLen <= F
            && (m > THRESHOLD ==> 0 <= v.matchPos < N - F && CopyOk(tr.x, tr.pos, v.matchPos + 1, m))
  {
    hide HT.Inv, Insert, NodeOk, ChildOk, Dist, RingOk;
    assert !Registered(w.forest, w.r) by { DistSelf(w.r); }
    var rank' := InsertKeeps(w.forest, tr.lab, tr.rank, w.text, w.r, w.matchPos);
    var v := InsertAt(w, w.r);
    var m := if v.matchLen > w.len then w.len else v.matchLen;
    if m > THRESHOLD {
      var q: nat :| MatchAt(w.forest, tr.lab, w.text, w.r, q, v.matchLen, v.matchPos);
      var d := Dist(w.r, q);
      ComparedBytes(w, tr, q, 0);
      forall i | tr.pos <= i < tr.pos + m
        ensures tr.x[i] == Hist(tr.x, i - d)
      {
        var k := i - tr.pos;
        ComparedBytes(w, tr, q, k);
        assert k >= 1 ==> SameAt(w.text, w.r, q, k);
      }
    }
  }

  lemma DistSelf(r: nat)
    requires r < N
    ensures Dist(r, r) == 0
  {
  }

  /** Registering slot p, the slot of text position j, keeps the window. */
  lemma InsertWindow(w: State, tr: Trace, p: nat, j: int) returns (tr': Trace)
    requires Window(w, tr) && p == Slot(j) && !Registered(w.forest, p)
    requires 0 <= j + F && j <= tr.pos && tr.pos - j < N && j < |tr.x| && |tr.x| - N <= j
    ensures var v := InsertAt(w, p);
            Base(v) && Window(v, tr') && tr'.x == tr.x && tr'.pos == tr.pos && tr'.ks == tr.ks
  {
    hide HT.Inv, Insert, NodeOk, ChildOk, Dist, Slot, MatchOk;
    var rank' := InsertKeeps(w.forest, tr.lab, tr.rank, w.text, p, w.matchPos);
    var v := InsertAt(w, p);
    tr' := tr.(lab := tr.lab[p := w.text[p]], rank := rank');
    assert Forested(v.forest);
    RingRead(w.text, tr.x, j, 0);
    DistOfSlots(tr.pos, tr.pos - j);
    forall q: nat | Registered(v.forest, q)
      ensures Dist(w.r, q) <= tr.pos + F && tr.pos - Dist(w.r, q) < |tr.x|
      ensures tr'.lab[q] == Hist(tr.x, tr.pos - Dist(w.r, q))
    {
      assert q != p ==> Registered(w.forest, q);
    }
  }

  /** Taking in a byte keeps the window: the byte overwritten is out of reach. */
  lemma LoadWindow(w: State, tr: Trace, b: byte)
    requires Ok(w) && Window(w, tr) && w.len == F
    ensures var v := Load(w, Some(b)); Window(v, tr.(x := tr.x + [b]))
  {
    hide HT.Inv, NodeOk, ChildOk, Forested, Dist, Slot, RingOk, Put;
    RingWrite(w.text, tr.x, b);
    SlotAhead(tr.pos);
    var y := tr.x + [b];
    forall q: nat | Registered(w.forest, q)
      ensures Dist(w.r, q) <= tr.pos + F && tr.pos - Dist(w.r, q) < |y|
      ensures tr.lab[q] == Hist(y, tr.pos - Dist(w.r, q))
    {
    }
  }

  /** Moving on by one byte keeps the window. */
  lemma ShiftWindow(w: State, tr: Trace) returns (tr': Trace)
    requires Window(w, tr) && 1 <= w.len
    requires forall q: nat {:trigger Registered(w.forest, q)} :: Registered(w.forest, q) ==> Dist(w.r, q) <= N - F
    ensures Base(Shift(w)) && Window(Shift(w), tr')
    ensures tr'.x == tr.x && tr'.pos == tr.pos + 1 && tr'.ks == tr.ks
  {
    hide HT.Inv, Delete, NodeOk, ChildOk, Dist, Slot, RingOk;
    var rank' := DeleteKeeps(w.forest, tr.lab, tr.rank, w.s);
    var v := Shift(w);
    tr' := tr.(pos := tr.pos + 1, rank := rank');
    assert Forested(v.forest);
    SlotStep(tr.pos);
    forall q: nat | Registered(v.forest, q)
      ensures Dist(v.r, q) <= tr'.pos + F && tr'.pos - Dist(v.r, q) < |tr.x|
      ensures tr.lab[q] == Hist(tr.x, tr'.pos - Dist(v.r, q))
    {
      assert Registered(w.forest, q);
      DistStep(w.r, q);
    }
  }

  /** The next token covers the next bytes of the input, and the coder follows. */
  lemma EncodeTracks(w: State, t: HT.Tree, tr: Trace) returns (k: Token)
    requires Base(w) && MatchReady(w) && Coded(w, t, tr.ks) && Covers(tr.x, tr.ks, tr.pos)
    requires 1 <= w.len && |tr.x| == tr.pos + w.len && w.text[w.r] == tr.x[tr.pos]
    requires var m := if w.matchLen > w.len then w.len else w.matchLen;
             m > THRESHOLD ==> 0 <= w.matchPos < N - F && CopyOk(tr.x, tr.pos, w.matchPos + 1, m)
    ensures var v := Encode(w);
            && 1 <= v.last && v.log == w.log + [k]
            && Coded(v, t, tr.ks + [k]) && Covers(tr.x, tr.ks + [k], tr.pos + v.last)
  {
    hide HT.Inv, Forested, Coded, Covers, CopyOk, EncodeChar, EncodePosition;
    var m := if w.matchLen > w.len then w.len else w.matchLen;
    if m <= THRESHOLD {
      var u := w.(matchLen := 1);
      CodedFrame(w, u, t, tr.ks);
      k := Literal(w.text[w.r]);
      CodedLiteral(u, t, tr.ks, w.text[w.r]);
      CodedFrame(EncodeChar(u, w.text[w.r]), Encode(w), t, tr.ks + [k]);
    } else {
      var u := w.(matchLen := m);
      CodedFrame(w, u, t, tr.ks);
      k := Copy(w.matchPos + 1, m);
      CodedCopy(u, t, tr.ks, k);
      CodedFrame(EncodePosition(EncodeChar(u, Symbol(k)), k.dist - 1), Encode(w), t, tr.ks + [k]);
    }
    CoversSnoc(tr.x, tr.ks, tr.pos, k);
  }

  lemma CodedFrame(w: State, v: State, t: HT.Tree, ks: seq<Token>)
    requires Coded(w, t, ks) && v.tree == w.tree && v.pack == w.pack
    ensures Coded(v, t, ks)
  {
  }

  lemma WindowFrame(w: State, v: State, tr: Trace)
    requires Window(w, tr) && Base(v) && v.len == w.len && v.r == w.r && v.text == w.text && v.forest == w.forest
    ensures Window(v, tr)
  {
  }

  /** A writer ready to emit the token at its position. */
  ghost predicate AtToken(w: State, t: HT.Tree, tr: Trace) {
    && Window(w, tr) && MatchReady(w) && 1 <= w.len && Coded(w, t, tr.ks)
    && w.text[w.r] == tr.x[tr.pos]
    && var m := if w.matchLen > w.len then w.len else w.matchLen;
       m > THRESHOLD ==> 0 <= w.matchPos < N - F && CopyOk(tr.x, tr.pos, w.matchPos + 1, m)
  }

  lemma InsertedTracks(w: State, t: HT.Tree, tr: Trace) returns (tr': Trace)
    requires Window(w, tr) && Within(w.forest, w.r, N - F) && 1 <= w.len <= F + 1 && Coded(w, t, tr.ks)
    ensures var v := InsertAt(w, w.r);
            && AtToken(v, t, tr') && v.last == w.last && v.log == w.log
            && tr'.x == tr.x && tr'.pos == tr.pos && tr'.ks == tr.ks
  {
    hide HT.Inv, Forested, Coded, CopyOk, InsertAt, Wf, Labelled, RingOk, Slot, MatchReady;
    MatchSound(w, tr);
    InsertAtKeeps(w, w.r, N - F) by { DistSelf(w.r); }
    RingRead(w.text, tr.x, tr.pos, 0);
    tr' := InsertWindow(w, tr, w.r, tr.pos);
    InsertAtFrame(w, w.r);
    CodedFrame(w, InsertAt(w, w.r), t, tr.ks);
  }

  /** A token is put for the front of the lookahead. */
  lemma EncodedTracks(u: State, t: HT.Tree, tr: Trace) returns (tr': Trace)
    requires AtToken(u, t, tr) && u.log == tr.ks && Covers(tr.x, tr.ks, tr.pos)
    ensures var v := Encode(u);
            Window(v, tr') && Coded(v, t, tr'.ks) && Ahead(v, tr') && tr'.x == tr.x && tr'.pos == tr.pos
  {
    hide HT.Inv, Forested, Coded, Covers, CopyOk, Wf, Labelled, RingOk, Slot, Encode;
    var k := EncodeTracks(u, t, tr);
    EncodeFrame(u);
    WindowFrame(u, Encode(u), tr);
    tr' := tr.(ks := tr.ks + [k]);
    WindowOf(Encode(u), tr, tr');
  }

  /** Consuming a byte keeps everything but the position. */
  lemma ConsumeTracks(w: State, t: HT.Tree, tr: Trace) returns (tr': Trace)
    requires Window(w, tr) && Within(w.forest, w.r, N - F) && 1 <= w.len <= F + 1
    requires Coded(w, t, tr.ks) && Tiled(w, tr)
    ensures Base(InsertAt(w, w.r)) && MatchReady(InsertAt(w, w.r))
    ensures var v := Consume(w);
            Window(v, tr') && Coded(v, t, tr'.ks) && Ahead(v, tr') && tr'.x == tr.x && tr'.pos == tr.pos
  {
    hide HT.Inv, Forested, Coded, Covers, CopyOk, InsertAt, Wf, Labelled, RingOk, Slot, Encode;
    tr' := InsertedTracks(w, t, tr);
    var i := InsertAt(w, w.r);
    var u := i.(last := i.last - 1);
    CodedFrame(i, u, t, tr.ks);
    WindowFrame(i, u, tr');
    if u.last == 0 { tr' := EncodedTracks(u, t, tr'); }
  }

  lemma WindowOf(w: State, tr: Trace, tr': Trace)
    requires Window(w, tr) && tr' == tr.(ks := tr'.ks)
    ensures Window(w, tr')
  {
  }

  /** Advancing keeps the writer on track. */
  lemma AdvanceTracks(w: State, t: HT.Tree, tr: Trace, c: Option<byte>) returns (tr': Trace)
    requires Tracks(w, t, tr) && (c.Some? ==> w.len == F) && (c.None? ==> w.len >= 1)
    ensures Tracks(Advance(w, c), t, tr')
    ensures tr'.x == tr.x + (if c.Some? then [c.value] else [])
  {
    hide HT.Inv, Forested, Coded, Window, Consume, Delete, Put, Covers, Ahead;
    WindowLen(w, tr);
    AdvanceKeeps(w, c);
    var u := Load(w, c);
    var tr1 := tr;
    if c.Some? {
      tr1 := tr.(x := tr.x + [c.value]);
      LoadWindow(w, tr, c.value);
      CoversExtend(tr.x, [c.value], tr.ks, tr.pos + w.last - 1);
    } else {
      assert tr.x + [] == tr.x;
    }
    CodedFrame(w, u, t, tr.ks);
    var tr2 := ConsumeTracks(u, t, tr1);
    ConsumeKeeps(u);
    var v := Consume(u);
    ReachOfShift(v);
    tr' := ShiftWindow(v, tr2);
    CodedFrame(v, Shift(v), t, tr2.ks);
    assert Advance(w, c) == Shift(v);
    assert |tr'.x| > 0;
    TiledByOne(v, Shift(v), tr2, tr');
  }

  lemma TiledByOne(w: State, v: State, tr: Trace, tr': Trace)
    requires tr.x != [] && tr'.x == tr.x && tr'.ks == tr.ks && tr'.pos == tr.pos + 1
    requires w.last == v.last && w.log == v.log && Ahead(w, tr)
    ensures Tiled(v, tr')
  {
    hide Covers;
    assert tr'.pos + v.last - 1 == tr.pos + w.last;
  }

  lemma WindowLen(w: State, tr: Trace)
    requires Window(w, tr)
    ensures |tr.x| == tr.pos + w.len && Base(w)
  {
  }

  lemma ReachOfShift(w: State)
    requires Shape(w.forest) && w.r < N
    requires forall q: nat {:trigger Registered(w.forest, q)} :: Registered(w.forest, q)
               ==> q == w.r || 1 <= Dist(w.r, q) <= N - F
    ensures forall q: nat {:trigger Registered(w.forest, q)} :: Registered(w.forest, q) ==> Dist(w.r, q) <= N - F
  {
    DistSelf(w.r);
  }

  /** Filling the lookahead keeps the writer on track. */
  lemma FillTracks(w: State, t: HT.Tree, tr: Trace, b: byte) returns (tr': Trace)
    requires Tracks(w, t, tr) && Open(w) && !w.preFilled && tr.pos == 0 && tr.ks == []
    ensures Tracks(WriteByte(w, b), t, tr') && tr'.x == tr.x + [b] && tr'.pos == 0 && tr'.ks == []
  {
    hide HT.Inv, Coded, InsertAt, RingOk, Wf, Slot, Dist;
    WriteByteKeeps(w, b);
    var u := w.(text := w.text[w.r + w.len := b], fileSize := Int32(w.fileSize + 1), len := w.len + 1);
    FillWindow(w, tr, b, u);
    var y := tr.(x := tr.x + [b]);
    FillSlots(u.len);
    tr' := InsertWindow(u, y, u.r - u.len, 0 - u.len);
    InsertAtFrame(u, u.r - u.len);
    var v := InsertAt(u, u.r - u.len);
    CodedFrame(w, WriteByte(w, b), t, []);
    WindowFrame(v, WriteByte(w, b), tr');
  }

  lemma FillSlots(len: nat)
    requires 1 <= len <= F
    ensures Slot(0) == N - F && Slot(0 - len) == N - F - len && Dist(N - F, N - F - len) == len
  {
  }

  lemma FillWindow(w: State, tr: Trace, b: byte, u: State)
    requires Window(w, tr) && Open(w) && !w.preFilled && tr.pos == 0
    requires u == w.(text := w.text[w.r + w.len := b], fileSize := u.fileSize, len := w.len + 1)
    ensures Window(u, tr.(x := tr.x + [b])) && !Registered(u.forest, u.r - u.len)
  {
    hide HT.Inv, NodeOk, ChildOk, Forested, RingOk;
    var y := tr.x + [b];
    RingWrite(w.text, tr.x, b);
    assert Slot(|tr.x|) == w.r + w.len;
    forall q: nat | Registered(w.forest, q)
      ensures Dist(w.r, q) <= F && 0 - Dist(w.r, q) < |y| && tr.lab[q] == Hist(y, 0 - Dist(w.r, q))
    {
    }
  }

  lemma FreshTracks(t: HT.Tree) returns (tr: Trace)
    requires HT.Inv(t)
    ensures Tracks(FreshWriter(t), t, tr) && tr.x == [] && tr.pos == 0 && tr.ks == []
  {
    hide HT.Inv, Wf, RingOk;
    FreshWriterOpen(t);
    FreshForestOk();
    FreshRing();
    tr := Trace([], 0, [], seq(N, _ => 0), seq(N, _ => 0));
    assert Slot(0) == N - F;
  }

  /** A writer that has taken in exactly x. */
  ghost predicate Fed(w: State, t: HT.Tree, tr: Trace, x: seq<byte>) {
    Tracks(w, t, tr) && tr.x == x && (!w.preFilled ==> tr.pos == 0 && tr.ks == [])
  }

  lemma WriteByteTracks(w: State, t: HT.Tree, tr: Trace, x: seq<byte>, b: byte) returns (tr': Trace)
    requires Open(w) && Fed(w, t, tr, x)
    ensures Fed(WriteByte(w, b), t, tr', x + [b])
  {
    hide HT.Inv, Tracks, Advance, InsertAt, Ok;
    if w.preFilled {
      OpenLen(w);
      tr' := AdvanceTracks(w, t, tr, Some(b));
      AdvanceKeeps(w, Some(b));
      TracksFrame(Advance(w, Some(b)), WriteByte(w, b), t, tr');
    } else {
      tr' := FillTracks(w, t, tr, b);
    }
  }

  lemma OpenLen(w: State)
    requires Open(w)
    ensures Ok(w) && (w.preFilled ==> w.len == F)
  {
  }

  /** After any input the writer is on track. */
  lemma {:induction false} WriteAllTracks(w: State, t: HT.Tree, tr: Trace, x: seq<byte>, y: seq<byte>)
    returns (tr': Trace)
    requires Open(w) && Fed(w, t, tr, x)
    ensures Fed(WriteAll(w, y), t, tr', x + y)
    decreases |y|
  {
    hide Open, Fed, WriteByte;
    if y == [] {
      tr' := tr;
      assert x + y == x;
    } else {
      var n := |y| - 1;
      var tr1 := WriteAllTracks(w, t, tr, x, y[..n]);
      tr' := WriteByteTracks(WriteAll(w, y[..n]), t, tr1, x + y[..n], y[n]);
      assert x + y[..n] + [y[n]] == x + y;
    }
  }

  lemma FreshEmpty(t: HT.Tree)
    requires HT.Inv(t)
    ensures exists tr :: Fed(FreshWriter(t), t, tr, [])
  {
    var tr := FreshTracks(t);
    assert Fed(FreshWriter(t), t, tr, []);
  }

  lemma TracksFrame(w: State, v: State, t: HT.Tree, tr: Trace)
    requires Tracks(w, t, tr) && v == w.(fileSize := v.fileSize)
    ensures Tracks(v, t, tr)
  {
    hide HT.Inv, Forested, Coded, Window, Covers;
    CodedFrame(w, v, t, tr.ks);
    WindowFrame(w, v, tr);
  }

  /** Draining the lookahead keeps the writer on track and takes in nothing. */
  lemma {:induction false} DrainTracks(w: State, t: HT.Tree, tr: Trace) returns (tr': Trace)
    requires Tracks(w, t, tr)
    ensures Ok(w) && Tracks(Drain(w), t, tr') && tr'.x == tr.x
    decreases w.len
  {
    hide HT.Inv, Tracks, Advance;
    TracksOk(w, t, tr);
    tr' := tr;
    if w.len == 0 {
    } else {
      AdvanceKeeps(w, None);
      var tr1 := AdvanceTracks(w, t, tr, None);
      tr' := DrainTracks(Advance(w, None), t, tr1);
    }
  }

  lemma TracksOk(w: State, t: HT.Tree, tr: Trace)
    requires Tracks(w, t, tr)
    ensures Ok(w)
  {
  }

  /** The writer after all of x, lookahead drained. */
  function Finished(t: HT.Tree, x: seq<byte>): (w: State)
    requires HT.Inv(t)
    ensures w.len == 0
  {
    FreshWriterOpen(t);
    Drain(WriteAll(FreshWriter(t), x))
  }

  /** The tokens the writer chooses for x, and the bytes it makes of them. */
  function TokensFor(t: HT.Tree, x: seq<byte>): (ks: seq<Token>)
    requires HT.Inv(t)
  {
    Finished(t, x).log
  }

  function Payload(t: HT.Tree, x: seq<byte>): (p: seq<byte>)
    requires HT.Inv(t)
  {
    PutEnd(Finished(t, x).pack)
  }

  /** For every input the chosen tokens are well formed and tile it exactly, and the payload is what the
      packer makes of their codes. */
  lemma WriterEmits(t: HT.Tree, x: seq<byte>)
    requires HT.Inv(t)
    ensures var ks := TokensFor(t, x);
            TokensOk(ks) && Covers(x, ks, |x|) && Payload(t, x) == BS.Bytes(Codes(t, ks))
  {
    hide HT.Inv, Open, Fed, Tracks, FreshWriter, WriteAll, Drain, Codes;
    FreshWriterOpen(t);
    FreshEmpty(t);
    var tr0 :| Fed(FreshWriter(t), t, tr0, []);
    var tr1 := WriteAllTracks(FreshWriter(t), t, tr0, [], x);
    var w := WriteAll(FreshWriter(t), x);
    assert [] + x == x;
    FedTracks(w, t, tr1, x);
    var tr := DrainTracks(w, t, tr1);
    var v := Drain(w);
    assert v == Finished(t, x);
    EndOfInput(v, t, tr);
  }

  lemma FedTracks(w: State, t: HT.Tree, tr: Trace, x: seq<byte>)
    requires Fed(w, t, tr, x)
    ensures Tracks(w, t, tr) && tr.x == x
  {
  }

  /** With the lookahead empty, the last token ends where the input ends. */
  lemma EndOfInput(w: State, t: HT.Tree, tr: Trace)
    requires Tracks(w, t, tr) && w.len == 0
    ensures TokensOk(tr.ks) && w.log == tr.ks && Covers(tr.x, tr.ks, |tr.x|) && HT.Inv(t)
    ensures w.pack == BS.PackAll(Codes(t, tr.ks))
  {
    hide HT.Balanced, Codes, Wf, RingOk, Labelled, TreeAfter;
    if tr.x != [] { CoversExpands(tr.x, tr.ks, tr.pos + w.last - 1); }
  }
}
