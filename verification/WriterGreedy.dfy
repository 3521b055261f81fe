/**
 The tokens a writer chooses are the longest there are: while its search trees are in order
 and every position in reach is stood for by a registered slot, no longer match is missed.
 */
module WriterGreedy {
  import opened Common
  import opened Bits
  import HT = HuffmanTree
  import opened MatchForest
  import opened MatchFinder
  import opened SearchTree
  import opened SearchForest
  import opened FillOrder
  import opened FillRun
  import opened Tokens
  import opened TextRing
  import opened WriterModel
  import opened WriterCorrect

  // What is in reach.

  /** The blank positions before the text go out of reach together. */
  function Low(j: int): int { if j < 0 then 0 - F else j }

  /** Slot q stands for position j: it has the same text, and goes out of reach no sooner. */
  ghost predicate Rep(w: State, x: seq<byte>, pos: nat, j: int, q: nat)
    requires Shape(w.forest) && |w.text| == N + F - 1 && j < |x|
  {
    && Registered(w.forest, q) && Dist(w.r, q) <= pos - Low(j) && pos - Dist(w.r, q) < |x|
    && Hist(x, pos - Dist(w.r, q)) == Hist(x, j) && SameTo(w.text, q, Slot(j), F)
  }

  ghost predicate Known(w: State, x: seq<byte>, pos: nat, j: int)
    requires Shape(w.forest) && |w.text| == N + F - 1 && j < |x|
  {
    exists q: nat :: Rep(w, x, pos, j, q)
  }

  ghost predicate AllKnown(w: State, x: seq<byte>, pos: nat, top: nat)
    requires Shape(w.forest) && |w.text| == N + F - 1 && top <= |x|
  {
    forall j: int {:trigger Known(w, x, pos, j)} ::
      0 <= j + F && 0 <= j + |x| && j < top && pos - Low(j) <= N - F ==> Known(w, x, pos, j)
  }

  /** Taking in a byte does not touch the text of a slot in reach. */
  lemma ReachKept(text: seq<byte>, r: nat, q: nat, b: byte, i: nat)
    requires |text| == N + F - 1 && r < N && q < N && 1 <= Dist(r, q) <= N - F && 1 <= i < F
    ensures Kept(text, Put(text, (r + F) % N, b), q, i)
  {
    var s := (r + F) % N;
    assert q + i == s || q + i == s + N ==> Dist(r, q) == N - F + i;
  }

  lemma SameFrame(text: seq<byte>, u: seq<byte>, a: nat, c: nat)
    requires |text| == |u| == N + F - 1 && a < N && c < N
    requires forall i: nat :: 1 <= i < F ==> Kept(text, u, a, i) && Kept(text, u, c, i)
    ensures (SameTo(u, a, c, F) <==> SameTo(text, a, c, F)) && (Before(u, a, c) <==> Before(text, a, c))
  {
    hide Agree, SameTo, Before;
    OrderStays(text, u, a, c);
    AgreeOrders(text, a, c);
    AgreeOrders(u, a, c);
  }

  /** Search trees stay in order if the text of their slots stays. */
  lemma OrderFrame(f: Forest, text: seq<byte>, u: seq<byte>)
    requires Shape(f) && |text| == |u| == N + F - 1 && InOrder(f, text)
    requires forall q: nat, i: nat :: Registered(f, q) && 1 <= i < F ==> Kept(text, u, q, i)
    ensures InOrder(f, u)
  {
    hide Before, Inorder, Holds, Kept;
    forall e: nat | e < 256 ensures HasTree(f, u, e) {
      assert HasTree(f, text, e);
      var t :| TreeOf(f, text, e, t);
      HeldSlots(f, f.rson[N + 1 + e], t);
      var s := Inorder(t);
      forall i, j | 0 <= i < j < |s| ensures !Before(u, s[j], s[i]) {
        assert s[i] in s && s[j] in s;
        SameFrame(text, u, s[j], s[i]);
      }
      assert TreeOf(f, u, e, t);
    }
  }

  lemma LoadOrder(w: State, b: byte)
    requires Ok(w) && InOrder(w.forest, w.text)
    ensures InOrder(w.forest, Put(w.text, w.s, b))
  {
    hide HT.Inv, Forested, InOrder, Put, Dist, Kept;
    forall q: nat, i: nat | Registered(w.forest, q) && 1 <= i < F ensures Kept(w.text, Put(w.text, w.s, b), q, i) {
      ReachKept(w.text, w.r, q, b, i);
    }
    OrderFrame(w.forest, w.text, Put(w.text, w.s, b));
  }

  lemma LoadKnown(w: State, tr: Trace, b: byte)
    requires Ok(w) && Window(w, tr) && w.len == F && AllKnown(w, tr.x, tr.pos, tr.pos)
    ensures AllKnown(Load(w, Some(b)), tr.x + [b], tr.pos, tr.pos)
  {
    hide HT.Inv, Forested, Put, Dist, Kept, Wf, RingOk, Labelled, SameTo, Slot;
    var v, y := Load(w, Some(b)), tr.x + [b];
    forall j: int | 0 <= j + F && 0 <= j + |y| && j < tr.pos && tr.pos - Low(j) <= N - F
      ensures Known(v, y, tr.pos, j)
    {
      assert Known(w, tr.x, tr.pos, j);
      var q: nat :| Rep(w, tr.x, tr.pos, j, q);
      DistOfSlots(tr.pos, tr.pos - j);
      forall i: nat | 1 <= i < F ensures Kept(w.text, v.text, q, i) && Kept(w.text, v.text, Slot(j), i) {
        ReachKept(w.text, w.r, q, b, i);
        ReachKept(w.text, w.r, Slot(j), b, i);
      }
      SameFrame(w.text, v.text, q, Slot(j));
      assert Rep(v, y, tr.pos, j, q);
    }
  }

  /** Registering the front of the lookahead makes its position known and loses none. */
  lemma InsertKnown(w: State, tr: Trace)
    requires Window(w, tr) && Within(w.forest, w.r, N - F) && 1 <= w.len <= F + 1
    requires InOrder(w.forest, w.text) && AllKnown(w, tr.x, tr.pos, tr.pos)
    ensures var v := InsertAt(w, w.r);
            Shape(v.forest) && InOrder(v.forest, v.text) && AllKnown(v, tr.x, tr.pos, tr.pos + 1)
  {
    hide HT.Inv, Insert, NodeOk, ChildOk, Dist, RingOk, InOrder, SameTo, Slot;
    DistSelf(w.r);
    var v := InsertAt(w, w.r);
    var x, pos := tr.x, tr.pos;
    InsertKeepsOrder(w.forest, tr.lab, tr.rank, w.text, w.r, w.matchPos);
    RingRead(w.text, x, pos, 0);
    var rank' := InsertKeeps(w.forest, tr.lab, tr.rank, w.text, w.r, w.matchPos);
    forall j: int | 0 <= j + F && 0 <= j + |x| && j < pos + 1 && pos - Low(j) <= N - F
      ensures Known(v, x, pos, j)
    {
      if j == pos {
        SameSelf(w.text, w.r);
        assert Rep(v, x, pos, j, w.r);
      } else {
        assert Known(w, x, pos, j);
        var q: nat :| Rep(w, x, pos, j, q);
        InsertMembers(w.forest, tr.lab, tr.rank, w.text, w.r, w.matchPos, q);
        if Registered(v.forest, q) {
          assert Rep(v, x, pos, j, q);
        } else {
          SameJoins(w.text, w.r, q, Slot(j));
          assert Rep(v, x, pos, j, w.r);
        }
      }
    }
  }

  lemma DistAhead(r: nat)
    requires r < N
    ensures Dist(r, (r + F) % N) == N - F
  {
  }

  /** Moving on keeps known what stays in reach. */
  lemma ShiftKnown(w: State, x: seq<byte>, pos: nat)
    requires Base(w) && w.s == (w.r + F) % N && 1 <= w.len && pos + 1 <= |x|
    requires forall q: nat {:trigger Registered(w.forest, q)} :: Registered(w.forest, q) ==> Dist(w.r, q) <= N - F
    requires InOrder(w.forest, w.text) && AllKnown(w, x, pos, pos + 1)
    ensures var v := Shift(w);
            Shape(v.forest) && InOrder(v.forest, v.text) && AllKnown(v, x, pos + 1, pos + 1)
  {
    hide HT.Inv, Forested, Delete, Dist, InOrder, SameTo, Slot;
    var lab, rank := Witness(w.forest);
    DeleteKeepsOrder(w.forest, lab, rank, w.text, w.s);
    Deletes(w.forest, w.s);
    DistAhead(w.r);
    var v := Shift(w);
    forall j: int | 0 <= j + F && 0 <= j + |x| && j < pos + 1 && pos + 1 - Low(j) <= N - F
      ensures Known(v, x, pos + 1, j)
    {
      assert Known(w, x, pos, j);
      var q: nat :| Rep(w, x, pos, j, q);
      DistStep(w.r, q);
      assert Rep(v, x, pos + 1, j, q);
    }
  }

  // What is chosen.

  /** Positions d back from p that the match finder keeps: in the text, and in the blanks while all of those last. */
  ghost predicate Reaches(x: seq<byte>, p: nat, d: nat) {
    1 <= d && if d <= p then d <= N - F else d <= p + |x| && p + F <= N - F
  }

  /** No copy from a position in reach reproduces more than n of the next sixty bytes. */
  ghost predicate NoLonger(x: seq<byte>, p: nat, n: nat) {
    forall d: nat, m: nat :: CopyOk(x, p, d, m) && Reaches(x, p, d) && m <= F ==> m <= n
  }

  function Width(k: Token): nat { if k.Literal? then 1 else k.len }

  /** Every token, the last ending at n, is a longest match, or a byte where no match is longer than two bytes. */
  ghost predicate Greedy(x: seq<byte>, ks: seq<Token>, n: int) {
    ks != [] ==>
      var (k, front) := (ks[|ks| - 1], ks[..|ks| - 1]);
      && n >= Width(k) && NoLonger(x, n - Width(k), if k.Literal? then THRESHOLD else k.len)
      && Greedy(x, front, n - Width(k))
  }

  /** A position in reach that matches m bytes is found to match as many. */
  lemma MatchFound(w: State, tr: Trace, d: nat, m: nat)
    requires Window(w, tr) && Within(w.forest, w.r, N - F) && 1 <= w.len <= F + 1
    requires InOrder(w.forest, w.text) && AllKnown(w, tr.x, tr.pos, tr.pos)
    requires CopyOk(tr.x, tr.pos, d, m) && Reaches(tr.x, tr.pos, d) && THRESHOLD < m <= F
    ensures m <= InsertAt(w, w.r).matchLen
  {
    hide HT.Inv, Insert, NodeOk, ChildOk, Dist, RingOk, InOrder, SameTo, Slot, Agree;
    DistSelf(w.r);
    var x, pos := tr.x, tr.pos;
    var j := pos - d;
    assert Known(w, x, pos, j);
    var q: nat :| Rep(w, x, pos, j, q);
    RingRead(w.text, x, pos, 0);
    assert x[pos] == Hist(x, j);
    AgreesThrough(w, tr, d, m, q);
    InsertLongest(w.forest, tr.lab, tr.rank, w.text, w.r, w.matchPos, q);
  }

  lemma AgreesThrough(w: State, tr: Trace, d: nat, m: nat, q: nat)
    requires Window(w, tr) && 1 <= w.len <= F + 1 && q < N
    requires CopyOk(tr.x, tr.pos, d, m) && 1 <= d <= N - F && 1 <= m <= F
    requires SameTo(w.text, q, Slot(tr.pos - d), F)
    ensures Agree(w.text, w.r, q, 1) >= m
  {
    hide HT.Inv, Forested, Wf, Labelled, RingOk, Slot, Agree;
    var x, pos := tr.x, tr.pos;
    var n := Agree(w.text, w.r, q, 1);
    forall i: nat | 1 <= i < m ensures SameAt(w.text, w.r, q, i) {
      RingRead(w.text, x, pos, i);
      RingRead(w.text, x, pos - d, i);
      assert x[pos + i] == Hist(x, pos + i - d);
      assert SameAt(w.text, q, Slot(pos - d), i);
    }
    assert n < m ==> SameAt(w.text, w.r, q, n);
  }

  /** The token put for the front of the lookahead: the match, cut to the lookahead, if it is worth it. */
  lemma EncodeChoice(w: State)
    requires Base(w) && MatchReady(w) && 1 <= w.len
    ensures var (v, m) := (Encode(w), if w.matchLen > w.len then w.len else w.matchLen);
            && v.log == w.log + [if m <= THRESHOLD then Literal(w.text[w.r]) else Copy(w.matchPos + 1, m)]
            && v.last == if m <= THRESHOLD then 1 else m
  {
    hide HT.Inv, Forested, EncodeChar, EncodePosition;
  }

  lemma NoLongerExtend(x: seq<byte>, y: seq<byte>, p: nat, n: nat)
    requires NoLonger(x, p, n) && p + F <= |x|
    ensures NoLonger(x + y, p, n)
  {
    forall d: nat, m: nat | CopyOk(x + y, p, d, m) && Reaches(x + y, p, d) && m <= F ensures m <= n {
      forall i | p <= i < p + m ensures x[i] == Hist(x, i - d) {
        assert (x + y)[i] == Hist(x + y, i - d);
      }
      assert CopyOk(x, p, d, m);
    }
  }

  lemma {:induction false} GreedyExtend(x: seq<byte>, y: seq<byte>, ks: seq<Token>, n: int)
    requires Greedy(x, ks, n) && (ks != [] ==> n - Width(ks[|ks| - 1]) + F <= |x|)
    ensures Greedy(x + y, ks, n)
    decreases |ks|
  {
    hide NoLonger;
    if ks == [] {
    } else {
      var (k, front) := (ks[|ks| - 1], ks[..|ks| - 1]);
      NoLongerExtend(x, y, n - Width(k), if k.Literal? then THRESHOLD else k.len);
      GreedyExtend(x, y, front, n - Width(k));
    }
  }

  // Whole runs.

  /** The tokens emitted are greedy up to e, and the last of them starts no later than pos. */
  ghost predicate Chosen(x: seq<byte>, ks: seq<Token>, pos: nat, e: int) {
    Greedy(x, ks, e) && (ks != [] ==> e - Width(ks[|ks| - 1]) <= pos)
  }

  /** A writer on track whose match finder is in order and complete, and whose tokens are greedy. */
  ghost predicate Sharp(w: State, t: HT.Tree, tr: Trace) {
    && Tracks(w, t, tr) && InOrder(w.forest, w.text) && AllKnown(w, tr.x, tr.pos, tr.pos)
    && Chosen(tr.x, w.log, tr.pos, tr.pos + w.last - 1)
  }

  lemma ChosenNext(x: seq<byte>, ks: seq<Token>, pos: nat, k: Token)
    requires Greedy(x, ks, pos) && NoLonger(x, pos, if k.Literal? then THRESHOLD else k.len)
    ensures Chosen(x, ks + [k], pos, pos + Width(k))
  {
    hide NoLonger;
    assert (ks + [k])[..|ks|] == ks;
  }

  /** Consuming a byte: the position becomes known, and the token put, if any, is a longest match. */
  lemma ConsumeSharp(w: State, tr: Trace)
    requires Window(w, tr) && Within(w.forest, w.r, N - F) && 1 <= w.len <= F + 1
    requires InOrder(w.forest, w.text) && AllKnown(w, tr.x, tr.pos, tr.pos)
    requires Chosen(tr.x, w.log, tr.pos, tr.pos + w.last - 1)
    ensures Base(InsertAt(w, w.r)) && MatchReady(InsertAt(w, w.r))
    ensures var v := Consume(w);
            && Shape(v.forest) && InOrder(v.forest, v.text) && AllKnown(v, tr.x, tr.pos, tr.pos + 1)
            && Chosen(tr.x, v.log, tr.pos, tr.pos + v.last)
  {
    hide HT.Inv, Forested, InsertAt, Encode, MatchReady, Wf, Labelled, RingOk, Slot, InOrder, AllKnown, Greedy;
    ConsumeKeeps(w);
    InsertKnown(w, tr);
    InsertAtFrame(w, w.r);
    var i := InsertAt(w, w.r);
    var u := i.(last := i.last - 1);
    MatchReadyFrame(i, u);
    KnownFrame(i, u, tr.x, tr.pos, tr.pos + 1);
    if u.last == 0 {
      EncodeFrame(u);
      KnownFrame(u, Encode(u), tr.x, tr.pos, tr.pos + 1);
      EncodeChoice(u);
      TokenLongest(w, tr);
      var m := if u.matchLen > u.len then u.len else u.matchLen;
      ChosenNext(tr.x, w.log, tr.pos, if m <= THRESHOLD then Literal(u.text[u.r]) else Copy(u.matchPos + 1, m));
    }
  }

  lemma KnownFrame(w: State, v: State, x: seq<byte>, pos: nat, top: nat)
    requires Shape(w.forest) && |w.text| == N + F - 1 && top <= |x| && AllKnown(w, x, pos, top)
    requires v.forest == w.forest && v.text == w.text && v.r == w.r
    ensures AllKnown(v, x, pos, top)
  {
    hide Hist, SameTo, Slot, Dist;
    forall j: int | 0 <= j + F && 0 <= j + |x| && j < top && pos - Low(j) <= N - F ensures Known(v, x, pos, j) {
      assert Known(w, x, pos, j);
      var q: nat :| Rep(w, x, pos, j, q);
      assert Rep(v, x, pos, j, q);
    }
  }

  lemma TokenLongest(w: State, tr: Trace)
    requires Window(w, tr) && Within(w.forest, w.r, N - F) && 1 <= w.len <= F + 1
    requires InOrder(w.forest, w.text) && AllKnown(w, tr.x, tr.pos, tr.pos)
    ensures var n := InsertAt(w, w.r).matchLen; var m := if n > w.len then w.len else n;
            NoLonger(tr.x, tr.pos, if m <= THRESHOLD then THRESHOLD else m)
  {
    hide HT.Inv, Forested, InsertAt, Wf, Labelled, RingOk, Slot, InOrder, AllKnown;
    forall d: nat, m: nat | CopyOk(tr.x, tr.pos, d, m) && Reaches(tr.x, tr.pos, d) && THRESHOLD < m <= F
      ensures m <= InsertAt(w, w.r).matchLen && m <= w.len
    {
      MatchFound(w, tr, d, m);
    }
  }

  /** A writer that has taken in what it will, about to consume a byte. */
  ghost predicate Poised(w: State, tr: Trace) {
    && Window(w, tr) && Within(w.forest, w.r, N - F) && 1 <= w.len <= F + 1 && w.s == (w.r + F) % N
    && InOrder(w.forest, w.text) && AllKnown(w, tr.x, tr.pos, tr.pos)
    && Chosen(tr.x, w.log, tr.pos, tr.pos + w.last - 1)
  }

  lemma LoadPoised(w: State, t: HT.Tree, tr: Trace, c: Option<byte>) returns (tr': Trace)
    requires Sharp(w, t, tr) && (c.Some? ==> w.len == F) && (c.None? ==> w.len >= 1)
    ensures Poised(Load(w, c), tr') && tr' == tr.(x := tr.x + if c.Some? then [c.value] else [])
  {
    hide HT.Inv, Forested, Coded, Window, Put, Covers, InOrder, AllKnown, Greedy, Tiled;
    WindowLen(w, tr);
    if c.Some? {
      tr' := tr.(x := tr.x + [c.value]);
      LoadWindow(w, tr, c.value);
      LoadOrder(w, c.value);
      LoadKnown(w, tr, c.value);
      GreedyExtend(tr.x, [c.value], w.log, tr.pos + w.last - 1);
    } else {
      tr' := tr;
      assert tr.x + [] == tr.x;
    }
  }

  lemma ConsumeShiftSharp(w: State, tr: Trace)
    requires Poised(w, tr)
    ensures Base(w) && Base(InsertAt(w, w.r)) && MatchReady(InsertAt(w, w.r)) && Base(Consume(w)) && Consume(w).len >= 1
    ensures var v := Shift(Consume(w));
            && Shape(v.forest) && |v.text| == N + F - 1 && tr.pos + 1 <= |tr.x|
            && InOrder(v.forest, v.text) && AllKnown(v, tr.x, tr.pos + 1, tr.pos + 1)
            && Chosen(tr.x, v.log, tr.pos + 1, tr.pos + v.last)
  {
    hide HT.Inv, Forested, Consume, Delete, InOrder, AllKnown, Greedy, InsertAt, Wf, Labelled, RingOk, Slot, MatchReady;
    ConsumeSharp(w, tr);
    ConsumeKeeps(w);
    var v := Consume(w);
    ReachOfShift(v);
    ShiftKnown(v, tr.x, tr.pos);
    ChosenOn(tr.x, v.log, tr.pos, tr.pos + v.last);
  }

  /** Advancing keeps a writer sharp. */
  lemma AdvanceSharp(w: State, t: HT.Tree, tr: Trace, c: Option<byte>) returns (tr': Trace)
    requires Sharp(w, t, tr) && (c.Some? ==> w.len == F) && (c.None? ==> w.len >= 1)
    ensures Ok(w) && Sharp(Advance(w, c), t, tr') && tr'.x == tr.x + (if c.Some? then [c.value] else [])
  {
    hide HT.Inv, Tracks, Poised, InOrder, AllKnown, Chosen, Base, MatchReady, InsertAt, Consume, Shift, Load;
    TracksOk(w, t, tr);
    tr' := AdvanceTracks(w, t, tr, c);
    AdvanceKeeps(w, c);
    TracksLen(w, t, tr);
    TracksLen(Advance(w, c), t, tr');
    var tr1 := LoadPoised(w, t, tr, c);
    ConsumeShiftSharp(Load(w, c), tr1);
    ConsumeReady(w, c);
  }

  lemma TracksLen(w: State, t: HT.Tree, tr: Trace)
    requires Tracks(w, t, tr)
    ensures |tr.x| == tr.pos + w.len && Shape(w.forest) && |w.text| == N + F - 1
  {
  }

  lemma ChosenOn(x: seq<byte>, ks: seq<Token>, pos: nat, e: int)
    requires Chosen(x, ks, pos, e)
    ensures Chosen(x, ks, pos + 1, e)
  {
  }

  lemma SharpFrame(w: State, v: State, t: HT.Tree, tr: Trace)
    requires Sharp(w, t, tr) && v == w.(fileSize := v.fileSize)
    ensures Sharp(v, t, tr)
  {
    hide HT.Inv, Tracks, InOrder, AllKnown, Chosen;
    TracksLen(w, t, tr);
    TracksFrame(w, v, t, tr);
    KnownFrame(w, v, tr.x, tr.pos, tr.pos);
  }

  /** The blank slots registered while filling stand for the blank positions. */
  lemma FilledKnown(w: State, rank: seq<nat>, x: seq<byte>)
    requires Filling(w, rank, x) && Orderly(x)
    ensures AllKnown(w, x, 0, 0)
  {
    hide HT.Inv, Forested, Wf, Loaded, InOrder, SameTo;
    forall j: int | 0 <= j + F && 0 <= j + |x| && j < 0 ensures Known(w, x, 0, j) {
      assert Stood(w.forest, w.text, 0 - j);
      var q: nat :| Registered(w.forest, q) && SameTo(w.text, q, START - (0 - j), F);
      FillSlots(0 - j);
      FillSlots(START - q);
      assert Rep(w, x, 0, j, q);
    }
  }

  lemma FillSharp(t: HT.Tree, x: seq<byte>) returns (tr: Trace)
    requires HT.Inv(t) && |x| <= F && Orderly(x)
    ensures Open(FreshWriter(t))
    ensures var w := WriteAll(FreshWriter(t), x);
            Sharp(w, t, tr) && tr.x == x && w.len == |x| && (|x| == F ==> w.preFilled)
  {
    hide HT.Inv, FreshWriter, WriteAll, InOrder, AllKnown, Tracks, Open, Wf, Loaded;
    FreshWriterOpen(t);
    FreshEmpty(t);
    var tr0 :| Fed(FreshWriter(t), t, tr0, []);
    tr := WriteAllTracks(FreshWriter(t), t, tr0, [], x);
    assert [] + x == x;
    var rank := Fills(t, x);
    var w := WriteAll(FreshWriter(t), x);
    TracksLen(w, t, tr);
    FilledKnown(w, rank, x);
  }

  lemma OrderlyPrefix(x: seq<byte>, n: nat)
    requires n <= |x|
    ensures Orderly(x) ==> Orderly(x[..n])
    ensures n >= F && Orderly(x[..n]) ==> Orderly(x)
  {
    forall z: nat | z <= n ensures Blank(x, z) <==> Blank(x[..n], z) {
      assert forall m :: 0 <= m < z ==> x[m] == x[..n][m];
    }
    assert forall z: nat :: z < n ==> x[z] == x[..n][z];
  }

  /** After any orderly input the writer is sharp. */
  lemma {:induction false} WriteSharp(t: HT.Tree, x: seq<byte>) returns (tr: Trace)
    requires HT.Inv(t) && Orderly(x)
    ensures Open(FreshWriter(t))
    ensures var w := WriteAll(FreshWriter(t), x); Sharp(w, t, tr) && tr.x == x && (|x| >= F ==> w.preFilled)
    decreases |x|
  {
    hide HT.Inv, FreshWriter, Sharp, Open, Advance, WriteByte, Orderly;
    FreshWriterOpen(t);
    if |x| <= F {
      tr := FillSharp(t, x);
    } else {
      var n := |x| - 1;
      OrderlyPrefix(x, n);
      var tr0 := WriteSharp(t, x[..n]);
      var w := WriteAll(FreshWriter(t), x[..n]);
      WriteByteFull(w, x[n]);
      tr := AdvanceSharp(w, t, tr0, Some(x[n]));
      SharpFrame(Advance(w, Some(x[n])), WriteByte(w, x[n]), t, tr);
      assert x[..n] + [x[n]] == x;
    }
  }

  lemma {:induction false} DrainSharp(w: State, t: HT.Tree, tr: Trace) returns (tr': Trace)
    requires Sharp(w, t, tr)
    ensures Ok(w) && Sharp(Drain(w), t, tr') && tr'.x == tr.x
    decreases w.len
  {
    hide HT.Inv, Tracks, Advance, InOrder, AllKnown, Chosen;
    TracksOk(w, t, tr);
    tr' := tr;
    if w.len == 0 {
    } else {
      AdvanceKeeps(w, None);
      var tr1 := AdvanceSharp(w, t, tr, None);
      tr' := DrainSharp(Advance(w, None), t, tr1);
      assert tr.x + [] == tr.x;
    }
  }

  /**
   For every orderly text each token the writer chooses is a longest match, or a byte where no match
   of three bytes is in reach.
   */
  lemma WriterChooses(t: HT.Tree, x: seq<byte>)
    requires HT.Inv(t) && Orderly(x)
    ensures Greedy(x, TokensFor(t, x), |x|)
  {
    hide HT.Inv, FreshWriter, WriteAll, Drain, Tracks, InOrder, AllKnown, Greedy, Orderly;
    var tr0 := WriteSharp(t, x);
    var w := WriteAll(FreshWriter(t), x);
    var tr := DrainSharp(w, t, tr0);
    var v := Drain(w);
    EndsThere(v, t, tr);
    GreedyNone(x);
  }

  lemma GreedyNone(x: seq<byte>)
    ensures forall n: int :: Greedy(x, [], n)
  {
  }

  lemma EndsThere(w: State, t: HT.Tree, tr: Trace)
    requires Tracks(w, t, tr) && w.len == 0
    ensures tr.x != [] ==> tr.pos + w.last - 1 == |tr.x|
    ensures tr.x == [] ==> w.log == []
  {
    hide HT.Balanced, Codes, Wf, RingOk, Labelled, TreeAfter;
    if tr.x != [] { CoversExpands(tr.x, tr.ks, tr.pos + w.last - 1); }
  }

  /** The search trees are in order throughout if and only if the text is orderly. */
  lemma OrderedThroughout(t: HT.Tree, x: seq<byte>)
    requires HT.Inv(t)
    ensures Open(FreshWriter(t))
    ensures (forall n: nat :: n <= |x| ==> Searchable(t, x[..n])) <==> Orderly(x)
  {
    hide HT.Inv, FreshWriter, WriteAll, Open, Orderly, Sharp, Searchable;
    FreshWriterOpen(t);
    if Orderly(x) {
      forall n: nat | n <= |x| ensures Searchable(t, x[..n]) {
        OrderlyPrefix(x, n);
        var tr := WriteSharp(t, x[..n]);
        SharpSearches(t, x[..n], tr);
      }
    }
    var m := if |x| < F then |x| else F;
    OrderlyPrefix(x, m);
    OrderedIff(t, x[..m]);
    SearchableIs(t, x[..m]);
    assert |x| < F ==> x[..m] == x;
  }

  /** The writer's search trees are in order after x. */
  ghost predicate Searchable(t: HT.Tree, x: seq<byte>)
    requires HT.Inv(t)
  {
    FreshWriterOpen(t);
    var w := WriteAll(FreshWriter(t), x);
    InOrder(w.forest, w.text)
  }

  lemma SearchableIs(t: HT.Tree, x: seq<byte>)
    requires HT.Inv(t)
    ensures Open(FreshWriter(t))
    ensures var w := WriteAll(FreshWriter(t), x); Searchable(t, x) <==> InOrder(w.forest, w.text)
  {
    hide HT.Inv, FreshWriter, WriteAll, Open, InOrder;
    FreshWriterOpen(t);
  }

  lemma SharpSearches(t: HT.Tree, x: seq<byte>, tr: Trace)
    requires HT.Inv(t) && Open(FreshWriter(t)) && Sharp(WriteAll(FreshWriter(t), x), t, tr)
    ensures Searchable(t, x)
  {
    hide HT.Inv, FreshWriter, WriteAll, Open, InOrder, Tracks, AllKnown, Chosen;
    FreshWriterOpen(t);
  }
}
