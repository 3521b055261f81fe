/**
 A writer filling its lookahead: its search trees are in order if and only if no byte above
 the space comes in behind two to 58 spaces and nothing else.
 */
module FillRun {
  import opened Common
  import opened Bits
  import HT = HuffmanTree
  import opened MatchForest
  import opened MatchFinder
  import opened SearchTree
  import opened SearchForest
  import opened FillOrder
  import opened Tokens
  import opened TextRing
  import opened WriterModel

  /** Every slot registered so far starts with a space. */
  function Spaces(): (lab: seq<nat>)
    ensures |lab| == N && forall k :: 0 <= k < N ==> lab[k] == 32
  {
    seq(N, _ => 32)
  }

  /** Some registered slot has the text of the blank slot k back. */
  ghost predicate Stood(f: Forest, text: seq<byte>, k: nat)
    requires Shape(f) && |text| == N + F - 1 && 1 <= k <= F
  {
    exists q: nat :: Registered(f, q) && SameTo(text, q, START - k, F)
  }

  ghost predicate FillForest(f: Forest, text: seq<byte>, x: seq<byte>)
    requires Shape(f) && |text| == N + F - 1 && |x| <= F
  {
    && OnlyBlanks(f, |x|)
    && (Orderly(x) ==>
          && InOrder(f, text) && (forall k: nat :: 1 <= k <= |x| ==> Stood(f, text, k))
          && (Blank(x, |x|) && 1 <= |x| <= F - 2 ==> Registered(f, START - 1) && Registered(f, START - |x|)))
    && (!Orderly(x) ==> Turned(f))
  }

  lemma OrderlyFront(x: seq<byte>, b: byte)
    ensures Orderly(x + [b]) ==> Orderly(x) && Fits(x, b)
    ensures Orderly(x) && Fits(x, b) ==> Orderly(x + [b])
  {
    var y := x + [b];
    forall z: nat | z <= |x| ensures Blank(x, z) <==> Blank(y, z) {
      assert forall m :: 0 <= m < z ==> x[m] == y[m];
    }
    assert forall z: nat :: z < |x| ==> x[z] == y[z];
    assert y[|x|] == b;
  }

  lemma LoadOne(text: seq<byte>, x: seq<byte>, b: byte)
    requires Loaded(text, x) && |x| < F
    ensures Loaded(text[START + |x| := b], x + [b])
  {
  }

  /** The slot for the next byte does not reach the bytes that have come in. */
  lemma FillInsert(f: Forest, rank: seq<nat>, text: seq<byte>, x: seq<byte>, b: byte, pos: int)
    returns (rank': seq<nat>)
    requires Shape(f) && Wf(f, Spaces(), rank) && Loaded(text, x) && |x| < F && FillForest(f, text, x)
    ensures Forested(f) && !Registered(f, START - (|x| + 1))
    ensures var u := text[START + |x| := b]; var g := Insert(f, u, START - (|x| + 1), pos).0;
            Wf(g, Spaces(), rank') && FillForest(g, u, x + [b])
  {
    hide Insert, NodeOk, ChildOk, Loaded, Turned, InOrder, SameTo, Stood;
    LoadedLength(text, x);
    LoadOne(text, x, b);
    OrderlyFront(x, b);
    var n := |x| + 1;
    var r := START - n;
    var u := text[START + |x| := b];
    assert u[r] == 32 by { FillByte(u, x + [b], n); }
    rank' := InsertKeeps(f, Spaces(), rank, u, r, pos);
    assert Spaces()[r := 32] == Spaces();
    if Orderly(x + [b]) {
      FillKeepsOrder(f, text, x, b);
      InsertKeepsOrder(f, Spaces(), rank, u, r, pos);
      FillStood(f, rank, text, x, b, pos);
      if Blank(x + [b], n) && n <= F - 2 {
        BlankBack(x, b);
        FirstKept(f, rank, u, x, b, pos);
      }
    } else {
      if Orderly(x) {
        BlankTurns(f, Spaces(), rank, text, x);
        TurnedStays(f, Spaces(), rank, u, x + [b], |x|, n, pos) by { BlankFront(x, b, |x|); }
      } else {
        var z: nat :| 2 <= z <= F - 2 && z < |x| && Blank(x, z) && x[z] > 32;
        BlankFront(x, b, z);
        TurnedStays(f, Spaces(), rank, u, x + [b], z, n, pos);
      }
    }
  }

  lemma BlankFront(x: seq<byte>, b: byte, z: nat)
    requires z <= |x| && Blank(x, z)
    ensures Blank(x + [b], z)
  {
  }

  lemma BlankBack(x: seq<byte>, b: byte)
    requires Blank(x + [b], |x| + 1)
    ensures Blank(x, |x|)
  {
    assert forall m :: 0 <= m < |x| ==> x[m] == (x + [b])[m];
  }

  lemma FillByte(text: seq<byte>, x: seq<byte>, k: nat)
    requires Loaded(text, x) && 1 <= k <= F
    ensures text[START - k] == 32
  {
  }

  /** The first blank slot is not replaced. */
  lemma FirstKept(f: Forest, rank: seq<nat>, u: seq<byte>, x: seq<byte>, b: byte, pos: int)
    requires Shape(f) && Wf(f, Spaces(), rank) && |u| == N + F - 1 && Loaded(u, x + [b])
    requires |x| + 1 <= F - 2 && Blank(x + [b], |x| + 1)
    requires InOrder(f, u) && !Registered(f, START - (|x| + 1)) && u[START - (|x| + 1)] == 32
    requires |x| >= 1 ==> Registered(f, START - 1)
    ensures Forested(f)
    ensures var g := Insert(f, u, START - (|x| + 1), pos).0;
            Registered(g, START - 1) && Registered(g, START - (|x| + 1))
  {
    hide Insert, NodeOk, ChildOk, Loaded, InOrder, SameTo;
    var n := |x| + 1;
    var rank' := InsertKeeps(f, Spaces(), rank, u, START - n, pos);
    if n >= 2 {
      FirstFirst(u, x + [b], n);
      InsertMembers(f, Spaces(), rank, u, START - n, pos, START - 1);
    }
  }

  lemma SameJoins(text: seq<byte>, a: nat, b: nat, c: nat)
    requires |text| == N + F - 1 && a < N && b < N && c < N && SameTo(text, a, b, F) && SameTo(text, b, c, F)
    ensures SameTo(text, a, c, F)
  {
    forall j: nat | 1 <= j < F ensures SameAt(text, a, c, j) {
      assert SameAt(text, a, b, j) && SameAt(text, b, c, j);
    }
  }

  /** Every blank slot registered is still stood for. */
  lemma FillStood(f: Forest, rank: seq<nat>, text: seq<byte>, x: seq<byte>, b: byte, pos: int)
    requires Shape(f) && Wf(f, Spaces(), rank) && Loaded(text, x) && |x| < F && OnlyBlanks(f, |x|)
    requires !Registered(f, START - (|x| + 1)) && InOrder(f, text[START + |x| := b])
    requires text[START + |x| := b][START - (|x| + 1)] == 32
    requires forall k: nat :: 1 <= k <= |x| ==> Stood(f, text, k)
    ensures Forested(f)
    ensures var u := text[START + |x| := b]; var g := Insert(f, u, START - (|x| + 1), pos).0;
            forall k: nat :: 1 <= k <= |x| + 1 ==> Stood(g, u, k)
  {
    hide Insert, NodeOk, ChildOk, Loaded, InOrder, SameTo;
    LoadedLength(text, x);
    var u, r := text[START + |x| := b], START - (|x| + 1);
    var rank' := InsertKeeps(f, Spaces(), rank, u, r, pos);
    var g := Insert(f, u, r, pos).0;
    forall k: nat | 1 <= k <= |x| + 1 ensures Stood(g, u, k) {
      if k == |x| + 1 {
        SameSelf(u, r);
      } else {
        assert Stood(f, text, k);
        var q: nat :| Registered(f, q) && SameTo(text, q, START - k, F);
        SameStays(text, x, b, k, START - q);
        InsertMembers(f, Spaces(), rank, u, r, pos, q);
        if !Registered(g, q) { SameJoins(u, r, q, START - k); }
      }
    }
  }

  /** A writer that has taken in x, no more than the lookahead holds. */
  ghost predicate Filling(w: State, rank: seq<nat>, x: seq<byte>) {
    && Open(w) && |x| <= F && w.len == |x| && w.r == START && (w.preFilled <==> |x| == F) && w.log == []
    && Loaded(w.text, x) && Wf(w.forest, Spaces(), rank) && FillForest(w.forest, w.text, x)
  }

  lemma FillByteKeeps(w: State, rank: seq<nat>, x: seq<byte>, b: byte) returns (rank': seq<nat>)
    requires Filling(w, rank, x) && |x| < F
    ensures Open(w) && Filling(WriteByte(w, b), rank', x + [b])
  {
    hide HT.Inv, Forested, Wf, Insert, FillForest, Loaded;
    WriteByteKeeps(w, b);
    FillIs(w, b);
    var u := w.(text := w.text[w.r + w.len := b], fileSize := Int32(w.fileSize + 1), len := w.len + 1);
    rank' := FillInsert(w.forest, rank, w.text, x, b, w.matchPos);
    LoadOne(w.text, x, b);
  }

  lemma FreshFills(t: HT.Tree)
    requires HT.Inv(t)
    ensures Filling(FreshWriter(t), seq(N, _ => 0), [])
  {
    hide HT.Inv;
    FreshWriterOpen(t);
    FreshForestOk();
    var f, text := FreshForest(), FreshText();
    assert Wf(f, Spaces(), seq(N, _ => 0));
    forall b: nat | b < 256 ensures HasTree(f, text, b) {
      SearchesOne(text, 0);
      assert TreeOf(f, text, b, Leaf);
    }
  }

  /** Filling up the lookahead. */
  lemma {:induction false} Fills(t: HT.Tree, x: seq<byte>) returns (rank: seq<nat>)
    requires HT.Inv(t) && |x| <= F
    ensures Open(FreshWriter(t)) && Filling(WriteAll(FreshWriter(t), x), rank, x)
    decreases |x|
  {
    hide HT.Inv, Open, FreshWriter, WriteByte, Filling;
    FreshWriterOpen(t);
    if x == [] {
      rank := seq(N, _ => 0);
      FreshFills(t);
    } else {
      var n := |x| - 1;
      var rank0 := Fills(t, x[..n]);
      rank := FillByteKeeps(WriteAll(FreshWriter(t), x[..n]), rank0, x[..n], x[n]);
      assert x[..n] + [x[n]] == x;
    }
  }

  /** The search trees are in order after filling if and only if the text is orderly. */
  lemma OrderedIff(t: HT.Tree, x: seq<byte>)
    requires HT.Inv(t) && |x| <= F
    ensures Open(FreshWriter(t))
    ensures var w := WriteAll(FreshWriter(t), x); InOrder(w.forest, w.text) <==> Orderly(x)
  {
    hide HT.Inv, FreshWriter, WriteAll, Turned, InOrder, Wf, Loaded;
    var rank := Fills(t, x);
    var w := WriteAll(FreshWriter(t), x);
    if !Orderly(x) {
      var z: nat :| 2 <= z <= F - 2 && z < |x| && Blank(x, z) && x[z] > 32;
      TurnedBreaks(w.forest, w.text, x, z);
    }
  }
}
