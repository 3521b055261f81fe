/**
 A text that is not orderly, and a longest match its writer misses: two spaces and a letter put the
 second blank slot into a branch of the tree where it is not looked for.
 */
module MissedMatch {
  import opened Common
  import opened Bits
  import HT = HuffmanTree
  import opened MatchForest
  import opened MatchFinder
  import opened SearchTree
  import opened SearchForest
  import opened FillOrder
  import opened FillRun
  import opened Tokens
  import opened TextRing
  import opened WriterModel
  import opened WriterCorrect
  import opened WriterGreedy

  /** Two spaces, a letter, four spaces and the letter again. */
  const TEXT: seq<byte> := [32, 32, 97, 32, 32, 32, 32, 97]

  /** The first blank slot is on top of the tree of the space, and the second one to its right. */
  ghost predicate Hidden(f: Forest)
    requires Shape(f)
  {
    exists l, r :: HiddenIn(f, l, r)
  }

  ghost predicate HiddenIn(f: Forest, l: Tree, r: Tree)
    requires Shape(f)
  {
    && Holds(f, f.rson[N + 1 + 32], Node(l, START - 1, r)) && Proper(Node(l, START - 1, r))
    && START - 2 in Inorder(r)
  }

  /** A slot whose text differs from theirs leaves the two where they are. */
  lemma HiddenStays(f: Forest, lab: seq<nat>, rank: seq<nat>, text: seq<byte>, q: nat, pos: int)
    requires Shape(f) && Wf(f, lab, rank) && |text| == N + F - 1 && q < N && !Registered(f, q) && Hidden(f)
    requires text[q] == 32 && !SameTo(text, q, START - 1, F) && !SameTo(text, q, START - 2, F)
    ensures Forested(f) && Hidden(Insert(f, text, q, pos).0)
  {
    hide Inorder, Holds, NodeOk, ChildOk, Insert, SameTo, NotBefore, Different;
    var l, r :| HiddenIn(f, l, r);
    var t := Node(l, START - 1, r);
    InsertTrees(f, lab, rank, text, q, pos, t, 32, t);
    ProperSplits(l, START - 1, r);
    AddProper(text, t, q);
    AddMembers(text, r, q);
    var g := Insert(f, text, q, pos).0;
    if NotBefore(text, q, START - 1) {
      assert HiddenIn(g, l, Add(text, r, q));
    } else {
      assert HiddenIn(g, Add(text, l, q), r);
    }
  }

  /** Slots of another byte do not concern them. */
  lemma HiddenApart(f: Forest, lab: seq<nat>, rank: seq<nat>, text: seq<byte>, q: nat, pos: int, own: Tree)
    requires Shape(f) && Wf(f, lab, rank) && |text| == N + F - 1 && q < N && !Registered(f, q) && Hidden(f)
    requires text[q] != 32 && Holds(f, f.rson[N + 1 + text[q]], own) && Proper(own)
    ensures Forested(f) && Hidden(Insert(f, text, q, pos).0)
  {
    hide Inorder, Holds, NodeOk, ChildOk, Insert, Different;
    var l, r :| HiddenIn(f, l, r);
    InsertTrees(f, lab, rank, text, q, pos, own, 32, Node(l, START - 1, r));
    assert HiddenIn(Insert(f, text, q, pos).0, l, r);
  }

  lemma {:induction false} PathListed(f: Forest, text: seq<byte>, r: nat, p: nat, right: bool, qs: seq<nat>, pl: Place,
                                      t: Tree)
    requires Shape(f) && |text| == N + F - 1 && r < N && (if right then p < N + 257 else p <= N)
    requires Path(f, text, r, p, right, qs, pl) && Holds(f, Child(f, p, right), t)
    ensures forall k :: 0 <= k < |qs| ==> qs[k] in Inorder(t)
    decreases t
  {
    hide SameTo, NotBefore, Inorder;
    match t
    case Leaf =>
    case Node(a, q, b) =>
      InorderNode(a, q, b);
      if SameTo(text, r, q, F) {
      } else if NotBefore(text, r, q) {
        PathListed(f, text, r, q, true, qs[1..], pl, b);
      } else {
        PathListed(f, text, r, q, false, qs[1..], pl, a);
      }
  }

  /** A search that turns left at the first blank slot does not come across the second. */
  lemma NotMet(f: Forest, text: seq<byte>, r: nat, qs: seq<nat>, pl: Place)
    requires Shape(f) && |text| == N + F - 1 && r < N && Hidden(f)
    requires Path(f, text, r, N + 1 + 32, true, qs, pl) && Before(text, r, START - 1)
    ensures START - 2 !in qs
  {
    hide SameTo, NotBefore, Inorder, Different;
    var l, rt :| HiddenIn(f, l, rt);
    ProperSplits(l, START - 1, rt);
    BeforeOneWay(text, r, START - 1);
    PathListed(f, text, r, START - 1, false, qs[1..], pl, l);
    assert forall k :: 1 <= k < |qs| ==> qs[k] == qs[1..][k - 1];
  }

  lemma Differs(text: seq<byte>, a: nat, c: nat, i: nat)
    requires |text| == N + F - 1 && a < N && c < N && 1 <= i < F && text[a + i] != text[c + i]
    ensures !SameTo(text, a, c, F)
  {
    assert !SameAt(text, a, c, i);
  }

  /** With one byte taken in, the tree is the first blank slot alone. */
  lemma OneSlot(f: Forest, lab: seq<nat>, rank: seq<nat>, text: seq<byte>)
    requires Shape(f) && Wf(f, lab, rank) && |text| == N + F - 1 && InOrder(f, text) && OnlyBlanks(f, 1)
    requires Registered(f, START - 1) && lab[START - 1] == 32
    ensures Holds(f, f.rson[N + 1 + 32], Node(Leaf, START - 1, Leaf))
  {
    hide NodeOk, ChildOk, Ascending;
    assert HasTree(f, text, 32);
    var t :| TreeOf(f, text, 32, t);
    Listed(f, lab, rank, START - 1, t);
    HeldSlots(f, f.rson[N + 1 + 32], t);
    TopListed(f, f.rson[N + 1 + 32], t);
    ProperSplits(t.left, t.slot, t.right);
    InorderNode(t.left, t.slot, t.right);
    TopListed(f, f.lson[t.slot], t.left);
    TopListed(f, f.rson[t.slot], t.right);
  }

  lemma TwoSlots(f: Forest, rank: seq<nat>, u: seq<byte>, pos: int)
    requires Shape(f) && Wf(f, Spaces(), rank) && Loaded(u, [32, 32]) && |u| == N + F - 1 && !Registered(f, START - 2)
    requires Holds(f, f.rson[N + 1 + 32], Node(Leaf, START - 1, Leaf))
    ensures Forested(f) && Hidden(Insert(f, u, START - 2, pos).0)
  {
    hide Holds, NodeOk, ChildOk, Insert, SameTo, NotBefore, Loaded;
    var t := Node(Leaf, START - 1, Leaf);
    SearchesOne(u, START - 1);
    FillByte(u, [32, 32], 2);
    InsertTrees(f, Spaces(), rank, u, START - 2, pos, t, 32, t);
    FirstFirst(u, [32, 32], 2);
    BeforeOneWay(u, START - 1, START - 2);
    var r := Node(Leaf, START - 2, Leaf);
    assert Add(u, t, START - 2) == Node(Leaf, START - 1, r);
    assert Inorder(r) == [START - 2] && Inorder(Node(Leaf, START - 1, r)) == [START - 1, START - 2];
    assert HiddenIn(Insert(f, u, START - 2, pos).0, Leaf, r);
  }

  /** The bytes taken in with the third and later ones set the new slots apart from the first two. */
  lemma BlankDiffers(u: seq<byte>, n: nat)
    requires 3 <= n <= 8 && Loaded(u, TEXT[..n])
    ensures |u| == N + F - 1 && u[START - n] == 32
    ensures !SameTo(u, START - n, START - 1, F) && !SameTo(u, START - n, START - 2, F)
  {
    hide SameTo;
    assert u[START + 2] == 97 && u[START] == 32 && u[START + 1] == 32;
    Differs(u, START - n, START - 1, 3);
    Differs(u, START - n, START - 2, 4);
  }

  lemma FillNext(t: HT.Tree, n: nat) returns (rank: seq<nat>, rank': seq<nat>)
    requires HT.Inv(t) && 1 <= n < 8
    ensures Open(FreshWriter(t))
    ensures var w, x := WriteAll(FreshWriter(t), TEXT[..n]), TEXT[..n];
            var v, u := WriteAll(FreshWriter(t), TEXT[..n + 1]), w.text[START + n := TEXT[n]];
            && Filling(w, rank, x) && Filling(v, rank', TEXT[..n + 1]) && v.last == 1
            && Loaded(u, TEXT[..n + 1]) && Shape(w.forest) && Forested(w.forest) && |u| == N + F - 1
            && !Registered(w.forest, START - (n + 1))
            && v.forest == Insert(w.forest, u, START - (n + 1), w.matchPos).0
  {
    hide HT.Inv, FreshWriter, WriteAll, Wf, Loaded, Insert, Forested, FillForest;
    FreshWriterOpen(t);
    rank' := Fills(t, TEXT[..n + 1]);
    rank := Fills(t, TEXT[..n]);
    var x, b := TEXT[..n], TEXT[n];
    var w := WriteAll(FreshWriter(t), x);
    WriteAllSnoc(FreshWriter(t), TEXT, n);
    FillIs(w, b);
    LoadOne(w.text, x, b);
    assert x + [b] == TEXT[..n + 1];
    LoadedLength(w.text[START + n := b], TEXT[..n + 1]);
  }

  lemma FillFirst(w: State, rank: seq<nat>, u: seq<byte>)
    requires Filling(w, rank, [32]) && Loaded(u, [32, 32]) && Shape(w.forest) && !Registered(w.forest, START - 2)
    ensures Forested(w.forest) && |u| == N + F - 1 && Hidden(Insert(w.forest, u, START - 2, w.matchPos).0)
  {
    hide HT.Inv, Wf, Loaded, Insert, Hidden, InOrder, Turned, Stood;
    LoadedLength(u, [32, 32]);
    assert Orderly([32]);
    OneSlot(w.forest, Spaces(), rank, w.text);
    TwoSlots(w.forest, rank, u, w.matchPos);
  }

  lemma {:induction false} FillHides(t: HT.Tree, n: nat) returns (rank: seq<nat>)
    requires HT.Inv(t) && 2 <= n <= 8
    ensures Open(FreshWriter(t))
    ensures var w := WriteAll(FreshWriter(t), TEXT[..n]);
            Filling(w, rank, TEXT[..n]) && Hidden(w.forest) && w.last == 1
    decreases n
  {
    hide HT.Inv, FreshWriter, WriteAll, Wf, Loaded, Insert, Forested, Hidden, FillForest;
    FreshWriterOpen(t);
    var rank0, rank1 := FillNext(t, n - 1);
    rank := rank1;
    var w := WriteAll(FreshWriter(t), TEXT[..n - 1]);
    var u := w.text[START + (n - 1) := TEXT[n - 1]];
    if n == 2 {
      assert TEXT[..1] == [32] && TEXT[..2] == [32, 32];
      FillFirst(w, rank0, u);
    } else {
      var rank2 := FillHides(t, n - 1);
      BlankDiffers(u, n);
      HiddenStays(w.forest, Spaces(), rank0, u, START - n, w.matchPos);
    }
  }

  // Position by position.

  /** At position p, three literals at most behind. */
  ghost predicate Stage(w: State, lab: seq<nat>, rank: seq<nat>, p: nat) {
    && Ok(w) && p <= 3 && w.r == START + p && w.len == 8 - p && w.last == 1
    && Loaded(w.text, TEXT) && Wf(w.forest, lab, rank) && Hidden(w.forest) && (p <= 2 ==> lab == Spaces())
    && (forall q: nat {:trigger Registered(w.forest, q)} :: Registered(w.forest, q) ==> START - 8 <= q < START + p)
  }

  /** Nothing of three bytes can be copied before the letter has been seen. */
  lemma NoEarlyCopy(p: nat, d: nat, m: nat)
    requires p <= 2 && m > THRESHOLD
    ensures !CopyOk(TEXT, p, d, m)
  {
    assert CopyOk(TEXT, p, d, m) ==> TEXT[2] == Hist(TEXT, 2 - d);
  }

  lemma TextBytes(text: seq<byte>, p: nat)
    requires Loaded(text, TEXT) && p <= 3
    ensures |text| == N + F - 1 && text[START + p] == TEXT[p]
    ensures p <= 1 ==> !SameTo(text, START + p, START - 1, F) && !SameTo(text, START + p, START - 2, F)
    ensures p == 3 ==> Before(text, START + p, START - 1)
  {
    hide SameTo, Before;
    if p <= 1 {
      Differs(text, START + p, START - 1, 3);
      Differs(text, START + p, START - 2, 4);
    } else if p == 3 {
      assert SameTo(text, START + 3, START - 1, 3) by { SameThree(text); }
      AgreeIs(text, START + 3, START - 1, 3);
      BeforeAt(text, START + 3, START - 1);
    }
  }

  lemma SameThree(text: seq<byte>)
    requires Loaded(text, TEXT)
    ensures |text| == N + F - 1 && SameTo(text, START + 3, START - 1, 3)
  {
    assert SameAt(text, START + 3, START - 1, 1) && SameAt(text, START + 3, START - 1, 2);
  }

  lemma NoOtherTree(f: Forest, rank: seq<nat>, b: nat)
    requires Shape(f) && Wf(f, Spaces(), rank) && b < 256 && b != 32
    ensures Holds(f, f.rson[N + 1 + b], Leaf) && Proper(Leaf)
  {
    hide NodeOk, ChildOk;
    ChildFacts(f, Spaces(), rank, N + 1 + b, true);
  }

  /** Registering the next position leaves the second blank slot hidden. */
  lemma StageInsert(w: State, lab: seq<nat>, rank: seq<nat>, p: nat) returns (lab': seq<nat>, rank': seq<nat>)
    requires Stage(w, lab, rank, p) && p <= 2
    ensures var g := InsertAt(w, w.r).forest;
            && Shape(g) && Wf(g, lab', rank') && Hidden(g) && (p <= 1 ==> lab' == Spaces())
            && (forall q: nat {:trigger Registered(g, q)} :: Registered(g, q) ==> START - 8 <= q < START + p + 1)
  {
    hide HT.Inv, Loaded, Hidden, Insert, NodeOk, ChildOk, SameTo, MatchOk;
    TextBytes(w.text, p);
    rank' := InsertKeeps(w.forest, lab, rank, w.text, w.r, w.matchPos);
    lab' := lab[w.r := w.text[w.r]];
    if p <= 1 {
      HiddenStays(w.forest, lab, rank, w.text, w.r, w.matchPos);
      assert lab' == Spaces();
    } else {
      NoOtherTree(w.forest, rank, 97);
      HiddenApart(w.forest, lab, rank, w.text, w.r, w.matchPos, Leaf);
    }
  }

  /** The first three bytes go out as they are. */
  lemma StageNext(w: State, t: HT.Tree, tr: Trace, lab: seq<nat>, rank: seq<nat>, p: nat)
    returns (lab': seq<nat>, rank': seq<nat>)
    requires Stage(w, lab, rank, p) && p <= 2 && Tracks(w, t, tr) && tr.x == TEXT
    ensures var v := Advance(w, None); Stage(v, lab', rank', p + 1) && v.log == w.log + [Literal(TEXT[p])]
  {
    hide HT.Inv, Forested, InsertAt, Encode, Delete, Hidden, Wf, Coded, Tiled, MatchReady, Labelled, RingOk, Loaded,
         CopyOk;
    AdvanceKeeps(w, None);
    ConsumeKeeps(w);
    InsertAtFrame(w, w.r);
    lab', rank' := StageInsert(w, lab, rank, p);
    MatchSound(w, tr);
    var i := InsertAt(w, w.r);
    var u := i.(last := 0);
    MatchReadyFrame(i, u);
    EncodeFrame(u);
    EncodeChoice(u);
    TextBytes(w.text, p);
    var m := if u.matchLen > u.len then u.len else u.matchLen;
    if m > THRESHOLD { NoEarlyCopy(p, u.matchPos + 1, m); }
    NothingDeleted(Encode(u).forest, w.s);
  }

  lemma NothingDeleted(f: Forest, p: nat)
    requires Shape(f) && Forested(f) && p < N && !Registered(f, p)
    ensures Delete(f, p) == f
  {
  }

  /** At the fourth position the writer does not come across the blanks that match five bytes. */
  lemma StageMiss(w: State, t: HT.Tree, tr: Trace, lab: seq<nat>, rank: seq<nat>) returns (k: Token)
    requires Stage(w, lab, rank, 3) && Tracks(w, t, tr) && tr.x == TEXT
    ensures Advance(w, None).log == w.log + [k] && k != Copy(5, 5)
  {
    hide HT.Inv, Forested, Encode, Delete, Hidden, Wf, Coded, Tiled, MatchReady, Labelled, RingOk, Loaded, CopyOk,
         Insert, Path, NoBetter, Agree;
    AdvanceKeeps(w, None);
    ConsumeKeeps(w);
    TextBytes(w.text, 3);
    var qs, pl := InsertFinds(w.forest, lab, rank, w.text, w.r, w.matchPos);
    NotMet(w.forest, w.text, w.r, qs, pl);
    var i := InsertAt(w, w.r);
    var u := i.(last := 0);
    MatchReadyFrame(i, u);
    EncodeFrame(u);
    EncodeChoice(u);
    var m := if u.matchLen > u.len then u.len else u.matchLen;
    k := if m <= THRESHOLD then Literal(u.text[u.r]) else Copy(u.matchPos + 1, m);
    if m > THRESHOLD {
      var j :| 0 <= j < |qs| && Offers(w.text, w.r, qs[j], u.matchLen, u.matchPos);
      assert qs[j] != START - 2;
      FiveBack(qs[j]);
    }
  }

  lemma FiveBack(q: nat)
    requires q < N && q != START - 2
    ensures Dist(START + 3, q) != 5
  {
  }

  lemma AdvanceLog(w: State, c: Option<byte>)
    requires Ok(w) && (c.None? ==> w.len >= 1)
    ensures w.log <= Advance(w, c).log
  {
    hide HT.Inv, Forested, Delete, InsertAt, Encode, MatchReady, Put;
    ConsumeReady(w, c);
    ConsumeKeeps(Load(w, c));
    var u := Load(w, c);
    InsertAtFrame(u, u.r);
    var i := InsertAt(u, u.r);
    MatchReadyFrame(i, i.(last := i.last - 1));
    EncodeChoice(i.(last := i.last - 1));
  }

  lemma {:induction false} DrainLog(w: State)
    requires Ok(w)
    ensures w.log <= Drain(w).log
    decreases w.len
  {
    hide HT.Inv, Ok, Advance;
    if w.len == 0 {
    } else {
      AdvanceKeeps(w, None);
      AdvanceLog(w, None);
      DrainLog(Advance(w, None));
    }
  }

  lemma DrainOnce(w: State)
    requires Ok(w) && w.len > 0
    ensures Ok(Advance(w, None)) && Drain(w) == Drain(Advance(w, None)) && Advance(w, None).len == w.len - 1
  {
    hide HT.Inv, Ok, Advance;
    AdvanceKeeps(w, None);
  }

  lemma FillStage(w: State, rank: seq<nat>)
    requires Filling(w, rank, TEXT) && Hidden(w.forest) && w.last == 1
    ensures Stage(w, Spaces(), rank, 0)
  {
    hide HT.Inv, Hidden, InOrder, Turned, Stood, Wf, Loaded;
  }

  lemma StageStep(w: State, t: HT.Tree, tr: Trace, lab: seq<nat>, rank: seq<nat>, p: nat)
    returns (v: State, tr': Trace, lab': seq<nat>, rank': seq<nat>)
    requires Stage(w, lab, rank, p) && p <= 2 && Tracks(w, t, tr) && tr.x == TEXT
    ensures Ok(w) && Ok(v) && Drain(w) == Drain(v) && v.log == w.log + [Literal(TEXT[p])]
    ensures Stage(v, lab', rank', p + 1) && Tracks(v, t, tr') && tr'.x == TEXT
  {
    hide HT.Inv, Drain, Advance, Tracks, Loaded, Wf, Hidden;
    v := Advance(w, None);
    lab', rank' := StageNext(w, t, tr, lab, rank, p);
    tr' := AdvanceTracks(w, t, tr, None);
    assert TEXT + [] == TEXT;
    DrainOnce(w);
  }

  lemma FilledStage(t: HT.Tree) returns (tr: Trace, rank: seq<nat>)
    requires HT.Inv(t)
    ensures Open(FreshWriter(t))
    ensures var w := WriteAll(FreshWriter(t), TEXT);
            Stage(w, Spaces(), rank, 0) && Tracks(w, t, tr) && tr.x == TEXT && w.log == []
  {
    hide HT.Inv, FreshWriter, WriteAll, Tracks, Loaded, Wf, Hidden, Open, FillForest, Stage;
    assert TEXT[..8] == TEXT && [] + TEXT == TEXT;
    rank := FillHides(t, 8);
    FreshEmpty(t);
    var tr0 :| Fed(FreshWriter(t), t, tr0, []);
    tr := WriteAllTracks(FreshWriter(t), t, tr0, [], TEXT);
    FillStage(WriteAll(FreshWriter(t), TEXT), rank);
  }

  /** The first four tokens for the text. */
  lemma FirstTokens(t: HT.Tree) returns (k: Token)
    requires HT.Inv(t)
    ensures [Literal(32), Literal(32), Literal(97), k] <= TokensFor(t, TEXT) && k != Copy(5, 5)
  {
    hide HT.Inv, FreshWriter, WriteAll, Drain, Advance, Tracks, Open, Ok, Stage;
    var tr0, rank0 := FilledStage(t);
    var w0 := WriteAll(FreshWriter(t), TEXT);
    var w1, tr1, lab1, rank1 := StageStep(w0, t, tr0, Spaces(), rank0, 0);
    var w2, tr2, lab2, rank2 := StageStep(w1, t, tr1, lab1, rank1, 1);
    var w3, tr3, lab3, rank3 := StageStep(w2, t, tr2, lab2, rank2, 2);
    k := StageMiss(w3, t, tr3, lab3, rank3);
    DrainOnce(w3) by { StageLen(w3, lab3, rank3); }
    DrainLog(Advance(w3, None));
  }

  lemma StageLen(w: State, lab: seq<nat>, rank: seq<nat>)
    requires Stage(w, lab, rank, 3)
    ensures w.len == 5
  {
  }

  lemma {:induction false} Fronts(x: seq<byte>, ks: seq<Token>, n: int, i: nat) returns (e: int)
    requires Covers(x, ks, n) && Greedy(x, ks, n) && i <= |ks|
    ensures Covers(x, ks[..i], e) && Greedy(x, ks[..i], e)
    decreases |ks|
  {
    hide CopyOk, NoLonger;
    if i == |ks| {
      e := n;
      assert ks[..i] == ks;
    } else {
      var front := ks[..|ks| - 1];
      e := Fronts(x, front, n - Width(ks[|ks| - 1]), i);
      assert front[..i] == ks[..i];
    }
  }

  lemma FourTokens(k: Token, e: int)
    requires var ks := [Literal(32), Literal(32), Literal(97), k]; Covers(TEXT, ks, e) && Greedy(TEXT, ks, e)
    ensures k == Copy(5, 5)
  {
    hide CopyOk, NoLonger;
    var ks := [Literal(32), Literal(32), Literal(97), k];
    assert ks[..3] == [Literal(32), Literal(32), Literal(97)] && ks[..3][..2] == [Literal(32), Literal(32)];
    assert ks[..3][..2][..1] == [Literal(32)] && [Literal(32)][..0] == [];
    var n := e - Width(k);
    assert Covers(TEXT, ks[..3], n) && Covers(TEXT, ks[..3][..2], n - 1) && Covers(TEXT, ks[..3][..2][..1], n - 2);
    assert Covers(TEXT, [], n - 3);
    assert n == 3;
    OnlyFive(k);
  }

  /** Five bytes can be copied at the fourth position, and from one place only. */
  lemma OnlyFive(k: Token)
    requires k.Copy? ==> CopyOk(TEXT, 3, k.dist, k.len)
    requires NoLonger(TEXT, 3, if k.Literal? then THRESHOLD else k.len)
    ensures CopyOk(TEXT, 3, 5, 5) && Reaches(TEXT, 3, 5) && k == Copy(5, 5)
  {
    FiveCopy();
    assert k.Copy? && k.len == 5;
    assert TEXT[7] == Hist(TEXT, 7 - k.dist);
  }

  lemma FiveCopy()
    ensures CopyOk(TEXT, 3, 5, 5) && Reaches(TEXT, 3, 5)
  {
  }

  /** This text is not orderly, and for it the writer misses a longest match, whatever tree it starts with. */
  lemma MatchMissed(t: HT.Tree)
    requires HT.Inv(t)
    ensures !Orderly(TEXT) && !Greedy(TEXT, TokensFor(t, TEXT), |TEXT|)
  {
    hide HT.Inv, TokensFor, Payload, Codes, CopyOk, Covers, Greedy;
    assert Blank(TEXT, 2) && TEXT[2] > 32;
    WriterEmits(t, TEXT);
    var k := FirstTokens(t);
    var ks := TokensFor(t, TEXT);
    if Greedy(TEXT, ks, |TEXT|) {
      var e := Fronts(TEXT, ks, |TEXT|, 4);
      assert ks[..4] == [Literal(32), Literal(32), Literal(97), k];
      FourTokens(k, e);
    }
  }
}
