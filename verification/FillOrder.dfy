/**
 Filling the lookahead: the blank slots before the text are registered one by one while the
 bytes they reach into are still coming in.  When that leaves the search trees in order, and
 when it does not.
 */
module FillOrder {
  import opened Bits
  import opened MatchForest
  import opened MatchFinder
  import opened SearchTree
  import opened SearchForest

  /** The slot of the first byte. */
  const START: nat := 1988

  /** Blanks, then the bytes of x, then bytes that have not come in. */
  ghost predicate Loaded(text: seq<byte>, x: seq<byte>) {
    && |text| == N + F - 1 && |x| <= F
    && (forall k: nat :: START - F <= k < START ==> text[k] == 32)
    && (forall k: nat :: START <= k < START + |x| ==> text[k] == x[k - START])
    && (forall k: nat :: START + |x| <= k < START + F ==> text[k] == 0)
  }

  /** The first n bytes are spaces. */
  ghost predicate Blank(x: seq<byte>, n: nat) {
    n <= |x| && forall m :: 0 <= m < n ==> x[m] == 32
  }

  /** A byte above the space, among those that two blank slots reach into, has more than spaces before it. */
  ghost predicate Orderly(x: seq<byte>) {
    forall z: nat :: 2 <= z <= F - 2 && z < |x| && Blank(x, z) ==> x[z] <= 32
  }

  lemma {:induction false} Periodic(text: seq<byte>, x: seq<byte>, j: nat, k: nat, i: nat, m: nat)
    requires Loaded(text, x) && 1 <= j < k <= F && i <= F && m < |x| && m + j < i
    requires SameTo(text, START - k, START - j, i)
    ensures x[m] == 32
    decreases m
  {
    assert SameAt(text, START - k, START - j, m + j);
    if m < k - j {
    } else {
      Periodic(text, x, j, k, i, m - (k - j));
    }
  }

  /** Two blank slots that agree on all that has come in: the text is blank so far, and the further one is behind. */
  lemma AgreeLoaded(text: seq<byte>, x: seq<byte>, j: nat, k: nat)
    requires Loaded(text, x) && 1 <= j < k <= |x| && |x| + j < F
    requires Agree(text, START - k, START - j, 1) >= |x| + j
    ensures Blank(x, |x|) && Agree(text, START - k, START - j, 1) == |x| + j
    ensures text[START - k + (|x| + j)] == 32 && text[START - j + (|x| + j)] == 0
  {
    hide Agree;
    var i := Agree(text, START - k, START - j, 1);
    forall m | 0 <= m < |x| ensures x[m] == 32 { Periodic(text, x, j, k, i, m); }
    assert i > |x| + j ==> SameAt(text, START - k, START - j, |x| + j);
  }

  ghost predicate Kept(text: seq<byte>, u: seq<byte>, q: nat, i: nat)
    requires |text| == |u| == N + F - 1 && q < N && i < F
  {
    u[q + i] == text[q + i]
  }

  /** The order of two slots stands if nothing changes up to their first difference. */
  lemma OrderStays(text: seq<byte>, u: seq<byte>, a: nat, c: nat)
    requires |text| == |u| == N + F - 1 && a < N && c < N
    requires forall i: nat :: 1 <= i < F && i <= Agree(text, a, c, 1) ==> Kept(text, u, a, i) && Kept(text, u, c, i)
    ensures Agree(u, a, c, 1) == Agree(text, a, c, 1) && (Before(u, a, c) <==> Before(text, a, c))
  {
    hide Agree, Before;
    var n := Agree(text, a, c, 1);
    forall i: nat | 1 <= i < n ensures SameAt(u, a, c, i) {
      assert SameAt(text, a, c, i) && Kept(text, u, a, i) && Kept(text, u, c, i);
    }
    assert n < F ==> Kept(text, u, a, n) && Kept(text, u, c, n);
    AgreeIs(u, a, c, n);
    BeforeAt(text, a, c);
    BeforeAt(u, a, c);
  }

  /** Byte b after x does not upset the order of the blank slots. */
  ghost predicate Fits(x: seq<byte>, b: byte) {
    2 <= |x| <= F - 2 && Blank(x, |x|) ==> b <= 32
  }

  lemma BlankBytes(text: seq<byte>, x: seq<byte>, k: nat)
    requires Loaded(text, x) && Blank(x, |x|) && START - F <= k < START + |x|
    ensures text[k] == 32
  {
  }

  /** Of two blank slots the further one stays behind the nearer one. */
  lemma FurtherStays(text: seq<byte>, x: seq<byte>, b: byte, j: nat, k: nat)
    requires Loaded(text, x) && 1 <= j < k <= |x| < F && Fits(x, b) && !Before(text, START - k, START - j)
    ensures !Before(text[START + |x| := b], START - k, START - j)
  {
    hide Agree, Before, Loaded, Blank;
    var n, a, c := |x|, START - k, START - j;
    assert |text| == N + F - 1 by { LoadedLength(text, x); }
    if Agree(text, a, c, 1) < n + j || n + j >= F {
      OrderStays(text, text[START + n := b], a, c);
    } else {
      AgreeLoaded(text, x, j, k);
      BlankStays(text, x, b, j, k);
    }
  }

  lemma LoadedLength(text: seq<byte>, x: seq<byte>)
    requires Loaded(text, x)
    ensures |text| == N + F - 1
  {
  }

  lemma BlankStays(text: seq<byte>, x: seq<byte>, b: byte, j: nat, k: nat)
    requires Loaded(text, x) && 1 <= j < k <= |x| && |x| + j < F && Blank(x, |x|) && b <= 32
    ensures !Before(text[START + |x| := b], START - k, START - j)
  {
    hide Agree, Before, Blank;
    var n, a, c := |x|, START - k, START - j;
    var u := text[START + n := b];
    forall i: nat | 1 <= i < n + j ensures SameAt(u, a, c, i) {
      BlankBytes(text, x, a + i);
      BlankBytes(text, x, c + i);
    }
    BeforeAt(u, a, c);
    BlankBytes(text, x, a + (n + j));
    if b < 32 {
      AgreeIs(u, a, c, n + j);
    } else {
      if k - j > 1 { BlankBytes(text, x, a + (n + j + 1)); }
      AgreeIs(u, a, c, n + j + 1);
    }
  }

  /** And the nearer one stays behind the further one. */
  lemma NearerStays(text: seq<byte>, x: seq<byte>, b: byte, j: nat, k: nat)
    requires Loaded(text, x) && 1 <= j < k <= |x| < F && !Before(text, START - j, START - k)
    ensures !Before(text[START + |x| := b], START - j, START - k)
  {
    hide Agree, Before;
    var n, a, c := |x|, START - k, START - j;
    AgreeSwap(text, a, c);
    BeforeAt(text, c, a);
    if Agree(text, a, c, 1) >= n + j && n + j < F { AgreeLoaded(text, x, j, k); }
    OrderStays(text, text[START + n := b], c, a);
  }

  /** Blank slots with the same text keep the same text. */
  lemma SameStays(text: seq<byte>, x: seq<byte>, b: byte, j: nat, k: nat)
    requires Loaded(text, x) && 1 <= j <= |x| < F && 1 <= k <= |x| && SameTo(text, START - k, START - j, F)
    ensures SameTo(text[START + |x| := b], START - k, START - j, F)
  {
    hide Agree, SameTo, Before;
    var n, a, c := |x|, START - k, START - j;
    AgreeOrders(text, a, c);
    AgreeSwap(text, a, c);
    if j == k {
      SameSelf(text[START + n := b], a);
    } else {
      if j < k && n + j < F { AgreeLoaded(text, x, j, k); }
      if k < j && n + k < F { AgreeLoaded(text, x, k, j); }
      OrderStays(text, text[START + n := b], a, c);
      AgreeOrders(text[START + n := b], a, c);
    }
  }

  lemma SameSelf(text: seq<byte>, a: nat)
    requires |text| == N + F - 1 && a < N
    ensures SameTo(text, a, a, F)
  {
  }

  /** After a byte above the space behind spaces only, the first blank slot comes after every other. */
  lemma FirstLast(text: seq<byte>, x: seq<byte>, z: nat, k: nat)
    requires Loaded(text, x) && 2 <= z <= F - 2 && z < |x| && Blank(x, z) && x[z] > 32 && 2 <= k <= F
    ensures Before(text, START - k, START - 1) && !SameTo(text, START - k, START - 1, F)
  {
    hide Agree, Before;
    var a, c := START - k, START - 1;
    forall i: nat | 1 <= i < z + 1 ensures SameAt(text, a, c, i) {
      assert text[a + i] == 32 && text[c + i] == 32;
    }
    assert text[a + (z + 1)] == 32 && text[c + (z + 1)] == x[z];
    AgreeIs(text, a, c, z + 1);
    BeforeAt(text, a, c);
    AgreeOrders(text, a, c);
  }

  /** Before that byte it comes before every other. */
  lemma FirstFirst(text: seq<byte>, x: seq<byte>, k: nat)
    requires Loaded(text, x) && 2 <= k <= |x| <= F - 2 && Blank(x, |x|)
    ensures Before(text, START - 1, START - k) && !SameTo(text, START - k, START - 1, F)
  {
    hide Agree, Before;
    var n, a, c := |x|, START - k, START - 1;
    forall i: nat | 1 <= i < n + 1 ensures SameAt(text, a, c, i) {
      BlankBytes(text, x, a + i);
      BlankBytes(text, x, c + i);
    }
    BlankBytes(text, x, a + (n + 1));
    AgreeIs(text, a, c, n + 1);
    AgreeSwap(text, a, c);
    BeforeAt(text, c, a);
    AgreeOrders(text, a, c);
  }

  // The trees while the lookahead fills.

  ghost predicate OnlyBlanks(f: Forest, n: nat)
    requires Shape(f) && n <= F
  {
    forall q: nat {:trigger Registered(f, q)} :: Registered(f, q) ==> START - n <= q < START
  }

  /** A byte that fits keeps the search trees. */
  lemma FillKeepsOrder(f: Forest, text: seq<byte>, x: seq<byte>, b: byte)
    requires Shape(f) && Loaded(text, x) && |x| < F && Fits(x, b) && OnlyBlanks(f, |x|) && InOrder(f, text)
    ensures InOrder(f, text[START + |x| := b])
  {
    hide Before, Inorder, Holds, Loaded;
    LoadedLength(text, x);
    var u := text[START + |x| := b];
    forall e: nat | e < 256 ensures HasTree(f, u, e) {
      assert HasTree(f, text, e);
      var t :| TreeOf(f, text, e, t);
      HeldSlots(f, f.rson[N + 1 + e], t);
      var s := Inorder(t);
      forall i, j | 0 <= i < j < |s| ensures !Before(u, s[j], s[i]) {
        assert s[i] in s && s[j] in s;
        PairStays(text, x, b, START - s[i], START - s[j]);
      }
      assert TreeOf(f, u, e, t);
    }
  }

  lemma PairStays(text: seq<byte>, x: seq<byte>, b: byte, j: nat, k: nat)
    requires Loaded(text, x) && 1 <= j <= |x| < F && 1 <= k <= |x| && j != k && Fits(x, b)
    requires !Before(text, START - k, START - j)
    ensures !Before(text[START + |x| := b], START - k, START - j)
  {
    hide Before, Loaded, Fits;
    LoadedLength(text, x);
    if j < k { FurtherStays(text, x, b, j, k); } else { NearerStays(text, x, b, k, j); }
  }

  /** In the tree of the space some slot stands behind the first blank slot. */
  ghost predicate Turned(f: Forest)
    requires Shape(f)
  {
    exists t, i: nat, j: nat :: TurnedAt(f, t, i, j)
  }

  ghost predicate TurnedAt(f: Forest, t: Tree, i: nat, j: nat)
    requires Shape(f)
  {
    && Holds(f, f.rson[N + 1 + 32], t) && Proper(t)
    && i < j < |Inorder(t)| && Inorder(t)[i] == START - 1 && START - F <= Inorder(t)[j] < START - 1
  }

  /** With such a slot, and a byte that does not fit in the text, the tree is out of order. */
  lemma TurnedBreaks(f: Forest, text: seq<byte>, x: seq<byte>, z: nat)
    requires Shape(f) && Turned(f) && Loaded(text, x) && 2 <= z <= F - 2 && z < |x| && Blank(x, z) && x[z] > 32
    ensures !InOrder(f, text)
  {
    hide Before, Inorder, Holds, Loaded;
    LoadedLength(text, x);
    var t, i: nat, j: nat :| TurnedAt(f, t, i, j);
    FirstLast(text, x, z, START - Inorder(t)[j]);
    if InOrder(f, text) {
      assert HasTree(f, text, 32);
      var t' :| TreeOf(f, text, 32, t');
      HoldsUnique(f, f.rson[N + 1 + 32], t, t');
    }
  }

  /** As long as there are only spaces, a slot comes to stand behind the first one. */
  lemma BlankTurns(f: Forest, lab: seq<nat>, rank: seq<nat>, text: seq<byte>, x: seq<byte>)
    requires Shape(f) && Wf(f, lab, rank) && Loaded(text, x) && InOrder(f, text) && 2 <= |x| <= F - 2 && Blank(x, |x|)
    requires Registered(f, START - 1) && Registered(f, START - |x|) && lab[START - 1] == 32 && lab[START - |x|] == 32
    ensures Turned(f)
  {
    hide Before, Inorder, Holds, Loaded, NodeOk, ChildOk;
    LoadedLength(text, x);
    assert HasTree(f, text, 32);
    var t :| TreeOf(f, text, 32, t);
    Listed(f, lab, rank, START - 1, t);
    Listed(f, lab, rank, START - |x|, t);
    FirstFirst(text, x, |x|);
    var i :| 0 <= i < |Inorder(t)| && Inorder(t)[i] == START - 1;
    var j :| 0 <= j < |Inorder(t)| && Inorder(t)[j] == START - |x|;
    assert TurnedAt(f, t, i, j);
  }

  /** And stays behind it. */
  lemma TurnedStays(f: Forest, lab: seq<nat>, rank: seq<nat>, text: seq<byte>, x: seq<byte>, z: nat, k: nat, pos: int)
    requires Shape(f) && Wf(f, lab, rank) && Turned(f) && Loaded(text, x) && 2 <= k <= F
    requires 2 <= z <= F - 2 && z < |x| && Blank(x, z) && x[z] > 32
    requires !Registered(f, START - k) && text[START - k] == 32
    ensures Forested(f) && Turned(Insert(f, text, START - k, pos).0)
  {
    hide Before, Inorder, Holds, Loaded, NodeOk, ChildOk, Insert, Add, SameTo, Different;
    LoadedLength(text, x);
    var t, i: nat, j: nat :| TurnedAt(f, t, i, j);
    InsertTrees(f, lab, rank, text, START - k, pos, t, 32, t);
    var g := Insert(f, text, START - k, pos).0;
    var t' := Add(text, t, START - k);
    var u, was, v := AddInorder(text, t, START - k);
    FirstLast(text, x, z, k);
    AddProper(text, t, START - k);
    AddedAt(Inorder(t), Inorder(t'), u, was, v, START - k);
    var d := if was == [] then 1 else 0;
    if j < |u| {
      assert TurnedAt(g, t', i, j);
    } else if i < |u| {
      var j' := if was == [] then j + 1 else j;
      assert TurnedAt(g, t', i, j');
    } else {
      assert TurnedAt(g, t', i + d, j + d);
    }
  }

  lemma AddedAt(s: seq<nat>, s': seq<nat>, u: seq<nat>, was: seq<nat>, v: seq<nat>, r: nat)
    requires s == u + was + v && s' == u + [r] + v && |was| <= 1
    ensures forall i :: 0 <= i < |u| ==> s'[i] == s[i]
    ensures forall i :: |u| + |was| <= i < |s| ==> s'[i + 1 - |was|] == s[i]
    ensures s'[|u|] == r && (was != [] ==> s[|u|] == was[0])
  {
    forall i | |u| + |was| <= i < |s| ensures s'[i + 1 - |was|] == s[i] {
      assert s[i] == v[i - |u| - |was|];
    }
  }
}
