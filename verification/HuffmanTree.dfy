/**
 The adaptive Huffman tree of lzhuf, as values: three parallel tables and the invariant
 that every operation keeps.  Node positions 0..ROOT are ordered by frequency, siblings
 sit in adjacent positions with an even base, and children sit before their parent.
 */
module HuffmanTree {
  import opened Sums

  const NUM_CHAR: nat := 314
  const T: nat := 627
  const ROOT: nat := 626
  const MAX_FREQ: nat := 0x8000
  const SENTINEL: nat := 0xffff

  /** freq has T + 1 entries, prnt T + NUM_CHAR (the last NUM_CHAR locate the leaves), son T. */
  datatype Tree = Tree(freq: seq<nat>, prnt: seq<nat>, son: seq<nat>)

  ghost predicate Shape(t: Tree) {
    |t.freq| == T + 1 && |t.prnt| == T + NUM_CHAR && |t.son| == T
  }

  /** Node i points down correctly, and its children (or its symbol) point back at it. */
  ghost predicate SonOk(t: Tree, i: nat)
    requires Shape(t) && i < T
  {
    var k := t.son[i];
    if k >= T then
      k < T + NUM_CHAR && t.prnt[k] == i
    else
      k % 2 == 0 && k + 1 < i && t.prnt[k] == i && t.prnt[k + 1] == i
  }

  /** Every node but the root has a parent further up that owns its pair. */
  ghost predicate ParentOk(t: Tree, i: nat)
    requires Shape(t) && i < ROOT
  {
    i < t.prnt[i] < T && t.son[t.prnt[i]] == i - i % 2
  }

  /** Symbol c has a leaf. */
  ghost predicate LeafOk(t: Tree, c: nat)
    requires Shape(t) && c < NUM_CHAR
  {
    t.prnt[T + c] < T && t.son[t.prnt[T + c]] == T + c
  }

  ghost predicate Linked(t: Tree)
    requires Shape(t)
  {
    && t.prnt[ROOT] == 0
    && (forall i: nat :: i < T ==> SonOk(t, i))
    && (forall i: nat :: i < ROOT ==> ParentOk(t, i))
    && (forall c: nat :: c < NUM_CHAR ==> LeafOk(t, c))
  }

  ghost predicate Ordered(freq: seq<nat>, n: nat)
    requires n <= |freq|
  {
    && (forall i :: 0 <= i < n ==> freq[i] >= 1)
    && (forall i, j :: 0 <= i <= j < n ==> freq[i] <= freq[j])
  }

  /** An internal node is the sum of its children; node `short` is one below that. */
  ghost predicate SumOk(t: Tree, i: nat, short: nat)
    requires Shape(t) && i < T
  {
    t.son[i] + 1 < T ==>
      t.freq[t.son[i]] + t.freq[t.son[i] + 1] == t.freq[i] + if i == short then 1 else 0
  }

  function LeafWeights(freq: seq<nat>, son: seq<nat>): (w: seq<int>)
    requires |son| <= |freq|
  {
    seq(|son|, i requires 0 <= i < |son| => if son[i] >= T then freq[i] else 0)
  }

  function LeafMarks(son: seq<nat>): (w: seq<int>) {
    seq(|son|, i requires 0 <= i < |son| => if son[i] >= T then 1 else 0)
  }

  /**
   The tree is well formed except that node `short` (if it is a node) still lacks one count;
   with short == T it is the invariant between updates.
   */
  ghost predicate Balanced(t: Tree, short: nat) {
    && Shape(t)
    && Linked(t)
    && Ordered(t.freq, T)
    && t.freq[T] == SENTINEL
    && (forall i: nat :: i < T ==> SumOk(t, i, short))
    && Sum(LeafMarks(t.son)) == NUM_CHAR
    && Sum(LeafWeights(t.freq, t.son)) == t.freq[ROOT] + (if short < T && t.son[short] < T then 1 else 0)
  }

  ghost predicate Inv(t: Tree) {
    Balanced(t, T) && t.freq[ROOT] <= MAX_FREQ
  }

  /** The last position at or after l whose successor is not smaller than k. */
  function LastBelow(freq: seq<nat>, l: nat, k: nat): (r: nat)
    requires l < |freq|
    ensures l <= r < |freq|
    ensures forall m :: l < m <= r ==> freq[m] < k
    ensures r + 1 < |freq| ==> k <= freq[r + 1]
    decreases |freq| - l
  {
    if l + 1 < |freq| && k > freq[l + 1] then LastBelow(freq, l + 1, k) else l
  }

  /** Point the child or children of a node at position p. */
  function SetParent(prnt: seq<nat>, child: nat, p: nat): (r: seq<nat>)
    requires |prnt| == T + NUM_CHAR && child < |prnt|
    ensures |r| == |prnt|
  {
    if child < T then prnt[child := p][child + 1 := p] else prnt[child := p]
  }

  /** Exchange the subtrees and frequencies of positions c and l. */
  function Exchange(t: Tree, c: nat, l: nat): (r: Tree)
    requires Shape(t) && c < T && l < T
    requires t.son[c] < T + NUM_CHAR && t.son[l] < T + NUM_CHAR
    ensures Shape(r)
  {
    var i, j := t.son[c], t.son[l];
    Tree(t.freq[c := t.freq[l]][l := t.freq[c]],
         SetParent(SetParent(t.prnt, i, l), j, c),
         t.son[l := i][c := j])
  }

  /** One round of the climb at c: count c, restore the order, and name the next node (0 at the root). */
  function ClimbStep(t: Tree, c: nat): (r: (Tree, nat))
    requires Balanced(t, c) && c < T && t.freq[ROOT] < MAX_FREQ
  {
    var t1 := t.(freq := t.freq[c := t.freq[c] + 1]);
    if t1.freq[c] <= t1.freq[c + 1] || T + 1 <= c + 2 then
      (t1, t1.prnt[c])
    else
      LastBelowStops(t, c);
      var l := LastBelow(t1.freq, c + 1, t1.freq[c]);
      var t2 := Exchange(t1, c, l);
      (t2, t2.prnt[l])
  }

  lemma RootChildren(t: Tree, short: nat)
    requires Balanced(t, short)
    ensures t.son[ROOT] == ROOT - 2
  {
    assert ParentOk(t, ROOT - 1);
  }

  /** The exchange partner is an equal-frequency node below the root. */
  lemma LastBelowStops(t: Tree, c: nat)
    requires Balanced(t, c) && c < T && t.freq[ROOT] < MAX_FREQ
    requires c + 2 < T + 1 && t.freq[c] + 1 > t.freq[c + 1]
    ensures var l := LastBelow(t.freq[c := t.freq[c] + 1], c + 1, t.freq[c] + 1);
            && c < l < ROOT
            && (forall m :: c <= m <= l ==> t.freq[m] == t.freq[c])
            && t.freq[c] + 1 <= t.freq[l + 1]
            && t.son[c] < T + NUM_CHAR && t.son[l] < T + NUM_CHAR
            && (t.son[l] < T ==> t.son[l] + 1 < c)
  {
    var f := t.freq[c := t.freq[c] + 1];
    var k := t.freq[c] + 1;
    var l := LastBelow(f, c + 1, k);
    RootChildren(t, c);
    assert SumOk(t, ROOT, c);
    assert f[ROOT] == t.freq[ROOT] >= k;
    assert l < ROOT;
    forall m | c <= m <= l
      ensures t.freq[m] == t.freq[c]
    {
      assert m > c + 1 ==> f[m] == t.freq[m] < k;
    }
    assert SonOk(t, c) && SonOk(t, l) && SumOk(t, l, c);
    assert f[l + 1] == t.freq[l + 1];
  }

  /** Counting c in place, when that keeps the order, moves the deficit to its parent. */
  lemma CountKeeps(t: Tree, c: nat)
    requires Balanced(t, c) && c < T
    requires c == ROOT || t.freq[c] + 1 <= t.freq[c + 1]
    ensures var u := t.(freq := t.freq[c := t.freq[c] + 1]);
            && (c == ROOT ==> u.prnt[c] == 0 && Balanced(u, T))
            && (c < ROOT ==> c < u.prnt[c] < T && Balanced(u, u.prnt[c]))
            && u.freq[ROOT] == t.freq[ROOT] + if c == ROOT then 1 else 0
  {
    var u := t.(freq := t.freq[c := t.freq[c] + 1]);
    var n := if c == ROOT then T else t.prnt[c];
    assert c < ROOT ==> ParentOk(t, c);
    forall i: nat | i < T
      ensures SumOk(u, i, n) && SonOk(u, i)
    {
      assert SonOk(t, i) && SumOk(t, i, c);
      if c < ROOT && t.son[i] < T && (t.son[i] == c || t.son[i] + 1 == c) {
        assert i == n;
      }
    }
    forall i: nat | i < ROOT ensures ParentOk(u, i) { assert ParentOk(t, i); }
    forall i: nat | i < NUM_CHAR ensures LeafOk(u, i) { assert LeafOk(t, i); }
    CountOrdered(t.freq, c);
    CountWeights(t, c);
    RootChildren(t, c);
    assert c < ROOT ==> SonOk(t, n);
  }

  lemma CountOrdered(freq: seq<nat>, c: nat)
    requires |freq| == T + 1 && Ordered(freq, T) && c < T
    requires c == ROOT || freq[c] + 1 <= freq[c + 1]
    ensures Ordered(freq[c := freq[c] + 1], T)
  {
  }

  lemma CountWeights(t: Tree, c: nat)
    requires Shape(t) && c < T
    ensures Sum(LeafWeights(t.freq[c := t.freq[c] + 1], t.son))
            == Sum(LeafWeights(t.freq, t.son)) + if t.son[c] >= T then 1 else 0
  {
    var w := LeafWeights(t.freq, t.son);
    var v := if t.son[c] >= T then t.freq[c] + 1 else 0;
    assert LeafWeights(t.freq[c := t.freq[c] + 1], t.son) == w[c := v];
    SumUpdate(w, c, v);
  }

  /** c and l carry the same frequency, l is after c and not an ancestor of c. */
  ghost predicate Exchangeable(t: Tree, c: nat, l: nat) {
    && Balanced(t, c)
    && c < l < ROOT
    && (forall m :: c <= m <= l ==> t.freq[m] == t.freq[c])
    && t.freq[c] + 1 <= t.freq[l + 1]
    && (t.son[l] < T ==> t.son[l] + 1 < c)
  }

  /** Exchanging c with l after counting c moves the deficit to the parent of l. */
  lemma ExchangeKeeps(t: Tree, c: nat, l: nat)
    requires Exchangeable(t, c, l)
    requires t.son[c] < T + NUM_CHAR && t.son[l] < T + NUM_CHAR
    ensures var u := Exchange(t.(freq := t.freq[c := t.freq[c] + 1]), c, l);
            && l < u.prnt[l] < T && Balanced(u, u.prnt[l])
            && u.freq[ROOT] == t.freq[ROOT]
  {
    var u := Exchange(t.(freq := t.freq[c := t.freq[c] + 1]), c, l);
    assert u.freq == t.freq[l := t.freq[c] + 1];
    ExchangeLinks(t, c, l);
    assert ParentOk(t, l) && u.prnt[l] == t.prnt[l];
    ExchangeSums(t, c, l);
    ExchangeWeights(t, c, l);
    assert SonOk(t, t.prnt[l]);
    assert ParentOk(t, l);
  }

  lemma ExchangeLinks(t: Tree, c: nat, l: nat)
    requires Exchangeable(t, c, l)
    requires t.son[c] < T + NUM_CHAR && t.son[l] < T + NUM_CHAR
    ensures var u := Exchange(t.(freq := t.freq[c := t.freq[c] + 1]), c, l);
            Linked(u) && u.prnt[l] == t.prnt[l] && u.prnt[c] == t.prnt[c]
  {
    hide Ordered, Sum, SumOk;
    var u := Exchange(t.(freq := t.freq[c := t.freq[c] + 1]), c, l);
    assert SonOk(t, c) && SonOk(t, l);
    forall i: nat | i < T ensures SonOk(u, i) { assert SonOk(t, i); }
    forall i: nat | i < ROOT ensures ParentOk(u, i) { ExchangeParent(t, c, l, i); }
    forall i: nat | i < NUM_CHAR ensures LeafOk(u, i) { assert LeafOk(t, i); }
  }

  lemma ExchangeParent(t: Tree, c: nat, l: nat, i: nat)
    requires Exchangeable(t, c, l) && i < ROOT
    requires t.son[c] < T + NUM_CHAR && t.son[l] < T + NUM_CHAR
    ensures ParentOk(Exchange(t.(freq := t.freq[c := t.freq[c] + 1]), c, l), i)
  {
    hide Ordered, Sum, SumOk;
    assert SonOk(t, c) && SonOk(t, l) && ParentOk(t, i) && SonOk(t, t.prnt[i]);
  }

  lemma ExchangeSums(t: Tree, c: nat, l: nat)
    requires Exchangeable(t, c, l)
    requires t.son[c] < T + NUM_CHAR && t.son[l] < T + NUM_CHAR
    ensures var u := Exchange(t.(freq := t.freq[c := t.freq[c] + 1]), c, l);
            Ordered(u.freq, T) && forall i: nat :: i < T ==> SumOk(u, i, t.prnt[l])
  {
    var u := Exchange(t.(freq := t.freq[c := t.freq[c] + 1]), c, l);
    assert u.freq == t.freq[l := t.freq[c] + 1];
    CountOrdered(t.freq, l);
    forall i: nat | i < T ensures SumOk(u, i, t.prnt[l]) { ExchangeSum(t, c, l, i); }
  }

  lemma ExchangeSum(t: Tree, c: nat, l: nat, i: nat)
    requires Exchangeable(t, c, l) && i < T
    requires t.son[c] < T + NUM_CHAR && t.son[l] < T + NUM_CHAR
    ensures SumOk(Exchange(t.(freq := t.freq[c := t.freq[c] + 1]), c, l), i, t.prnt[l])
  {
    hide Ordered, Sum;
    assert SonOk(t, c) && SonOk(t, l) && SonOk(t, i);
    assert SumOk(t, c, c) && SumOk(t, l, c) && SumOk(t, i, c);
    assert ParentOk(t, l);
    if t.son[i] < T && (t.son[i] == l || t.son[i] + 1 == l) {
      assert i == t.prnt[l] && i > l;
    }
  }

  lemma ExchangeWeights(t: Tree, c: nat, l: nat)
    requires Exchangeable(t, c, l)
    requires t.son[c] < T + NUM_CHAR && t.son[l] < T + NUM_CHAR
    ensures var u := Exchange(t.(freq := t.freq[c := t.freq[c] + 1]), c, l);
            && Sum(LeafMarks(u.son)) == Sum(LeafMarks(t.son))
            && Sum(LeafWeights(u.freq, u.son))
               == Sum(LeafWeights(t.freq, t.son)) + if t.son[c] >= T then 1 else 0
  {
    var u := Exchange(t.(freq := t.freq[c := t.freq[c] + 1]), c, l);
    var w, m := LeafWeights(t.freq, t.son), LeafMarks(t.son);
    var wl := if t.son[c] >= T then t.freq[c] + 1 else 0;
    assert LeafWeights(u.freq, u.son) == w[l := wl][c := w[l]];
    SumUpdate(w, l, wl);
    SumUpdate(w[l := wl], c, w[l]);
    assert LeafMarks(u.son) == m[l := m[c]][c := m[l]];
    SumUpdate(m, l, m[c]);
    SumUpdate(m[l := m[c]], c, m[l]);
  }

  /** One round of the climb hands the deficit strictly upward, or completes the update at the root. */
  lemma ClimbStepKeeps(t: Tree, c: nat)
    requires Balanced(t, c) && c < T && t.freq[ROOT] < MAX_FREQ
    ensures var (u, n) := ClimbStep(t, c);
            && (n == 0 <==> c == ROOT)
            && (n == 0 ==> Inv(u) && u.freq[ROOT] == t.freq[ROOT] + 1)
            && (n != 0 ==> c < n < T && Balanced(u, n) && u.freq[ROOT] == t.freq[ROOT])
  {
    hide Linked, Ordered, SumOk, Sum, Exchange, LastBelow;
    if t.freq[c] + 1 <= t.freq[c + 1] || c == ROOT {
      CountKeeps(t, c);
    } else {
      LastBelowStops(t, c);
      ExchangeKeeps(t, c, LastBelow(t.freq[c := t.freq[c] + 1], c + 1, t.freq[c] + 1));
    }
  }

  /**
   What a round does: the last position of the old frequency is the one counted, the subtree at c goes there in
   exchange for its own, and the climb goes on at its parent.
   */
  lemma ClimbStepMoves(t: Tree, c: nat) returns (l: nat)
    requires Balanced(t, c) && c < T && t.freq[ROOT] < MAX_FREQ
    ensures |t.freq| == T + 1 && |t.son| == T && |t.prnt| == T + NUM_CHAR
    ensures c <= l < T && t.freq[l] == t.freq[c] < t.freq[l + 1]
    ensures var (u, n) := ClimbStep(t, c);
            && u.freq == t.freq[l := t.freq[l] + 1]
            && u.son == t.son[c := t.son[l]][l := t.son[c]]
            && n == t.prnt[l]
  {
    hide Linked, SumOk, Sum, LastBelow;
    if t.freq[c] + 1 <= t.freq[c + 1] || c == ROOT {
      l := c;
    } else {
      LastBelowStops(t, c);
      l := LastBelow(t.freq[c := t.freq[c] + 1], c + 1, t.freq[c] + 1);
      SonsBelow(t, c);
    }
  }

  lemma SonsBelow(t: Tree, c: nat)
    requires Balanced(t, c) && c < T
    ensures t.son[c] < T ==> t.son[c] + 1 < c
  {
    assert SonOk(t, c);
  }

  /** The climb from c to the root. */
  function Climb(t: Tree, c: nat): (r: Tree)
    requires Balanced(t, c) && c < T && t.freq[ROOT] < MAX_FREQ
    ensures Inv(r) && r.freq[ROOT] == t.freq[ROOT] + 1
    decreases T - c
  {
    ClimbStepKeeps(t, c);
    var (u, n) := ClimbStep(t, c);
    if n == 0 then u else Climb(u, n)
  }
}
