/**
 Building the Huffman tree from its leaves: the initial tree, and the rebuild that halves
 every frequency.  Pairs of adjacent nodes are joined from the left and the new node is
 inserted where the frequency order wants it.
 */
module HuffmanRebuild {
  import opened Sums
  import opened HuffmanTree

  /** The part of the tables built so far. */
  datatype Stage = Stage(freq: seq<nat>, son: seq<nat>)

  /** The leaves in position order, as (son entry, frequency). */
  function Leaves(freq: seq<nat>, son: seq<nat>): (r: seq<(nat, nat)>)
    requires |freq| == |son|
    ensures |r| <= |son|
  {
    if son == [] then []
    else
      var n := |son| - 1;
      Leaves(freq[..n], son[..n]) + if son[n] >= T then [(son[n], freq[n])] else []
  }

  function Halved(l: (nat, nat)): (nat, nat) { (l.0, (l.1 + 1) / 2) }

  function HalvedAll(ls: seq<(nat, nat)>): (r: seq<(nat, nat)>)
    ensures |r| == |ls|
    ensures forall i :: 0 <= i < |ls| ==> r[i] == Halved(ls[i])
  {
    seq(|ls|, i requires 0 <= i < |ls| => Halved(ls[i]))
  }

  function Freqs(ls: seq<(nat, nat)>): (r: seq<nat>)
    ensures |r| == |ls|
    ensures forall i :: 0 <= i < |ls| ==> r[i] == ls[i].1
  {
    seq(|ls|, i requires 0 <= i < |ls| => ls[i].1)
  }

  function Sons(ls: seq<(nat, nat)>): (r: seq<nat>)
    ensures |r| == |ls|
    ensures forall i :: 0 <= i < |ls| ==> r[i] == ls[i].0
  {
    seq(|ls|, i requires 0 <= i < |ls| => ls[i].0)
  }

  /** The leftmost position, scanning down from k, that keeps `first` after everything not above it. */
  function SlotFor(freq: seq<nat>, k: nat, first: nat): (r: nat)
    requires k <= |freq|
    ensures r <= k
    ensures forall m :: r <= m < k ==> first < freq[m]
    ensures r > 0 ==> freq[r - 1] <= first
  {
    if k > 0 && first < freq[k - 1] then SlotFor(freq, k - 1, first) else k
  }

  function Insert(s: seq<nat>, k: nat, v: nat): (r: seq<nat>)
    requires k <= |s|
    ensures |r| == |s| + 1
    ensures forall m :: 0 <= m < |r| ==> r[m] == if m < k then s[m] else if m == k then v else s[m - 1]
  {
    s[..k] + [v] + s[k..]
  }

  /** Join positions i and i + 1 under a new node. */
  function AddPair(g: Stage, i: nat): (r: Stage)
    requires |g.freq| == |g.son| && i + 1 < |g.freq|
    ensures |r.freq| == |r.son| == |g.freq| + 1
  {
    var first := g.freq[i] + g.freq[i + 1];
    var k := SlotFor(g.freq, |g.freq|, first);
    Stage(Insert(g.freq, k, first), Insert(g.son, k, i))
  }

  ghost predicate StageNodeOk(g: Stage, m: nat, i: nat)
    requires m < |g.son| && |g.freq| == |g.son|
  {
    var k := g.son[m];
    if k >= T then k < T + NUM_CHAR
    else k % 2 == 0 && k < i && k + 1 < m && g.freq[m] == g.freq[k] + g.freq[k + 1]
  }

  ghost predicate Distinct(s: seq<nat>) {
    forall a, b :: 0 <= a < b < |s| ==> s[a] != s[b]
  }

  ghost predicate Onto(son: seq<nat>, i: nat) {
    && (forall v: nat :: T <= v < T + NUM_CHAR ==> v in son)
    && (forall b: nat :: b < i && b % 2 == 0 ==> b in son)
  }

  /** Everything below i is joined; positions i.. are the nodes still without a parent. */
  ghost predicate StageOk(g: Stage, i: nat, leaves: seq<(nat, nat)>) {
    && |g.freq| == |g.son| == NUM_CHAR + i / 2 <= T
    && i % 2 == 0
    && Ordered(g.freq, |g.freq|)
    && (forall m: nat :: m < |g.son| ==> StageNodeOk(g, m, i))
    && Distinct(g.son)
    && Onto(g.son, i)
    && Leaves(g.freq, g.son) == leaves
    && Sum(g.freq[i..]) == Sum(Freqs(leaves))
  }

  lemma SlotAfterPair(g: Stage, i: nat)
    requires |g.freq| == |g.son| && i + 1 < |g.freq| && Ordered(g.freq, |g.freq|)
    ensures i + 2 <= SlotFor(g.freq, |g.freq|, g.freq[i] + g.freq[i + 1])
    ensures g.freq[i] + g.freq[i + 1] >= 2
  {
    assert g.freq[i] >= 1 && g.freq[i + 1] >= 1;
  }

  lemma LeavesOnce(freq: seq<nat>, son: seq<nat>)
    requires |freq| == |son| && son != []
    ensures var n := |son| - 1;
            Leaves(freq, son) == Leaves(freq[..n], son[..n]) + if son[n] >= T then [(son[n], freq[n])] else []
  {
  }

  lemma {:induction false} LeavesInsert(freq: seq<nat>, son: seq<nat>, k: nat, f: nat, v: nat)
    requires |freq| == |son| && k <= |son| && v < T
    ensures Leaves(Insert(freq, k, f), Insert(son, k, v)) == Leaves(freq, son)
    decreases |son|
  {
    hide Leaves;
    var fi, si := Insert(freq, k, f), Insert(son, k, v);
    var n := |son|;
    if k == n {
      assert fi[..n] == freq;
      assert si[..n] == son;
      LeavesOnce(fi, si);
    } else {
      LeavesInsert(freq[..n - 1], son[..n - 1], k, f, v);
      LeavesOnce(fi, si);
      LeavesOnce(freq, son);
      assert fi[..n] == Insert(freq[..n - 1], k, f);
      assert si[..n] == Insert(son[..n - 1], k, v);
    }
  }

  lemma WindowSum(freq: seq<nat>, i: nat, k: nat)
    requires i + 2 <= k <= |freq|
    ensures Sum(Insert(freq, k, freq[i] + freq[i + 1])[i + 2..]) == Sum(freq[i..])
  {
    hide Sum;
    var f := freq[i] + freq[i + 1];
    var rest := freq[i + 2..];
    assert Insert(freq, k, f)[i + 2..] == rest[..k - i - 2] + [f] + rest[k - i - 2..];
    SumInsert(rest, k - i - 2, f);
    assert freq[i..] == [freq[i], freq[i + 1]] + rest;
    SumConcat([freq[i], freq[i + 1]], rest);
    SumPair(freq[i], freq[i + 1]);
  }

  lemma SumPair(a: nat, b: nat)
    ensures Sum([a, b]) == a + b
  {
    assert [a, b] == [a] + [b];
    SumConcat([a], [b]);
  }

  lemma InsertMember(s: seq<nat>, k: nat, v: nat, x: nat)
    requires k <= |s| && x in s
    ensures x in Insert(s, k, v)
  {
    var j :| 0 <= j < |s| && s[j] == x;
    assert Insert(s, k, v)[if j < k then j else j + 1] == x;
  }

  lemma InsertOnto(son: seq<nat>, k: nat, i: nat)
    requires k <= |son| && Onto(son, i) && i % 2 == 0
    ensures Onto(Insert(son, k, i), i + 2)
  {
    forall v: nat | T <= v < T + NUM_CHAR ensures v in Insert(son, k, i) { InsertMember(son, k, i, v); }
    forall b: nat | b < i + 2 && b % 2 == 0
      ensures b in Insert(son, k, i)
    {
      if b == i { assert Insert(son, k, i)[k] == b; } else { InsertMember(son, k, i, b); }
    }
  }

  lemma InsertDistinct(son: seq<nat>, k: nat, i: nat)
    requires k <= |son| && Distinct(son) && i !in son
    ensures Distinct(Insert(son, k, i))
  {
  }

  lemma InsertOrdered(freq: seq<nat>, f: nat)
    requires Ordered(freq, |freq|) && f >= 1
    ensures var r := Insert(freq, SlotFor(freq, |freq|, f), f); Ordered(r, |r|)
  {
    hide SlotFor;
    var k := SlotFor(freq, |freq|, f);
    var r := Insert(freq, k, f);
    forall a, b | 0 <= a <= b < |r|
      ensures r[a] <= r[b]
    {
      if a < k < b { assert freq[a] <= freq[b - 1]; }
      if a < k == b { assert freq[a] <= freq[k - 1]; }
      if k < a { assert freq[a - 1] <= freq[b - 1]; }
    }
  }

  /** Joining the next pair keeps the stage invariant. */
  lemma AddPairKeeps(g: Stage, i: nat, leaves: seq<(nat, nat)>)
    requires StageOk(g, i, leaves) && |g.son| < T
    ensures StageOk(AddPair(g, i), i + 2, leaves)
  {
    hide Ordered, Distinct, Onto, Sum, Leaves;
    var f := g.freq[i] + g.freq[i + 1];
    var k := SlotFor(g.freq, |g.freq|, f);
    SlotAfterPair(g, i);
    InsertOrdered(g.freq, f);
    forall m | 0 <= m < |g.son| ensures g.son[m] != i { assert StageNodeOk(g, m, i); }
    InsertDistinct(g.son, k, i);
    InsertOnto(g.son, k, i);
    LeavesInsert(g.freq, g.son, k, f, i);
    WindowSum(g.freq, i, k);
    AddPairNodes(g, i, k, i + 2);
  }

  lemma AddPairNodes(g: Stage, i: nat, k: nat, hi: nat)
    requires |g.freq| == |g.son| && hi == i + 2 <= k <= |g.freq| && i % 2 == 0 && i < T
    requires forall m: nat :: m < |g.son| ==> StageNodeOk(g, m, i)
    ensures var h := Stage(Insert(g.freq, k, g.freq[i] + g.freq[i + 1]), Insert(g.son, k, i));
            forall m: nat :: m < |h.son| ==> StageNodeOk(h, m, hi)
  {
    var h := Stage(Insert(g.freq, k, g.freq[i] + g.freq[i + 1]), Insert(g.son, k, i));
    forall m: nat | m < |h.son|
      ensures StageNodeOk(h, m, hi)
    {
      if m < k { assert StageNodeOk(g, m, i); }
      if m > k { assert StageNodeOk(g, m - 1, i); }
    }
  }

  /** Among equal frequencies leaves come first, and joined nodes follow in the order of their pairs. */
  ghost predicate TiesOk(freq: seq<nat>, son: seq<nat>)
    requires |son| <= |freq|
  {
    forall a, b :: 0 <= a < b < |son| && freq[a] == freq[b] && son[a] < T ==> son[b] < T && son[a] < son[b]
  }

  lemma InsertTies(freq: seq<nat>, son: seq<nat>, k: nat, f: nat, v: nat)
    requires |freq| == |son| && k <= |son| && TiesOk(freq, son) && v < T
    requires forall m :: k <= m < |freq| ==> f < freq[m]
    requires forall m :: 0 <= m < |son| && son[m] < T ==> son[m] < v
    ensures TiesOk(Insert(freq, k, f), Insert(son, k, v))
  {
    var fi, si := Insert(freq, k, f), Insert(son, k, v);
    forall a, b | 0 <= a < b < |si| && fi[a] == fi[b] && si[a] < T
      ensures si[b] < T && si[a] < si[b]
    {
      if a != k && b != k {
        var a', b' := if a < k then a else a - 1, if b < k then b else b - 1;
        assert freq[a'] == freq[b'] && son[a'] < T;
      }
    }
  }

  /** Joining the next pair puts the new node behind its equals. */
  lemma AddPairTies(g: Stage, i: nat)
    requires |g.freq| == |g.son| && i + 1 < |g.freq| && i < T && TiesOk(g.freq, g.son)
    requires forall m: nat :: m < |g.son| ==> StageNodeOk(g, m, i)
    ensures TiesOk(AddPair(g, i).freq, AddPair(g, i).son)
  {
    hide SlotFor, Insert, TiesOk;
    var first := g.freq[i] + g.freq[i + 1];
    forall m | 0 <= m < |g.son| && g.son[m] < T ensures g.son[m] < i { assert StageNodeOk(g, m, i); }
    InsertTies(g.freq, g.son, SlotFor(g.freq, |g.freq|, first), first, i);
  }

  /** Join pairs until the table is full. */
  function Build(g: Stage, i: nat): (r: Stage)
    requires |g.freq| == |g.son| == NUM_CHAR + i / 2 <= T && i % 2 == 0
    ensures |r.freq| == |r.son| == T
    decreases T - |g.son|
  {
    if |g.son| == T then g else Build(AddPair(g, i), i + 2)
  }

  lemma {:induction false} BuildKeeps(g: Stage, i: nat, leaves: seq<(nat, nat)>)
    requires StageOk(g, i, leaves)
    ensures StageOk(Build(g, i), ROOT, leaves)
    decreases T - |g.son|
  {
    hide Ordered, Distinct, Onto, Sum, Leaves, AddPair, StageNodeOk;
    if |g.son| >= T {
    } else {
      AddPairKeeps(g, i, leaves);
      BuildKeeps(AddPair(g, i), i + 2, leaves);
    }
  }

  lemma {:induction false} BuildTies(g: Stage, i: nat, leaves: seq<(nat, nat)>)
    requires StageOk(g, i, leaves) && TiesOk(g.freq, g.son)
    ensures TiesOk(Build(g, i).freq, Build(g, i).son)
    decreases T - |g.son|
  {
    hide Ordered, Distinct, Onto, Sum, Leaves, AddPair, StageNodeOk, TiesOk;
    if |g.son| >= T {
    } else {
      AddPairKeeps(g, i, leaves);
      AddPairTies(g, i);
      BuildTies(AddPair(g, i), i + 2, leaves);
    }
  }

  /** Point the children of the first n nodes back at them. */
  function Connect(prnt: seq<nat>, son: seq<nat>, n: nat): (r: seq<nat>)
    requires |prnt| == T + NUM_CHAR && n <= |son| && forall m :: 0 <= m < |son| ==> son[m] < T + NUM_CHAR
    ensures |r| == |prnt|
  {
    if n == 0 then prnt else SetParent(Connect(prnt, son, n - 1), son[n - 1], n - 1)
  }

  /** With distinct even bases, connecting inverts son and leaves other entries alone. */
  lemma {:induction false} ConnectInverts(prnt: seq<nat>, son: seq<nat>, n: nat)
    requires |prnt| == T + NUM_CHAR && n <= |son| && Distinct(son)
    requires forall m :: 0 <= m < |son| ==> son[m] < T + NUM_CHAR && (son[m] < T ==> son[m] % 2 == 0 && son[m] < ROOT)
    ensures var r := Connect(prnt, son, n);
            && (forall m :: 0 <= m < n ==> r[son[m]] == m && (son[m] < T ==> r[son[m] + 1] == m))
            && r[ROOT] == prnt[ROOT]
  {
    if n == 0 {
    } else {
      ConnectInverts(prnt, son, n - 1);
      var q := Connect(prnt, son, n - 1);
      var r := Connect(prnt, son, n);
      forall m | 0 <= m < n
        ensures r[son[m]] == m && (son[m] < T ==> r[son[m] + 1] == m)
      {
        if m < n - 1 { assert son[m] != son[n - 1]; assert q[son[m]] == m; }
      }
    }
  }

  /** The tables once every pair is joined. */
  function Finish(prnt: seq<nat>, g: Stage): (t: Tree)
    requires |prnt| == T + NUM_CHAR && |g.son| == |g.freq| == T
    requires forall m :: 0 <= m < |g.son| ==> g.son[m] < T + NUM_CHAR
  {
    Tree(g.freq + [SENTINEL], Connect(prnt, g.son, T), g.son)
  }

  lemma {:induction false} LeavesWeigh(freq: seq<nat>, son: seq<nat>)
    requires |freq| == |son|
    ensures Sum(LeafWeights(freq, son)) == Sum(Freqs(Leaves(freq, son)))
    ensures Sum(LeafMarks(son)) == |Leaves(freq, son)|
    decreases |son|
  {
    if son == [] {
    } else {
      var n := |son| - 1;
      LeavesWeigh(freq[..n], son[..n]);
      var w, m := LeafWeights(freq, son), LeafMarks(son);
      assert w[..n] == LeafWeights(freq[..n], son[..n]);
      assert m[..n] == LeafMarks(son[..n]);
      var ls, before := Leaves(freq, son), Leaves(freq[..n], son[..n]);
      if son[n] >= T {
        assert Freqs(ls)[..|before|] == Freqs(before);
      } else {
        assert ls == before;
      }
    }
  }

  /** A finished stage is a balanced tree whose root is the sum of the leaves. */
  lemma FinishBalanced(prnt: seq<nat>, g: Stage, leaves: seq<(nat, nat)>)
    requires |prnt| == T + NUM_CHAR && prnt[ROOT] == 0 && StageOk(g, ROOT, leaves) && |leaves| == NUM_CHAR
    requires forall m :: 0 <= m < |g.son| ==> g.son[m] < T + NUM_CHAR
    ensures var t := Finish(prnt, g);
            Balanced(t, T) && Leaves(t.freq[..T], t.son) == leaves && t.freq[ROOT] == Sum(Freqs(leaves))
  {
    var t := Finish(prnt, g);
    FinishLinks(prnt, g, leaves);
    assert t.freq[..T] == g.freq;
    LeavesWeigh(g.freq, g.son);
    assert LeafWeights(t.freq, t.son) == LeafWeights(g.freq, g.son);
    assert g.freq[ROOT..] == [g.freq[ROOT]];
    assert [g.freq[ROOT]] == [] + [g.freq[ROOT]];
    SumConcat([], [g.freq[ROOT]]);
  }

  lemma FinishLinks(prnt: seq<nat>, g: Stage, leaves: seq<(nat, nat)>)
    requires |prnt| == T + NUM_CHAR && prnt[ROOT] == 0 && StageOk(g, ROOT, leaves)
    requires forall m :: 0 <= m < |g.son| ==> g.son[m] < T + NUM_CHAR
    ensures var t := Finish(prnt, g);
            Shape(t) && Linked(t) && forall i: nat :: i < T ==> SumOk(t, i, T)
  {
    hide Ordered, Leaves, Sum;
    var t := Finish(prnt, g);
    forall m | 0 <= m < |g.son|
      ensures g.son[m] < T + NUM_CHAR && (g.son[m] < T ==> g.son[m] % 2 == 0 && g.son[m] < ROOT)
    {
      assert StageNodeOk(g, m, ROOT);
    }
    ConnectInverts(prnt, g.son, T);
    forall i: nat | i < T ensures SonOk(t, i) && SumOk(t, i, T) { assert StageNodeOk(g, i, ROOT); }
    forall i: nat | i < ROOT ensures ParentOk(t, i) { FinishParent(prnt, g, leaves, i); }
    forall c: nat | c < NUM_CHAR
      ensures LeafOk(t, c)
    {
      assert T + c in g.son;
      var m :| 0 <= m < |g.son| && g.son[m] == T + c;
    }
  }

  lemma FinishParent(prnt: seq<nat>, g: Stage, leaves: seq<(nat, nat)>, i: nat)
    requires |prnt| == T + NUM_CHAR && StageOk(g, ROOT, leaves) && i < ROOT
    requires forall m :: 0 <= m < |g.son| ==> g.son[m] < T + NUM_CHAR
    ensures Shape(Finish(prnt, g)) && ParentOk(Finish(prnt, g), i)
  {
    hide Ordered, Leaves, Sum;
    forall m | 0 <= m < |g.son|
      ensures g.son[m] < T + NUM_CHAR && (g.son[m] < T ==> g.son[m] % 2 == 0 && g.son[m] < ROOT)
    {
      assert StageNodeOk(g, m, ROOT);
    }
    ConnectInverts(prnt, g.son, T);
    var b := i - i % 2;
    assert b in g.son;
    var m :| 0 <= m < |g.son| && g.son[m] == b;
    assert StageNodeOk(g, m, ROOT);
  }

  /** The positions of the leaves among the first n nodes, in order. */
  function LeafPos(son: seq<nat>, n: nat): (r: seq<nat>)
    requires n <= |son|
    ensures |r| <= n
    ensures forall m :: 0 <= m < |r| ==> r[m] < n && son[r[m]] >= T
    ensures forall a, b :: 0 <= a < b < |r| ==> r[a] < r[b]
    ensures forall p: nat :: p < n && son[p] >= T ==> p in r
  {
    if n == 0 then []
    else if son[n - 1] >= T then LeafPos(son, n - 1) + [n - 1]
    else LeafPos(son, n - 1)
  }

  lemma {:induction false} LeafPosPrefix(son: seq<nat>, k: nat, n: nat)
    requires n <= k <= |son|
    ensures LeafPos(son[..k], n) == LeafPos(son, n)
    decreases n
  {
    if n == 0 {
    } else {
      LeafPosPrefix(son, k, n - 1);
    }
  }

  lemma {:induction false} LeavesAt(freq: seq<nat>, son: seq<nat>)
    requires |freq| == |son|
    ensures var ps := LeafPos(son, |son|);
            && |Leaves(freq, son)| == |ps|
            && forall m :: 0 <= m < |ps| ==> Leaves(freq, son)[m] == (son[ps[m]], freq[ps[m]])
    decreases |son|
  {
    if son == [] {
    } else {
      var n := |son| - 1;
      LeavesAt(freq[..n], son[..n]);
      LeafPosPrefix(son, n, n);
    }
  }

  lemma {:induction false} LeavesOfLeaves(ls: seq<(nat, nat)>)
    requires forall m :: 0 <= m < |ls| ==> ls[m].0 >= T
    ensures Leaves(Freqs(ls), Sons(ls)) == ls
    decreases |ls|
  {
    if ls == [] {
    } else {
      var n := |ls| - 1;
      LeavesOfLeaves(ls[..n]);
      assert Freqs(ls)[..n] == Freqs(ls[..n]) && Sons(ls)[..n] == Sons(ls[..n]);
    }
  }

  /** The leaves with halved frequencies, where the rebuild starts. */
  function HalvedLeaves(t: Tree): (ls: seq<(nat, nat)>)
    requires Shape(t)
  {
    HalvedAll(Leaves(t.freq[..T], t.son))
  }

  lemma CollectedOk(t: Tree)
    requires Balanced(t, T)
    ensures LeavesOk(HalvedLeaves(t))
  {
    hide Sum, Ordered, Distinct, Onto, SumOk, Leaves;
    var f := t.freq[..T];
    var ps := LeafPos(t.son, T);
    var ls := HalvedLeaves(t);
    LeavesAt(f, t.son);
    LeavesWeigh(f, t.son);
    assert |ls| == |ps| == NUM_CHAR;
    forall m: nat | m < |ls|
      ensures ls[m] == (t.son[ps[m]], (t.freq[ps[m]] + 1) / 2)
      ensures T <= ls[m].0 < T + NUM_CHAR
    {
      assert SonOk(t, ps[m]);
    }
    LeavesOfLeaves(ls);
    var g := Stage(Freqs(ls), Sons(ls));
    forall m: nat | m < |g.son| ensures StageNodeOk(g, m, 0) { assert g.son[m] == ls[m].0; }
    CollectedDistinct(t, ls, ps);
    CollectedOrdered(t, ls, ps);
    CollectedOnto(t, ls, ps);
    assert g.freq[0..] == Freqs(ls);
  }

  function PickAt(s: seq<nat>, ps: seq<nat>): (r: seq<nat>)
    requires forall m :: 0 <= m < |ps| ==> ps[m] < |s|
    ensures |r| == |ps| && forall m :: 0 <= m < |ps| ==> r[m] == s[ps[m]]
  {
    seq(|ps|, m requires 0 <= m < |ps| => s[ps[m]])
  }

  function HalvesAt(s: seq<nat>, ps: seq<nat>): (r: seq<nat>)
    requires forall m :: 0 <= m < |ps| ==> ps[m] < |s|
    ensures |r| == |ps| && forall m :: 0 <= m < |ps| ==> r[m] == (s[ps[m]] + 1) / 2
  {
    seq(|ps|, m requires 0 <= m < |ps| => (s[ps[m]] + 1) / 2)
  }

  /** From position i on, nothing has changed. */
  ghost predicate Untouched(a0: seq<nat>, a: seq<nat>, i: nat) {
    |a0| == |a| && forall m :: i <= m < |a| ==> a[m] == a0[m]
  }

  /** After looking at i nodes: the j leaves among them are halved in front, the rest is untouched. */
  ghost predicate Collecting(f0: seq<nat>, s0: seq<nat>, f: seq<nat>, s: seq<nat>, i: nat, j: nat) {
    && |s| < |f| && i <= |s0| && Untouched(f0, f, i) && Untouched(s0, s, i)
    && j == |LeafPos(s0, i)|
    && f[..j] == HalvesAt(f0, LeafPos(s0, i)) && s[..j] == PickAt(s0, LeafPos(s0, i))
  }

  lemma CollectStart(f0: seq<nat>, s0: seq<nat>)
    requires |s0| < |f0|
    ensures Collecting(f0, s0, f0, s0, 0, 0)
  {
  }

  lemma CollectBounds(f0: seq<nat>, s0: seq<nat>, f: seq<nat>, s: seq<nat>, i: nat, j: nat)
    requires Collecting(f0, s0, f, s, i, j) && i < |s|
    ensures j <= i < |s| < |f| && |s0| == |s| && |f0| == |f| && s[i] == s0[i] && f[i] == f0[i]
  {
    hide LeafPos, HalvesAt, PickAt;
  }

  lemma CollectStep(f0: seq<nat>, s0: seq<nat>, f: seq<nat>, s: seq<nat>, i: nat, j: nat)
    requires Collecting(f0, s0, f, s, i, j) && i < |s|
    ensures j <= i < |s| < |f|
    ensures if s[i] >= T then Collecting(f0, s0, f[j := (f[i] + 1) / 2], s[j := s[i]], i + 1, j + 1)
            else Collecting(f0, s0, f, s, i + 1, j)
  {
    hide Collecting;
    CollectBounds(f0, s0, f, s, i, j);
    if s[i] >= T { CollectLeaf(f0, s0, f, s, i, j); } else { CollectInner(f0, s0, f, s, i, j); }
  }

  lemma CollectInner(f0: seq<nat>, s0: seq<nat>, f: seq<nat>, s: seq<nat>, i: nat, j: nat)
    requires Collecting(f0, s0, f, s, i, j) && i < |s| && s[i] < T
    ensures Collecting(f0, s0, f, s, i + 1, j)
  {
    hide LeafPos, HalvesAt, PickAt;
    LeafPosNext(s0, i);
  }

  lemma CollectLeaf(f0: seq<nat>, s0: seq<nat>, f: seq<nat>, s: seq<nat>, i: nat, j: nat)
    requires Collecting(f0, s0, f, s, i, j) && i < |s| && s[i] >= T
    ensures j <= i < |s| < |f| && Collecting(f0, s0, f[j := (f[i] + 1) / 2], s[j := s[i]], i + 1, j + 1)
  {
    hide LeafPos, HalvesAt, PickAt, Untouched;
    CollectBounds(f0, s0, f, s, i, j);
    LeafPosNext(s0, i);
    HalvesNext(f0, f, LeafPos(s0, i), i, j);
    PicksNext(s0, s, LeafPos(s0, i), i, j);
  }

  lemma HalvesNext(a0: seq<nat>, a: seq<nat>, ps: seq<nat>, i: nat, j: nat)
    requires j == |ps| <= i < |a| && Untouched(a0, a, i) && forall m :: 0 <= m < |ps| ==> ps[m] < i
    requires a[..j] == HalvesAt(a0, ps)
    ensures var b := a[j := (a[i] + 1) / 2]; b[..j + 1] == HalvesAt(a0, ps + [i]) && Untouched(a0, b, i + 1)
  {
    PutNext(a0, a, i, j, (a[i] + 1) / 2);
    HalvesSnoc(a0, ps, i);
  }

  lemma PicksNext(a0: seq<nat>, a: seq<nat>, ps: seq<nat>, i: nat, j: nat)
    requires j == |ps| <= i < |a| && Untouched(a0, a, i) && forall m :: 0 <= m < |ps| ==> ps[m] < i
    requires a[..j] == PickAt(a0, ps)
    ensures var b := a[j := a[i]]; b[..j + 1] == PickAt(a0, ps + [i]) && Untouched(a0, b, i + 1)
  {
    PutNext(a0, a, i, j, a[i]);
    PickSnoc(a0, ps, i);
  }

  lemma PutNext(a0: seq<nat>, a: seq<nat>, i: nat, j: nat, v: nat)
    requires j <= i < |a| && Untouched(a0, a, i)
    ensures a[j := v][..j + 1] == a[..j] + [v] && Untouched(a0, a[j := v], i + 1)
  {
  }

  lemma HalvesSnoc(s: seq<nat>, ps: seq<nat>, i: nat)
    requires i < |s| && forall m :: 0 <= m < |ps| ==> ps[m] < |s|
    ensures HalvesAt(s, ps + [i]) == HalvesAt(s, ps) + [(s[i] + 1) / 2]
  {
  }

  lemma PickSnoc(s: seq<nat>, ps: seq<nat>, i: nat)
    requires i < |s| && forall m :: 0 <= m < |ps| ==> ps[m] < |s|
    ensures PickAt(s, ps + [i]) == PickAt(s, ps) + [s[i]]
  {
  }

  lemma LeafPosNext(s: seq<nat>, i: nat)
    requires i < |s|
    ensures LeafPos(s, i + 1) == if s[i] >= T then LeafPos(s, i) + [i] else LeafPos(s, i)
  {
  }

  /** Halving the leaves where they stand collects exactly the halved leaves. */
  lemma CollectedIs(t: Tree, f: seq<nat>, s: seq<nat>, j: nat)
    requires Balanced(t, T) && |t.freq| == T + 1 && |t.son| == T && Collecting(t.freq, t.son, f, s, T, j)
    ensures var ls := HalvedLeaves(t);
            |ls| == NUM_CHAR == j <= |s| <= |f| && f[..j] == Freqs(ls) && s[..j] == Sons(ls)
    ensures |f| == T + 1 && f[T] == t.freq[T]
  {
    hide Balanced, Leaves, LeafPos;
    BalancedFacts(t);
    var g := t.freq[..T];
    LeavesAt(g, t.son);
    LeavesWeigh(g, t.son);
  }

  lemma CollectedDistinct(t: Tree, ls: seq<(nat, nat)>, ps: seq<nat>)
    requires Balanced(t, T) && ps == LeafPos(t.son, T) && |ls| == |ps|
    requires forall m: nat :: m < |ls| ==> ls[m] == (t.son[ps[m]], (t.freq[ps[m]] + 1) / 2)
    ensures Distinct(Sons(ls))
  {
    hide Sum, Ordered, SumOk;
    var so := Sons(ls);
    forall a, b | 0 <= a < b < |ls|
      ensures so[a] != so[b]
    {
      assert SonOk(t, ps[a]) && SonOk(t, ps[b]);
      assert so[a] == ls[a].0 && so[b] == ls[b].0;
    }
  }

  lemma CollectedOrdered(t: Tree, ls: seq<(nat, nat)>, ps: seq<nat>)
    requires Balanced(t, T) && ps == LeafPos(t.son, T) && |ls| == |ps|
    requires forall m: nat :: m < |ls| ==> ls[m] == (t.son[ps[m]], (t.freq[ps[m]] + 1) / 2)
    ensures Ordered(Freqs(ls), |ls|)
  {
    hide Sum, Linked, SumOk, LeafPos, Ordered;
    HalvesOrdered(t.freq, ps, Freqs(ls));
  }

  lemma HalvesOrdered(freq: seq<nat>, ps: seq<nat>, fr: seq<nat>)
    requires T <= |freq| && Ordered(freq, T) && |fr| == |ps|
    requires forall m :: 0 <= m < |ps| ==> ps[m] < T && fr[m] == (freq[ps[m]] + 1) / 2
    requires forall a, b :: 0 <= a < b < |ps| ==> ps[a] < ps[b]
    ensures Ordered(fr, |fr|)
  {
    forall a, b | 0 <= a <= b < |fr| ensures 1 <= fr[a] <= fr[b] {
      assert a < b ==> ps[a] < ps[b];
      assert freq[ps[a]] <= freq[ps[b]];
    }
  }

  lemma CollectedOnto(t: Tree, ls: seq<(nat, nat)>, ps: seq<nat>)
    requires Balanced(t, T) && ps == LeafPos(t.son, T) && |ls| == |ps|
    requires forall m: nat :: m < |ls| ==> ls[m] == (t.son[ps[m]], (t.freq[ps[m]] + 1) / 2)
    ensures Onto(Sons(ls), 0)
  {
    hide Sum;
    forall v: nat | T <= v < T + NUM_CHAR
      ensures v in Sons(ls)
    {
      assert LeafOk(t, v - T);
      var p := t.prnt[v];
      assert p in ps;
      var m :| 0 <= m < |ps| && ps[m] == p;
      assert Sons(ls)[m] == ls[m].0 == v;
    }
  }

  /** Leaves in frequency order, one per symbol. */
  ghost predicate LeavesOk(ls: seq<(nat, nat)>) {
    |ls| == NUM_CHAR && StageOk(Stage(Freqs(ls), Sons(ls)), 0, ls)
  }

  /** The tree over given leaves. */
  function TreeOver(prnt: seq<nat>, ls: seq<(nat, nat)>): (t: Tree)
    requires |prnt| == T + NUM_CHAR && LeavesOk(ls)
  {
    var g := Stage(Freqs(ls), Sons(ls));
    BuiltBounds(g, ls);
    Finish(prnt, Build(g, 0))
  }

  lemma LeavesOkLen(ls: seq<(nat, nat)>)
    requires LeavesOk(ls)
    ensures |ls| == NUM_CHAR
  {
  }

  lemma BuiltSons(ls: seq<(nat, nat)>)
    requires LeavesOk(ls)
    ensures |ls| == NUM_CHAR
    ensures forall m :: 0 <= m < T ==> Build(Stage(Freqs(ls), Sons(ls)), 0).son[m] < T + NUM_CHAR
  {
    BuiltBounds(Stage(Freqs(ls), Sons(ls)), ls);
  }

  /** It is balanced, has those leaves in that order, and its root counts them all. */
  lemma TreeOverBalanced(prnt: seq<nat>, ls: seq<(nat, nat)>)
    requires |prnt| == T + NUM_CHAR && prnt[ROOT] == 0 && LeavesOk(ls)
    ensures var t := TreeOver(prnt, ls);
            Balanced(t, T) && Leaves(t.freq[..T], t.son) == ls && t.freq[ROOT] == Sum(Freqs(ls))
  {
    var g := Stage(Freqs(ls), Sons(ls));
    BuildKeeps(g, 0, ls);
    BuiltBounds(g, ls);
    FinishBalanced(prnt, Build(g, 0), ls);
  }

  /** The rebuilt tree: halve every leaf, keep their order, join again. */
  function Rebuild(t: Tree): (r: Tree)
    requires Balanced(t, T)
  {
    CollectedOk(t);
    TreeOver(t.prnt, HalvedLeaves(t))
  }

  lemma BuiltBounds(g: Stage, leaves: seq<(nat, nat)>)
    requires StageOk(g, 0, leaves)
    ensures forall m :: 0 <= m < T ==> Build(g, 0).son[m] < T + NUM_CHAR
  {
    BuildKeeps(g, 0, leaves);
    var b := Build(g, 0);
    forall m | 0 <= m < T ensures b.son[m] < T + NUM_CHAR { assert StageNodeOk(b, m, ROOT); }
  }

  /**
   Rebuilding any balanced tree gives a balanced tree with the same leaves in the same order,
   each at half its frequency rounded up, and a root no higher than half the old root
   plus half the alphabet.
   */
  lemma RebuildKeeps(t: Tree)
    requires Balanced(t, T)
    ensures var r := Rebuild(t);
            && Balanced(r, T)
            && Leaves(r.freq[..T], r.son) == HalvedAll(Leaves(t.freq[..T], t.son))
            && 2 * r.freq[ROOT] <= t.freq[ROOT] + NUM_CHAR
  {
    hide Balanced, TreeOver, LeavesOk, Sum;
    BalancedFacts(t);
    CollectedOk(t);
    var before := Leaves(t.freq[..T], t.son);
    var ls := HalvedLeaves(t);
    TreeOverBalanced(t.prnt, ls);
    LeavesWeigh(t.freq[..T], t.son);
    assert LeafWeights(t.freq, t.son) == LeafWeights(t.freq[..T], t.son);
    SumHalves(Freqs(before), Freqs(ls));
  }

  lemma BalancedFacts(t: Tree)
    requires Balanced(t, T)
    ensures Shape(t) && t.prnt[ROOT] == 0 && t.freq[T] == SENTINEL
    ensures Sum(LeafMarks(t.son)) == NUM_CHAR && Sum(LeafWeights(t.freq, t.son)) == t.freq[ROOT]
  {
    hide Ordered, Sum;
  }

  lemma TreeOverTies(prnt: seq<nat>, ls: seq<(nat, nat)>)
    requires |prnt| == T + NUM_CHAR && LeavesOk(ls)
    ensures var t := TreeOver(prnt, ls); |t.son| == T && |t.freq| == T + 1 && TiesOk(t.freq, t.son)
  {
    hide Ordered, Distinct, Onto, Sum, Leaves, Build;
    var g := Stage(Freqs(ls), Sons(ls));
    forall m | 0 <= m < |g.son| ensures g.son[m] >= T { assert StageNodeOk(g, m, 0); }
    BuildTies(g, 0, ls);
    BuiltBounds(g, ls);
  }

  /** A rebuilt tree has its leaves first among equals and its joined nodes in the order of their pairs. */
  lemma RebuildTies(t: Tree)
    requires Balanced(t, T)
    ensures var r := Rebuild(t); |r.son| == T && |r.freq| == T + 1 && TiesOk(r.freq, r.son)
  {
    hide Balanced, TreeOver, LeavesOk, TiesOk;
    BalancedFacts(t);
    CollectedOk(t);
    TreeOverTies(t.prnt, HalvedLeaves(t));
  }

  /** What counting symbol c makes of the tree. */
  function Update(t: Tree, c: nat): (r: Tree)
    requires Inv(t) && c < NUM_CHAR
    ensures Inv(r)
    ensures r.freq[ROOT] == 1 + if t.freq[ROOT] == MAX_FREQ then Rebuild(t).freq[ROOT] else t.freq[ROOT]
  {
    RebuildKeeps(t);
    var u := if t.freq[ROOT] == MAX_FREQ then Rebuild(t) else t;
    LeafShort(u, c);
    Climb(u, u.prnt[c + T])
  }

  /** Before a symbol is counted, its leaf may be taken as the node with the deficit. */
  lemma LeafShort(t: Tree, c: nat)
    requires Balanced(t, T) && c < NUM_CHAR
    ensures t.prnt[c + T] < T && Balanced(t, t.prnt[c + T])
  {
    assert LeafOk(t, c);
    var p := t.prnt[c + T];
    forall i: nat | i < T ensures SumOk(t, i, p) { assert SumOk(t, i, T); }
  }

  function UpdateAll(t: Tree, cs: seq<nat>): (r: Tree)
    requires Inv(t) && forall i :: 0 <= i < |cs| ==> cs[i] < NUM_CHAR
    ensures Inv(r)
  {
    if cs == [] then t else Update(UpdateAll(t, cs[..|cs| - 1]), cs[|cs| - 1])
  }

  /** After a rebuild the next 16227 symbols are all counted without another one. */
  lemma {:induction false} RebuildsAreRare(t: Tree, cs: seq<nat>)
    requires Inv(t) && t.freq[ROOT] == MAX_FREQ
    requires forall i :: 0 <= i < |cs| ==> cs[i] < NUM_CHAR
    requires 1 <= |cs| <= 16227
    ensures UpdateAll(t, cs).freq[ROOT] == Rebuild(t).freq[ROOT] + |cs| <= 16541 + |cs| <= MAX_FREQ
    decreases |cs|
  {
    RebuildKeeps(t);
    var front := cs[..|cs| - 1];
    if front == [] {
      assert UpdateAll(t, front) == t;
    } else {
      RebuildsAreRare(t, front);
    }
  }

  function FreshLeaves(): (ls: seq<(nat, nat)>)
    ensures |ls| == NUM_CHAR && forall i :: 0 <= i < NUM_CHAR ==> ls[i] == (T + i, 1)
  {
    seq(NUM_CHAR, i requires 0 <= i < NUM_CHAR => (T + i, 1))
  }

  lemma FreshLeavesOk()
    ensures LeavesOk(FreshLeaves())
  {
    hide LeavesOk;
    UniformLeavesOk(FreshLeaves());
  }

  lemma UniformLeavesOk(ls: seq<(nat, nat)>)
    requires |ls| == NUM_CHAR && forall i :: 0 <= i < NUM_CHAR ==> ls[i] == (T + i, 1)
    ensures LeavesOk(ls)
  {
    hide Sum, Leaves;
    var g := Stage(Freqs(ls), Sons(ls));
    LeavesOfLeaves(ls);
    forall v: nat | T <= v < T + NUM_CHAR ensures v in g.son { assert g.son[v - T] == v; }
    assert g.freq[0..] == Freqs(ls);
  }

  /** The tree before the first symbol: every symbol counted once. */
  function FreshTree(): (t: Tree) {
    FreshLeavesOk();
    TreeOver(seq(T + NUM_CHAR, _ => 0), FreshLeaves())
  }

  lemma {:induction false} SumOnes(s: seq<nat>)
    requires forall i :: 0 <= i < |s| ==> s[i] == 1
    ensures Sum(s) == |s|
    decreases |s|
  {
    if s == [] {
    } else {
      SumOnes(s[..|s| - 1]);
    }
  }

  /** The fresh tree meets the invariant and counts the alphabet once. */
  lemma FreshTreeOk()
    ensures Inv(FreshTree()) && FreshTree().freq[ROOT] == NUM_CHAR
  {
    hide TreeOver, LeavesOk, Balanced, Sum;
    FreshLeavesOk();
    TreeOverBalanced(seq(T + NUM_CHAR, _ => 0), FreshLeaves());
    SumOnes(Freqs(FreshLeaves()));
  }

  /** The initial tree has its leaves in the order of the symbols, and is built like a rebuilt one. */
  lemma FreshTies()
    ensures var t := FreshTree(); |t.son| == T && |t.freq| == T + 1 && TiesOk(t.freq, t.son)
    ensures var t := FreshTree(); Leaves(t.freq[..T], t.son) == FreshLeaves()
  {
    hide TreeOver, LeavesOk, TiesOk, Leaves, Balanced;
    FreshLeavesOk();
    TreeOverTies(seq(T + NUM_CHAR, _ => 0), FreshLeaves());
    TreeOverBalanced(seq(T + NUM_CHAR, _ => 0), FreshLeaves());
  }

  lemma {:induction false} ConnectPrefix(prnt: seq<nat>, s: seq<nat>, s': seq<nat>, n: nat)
    requires |prnt| == T + NUM_CHAR && n <= |s| && n <= |s'| && s[..n] == s'[..n]
    requires forall m :: 0 <= m < |s| ==> s[m] < T + NUM_CHAR
    requires forall m :: 0 <= m < |s'| ==> s'[m] < T + NUM_CHAR
    ensures Connect(prnt, s, n) == Connect(prnt, s', n)
    decreases n
  {
    if n == 0 {
    } else {
      assert s[..n - 1] == s[..n][..n - 1] && s'[..n - 1] == s'[..n][..n - 1];
      assert s[n - 1] == s[..n][n - 1] && s'[n - 1] == s'[..n][n - 1];
      ConnectPrefix(prnt, s, s', n - 1);
    }
  }

  /** While no node outgrows the last one, joining only appends. */
  lemma AddPairAppends(g: Stage, i: nat)
    requires |g.freq| == |g.son| && i + 1 < |g.freq| && g.freq[|g.freq| - 1] <= g.freq[i] + g.freq[i + 1]
    ensures AddPair(g, i) == Stage(g.freq + [g.freq[i] + g.freq[i + 1]], g.son + [i])
  {
    var first := g.freq[i] + g.freq[i + 1];
    assert SlotFor(g.freq, |g.freq|, first) == |g.freq|;
  }

  /** In the fresh tree the last node is the join of the last pair. */
  ghost predicate FreshStage(g: Stage, i: nat, ls: seq<(nat, nat)>) {
    && StageOk(g, i, ls)
    && g.freq[|g.freq| - 1] == if i == 0 then 1 else g.freq[i - 2] + g.freq[i - 1]
  }

  lemma FreshStageStep(g: Stage, i: nat, ls: seq<(nat, nat)>)
    requires FreshStage(g, i, ls) && |g.son| < T
    ensures i + 1 < |g.freq| && AddPair(g, i) == Stage(g.freq + [g.freq[i] + g.freq[i + 1]], g.son + [i])
    ensures FreshStage(AddPair(g, i), i + 2, ls)
  {
    hide Sum, Leaves, Distinct, Onto, StageNodeOk, AddPair, Build;
    AddPairKeeps(g, i, ls);
    AddPairAppends(g, i);
  }

  ghost predicate SonsBelow(s: seq<nat>) {
    forall m :: 0 <= m < |s| ==> s[m] < T + NUM_CHAR
  }

  lemma ConnectNone(prnt: seq<nat>, s: seq<nat>)
    requires |prnt| == T + NUM_CHAR && SonsBelow(s)
    ensures Connect(prnt, s, 0) == prnt
  {
  }

  lemma ConnectSnoc(prnt: seq<nat>, s: seq<nat>, v: nat)
    requires |prnt| == T + NUM_CHAR && SonsBelow(s) && v < T + NUM_CHAR
    ensures Connect(prnt, s + [v], |s| + 1) == SetParent(Connect(prnt, s, |s|), v, |s|)
  {
    hide SetParent, Connect;
    var s': seq<nat> := s + [v];
    assert s'[..|s|] == s[..|s|];
    assert SonsBelow(s') by {
      forall m | 0 <= m < |s'| ensures s'[m] < T + NUM_CHAR { assert m < |s| ==> s'[m] == s[m]; }
    }
    ConnectPrefix(prnt, s, s', |s|);
    ConnectOnce(prnt, s', |s|);
    assert s'[|s|] == v;
  }

  lemma ConnectOnce(prnt: seq<nat>, s: seq<nat>, n: nat)
    requires |prnt| == T + NUM_CHAR && SonsBelow(s) && n < |s|
    ensures Connect(prnt, s, n + 1) == SetParent(Connect(prnt, s, n), s[n], n)
  {
    hide SetParent;
  }

  lemma FreshStart()
    ensures FreshStage(Stage(Freqs(FreshLeaves()), Sons(FreshLeaves())), 0, FreshLeaves())
  {
    hide StageOk, FreshLeaves;
    FreshLeavesOk();
    LeavesOkLen(FreshLeaves());
  }

  lemma FreshTreeRoot()
    ensures |FreshTree().prnt| == T + NUM_CHAR && FreshTree().prnt[ROOT] == 0
  {
    hide FreshTree;
    FreshTreeOk();
    BalancedFacts(FreshTree());
  }
}
