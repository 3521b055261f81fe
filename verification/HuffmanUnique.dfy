/**
 The counts of the symbols determine the frequency table: however a tree came about, the invariant leaves
 no choice but where equal frequencies go.
 */
module HuffmanUnique {
  import opened HuffmanTree
  import HB = HuffmanRebuild
  import HC = HuffmanCount

  ghost predicate SameCounts(t: Tree, u: Tree) {
    forall s: nat :: s < NUM_CHAR ==> HC.Located(t, s) && HC.Located(u, s) && HC.Count(t, s) == HC.Count(u, s)
  }

  /** Where u keeps the node that position i of t keeps, be it a leaf or the parent of a pair. */
  ghost function Image(t: Tree, u: Tree, i: nat): (k: nat)
    requires Balanced(t, T) && Balanced(u, T) && i < T
    ensures k < T && u.son[k] == t.son[i]
  {
    hide Ordered, SumOk;
    Child(t, i);
    var v := t.son[i];
    assert if v < T then ParentOk(u, v) else LeafOk(u, v - T);
    u.prnt[v]
  }

  lemma Child(t: Tree, i: nat)
    requires Balanced(t, T) && i < T
    ensures t.son[i] < T + NUM_CHAR && (t.son[i] < T ==> t.son[i] % 2 == 0 && t.son[i] + 1 < i)
    ensures t.prnt[t.son[i]] == i
  {
    hide Ordered, SumOk;
    assert SonOk(t, i);
  }

  lemma ImageInjective(t: Tree, u: Tree, i: nat, j: nat)
    requires Balanced(t, T) && Balanced(u, T) && i < T && j < T && Image(t, u, i) == Image(t, u, j)
    ensures i == j
  {
    hide Balanced;
    Child(t, i);
    Child(t, j);
  }

  /** A node of t, all nodes before it being the same, has its frequency in u too. */
  lemma ImageFreq(t: Tree, u: Tree, i: nat)
    requires Balanced(t, T) && Balanced(u, T) && SameCounts(t, u) && i < T
    requires forall j :: 0 <= j < i ==> t.freq[j] == u.freq[j]
    ensures u.freq[Image(t, u, i)] == t.freq[i]
  {
    hide Ordered, Linked;
    var k, v := Image(t, u, i), t.son[i];
    Child(t, i);
    Child(u, k);
    if v < T {
      assert SumOk(t, i, T) && SumOk(u, k, T);
    } else {
      assert HC.Count(t, v - T) == HC.Count(u, v - T);
    }
  }

  /** Different numbers below m are at most m. */
  lemma {:induction false} Room(f: seq<nat>, m: nat)
    requires forall i :: 0 <= i < |f| ==> f[i] < m
    requires forall i, j :: 0 <= i < j < |f| ==> f[i] != f[j]
    ensures |f| <= m
    decreases |f|
  {
    if f == [] {
    } else {
      var n := |f| - 1;
      var g: seq<nat> := seq(n, i requires 0 <= i < n => if f[i] == m - 1 then f[n] else f[i]);
      forall i | 0 <= i < n ensures g[i] < m - 1 { assert f[i] != f[n]; }
      forall i, j | 0 <= i < j < n ensures g[i] != g[j] { assert f[i] != f[j] && f[i] != f[n] && f[j] != f[n]; }
      Room(g, m - 1);
    }
  }

  /** Of the first m + 1 nodes of t, one does not go before position m in u. */
  lemma Overflows(t: Tree, u: Tree, m: nat) returns (i: nat)
    requires Balanced(t, T) && Balanced(u, T) && m < T
    ensures i <= m && Image(t, u, i) >= m
  {
    hide Balanced;
    var f: seq<nat> := seq(m + 1, i requires 0 <= i <= m => Image(t, u, i));
    forall i, j | 0 <= i < j < |f| ensures f[i] != f[j] {
      if f[i] == f[j] { ImageInjective(t, u, i, j); }
    }
    if forall i :: 0 <= i < |f| ==> f[i] < m { Room(f, m); }
    var k :| 0 <= k < |f| && f[k] >= m;
    i := k;
  }

  /** The next frequency of t is not below that of u. */
  lemma NotBelow(t: Tree, u: Tree, m: nat)
    requires Balanced(t, T) && Balanced(u, T) && SameCounts(t, u) && m < T
    requires forall j :: 0 <= j < m ==> t.freq[j] == u.freq[j]
    ensures t.freq[m] >= u.freq[m]
  {
    hide Linked, SumOk, SameCounts;
    var i := Overflows(t, u, m);
    ImageFreq(t, u, i);
    assert u.freq[m] <= u.freq[Image(t, u, i)] && t.freq[i] <= t.freq[m];
  }

  lemma {:induction false} SameUpTo(t: Tree, u: Tree, m: nat)
    requires Balanced(t, T) && Balanced(u, T) && SameCounts(t, u) && m <= T
    ensures forall j :: 0 <= j < m ==> t.freq[j] == u.freq[j]
    decreases m
  {
    hide Balanced, SameCounts;
    HC.BalancedShape(t, T);
    HC.BalancedShape(u, T);
    if m == 0 {
    } else {
      SameUpTo(t, u, m - 1);
      NotBelow(t, u, m - 1);
      Swapped(t, u);
      NotBelow(u, t, m - 1);
    }
  }

  lemma Swapped(t: Tree, u: Tree)
    requires SameCounts(t, u)
    ensures SameCounts(u, t)
  {
  }

  /** Equal counts, equal frequency tables. */
  lemma FreqUnique(t: Tree, u: Tree)
    requires Inv(t) && Inv(u) && SameCounts(t, u)
    ensures t.freq == u.freq
  {
    hide Linked, Ordered, SumOk, SameCounts;
    SameUpTo(t, u, T);
  }

  // Trees as they are built.

  /** Built in order: leaves first among equal frequencies, joined nodes in the order of their pairs. */
  ghost predicate Built(t: Tree) {
    Inv(t) && HB.TiesOk(t.freq, t.son)
  }

  /** The same symbols in the same order with the same counts. */
  ghost predicate SameLeaves(t: Tree, u: Tree)
    requires Shape(t) && Shape(u)
  {
    HB.Leaves(t.freq[..T], t.son) == HB.Leaves(u.freq[..T], u.son)
  }

  lemma LeavesCount(t: Tree, u: Tree)
    requires Inv(t) && Inv(u) && SameLeaves(t, u)
    ensures SameCounts(t, u)
  {
    hide Balanced, HB.Leaves;
    HC.BalancedShape(t, T);
    HC.BalancedShape(u, T);
    forall s: nat | s < NUM_CHAR
      ensures HC.Located(t, s) && HC.Located(u, s) && HC.Count(t, s) == HC.Count(u, s)
    {
      HC.LeafListed(t, s, 0);
      var ls := HB.Leaves(t.freq[..T], t.son);
      var m :| 0 <= m < |ls| && ls[m] == (T + s, HC.Count(t, s));
      HC.LeafListed(u, s, m);
    }
  }

  /** Where u keeps the node at position m, if all before are the same: at m or later, at the same frequency. */
  lemma ImageLater(t: Tree, u: Tree, m: nat)
    requires Balanced(t, T) && Balanced(u, T) && SameCounts(t, u) && m < T && t.freq == u.freq
    requires forall j :: 0 <= j < m ==> t.son[j] == u.son[j]
    ensures m <= Image(t, u, m) && u.freq[Image(t, u, m)] == u.freq[m]
  {
    hide Ordered, SumOk, Linked, SameCounts;
    var k := Image(t, u, m);
    ImageFreq(t, u, m);
    if k < m {
      Child(t, k);
      Child(t, m);
    }
  }

  /** Unless both are leaves, the two have the same node at position m. */
  lemma SameJoin(t: Tree, u: Tree, m: nat)
    requires Built(t) && Built(u) && SameCounts(t, u) && m < T && t.freq == u.freq
    requires forall j :: 0 <= j < m ==> t.son[j] == u.son[j]
    ensures t.son[m] == u.son[m] || (t.son[m] >= T && u.son[m] >= T)
  {
    hide Balanced, SameCounts;
    HC.BalancedShape(t, T);
    HC.BalancedShape(u, T);
    Swapped(t, u);
    ImageLater(t, u, m);
    ImageLater(u, t, m);
  }

  /** The leaf at m is listed right behind the leaves before it. */
  lemma {:induction false} LeafPlace(s: seq<nat>, m: nat, n: nat)
    requires m < n <= |s| && s[m] >= T
    ensures |HB.LeafPos(s, m)| < |HB.LeafPos(s, n)| && HB.LeafPos(s, n)[|HB.LeafPos(s, m)|] == m
    decreases n
  {
    hide HB.LeafPos;
    HB.LeafPosNext(s, n - 1);
    if n == m + 1 {
    } else {
      LeafPlace(s, m, n - 1);
    }
  }

  lemma LeafEntry(freq: seq<nat>, son: seq<nat>, m: nat)
    requires |freq| == |son| && m < |son| && son[m] >= T
    ensures var k := |HB.LeafPos(son, m)|; k < |HB.Leaves(freq, son)| && HB.Leaves(freq, son)[k].0 == son[m]
  {
    hide HB.Leaves, HB.LeafPos;
    HB.LeavesAt(freq, son);
    LeafPlace(son, m, |son|);
  }

  /** Two leaves at the same place in the same list are the same. */
  lemma SameLeaf(t: Tree, u: Tree, m: nat)
    requires Shape(t) && Shape(u) && SameLeaves(t, u) && m < T
    requires forall j :: 0 <= j < m ==> t.son[j] == u.son[j]
    requires t.son[m] >= T && u.son[m] >= T
    ensures t.son[m] == u.son[m]
  {
    hide HB.Leaves, HB.LeafPos;
    LeafEntry(t.freq[..T], t.son, m);
    LeafEntry(u.freq[..T], u.son, m);
    SameLeafPos(t.son, u.son, m);
  }

  lemma SameLeafPos(s: seq<nat>, s': seq<nat>, m: nat)
    requires m <= |s| && m <= |s'| && forall j :: 0 <= j < m ==> s[j] == s'[j]
    ensures HB.LeafPos(s, m) == HB.LeafPos(s', m)
  {
    hide HB.LeafPos;
    HB.LeafPosPrefix(s, m, m);
    HB.LeafPosPrefix(s', m, m);
    assert s[..m] == s'[..m];
  }

  lemma {:induction false} SameSons(t: Tree, u: Tree, m: nat)
    requires Built(t) && Built(u) && SameCounts(t, u) && t.freq == u.freq && m <= T
    requires Shape(t) && Shape(u) && SameLeaves(t, u)
    ensures forall j :: 0 <= j < m ==> t.son[j] == u.son[j]
    decreases m
  {
    hide Built, SameCounts, SameLeaves;
    if m == 0 {
    } else {
      SameSons(t, u, m - 1);
      SameJoin(t, u, m - 1);
      if t.son[m - 1] >= T && u.son[m - 1] >= T { SameLeaf(t, u, m - 1); }
    }
  }

  lemma SameParents(t: Tree, u: Tree)
    requires Inv(t) && Inv(u) && t.son == u.son
    ensures t.prnt == u.prnt
  {
    hide Ordered, SumOk;
    forall k | 0 <= k < T + NUM_CHAR ensures t.prnt[k] == u.prnt[k] {
      if k < ROOT {
        assert ParentOk(t, k) && SonOk(u, t.prnt[k]);
      } else if k >= T {
        assert LeafOk(t, k - T) && SonOk(u, t.prnt[k]);
      }
    }
  }

  /** A tree built in order is determined by its leaves, their order and their counts. */
  lemma BuiltUnique(t: Tree, u: Tree)
    requires Built(t) && Built(u) && Shape(t) && Shape(u) && SameLeaves(t, u)
    ensures t == u
  {
    hide Balanced, SameCounts, SameLeaves;
    LeavesCount(t, u);
    FreqUnique(t, u);
    SameSons(t, u, T);
    SameParents(t, u);
  }

  /** Rebuilt trees and the initial tree are built in order. */
  lemma RebuiltBuilt(t: Tree)
    requires Inv(t)
    ensures Built(HB.Rebuild(t)) && Built(HB.FreshTree())
  {
    hide Balanced, HB.TiesOk, HB.FreshTree, HB.Rebuild, HB.Leaves;
    HB.RebuildKeeps(t);
    HB.RebuildTies(t);
    HB.FreshTreeOk();
    HB.FreshTies();
    HC.BalancedShape(HB.Rebuild(t), T);
    HC.BalancedShape(HB.FreshTree(), T);
  }
}
