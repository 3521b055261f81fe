/**
 What the tree counts: an update adds one to the symbol coded and to no other, and a rebuild
 halves every count.
 */
module HuffmanCount {
  import opened HuffmanTree
  import opened HuffmanRebuild

  /** The count of a symbol, wherever its leaf is. */
  ghost function Count(t: Tree, s: nat): nat
    requires Shape(t) && s < NUM_CHAR && t.prnt[T + s] < T
  {
    t.freq[t.prnt[T + s]]
  }

  ghost predicate Located(t: Tree, s: nat)
    requires s < NUM_CHAR
  {
    Shape(t) && t.prnt[T + s] < T
  }

  lemma LeafPlace(t: Tree, short: nat, s: nat, i: nat)
    requires Balanced(t, short) && s < NUM_CHAR && i < T
    ensures Located(t, s) && t.son[t.prnt[T + s]] == T + s
    ensures t.son[i] == T + s ==> t.prnt[T + s] == i
    ensures t.son[i] < T ==> t.son[i] + 1 < T
    ensures t.son[i] < T + NUM_CHAR
  {
    hide Ordered, SumOk;
    assert LeafOk(t, s) && SonOk(t, i);
  }

  lemma ExchangeCounts(t: Tree, c: nat, l: nat, s: nat)
    requires Balanced(t, c) && c < l < ROOT && s < NUM_CHAR && t.freq[l] == t.freq[c]
    requires t.son[c] < T + NUM_CHAR && t.son[l] < T + NUM_CHAR
    ensures var u := Exchange(t.(freq := t.freq[c := t.freq[c] + 1]), c, l);
            Located(t, s) && Located(u, s) && Count(u, s) == Count(t, s) + if t.prnt[T + s] == c then 1 else 0
  {
    hide Balanced;
    BalancedShape(t, c);
    LeafPlace(t, c, s, c);
    LeafPlace(t, c, s, l);
  }

  lemma BalancedShape(t: Tree, short: nat)
    requires Balanced(t, short)
    ensures Shape(t)
  {
  }

  /** One round of the climb counts the symbol whose leaf it stands on, if it stands on one. */
  lemma StepCounts(t: Tree, c: nat, s: nat)
    requires Balanced(t, c) && c < T && t.freq[ROOT] < MAX_FREQ && s < NUM_CHAR
    ensures var (u, n) := ClimbStep(t, c);
            Located(t, s) && Located(u, s) && Count(u, s) == Count(t, s) + if t.prnt[T + s] == c then 1 else 0
  {
    hide Linked, Ordered, SumOk, Exchange, LastBelow;
    LeafPlace(t, c, s, c);
    if t.freq[c] + 1 > t.freq[c + 1] && c < ROOT {
      LastBelowStops(t, c);
      ExchangeCounts(t, c, LastBelow(t.freq[c := t.freq[c] + 1], c + 1, t.freq[c] + 1), s);
    }
  }

  /** The climb goes on from inner nodes only. */
  lemma StepInner(t: Tree, c: nat)
    requires Balanced(t, c) && c < ROOT && t.freq[ROOT] < MAX_FREQ
    ensures var (u, n) := ClimbStep(t, c); 0 < n < T && Balanced(u, n) && u.son[n] < T
  {
    hide Linked, Ordered, SumOk, Exchange, LastBelow;
    ClimbStepKeeps(t, c);
    var (u, n) := ClimbStep(t, c);
    if t.freq[c] + 1 > t.freq[c + 1] {
      LastBelowStops(t, c);
      ParentInner(u, n, LastBelow(t.freq[c := t.freq[c] + 1], c + 1, t.freq[c] + 1));
    } else {
      ParentInner(u, n, c);
    }
  }

  lemma ParentInner(u: Tree, n: nat, k: nat)
    requires Balanced(u, n) && n < T && k < ROOT && u.prnt[k] == n
    ensures u.son[n] < T
  {
    hide Ordered, SumOk;
    assert ParentOk(u, k);
  }

  lemma {:induction false} ClimbCounts(t: Tree, c: nat, s: nat)
    requires Balanced(t, c) && c < T && t.freq[ROOT] < MAX_FREQ && s < NUM_CHAR
    ensures Located(t, s) && Located(Climb(t, c), s)
    ensures Count(Climb(t, c), s) == Count(t, s) + if t.prnt[T + s] == c then 1 else 0
    decreases T - c
  {
    hide Linked, Ordered, SumOk, ClimbStep;
    StepCounts(t, c, s);
    ClimbStepKeeps(t, c);
    var (u, n) := ClimbStep(t, c);
    if n == 0 {
    } else {
      StepInner(t, c);
      LeafPlace(u, n, s, n);
      ClimbCounts(u, n, s);
    }
  }

  /** The leaves of a tree, as a list, are its symbols with their counts. */
  lemma LeafListed(t: Tree, s: nat, m: nat)
    requires Balanced(t, T) && s < NUM_CHAR
    ensures Located(t, s)
    ensures (T + s, Count(t, s)) in Leaves(t.freq[..T], t.son)
    ensures m < |Leaves(t.freq[..T], t.son)| && Leaves(t.freq[..T], t.son)[m].0 == T + s ==>
              Leaves(t.freq[..T], t.son)[m].1 == Count(t, s)
  {
    hide Linked, Ordered, SumOk, Leaves;
    LeafPlace(t, T, s, 0);
    var p := t.prnt[T + s];
    var ps := LeafPos(t.son, T);
    LeavesAt(t.freq[..T], t.son);
    assert p in ps;
    var k :| 0 <= k < |ps| && ps[k] == p;
    assert Leaves(t.freq[..T], t.son)[k] == (T + s, Count(t, s));
    if m < |ps| { LeafPlace(t, T, s, ps[m]); }
  }

  lemma RebuildHalves(t: Tree, s: nat)
    requires Balanced(t, T) && s < NUM_CHAR
    ensures Located(t, s) && Located(Rebuild(t), s) && Count(Rebuild(t), s) == (Count(t, s) + 1) / 2
  {
    hide Balanced, Rebuild, Leaves;
    BalancedShape(t, T);
    RebuildKeeps(t);
    var r := Rebuild(t);
    BalancedShape(r, T);
    LeafListed(r, s, 0);
    var ls := Leaves(r.freq[..T], r.son);
    var m :| 0 <= m < |ls| && ls[m] == (T + s, Count(r, s));
    LeafListed(t, s, m);
  }

  /** An update counts the symbol coded, and no other, after halving all counts if the root is full. */
  lemma UpdateCounts(t: Tree, c: nat, s: nat)
    requires Inv(t) && c < NUM_CHAR && s < NUM_CHAR
    ensures Located(t, s) && Located(Update(t, c), s)
    ensures Count(Update(t, c), s) ==
            (if t.freq[ROOT] == MAX_FREQ then (Count(t, s) + 1) / 2 else Count(t, s)) + if s == c then 1 else 0
  {
    hide Balanced, Rebuild, Climb;
    BalancedShape(t, T);
    RebuildKeeps(t);
    RebuildHalves(t, s);
    var u := if t.freq[ROOT] == MAX_FREQ then Rebuild(t) else t;
    BalancedShape(u, T);
    LeafShort(u, c);
    LeafPlace(u, T, c, 0);
    LeafPlace(u, T, s, u.prnt[T + c]);
    ClimbCounts(u, u.prnt[c + T], s);
  }

  /** At the start every symbol counts once. */
  lemma FreshCounts(s: nat)
    requires s < NUM_CHAR
    ensures Located(FreshTree(), s) && Count(FreshTree(), s) == 1
  {
    hide Balanced, Leaves, TreeOver, LeavesOk;
    FreshTreeOk();
    FreshLeavesOk();
    TreeOverBalanced(seq(T + NUM_CHAR, _ => 0), FreshLeaves());
    LeafListed(FreshTree(), s, 0);
  }
}
