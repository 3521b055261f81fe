/**
 The tables shared by compressor and decompressor, updated in place: the adaptive Huffman
 tree, the match forest and the text buffer.
 */
module Lzhuf {
  import opened Bits
  import opened HT = HuffmanTree
  import HB = HuffmanRebuild
  import opened MF = MatchForest
  import MS = MatchFinder

  class Tables {
    const freq: array<nat>
    const prnt: array<nat>
    const son: array<nat>
    const dad: array<nat>
    const lson: array<nat>
    const rson: array<nat>
    const textBuf: array<byte>
    var matchLength: nat
    var matchPosition: int

    /** Table sizes; no two tables are the same array. */
    ghost predicate Shaped() {
      && freq.Length == T + 1 && prnt.Length == T + NUM_CHAR && son.Length == T
      && dad.Length == N + 1 && lson.Length == N + 1 && rson.Length == N + 257
      && textBuf.Length == N + F - 1
      && freq != prnt && freq != son && freq != dad && freq != lson && freq != rson
      && prnt != son && prnt != dad && prnt != lson && prnt != rson
      && son != dad && son != lson && son != rson
      && dad != lson && dad != rson && lson != rson
      && textBuf as object !in {freq, prnt, son, dad, lson, rson}
    }

    ghost function Tree(): HT.Tree
      reads freq, prnt, son
    {
      HT.Tree(freq[..], prnt[..], son[..])
    }

    ghost function Forest(): MF.Forest
      reads dad, lson, rson
    {
      MF.Forest(dad[..], lson[..], rson[..])
    }

    /** One round of the update climb at node c. */
    method ClimbRound(c: nat) returns (next: nat)
      requires Shaped() && HT.Balanced(Tree(), c) && c < T && freq[ROOT] < MAX_FREQ
      modifies freq, prnt, son
      ensures (Tree(), next) == old(HT.ClimbStep(Tree(), c))
    {
      hide HT.Balanced, HT.LastBelow, HT.Exchange;
      ghost var t := Tree();
      freq[c] := freq[c] + 1;
      ghost var t1 := t.(freq := t.freq[c := t.freq[c] + 1]);
      assert Tree() == t1;
      if freq[c] <= freq[c + 1] || T + 1 <= c + 2 {
        next := prnt[c];
        return;
      }
      HT.LastBelowStops(t, c);
      var l := FindLast(c + 1, freq[c]);
      Swap(c, l);
      next := prnt[l];
    }

    /** The last position from l0 on whose frequency is below k. */
    method FindLast(l0: nat, k: nat) returns (l: nat)
      requires Shaped() && l0 < T && HT.LastBelow(freq[..], l0, k) < ROOT
      ensures l == HT.LastBelow(freq[..], l0, k)
    {
      l := l0;
      while k > freq[l + 1]
        invariant l0 <= l < ROOT && HT.LastBelow(freq[..], l, k) == HT.LastBelow(freq[..], l0, k)
        decreases ROOT - l
      {
        l := l + 1;
      }
    }

    /** Exchange the subtrees and frequencies of positions c and l. */
    method Swap(c: nat, l: nat)
      requires Shaped() && c < l < T && son[c] < T + NUM_CHAR && son[l] < T + NUM_CHAR
      modifies freq, prnt, son
      ensures Tree() == old(HT.Exchange(Tree(), c, l))
    {
      var k := freq[c];
      freq[c] := freq[l];
      freq[l] := k;
      assert freq[..] == old(freq[..])[c := old(freq[l])][l := k];

      var i := son[c];
      prnt[i] := l;
      if i < T { prnt[i + 1] := l; }
      assert prnt[..] == HT.SetParent(old(prnt[..]), i, l);

      var j := son[l];
      son[l] := i;
      ghost var p1 := prnt[..];
      prnt[j] := c;
      if j < T { prnt[j + 1] := c; }
      assert prnt[..] == HT.SetParent(p1, j, c);
      son[c] := j;
      assert son[..] == old(son[..])[l := i][c := j];
    }

    /** Count symbol c: rebuild the tree first if it is full, then climb from the leaf to the root. */
    method Update(c: nat)
      requires Shaped() && HT.Inv(Tree()) && c < NUM_CHAR
      modifies freq, prnt, son
      ensures Tree() == HB.Update(old(Tree()), c)
    {
      hide HT.Balanced, HT.ClimbStep;
      ghost var t := Tree();
      HB.RebuildKeeps(t);
      if freq[ROOT] == MAX_FREQ {
        Reconst();
      }
      HB.LeafShort(Tree(), c);
      var n := prnt[c + T];
      ghost var goal := HT.Climb(Tree(), n);
      var done := false;
      while !done
        invariant !done ==> HT.Balanced(Tree(), n) && n < T && freq[ROOT] < MAX_FREQ && HT.Climb(Tree(), n) == goal
        invariant done ==> Tree() == goal
        decreases if done then 0 else 1, T - n
      {
        HT.ClimbStepKeeps(Tree(), n);
        n := ClimbRound(n);
        done := n == 0;
      }
    }

    /** Collect the leaves, halved, at the front of the tables. */
    method CollectLeaves()
      requires Shaped() && HT.Balanced(Tree(), T)
      modifies freq, son
      ensures var ls := HB.HalvedLeaves(old(Tree()));
              |ls| == NUM_CHAR && freq[..NUM_CHAR] == HB.Freqs(ls) && son[..NUM_CHAR] == HB.Sons(ls)
      ensures freq[T] == old(freq[T])
    {
      hide HT.Balanced, HB.HalvedLeaves, HB.Collecting;
      ghost var t := Tree();
      HB.BalancedFacts(t);
      ghost var f0, s0 := freq[..], son[..];
      var j := 0;
      HB.CollectStart(f0, s0);
      for i := 0 to T
        invariant HB.Collecting(f0, s0, freq[..], son[..], i, j)
      {
        ghost var fi, si := freq[..], son[..];
        HB.CollectStep(f0, s0, fi, si, i, j);
        if son[i] >= T {
          freq[j] := (freq[i] + 1) / 2;
          son[j] := son[i];
          assert freq[..] == fi[j := (fi[i] + 1) / 2] && son[..] == si[j := si[i]];
          j := j + 1;
        }
      }
      HB.CollectedIs(t, freq[..], son[..], j);
      assert freq[..j] == freq[..][..j] && son[..j] == son[..][..j];
    }

    /** Move a[k..j] up by one and put v at k. */
    static method InsertAt(a: array<nat>, k: nat, j: nat, v: nat)
      requires k <= j < a.Length
      modifies a
      ensures a[..j + 1] == HB.Insert(old(a[..j]), k, v)
      ensures forall m :: j < m < a.Length ==> a[m] == old(a[m])
    {
      forall m | k < m <= j { a[m] := a[m - 1]; }
      a[k] := v;
    }

    /** The place for a new frequency among the first j, which are in order. */
    method FindSlot(j: nat, first: nat) returns (k: nat)
      requires Shaped() && j < T && 0 < HB.SlotFor(freq[..j], j, first)
      ensures 0 < k <= j && k == HB.SlotFor(freq[..j], j, first)
    {
      k := j;
      while first < freq[k - 1]
        invariant 0 < k <= j && HB.SlotFor(freq[..j], k, first) == HB.SlotFor(freq[..j], j, first)
        decreases k
      {
        k := k - 1;
      }
    }

    /** Insert the join of positions i and i + 1 into the first j entries. */
    method JoinPair(i: nat, j: nat)
      requires Shaped() && i + 1 < j < T && HT.Ordered(freq[..j], j)
      modifies freq, son
      ensures HB.Stage(freq[..j + 1], son[..j + 1]) == old(HB.AddPair(HB.Stage(freq[..j], son[..j]), i))
      ensures freq[T] == old(freq[T])
    {
      hide HB.SlotFor, HB.Insert, HT.Ordered;
      ghost var f0, s0 := freq[..j], son[..j];
      HB.SlotAfterPair(HB.Stage(f0, s0), i);
      var first := freq[i] + freq[i + 1];
      freq[j] := first;
      assert freq[..j] == f0;
      var k := FindSlot(j, first);
      InsertAt(freq, k, j, first);
      InsertAt(son, k, j, i);
    }

    /** Join pairs from the left until one node is left. */
    method JoinPairs(ghost ls: seq<(nat, nat)>)
      requires Shaped() && HB.LeavesOk(ls) && freq[..NUM_CHAR] == HB.Freqs(ls) && son[..NUM_CHAR] == HB.Sons(ls)
      modifies freq, son
      ensures HB.Stage(freq[..T], son[..T]) == HB.Build(HB.Stage(HB.Freqs(ls), HB.Sons(ls)), 0)
      ensures freq[T] == old(freq[T])
    {
      hide HB.AddPair, HB.StageNodeOk, HB.Leaves, HB.Distinct, HB.Onto;
      ghost var start := HB.Stage(HB.Freqs(ls), HB.Sons(ls));
      var i, j := 0, NUM_CHAR;
      while j < T
        invariant i == 2 * (j - NUM_CHAR) && NUM_CHAR <= j <= T
        invariant HB.StageOk(HB.Stage(freq[..j], son[..j]), i, ls)
        invariant HB.Build(HB.Stage(freq[..j], son[..j]), i) == HB.Build(start, 0)
        invariant freq[T] == old(freq[T])
      {
        HB.AddPairKeeps(HB.Stage(freq[..j], son[..j]), i, ls);
        JoinPair(i, j);
        i, j := i + 2, j + 1;
      }
    }

    /** Point every child back at its parent. */
    method ConnectParents()
      requires Shaped() && forall m :: 0 <= m < T ==> son[m] < T + NUM_CHAR
      modifies prnt
      ensures prnt[..] == HB.Connect(old(prnt[..]), son[..], T)
    {
      ghost var p0 := prnt[..];
      for i := 0 to T
        invariant prnt[..] == HB.Connect(p0, son[..], i)
      {
        ghost var before := prnt[..];
        var k := son[i];
        if k >= T {
          prnt[k] := i;
        } else {
          prnt[k + 1] := i;
          prnt[k] := i;
        }
        assert prnt[..] == HT.SetParent(before, k, i);
      }
    }

    /** Halve all frequencies and build the tree anew. */
    method Reconst()
      requires Shaped() && HT.Balanced(Tree(), T)
      modifies freq, prnt, son
      ensures Tree() == HB.Rebuild(old(Tree()))
    {
      hide HT.Balanced, HB.LeavesOk, HB.Build, HB.Connect;
      ghost var t := Tree();
      HB.CollectedOk(t);
      HB.BalancedFacts(t);
      ghost var ls := HB.HalvedLeaves(t);
      CollectLeaves();
      JoinPairs(ls);
      HB.BuiltSons(ls);
      assert son[..T] == son[..];
      ConnectParents();
      assert freq[..] == freq[..T] + [freq[T]];
    }

    /** One leaf per symbol, each counted once. */
    method InitLeaves()
      requires Shaped()
      modifies freq, prnt, son
      ensures freq[..NUM_CHAR] == HB.Freqs(HB.FreshLeaves()) && son[..NUM_CHAR] == HB.Sons(HB.FreshLeaves())
      ensures HB.SonsBelow(son[..NUM_CHAR])
      ensures prnt[..] == HB.Connect(old(prnt[..]), son[..NUM_CHAR], NUM_CHAR)
    {
      hide HB.Connect;
      ghost var p0 := prnt[..];
      HB.ConnectNone(p0, son[..0]);
      for i := 0 to NUM_CHAR
        invariant forall m :: 0 <= m < i ==> freq[m] == 1 && son[m] == m + T
        invariant prnt[..] == HB.Connect(p0, son[..i], i)
      {
        ghost var before, bs := prnt[..], son[..i];
        freq[i] := 1;
        son[i] := i + T;
        prnt[i + T] := i;
        assert son[..i + 1] == bs + [i + T];
        assert prnt[..] == HT.SetParent(before, i + T, i);
        HB.ConnectSnoc(p0, bs, i + T);
      }
    }

    /** Join the fresh leaves pair by pair. */
    method InitNodes(ghost p0: seq<nat>)
      requires Shaped() && |p0| == T + NUM_CHAR
      requires freq[..NUM_CHAR] == HB.Freqs(HB.FreshLeaves()) && son[..NUM_CHAR] == HB.Sons(HB.FreshLeaves())
      requires HB.SonsBelow(son[..NUM_CHAR])
      requires prnt[..] == HB.Connect(p0, son[..NUM_CHAR], NUM_CHAR)
      modifies freq, prnt, son
      ensures HB.Stage(freq[..T], son[..T]) ==
              HB.Build(HB.Stage(HB.Freqs(HB.FreshLeaves()), HB.Sons(HB.FreshLeaves())), 0)
      ensures HB.SonsBelow(son[..]) && prnt[..] == HB.Connect(p0, son[..], T)
    {
      hide HB.FreshStage, HB.Connect, HB.AddPair, HB.FreshLeaves;
      ghost var ls := HB.FreshLeaves();
      ghost var start := HB.Stage(HB.Freqs(ls), HB.Sons(ls));
      HB.FreshStart();
      var i, j := 0, NUM_CHAR;
      while j <= ROOT
        invariant i == 2 * (j - NUM_CHAR) && NUM_CHAR <= j <= T
        invariant HB.FreshStage(HB.Stage(freq[..j], son[..j]), i, ls)
        invariant HB.Build(HB.Stage(freq[..j], son[..j]), i) == HB.Build(start, 0)
        invariant HB.SonsBelow(son[..j]) && prnt[..] == HB.Connect(p0, son[..j], j)
      {
        ghost var g, before := HB.Stage(freq[..j], son[..j]), prnt[..];
        HB.FreshStageStep(g, i, ls);
        freq[j] := freq[i] + freq[i + 1];
        son[j] := i;
        prnt[i] := j;
        prnt[i + 1] := j;
        assert freq[..j + 1] == g.freq + [g.freq[i] + g.freq[i + 1]];
        assert son[..j + 1] == g.son + [i];
        assert prnt[..] == HT.SetParent(before, i, j);
        HB.ConnectSnoc(p0, g.son, i);
        i := i + 2;
        j := j + 1;
      }
      assert son[..T] == son[..];
    }

    /** The tables of a new coder. */
    constructor ()
      ensures Shaped() && fresh(freq) && fresh(prnt) && fresh(son)
      ensures fresh(dad) && fresh(lson) && fresh(rson) && fresh(textBuf)
      ensures Tree() == HB.FreshTree()
      ensures lson[..] == seq(N + 1, _ => 0) && rson[..] == seq(N + 257, _ => 0) && dad[..] == seq(N + 1, _ => 0)
      ensures textBuf[..] == seq(N + F - 1, _ => 0)
      ensures matchLength == 0 && matchPosition == 0
    {
      freq := new nat[T + 1](_ => 0);
      prnt := new nat[T + NUM_CHAR](_ => 0);
      son := new nat[T](_ => 0);
      dad := new nat[N + 1](_ => 0);
      lson := new nat[N + 1](_ => 0);
      rson := new nat[N + 257](_ => 0);
      textBuf := new byte[N + F - 1](_ => 0);
      matchLength, matchPosition := 0, 0;
      new;
      BuildFresh();
    }

    method BuildFresh()
      requires Shaped() && prnt[..] == seq(T + NUM_CHAR, _ => 0)
      modifies freq, prnt, son
      ensures Tree() == HB.FreshTree()
    {
      hide HB.Connect, HB.Build, HB.FreshLeaves, HB.LeavesOk;
      ghost var p0 := prnt[..];
      InitLeaves();
      InitNodes(p0);
      freq[T] := 0xffff;
      HB.FreshLeavesOk();
      HB.BuiltSons(HB.FreshLeaves());
      assert freq[..] == freq[..T] + [0xffff];
      assert son[..T] == son[..];
      HB.FreshTreeRoot();
      ghost var p1 := prnt[..];
      prnt[ROOT] := 0;
      assert prnt[..] == p1;
    }

    /** Empty the match forest. */
    method InitTree()
      requires Shaped()
      modifies dad, rson
      ensures forall i :: N < i <= N + 256 ==> rson[i] == NIL
      ensures forall i :: 0 <= i <= N ==> rson[i] == old(rson[i])
      ensures forall i :: 0 <= i < N ==> dad[i] == NIL
      ensures dad[N] == old(dad[N])
    {
      var i := N + 1;
      while i <= N + 256
        invariant N < i <= N + 257
        invariant forall k :: N < k < i ==> rson[k] == NIL
        invariant forall k :: 0 <= k <= N ==> rson[k] == old(rson[k])
        modifies rson
      {
        rson[i] := NIL;
        i := i + 1;
      }
      i := 0;
      while i < N
        invariant 0 <= i <= N
        invariant forall k :: 0 <= k < i ==> dad[k] == NIL
        invariant dad[N] == old(dad[N])
        modifies dad
      {
        dad[i] := NIL;
        i := i + 1;
      }
    }

    /** Hang q where p hangs and take p out. */
    method LinkUp(p: nat, q: nat)
      requires Shaped() && p < N && q <= N && dad[p] < N + 257 && (dad[p] > N ==> rson[dad[p]] == p)
      modifies dad, lson, rson
      ensures Forest() == old(MF.Splice(Forest(), p, q))
    {
      ghost var f := Forest();
      var d := dad[p];
      dad[q] := d;
      if rson[d] == p {
        rson[d] := q;
      } else {
        lson[d] := q;
      }
      dad[p] := NIL;
      assert dad[..] == f.dad[q := d][p := NIL];
      assert rson[..] == (if f.rson[d] == p then f.rson[d := q] else f.rson);
      assert lson[..] == (if f.rson[d] == p then f.lson else f.lson[d := q]);
    }

    /** Take slot p out of the forest. */
    method DeleteNode(p: nat)
      requires Shaped() && MF.Forested(Forest()) && p < N
      modifies dad, lson, rson
      ensures Forest() == MF.Delete(old(Forest()), p)
    {
      hide MF.Forested;
      ghost var f := Forest();
      if dad[p] == NIL {
        return;
      }
      MF.Children(f, p);
      if rson[p] == NIL {
        LinkUp(p, lson[p]);
      } else if lson[p] == NIL {
        LinkUp(p, rson[p]);
      } else {
        DeleteInner(p);
      }
    }

    /** The case of two children: the in-order predecessor takes over. */
    method DeleteInner(p: nat)
      requires Shaped() && MF.Forested(Forest()) && MF.Registered(Forest(), p)
      requires rson[p] != NIL && lson[p] != NIL
      modifies dad, lson, rson
      ensures Forest() == MF.Delete(old(Forest()), p)
    {
      hide MF.Forested, MF.Rightmost, MF.Splice;
      ghost var f := Forest();
      MF.Children(f, p);
      MF.ChildNotSelf(f, p);
      var q := lson[p];
      if rson[q] != NIL {
        MF.PredecessorPlace(f, p);
        q := FindRightmost(q);
        var d, c := dad[q], lson[q];
        rson[d] := c;
        dad[c] := d;
        lson[q] := lson[p];
        dad[lson[p]] := q;
        MF.DetachFrame(f, p, q);
        assert Forest() == MF.Detach(f, p, q);
      }
      ghost var g := Forest();
      var e := rson[p];
      rson[q] := e;
      dad[e] := q;
      assert Forest() == g.(rson := g.rson[q := e], dad := g.dad[e := q]);
      MF.RelinkIsSplice(g, p, q);
      LinkUp(p, q);
    }

    /** The end of the chain of right children. */
    method FindRightmost(q0: nat) returns (q: nat)
      requires Shaped() && MF.Forested(Forest()) && MF.Registered(Forest(), q0)
      ensures q == MF.Rightmost(Forest(), q0, N)
    {
      hide MF.NodeOk, MF.ChildOk;
      ghost var f := Forest();
      ghost var lab, rank :| MF.Wf(f, lab, rank);
      q := q0;
      ghost var fuel: nat := N;
      MF.AboveBound(rank, rank[q]);
      while rson[q] != NIL
        invariant MF.Registered(f, q) && |rank| == N && |MF.Above(rank, rank[q])| <= fuel
        invariant MF.Rightmost(f, q, fuel) == MF.Rightmost(f, q0, N)
        decreases fuel
      {
        MF.ChildRank(f, lab, rank, q);
        MF.AboveShrinks(rank, rank[q], rson[q]);
        q := rson[q];
        fuel := fuel - 1;
      }
    }

    /** Compare the text at r with the text at p, first bytes aside. */
    method Compare(r: nat, p: nat) returns (i: nat, cmp: int)
      requires Shaped() && r < N && p < N
      ensures i == MS.Agree(textBuf[..], r, p, 1) && 1 <= i <= F
      ensures cmp >= 0 <==> i == F || textBuf[r + i] >= textBuf[p + i]
    {
      hide MS.Agree;
      cmp := 0;
      i := 1;
      ghost var text := textBuf[..];
      while i < F
        invariant 1 <= i <= F && cmp == 0
        invariant MS.Agree(text, r, p, i) == MS.Agree(text, r, p, 1)
      {
        MS.AgreeOnce(text, r, p, i);
        cmp := textBuf[r + i] as int - textBuf[p + i] as int;
        if cmp != 0 {
          break;
        }
        i := i + 1;
      }
      if i == F {
        MS.AgreeOnce(text, r, p, i);
      }
    }

    /** Descend from the root of the byte at r to the place of r, noting the longest match. */
    method Search(r: nat) returns (place: MS.Place)
      requires Shaped() && MF.Forested(Forest()) && r < N
      modifies this
      ensures (place, matchLength, matchPosition) ==
              MS.Descend(Forest(), textBuf[..], r, N + 1 + textBuf[r], true, 0, old(matchPosition), N)
      ensures place.Over? ==> MF.Registered(Forest(), place.p)
      ensures place.Under? ==> MF.Registered(Forest(), place.p) || (MF.IsRoot(place.p) && place.right)
    {
      hide MF.NodeOk, MF.ChildOk, MF.Forested, MS.Agree, MS.Better, MS.Descend, MF.Above;
      ghost var f, text := Forest(), textBuf[..];
      ghost var lab, rank := MF.Witness(f);
      var p: nat := N + 1 + textBuf[r];
      var right := true;
      matchLength := 0;
      ghost var fuel: nat := N;
      ghost var goal := MS.Descend(f, text, r, p, true, 0, matchPosition, N);
      MF.AboveBound(rank, MF.Rank(rank, p));
      while true
        invariant MF.Registered(f, p) || (MF.IsRoot(p) && right)
        invariant |MF.Above(rank, MF.Rank(rank, p))| <= fuel && matchLength <= F
        invariant MS.Descend(f, text, r, p, right, matchLength, matchPosition, fuel) == goal
        decreases fuel
      {
        MS.DescendOnce(f, text, r, p, right, matchLength, matchPosition, fuel);
        MS.ChildFacts(f, lab, rank, p, right);
        var q := if right then rson[p] else lson[p];
        if q == NIL {
          return MS.Under(p, right);
        }
        MF.AboveShrinks(rank, MF.Rank(rank, p), q);
        var i, cmp := Compare(r, q);
        var len := matchLength;
        Note(r, q, i);
        if i > len && matchLength >= F {
          return MS.Over(q);
        }
        p, right := q, cmp >= 0;
        fuel := fuel - 1;
      }
    }

    /** Keep the longer match, and among equally long ones the nearer. */
    method Note(r: nat, q: nat, i: nat)
      requires Shaped() && r < N && q < N && i == MS.Agree(textBuf[..], r, q, 1)
      modifies this
      ensures (matchLength, matchPosition) == MS.Better(textBuf[..], r, q, old(matchLength), old(matchPosition))
    {
      hide MS.Agree, MS.Dist;
      if i > THRESHOLD {
        if i > matchLength {
          matchPosition := MS.Dist(r, q) - 1;
          matchLength := i;
        }
        if i == matchLength {
          var c := MS.Dist(r, q) - 1;
          if c < matchPosition {
            matchPosition := c;
          }
        }
      }
    }

    /** Register slot r in the forest and find its longest earlier match. */
    method InsertNode(r: nat)
      requires Shaped() && MF.Forested(Forest()) && r < N && !MF.Registered(Forest(), r)
      modifies this, dad, lson, rson
      ensures (Forest(), matchLength, matchPosition) == MS.Insert(old(Forest()), textBuf[..], r, old(matchPosition))
    {
      hide MF.Forested, MS.Descend;
      ghost var f := Forest();
      var place := Search(r);
      rson[r], lson[r] := NIL, NIL;
      ghost var h := f.(lson := f.lson[r := NIL], rson := f.rson[r := NIL]);
      assert Forest() == h;
      match place
      case Under(p, right) =>
        if right {
          rson[p] := r;
        } else {
          lson[p] := r;
        }
        dad[r] := p;
        assert Forest() == MF.Attach(f, p, right, r);
      case Over(p) =>
        MF.Children(f, p);
        MF.NotSelf(f, p, r);
        TakeOver(p, r);
    }

    /** Let r take over the place and the children of p. */
    method TakeOver(p: nat, r: nat)
      requires Shaped() && p < N && r < N && p != r && dad[p] < N + 257 && lson[p] <= N && rson[p] <= N
      requires dad[p] > N ==> rson[dad[p]] == p
      requires lson[p] != p && rson[p] != p && dad[p] != r
      modifies dad, lson, rson
      ensures Forest() == old(MF.Replace(Forest(), p, r))
    {
      ghost var f := Forest();
      dad[r] := dad[p];
      lson[r] := lson[p];
      rson[r] := rson[p];
      dad[lson[p]] := r;
      dad[rson[p]] := r;
      assert dad[..] == f.dad[r := f.dad[p]][f.lson[p] := r][f.rson[p] := r];
      var d := dad[p];
      if rson[d] == p {
        rson[d] := r;
      } else {
        lson[d] := r;
      }
      dad[p] := NIL;
    }
  }
}
