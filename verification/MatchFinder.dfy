/**
 Searching the forest: the descent that finds the longest earlier match for a slot while
 registering it.
 */
module MatchFinder {
  import opened Bits
  import opened MatchForest

  /** How far back q is from r in the ring. */
  function Dist(r: nat, q: nat): (d: nat)
    ensures d < N
  {
    (r - q) % N
  }

  predicate SameAt(text: seq<byte>, a: nat, b: nat, j: nat)
    requires |text| == N + F - 1 && a < N && b < N && j < F
  {
    text[a + j] == text[b + j]
  }

  /** The first index from i on where the texts at a and b differ, or F. */
  function Agree(text: seq<byte>, a: nat, b: nat, i: nat): (n: nat)
    requires |text| == N + F - 1 && a < N && b < N && 1 <= i <= F
    ensures i <= n <= F
    ensures forall j: nat :: i <= j < n ==> SameAt(text, a, b, j)
    ensures n < F ==> text[a + n] != text[b + n]
    decreases F - i
  {
    if i == F || text[a + i] != text[b + i] then i else Agree(text, a, b, i + 1)
  }

  lemma AgreeOnce(text: seq<byte>, a: nat, b: nat, i: nat)
    requires |text| == N + F - 1 && a < N && b < N && 1 <= i <= F
    ensures Agree(text, a, b, i) == if i == F || text[a + i] != text[b + i] then i else Agree(text, a, b, i + 1)
  {
  }

  /** Where the new slot goes: under a free link of p, or in place of p. */
  datatype Place = Under(p: nat, right: bool) | Over(p: nat)

  /** The best match after comparing r with node q. */
  function Better(text: seq<byte>, r: nat, q: nat, len: nat, pos: int): (b: (nat, int))
    requires |text| == N + F - 1 && r < N && q < N
    ensures len <= F ==> b.0 <= F
  {
    var i := Agree(text, r, q, 1);
    var d := Dist(r, q) - 1;
    if i <= THRESHOLD then (len, pos)
    else if i > len then (i, d)
    else if i == len && d < pos then (len, d)
    else (len, pos)
  }

  lemma NextNode(f: Forest, p: nat, right: bool)
    requires Shape(f) && Forested(f) && (Registered(f, p) || (IsRoot(p) && right))
    ensures var q := if right then f.rson[p] else f.lson[p]; q == NIL || Registered(f, q)
  {
    var lab, rank :| Wf(f, lab, rank);
    if IsRoot(p) { assert ChildOk(f, p, f.rson[p]); } else { Children(f, p); }
  }

  /** Descend from p for at most fuel steps, collecting the best match on the way. */
  function Descend(f: Forest, text: seq<byte>, r: nat, p: nat, right: bool, len: nat, pos: int, fuel: nat)
    : (x: (Place, nat, int))
    requires Shape(f) && Forested(f) && |text| == N + F - 1 && r < N
    requires Registered(f, p) || (IsRoot(p) && right)
    ensures x.0.Under? ==> Registered(f, x.0.p) || (IsRoot(x.0.p) && x.0.right)
    ensures x.0.Over? ==> Registered(f, x.0.p)
    decreases fuel
  {
    NextNode(f, p, right);
    var q := if right then f.rson[p] else f.lson[p];
    if fuel == 0 || q == NIL then (Under(p, right), len, pos)
    else
      var i := Agree(text, r, q, 1);
      var (len', pos') := Better(text, r, q, len, pos);
      if i > len && len' == F then (Over(q), len', pos')
      else Descend(f, text, r, q, i == F || text[r + i] >= text[q + i], len', pos', fuel - 1)
  }

  /** Slot q, in the tree of the byte at r, agrees with r on bytes 1 up to len. */
  ghost predicate MatchAt(f: Forest, lab: seq<nat>, text: seq<byte>, r: nat, q: nat, len: nat, pos: int)
    requires Shape(f) && |lab| == N && |text| == N + F - 1 && r < N && len <= F
  {
    && Registered(f, q) && lab[q] == text[r] && pos == Dist(r, q) - 1
    && forall j: nat :: 1 <= j < len ==> SameAt(text, r, q, j)
  }

  ghost predicate MatchOk(f: Forest, lab: seq<nat>, text: seq<byte>, r: nat, len: nat, pos: int)
    requires Shape(f) && |lab| == N && |text| == N + F - 1 && r < N
  {
    len == 0 || (THRESHOLD < len <= F && exists q: nat :: MatchAt(f, lab, text, r, q, len, pos))
  }

  lemma BetterOk(f: Forest, lab: seq<nat>, text: seq<byte>, r: nat, q: nat, len: nat, pos: int)
    requires Shape(f) && |lab| == N && |text| == N + F - 1 && r < N
    requires MatchOk(f, lab, text, r, len, pos) && Registered(f, q) && lab[q] == text[r]
    ensures var (len', pos') := Better(text, r, q, len, pos); MatchOk(f, lab, text, r, len', pos')
  {
    var i := Agree(text, r, q, 1);
    assert MatchAt(f, lab, text, r, q, i, Dist(r, q) - 1);
  }

  /** A child of p is registered, in the same tree and ranked higher. */
  lemma ChildFacts(f: Forest, lab: seq<nat>, rank: seq<nat>, p: nat, right: bool)
    requires Wf(f, lab, rank) && (Registered(f, p) || (IsRoot(p) && right))
    ensures var q := if right then f.rson[p] else f.lson[p];
            q != NIL ==> Registered(f, q) && lab[q] == Label(lab, p) && rank[q] > Rank(rank, p)
  {
    if IsRoot(p) { assert ChildOk(f, p, f.rson[p]); } else { assert NodeOk(f, lab, rank, p); }
    var q := if right then f.rson[p] else f.lson[p];
    assert q != NIL ==> NodeOk(f, lab, rank, q);
  }

  /** A descent result: a real match, and a free link or an equal node in the tree of the byte at r. */
  ghost predicate Landed(f: Forest, lab: seq<nat>, text: seq<byte>, r: nat, x: (Place, nat, int))
    requires Shape(f) && |lab| == N && |text| == N + F - 1 && r < N
    requires x.0.Under? ==> Registered(f, x.0.p) || (IsRoot(x.0.p) && x.0.right)
    requires x.0.Over? ==> Registered(f, x.0.p)
  {
    && MatchOk(f, lab, text, r, x.1, x.2)
    && Label(lab, x.0.p) == text[r]
    && (x.0.Under? ==> (if x.0.right then f.rson[x.0.p] else f.lson[x.0.p]) == NIL)
  }

  /** The descent ends within the fuel and lands. */
  lemma {:induction false} DescendSound(f: Forest, lab: seq<nat>, rank: seq<nat>, text: seq<byte>, r: nat,
                                        p: nat, right: bool, len: nat, pos: int, fuel: nat)
    requires Wf(f, lab, rank) && Forested(f) && |text| == N + F - 1 && r < N
    requires Registered(f, p) || (IsRoot(p) && right)
    requires Label(lab, p) == text[r] && MatchOk(f, lab, text, r, len, pos)
    requires |Above(rank, Rank(rank, p))| <= fuel
    ensures Landed(f, lab, text, r, Descend(f, text, r, p, right, len, pos, fuel))
    decreases fuel
  {
    hide Forested, Agree, Better, MatchOk, Above, NodeOk, ChildOk, Descend;
    ChildFacts(f, lab, rank, p, right);
    DescendOnce(f, text, r, p, right, len, pos, fuel);
    var q := if right then f.rson[p] else f.lson[p];
    if q == NIL {
    } else {
      AboveShrinks(rank, Rank(rank, p), q);
      BetterOk(f, lab, text, r, q, len, pos);
      var i := Agree(text, r, q, 1);
      var b := Better(text, r, q, len, pos);
      if i > len && b.0 == F {
        assert Landed(f, lab, text, r, (Over(q), b.0, b.1));
      } else {
        DescendSound(f, lab, rank, text, r, q, i == F || text[r + i] >= text[q + i], b.0, b.1, fuel - 1);
      }
    }
  }

  /** The descent, one level at a time. */
  lemma DescendOnce(f: Forest, text: seq<byte>, r: nat, p: nat, right: bool, len: nat, pos: int, fuel: nat)
    requires Shape(f) && Forested(f) && |text| == N + F - 1 && r < N
    requires Registered(f, p) || (IsRoot(p) && right)
    ensures var q := if right then f.rson[p] else f.lson[p];
            && (q == NIL ==> Descend(f, text, r, p, right, len, pos, fuel) == (Under(p, right), len, pos))
            && (q != NIL && fuel > 0 ==>
                  && Registered(f, q)
                  && var i := Agree(text, r, q, 1);
                     var (len', pos') := Better(text, r, q, len, pos);
                     Descend(f, text, r, p, right, len, pos, fuel) ==
                     if i > len && len' == F then (Over(q), len', pos')
                     else Descend(f, text, r, q, i == F || text[r + i] >= text[q + i], len', pos', fuel - 1))
  {
    hide Forested, Better, Agree;
    NextNode(f, p, right);
  }

  // The nodes the descent compares with, and the best match among them.

  /** The texts at a and b are the same on bytes 1 up to n. */
  ghost predicate SameTo(text: seq<byte>, a: nat, b: nat, n: nat)
    requires |text| == N + F - 1 && a < N && b < N && n <= F
  {
    forall j: nat :: 1 <= j < n ==> SameAt(text, a, b, j)
  }

  /** The text at a is not before the text at b: at the first difference its byte is the larger one. */
  ghost predicate NotBefore(text: seq<byte>, a: nat, b: nat)
    requires |text| == N + F - 1 && a < N && b < N
  {
    forall j: nat :: 1 <= j < F && SameTo(text, a, b, j) ==> text[a + j] >= text[b + j]
  }

  /** The comparison settles the order of the two texts, and whether they are the same. */
  lemma AgreeOrders(text: seq<byte>, a: nat, b: nat)
    requires |text| == N + F - 1 && a < N && b < N
    ensures var i := Agree(text, a, b, 1);
            && (i == F <==> SameTo(text, a, b, F))
            && (NotBefore(text, a, b) <==> i == F || text[a + i] >= text[b + i])
  {
    hide Agree;
    var i := Agree(text, a, b, 1);
    assert SameTo(text, a, b, i) && (i < F ==> !SameAt(text, a, b, i));
    forall j: nat | 1 <= j < F && SameTo(text, a, b, j) && (i == F || text[a + i] >= text[b + i])
      ensures text[a + j] >= text[b + j]
    {
      if j < i { assert SameAt(text, a, b, j); }
    }
  }

  function Child(f: Forest, p: nat, right: bool): nat
    requires Shape(f) && (if right then p < N + 257 else p <= N)
  {
    if right then f.rson[p] else f.lson[p]
  }

  /**
   From a link of p the nodes qs hang one under the other, each on the side that the order of
   r's text and its parent's tells, down to a free link or to a node with the text of r.
   */
  ghost predicate Path(f: Forest, text: seq<byte>, r: nat, p: nat, right: bool, qs: seq<nat>, pl: Place)
    requires Shape(f) && |text| == N + F - 1 && r < N && (if right then p < N + 257 else p <= N)
    decreases |qs|
  {
    if qs == [] then Child(f, p, right) == NIL && pl == Under(p, right)
    else
      && Child(f, p, right) == qs[0] < N
      && if SameTo(text, r, qs[0], F) then qs == [qs[0]] && pl == Over(qs[0])
         else Path(f, text, r, qs[0], NotBefore(text, r, qs[0]), qs[1..], pl)
  }

  /** Node q offers nothing better than a match of len bytes at pos. */
  ghost predicate NoBetter(text: seq<byte>, r: nat, q: nat, len: nat, pos: int)
    requires |text| == N + F - 1 && r < N && q < N
  {
    var i := Agree(text, r, q, 1);
    i <= THRESHOLD || i < len || (i == len && pos <= Dist(r, q) - 1)
  }

  /** Node q is a match of len bytes at pos, worth a copy. */
  ghost predicate Offers(text: seq<byte>, r: nat, q: nat, len: nat, pos: int)
    requires |text| == N + F - 1 && r < N && q < N
  {
    THRESHOLD < Agree(text, r, q, 1) == len && pos == Dist(r, q) - 1
  }

  /** From (len, pos), comparing with the nodes qs leads to (len', pos'): the longest match, the nearest such. */
  ghost predicate Best(text: seq<byte>, r: nat, qs: seq<nat>, len: nat, pos: int, len': nat, pos': int)
    requires |text| == N + F - 1 && r < N && forall k :: 0 <= k < |qs| ==> qs[k] < N
  {
    && (len < len' || (len == len' && pos' <= pos))
    && (forall k :: 0 <= k < |qs| ==> NoBetter(text, r, qs[k], len', pos'))
    && ((len' == len && pos' == pos) || exists k :: 0 <= k < |qs| && Offers(text, r, qs[k], len', pos'))
  }

  lemma BestNone(text: seq<byte>, r: nat, len: nat, pos: int)
    requires |text| == N + F - 1 && r < N
    ensures Best(text, r, [], len, pos, len, pos)
  {
  }

  lemma BestOnce(text: seq<byte>, r: nat, q: nat, qs: seq<nat>, len: nat, pos: int, len': nat, pos': int)
    requires |text| == N + F - 1 && r < N && q < N && forall k :: 0 <= k < |qs| ==> qs[k] < N
    requires var b := Better(text, r, q, len, pos); Best(text, r, qs, b.0, b.1, len', pos')
    ensures Best(text, r, [q] + qs, len, pos, len', pos')
  {
    hide Agree, Dist;
    var s := [q] + qs;
    var b := Better(text, r, q, len, pos);
    forall k | 0 <= k < |s| ensures NoBetter(text, r, s[k], len', pos') {
      if k > 0 { assert s[k] == qs[k - 1]; }
    }
    if len' == b.0 && pos' == b.1 {
      assert s[0] == q;
    } else {
      var k :| 0 <= k < |qs| && Offers(text, r, qs[k], len', pos');
      assert s[k + 1] == qs[k];
    }
  }

  /** The descent compares with the nodes of a path, and finds the best match among them. */
  lemma {:induction false} DescendBest(f: Forest, lab: seq<nat>, rank: seq<nat>, text: seq<byte>, r: nat,
                                       p: nat, right: bool, len: nat, pos: int, fuel: nat)
    returns (qs: seq<nat>)
    requires Wf(f, lab, rank) && Forested(f) && |text| == N + F - 1 && r < N && len < F
    requires Registered(f, p) || (IsRoot(p) && right)
    requires |Above(rank, Rank(rank, p))| <= fuel
    ensures var x := Descend(f, text, r, p, right, len, pos, fuel);
            && (forall k :: 0 <= k < |qs| ==> Registered(f, qs[k]) && lab[qs[k]] == Label(lab, p))
            && Path(f, text, r, p, right, qs, x.0)
            && Best(text, r, qs, len, pos, x.1, x.2)
    decreases fuel
  {
    hide Forested, Agree, Best, Above, NodeOk, ChildOk, Descend, SameTo, NotBefore;
    ChildFacts(f, lab, rank, p, right);
    DescendOnce(f, text, r, p, right, len, pos, fuel);
    var q := Child(f, p, right);
    if q == NIL {
      qs := [];
      BestNone(text, r, len, pos);
    } else {
      AboveShrinks(rank, Rank(rank, p), q);
      AgreeOrders(text, r, q);
      var i := Agree(text, r, q, 1);
      var b := Better(text, r, q, len, pos);
      if i == F {
        qs := [q];
        BestNone(text, r, b.0, b.1);
        BestOnce(text, r, q, [], len, pos, b.0, b.1);
        assert [q] + [] == [q];
      } else {
        var side := text[r + i] >= text[q + i];
        var rest := DescendBest(f, lab, rank, text, r, q, side, b.0, b.1, fuel - 1);
        qs := [q] + rest;
        assert qs[1..] == rest;
        var x := Descend(f, text, r, p, right, len, pos, fuel);
        BestOnce(text, r, q, rest, len, pos, x.1, x.2);
      }
    }
  }

  /** Register slot r and find its longest earlier match; pos is kept when there is none. */
  function Insert(f: Forest, text: seq<byte>, r: nat, pos: int): (x: (Forest, nat, int))
    requires Shape(f) && Forested(f) && |text| == N + F - 1 && r < N
    ensures Shape(x.0)
  {
    var (pl, len', pos') := Descend(f, text, r, N + 1 + text[r], true, 0, pos, N);
    match pl
    case Under(p, right) => (Attach(f, p, right, r), len', pos')
    case Over(p) => Children(f, p); (Replace(f.(lson := f.lson[r := NIL], rson := f.rson[r := NIL]), p, r), len', pos')
  }

  /** Inserting an unregistered slot keeps the forest, registers it under its byte, and finds a real match. */
  lemma InsertKeeps(f: Forest, lab: seq<nat>, rank: seq<nat>, text: seq<byte>, r: nat, pos: int)
    returns (rank': seq<nat>)
    requires Wf(f, lab, rank) && |text| == N + F - 1 && r < N && !Registered(f, r)
    ensures Forested(f)
    ensures var (g, len', pos') := Insert(f, text, r, pos);
            && Wf(g, lab[r := text[r]], rank')
            && Registered(g, r)
            && (forall q: nat :: q < N && q != r && Registered(g, q) ==> Registered(f, q))
            && MatchOk(f, lab, text, r, len', pos')
  {
    hide Descend, Above, NodeOk, ChildOk;
    AboveBound(rank, 0);
    DescendSound(f, lab, rank, text, r, N + 1 + text[r], true, 0, pos, N);
    var (pl, len', pos') := Descend(f, text, r, N + 1 + text[r], true, 0, pos, N);
    match pl
    case Under(p, right) =>
      AttachKeeps(f, lab, rank, p, right, r);
      rank' := rank[r := Rank(rank, p) + 1];
    case Over(p) =>
      var h := f.(lson := f.lson[r := NIL], rson := f.rson[r := NIL]);
      SameKeeps(f, h, lab, rank);
      ReplaceKeeps(h, lab, rank, p, r);
      assert Replace(h, p, r) == Replace(f, p, r);
      rank' := rank[r := rank[p]];
  }

  ghost predicate SlotsOf(f: Forest, lab: seq<nat>, b: nat, qs: seq<nat>)
    requires Shape(f) && |lab| == N
  {
    forall k :: 0 <= k < |qs| ==> Registered(f, qs[k]) && lab[qs[k]] == b
  }

  /**
   The match found among the nodes qs: the longest agreement above the threshold, at the nearest of
   the nodes that have it, or length 0 and the position unchanged if there is none.
   */
  ghost predicate Found(text: seq<byte>, r: nat, qs: seq<nat>, pos: int, len': nat, pos': int)
    requires |text| == N + F - 1 && r < N && forall k :: 0 <= k < |qs| ==> qs[k] < N
  {
    && (forall k :: 0 <= k < |qs| ==> NoBetter(text, r, qs[k], len', pos'))
    && (len' > 0 ==> exists k :: 0 <= k < |qs| && Offers(text, r, qs[k], len', pos'))
    && (len' == 0 <==> forall k :: 0 <= k < |qs| ==> Agree(text, r, qs[k], 1) <= THRESHOLD)
    && (len' == 0 ==> pos' == pos)
  }

  lemma BestFound(text: seq<byte>, r: nat, qs: seq<nat>, pos: int, len': nat, pos': int)
    requires |text| == N + F - 1 && r < N && forall k :: 0 <= k < |qs| ==> qs[k] < N
    requires Best(text, r, qs, 0, pos, len', pos')
    ensures Found(text, r, qs, pos, len', pos')
  {
    hide Agree, Dist;
  }

  /** Slot r has gone where the descent ended. */
  ghost predicate Placed(f: Forest, g: Forest, r: nat, pl: Place)
    requires Shape(f) && Shape(g) && r < N
  {
    match pl
    case Under(p, right) =>
      p != NIL && p != r && (if right then p < N + 257 else p < N) && g == Attach(f, p, right, r)
    case Over(p) => Registered(f, p) && Replaced(f, g, p, r)
  }

  lemma InsertPlaces(f: Forest, lab: seq<nat>, rank: seq<nat>, text: seq<byte>, r: nat, pos: int)
    requires Wf(f, lab, rank) && |text| == N + F - 1 && r < N && !Registered(f, r)
    ensures Forested(f)
    ensures Placed(f, Insert(f, text, r, pos).0, r, Descend(f, text, r, N + 1 + text[r], true, 0, pos, N).0)
  {
    hide Descend, NodeOk, ChildOk, Replaced;
    var pl := Descend(f, text, r, N + 1 + text[r], true, 0, pos, N).0;
    match pl
    case Under(p, right) =>
    case Over(p) =>
      ReplaceAt(f, lab, rank, p, r);
      var h := f.(lson := f.lson[r := NIL], rson := f.rson[r := NIL]);
      assert Replace(h, p, r) == Replace(f, p, r);
  }

  /** Registering a slot compares it with the nodes of a path from the root of its byte, and finds the match there. */
  lemma InsertFinds(f: Forest, lab: seq<nat>, rank: seq<nat>, text: seq<byte>, r: nat, pos: int)
    returns (qs: seq<nat>, pl: Place)
    requires Wf(f, lab, rank) && |text| == N + F - 1 && r < N && !Registered(f, r)
    ensures Forested(f) && SlotsOf(f, lab, text[r], qs)
    ensures Path(f, text, r, N + 1 + text[r], true, qs, pl)
    ensures var x := Insert(f, text, r, pos); Found(text, r, qs, pos, x.1, x.2) && Placed(f, x.0, r, pl)
  {
    hide Descend, Above, NodeOk, ChildOk, Path, Best, Found, Placed;
    AboveBound(rank, 0);
    InsertPlaces(f, lab, rank, text, r, pos);
    qs := DescendBest(f, lab, rank, text, r, N + 1 + text[r], true, 0, pos, N);
    var y := Descend(f, text, r, N + 1 + text[r], true, 0, pos, N);
    pl := y.0;
    BestFound(text, r, qs, pos, y.1, y.2);
  }

  /** The part of this that needs no labels. */
  lemma InsertRegisters(f: Forest, text: seq<byte>, r: nat, pos: int)
    requires Shape(f) && Forested(f) && |text| == N + F - 1 && r < N && !Registered(f, r)
    ensures var (g, len', pos') := Insert(f, text, r, pos);
            && Forested(g)
            && (forall q: nat :: q < N && q != r && Registered(g, q) ==> Registered(f, q))
            && len' <= F && (len' > THRESHOLD ==> 0 <= pos' < N)
  {
    hide Insert, NodeOk, ChildOk;
    var lab, rank :| Wf(f, lab, rank);
    var rank' := InsertKeeps(f, lab, rank, text, r, pos);
    var x := Insert(f, text, r, pos);
    assert Wf(x.0, lab[r := text[r]], rank');
    if x.1 > THRESHOLD {
      var q: nat :| MatchAt(f, lab, text, r, q, x.1, x.2);
      assert q != r;
    }
  }
}
