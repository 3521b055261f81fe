/**
 The match finder: a forest of 256 binary search trees over the slots of the text ring,
 one per first byte, held in parent and child tables.
 */
module MatchForest {

  const N: nat := 2048
  const F: nat := 60
  const NIL: nat := 2048
  const THRESHOLD: nat := 2

  /** dad and lson have N + 1 entries, rson N + 257: the last 256 are the roots. */
  datatype Forest = Forest(dad: seq<nat>, lson: seq<nat>, rson: seq<nat>)

  ghost predicate Shape(f: Forest) {
    |f.dad| == N + 1 && |f.lson| == N + 1 && |f.rson| == N + 257
  }

  ghost predicate Registered(f: Forest, p: nat)
    requires Shape(f)
  {
    p < N && f.dad[p] != NIL
  }

  predicate IsRoot(p: nat) { N < p <= N + 256 }

  /** The first byte a node or root stands for. */
  function Label(lab: seq<nat>, p: nat): nat
    requires |lab| == N && (p < N || IsRoot(p))
  {
    if p < N then lab[p] else p - N - 1
  }

  /** Ranks grow from parent to child, which rules out cycles; roots have rank 0. */
  function Rank(rank: seq<nat>, p: nat): nat
    requires |rank| == N
  {
    if p < N then rank[p] else 0
  }

  ghost predicate ChildOk(f: Forest, p: nat, q: nat)
    requires Shape(f)
  {
    q == NIL || (Registered(f, q) && f.dad[q] == p)
  }

  /** Slot p hangs under exactly one link of its parent, in the tree of its label. */
  ghost predicate NodeOk(f: Forest, lab: seq<nat>, rank: seq<nat>, p: nat)
    requires Shape(f) && |lab| == N && |rank| == N && Registered(f, p)
  {
    var d := f.dad[p];
    && (Registered(f, d) || IsRoot(d))
    && Label(lab, d) == lab[p]
    && Rank(rank, d) < rank[p]
    && (d > N ==> f.rson[d] == p)
    && (d < N ==> (f.rson[d] == p) != (f.lson[d] == p))
    && ChildOk(f, p, f.lson[p])
    && ChildOk(f, p, f.rson[p])
  }

  ghost predicate Wf(f: Forest, lab: seq<nat>, rank: seq<nat>) {
    && Shape(f) && |lab| == N && |rank| == N
    && (forall p: nat {:trigger NodeOk(f, lab, rank, p)} :: Registered(f, p) ==> NodeOk(f, lab, rank, p))
    && (forall p: nat {:trigger ChildOk(f, p, f.rson[p])} :: IsRoot(p) ==> ChildOk(f, p, f.rson[p]))
  }

  /** Hang r, without children, under p. */
  function Attach(f: Forest, p: nat, right: bool, r: nat): (g: Forest)
    requires Shape(f) && r < N && (if right then p < N + 257 else p < N + 1)
    ensures Shape(g)
  {
    if right then Forest(f.dad[r := p], f.lson[r := NIL], f.rson[r := NIL][p := r])
    else Forest(f.dad[r := p], f.lson[r := NIL][p := r], f.rson[r := NIL])
  }

  lemma AttachKeeps(f: Forest, lab: seq<nat>, rank: seq<nat>, p: nat, right: bool, r: nat)
    requires Wf(f, lab, rank) && r < N && !Registered(f, r)
    requires Registered(f, p) || (IsRoot(p) && right)
    requires (if right then f.rson[p] else f.lson[p]) == NIL
    ensures Wf(Attach(f, p, right, r), lab[r := Label(lab, p)], rank[r := Rank(rank, p) + 1])
  {
    var g := Attach(f, p, right, r);
    assert Registered(f, p) ==> NodeOk(f, lab, rank, p);
    var lab', rank' := lab[r := Label(lab, p)], rank[r := Rank(rank, p) + 1];
    forall q: nat | Registered(g, q)
      ensures NodeOk(g, lab', rank', q)
    {
      if q != r { assert NodeOk(f, lab, rank, q); }
    }
    forall q: nat | IsRoot(q)
      ensures ChildOk(g, q, g.rson[q])
    {
      assert ChildOk(f, q, f.rson[q]);
    }
  }

  /** Let r take over the place and the children of p; p leaves the forest. */
  function Replace(f: Forest, p: nat, r: nat): (g: Forest)
    requires Shape(f) && p < N && r < N && f.dad[p] < N + 257 && f.lson[p] <= N && f.rson[p] <= N
    requires f.dad[p] > N ==> f.rson[f.dad[p]] == p
    ensures Shape(g)
  {
    var d := f.dad[p];
    var lson := f.lson[r := f.lson[p]];
    var rson := f.rson[r := f.rson[p]];
    var dad := f.dad[r := d][f.lson[p] := r][f.rson[p] := r];
    if rson[d] == p then Forest(dad[p := NIL], lson, rson[d := r])
    else Forest(dad[p := NIL], lson[d := r], rson)
  }

  /** A slot other than p and r only sees p renamed to r. */
  function Renamed(q: nat, p: nat, r: nat): nat { if q == p then r else q }

  ghost predicate Replaced(f: Forest, g: Forest, p: nat, r: nat)
    requires Shape(f) && Shape(g) && p < N && r < N
  {
    && g.dad[p] == NIL && g.dad[r] == f.dad[p] && g.lson[r] == f.lson[p] && g.rson[r] == f.rson[p]
    && (forall q: nat {:trigger g.dad[q]} :: q < N && q != p && q != r ==> g.dad[q] == Renamed(f.dad[q], p, r))
    && (forall q: nat {:trigger g.lson[q]} :: Registered(f, q) && q != p ==> g.lson[q] == Renamed(f.lson[q], p, r))
    && (forall q: nat {:trigger g.rson[q]} ::
          (Registered(f, q) && q != p) || IsRoot(q) ==> g.rson[q] == Renamed(f.rson[q], p, r))
  }

  lemma ReplaceAt(f: Forest, lab: seq<nat>, rank: seq<nat>, p: nat, r: nat)
    requires Wf(f, lab, rank) && r < N && !Registered(f, r) && Registered(f, p)
    ensures f.dad[p] < N + 257 && f.lson[p] <= N && f.rson[p] <= N
    ensures f.dad[p] > N ==> f.rson[f.dad[p]] == p
    ensures Replaced(f, Replace(f, p, r), p, r)
  {
    assert NodeOk(f, lab, rank, p);
    forall q: nat | Registered(f, q)
      ensures f.dad[q] == p ==> f.lson[p] == q || f.rson[p] == q
      ensures f.lson[q] == p ==> f.dad[p] == q
      ensures f.rson[q] == p ==> f.dad[p] == q
    {
      assert NodeOk(f, lab, rank, q);
    }
    forall q: nat | IsRoot(q)
      ensures f.rson[q] == p ==> f.dad[p] == q
    {
      assert ChildOk(f, q, f.rson[q]);
    }
  }

  lemma ReplacedNode(f: Forest, g: Forest, lab: seq<nat>, rank: seq<nat>, p: nat, r: nat, q: nat)
    requires Wf(f, lab, rank) && Shape(g) && r < N && !Registered(f, r) && Registered(f, p) && Replaced(f, g, p, r)
    requires Registered(f, q) && q != p && NodeOk(f, lab, rank, q)
    ensures Registered(g, q) && NodeOk(g, lab[r := lab[p]], rank[r := rank[p]], q)
  {
    ReplacedChild(f, g, p, r, q, f.lson[q]);
    ReplacedChild(f, g, p, r, q, f.rson[q]);
  }

  lemma ReplacedChild(f: Forest, g: Forest, p: nat, r: nat, q: nat, c: nat)
    requires Shape(f) && Shape(g) && r < N && !Registered(f, r) && Registered(f, p) && Replaced(f, g, p, r)
    requires q != p && q != r && q != NIL && ChildOk(f, q, c)
    ensures ChildOk(g, q, Renamed(c, p, r))
  {
  }

  /** Replacing keeps the forest, with r registered in place of p. */
  lemma ReplaceKeeps(f: Forest, lab: seq<nat>, rank: seq<nat>, p: nat, r: nat)
    requires Wf(f, lab, rank) && r < N && !Registered(f, r) && Registered(f, p)
    ensures f.dad[p] < N + 257 && f.lson[p] <= N && f.rson[p] <= N
    ensures f.dad[p] > N ==> f.rson[f.dad[p]] == p
    ensures Wf(Replace(f, p, r), lab[r := lab[p]], rank[r := rank[p]])
    ensures forall q: nat :: q < N ==> (Registered(Replace(f, p, r), q) <==> q == r || (q != p && Registered(f, q)))
  {
    ReplaceAt(f, lab, rank, p, r);
    assert NodeOk(f, lab, rank, p);
    hide Replace;
    var g := Replace(f, p, r);
    var lab', rank' := lab[r := lab[p]], rank[r := rank[p]];
    assert NodeOk(g, lab', rank', r) by { ReplacedSelf(f, g, lab, rank, p, r); }
    forall q: nat | Registered(g, q)
      ensures NodeOk(g, lab', rank', q)
    {
      if q != r {
        assert NodeOk(f, lab, rank, q);
        ReplacedNode(f, g, lab, rank, p, r, q);
      }
    }
    forall q: nat | IsRoot(q)
      ensures ChildOk(g, q, g.rson[q])
    {
      assert ChildOk(f, q, f.rson[q]);
      ReplacedChild(f, g, p, r, q, f.rson[q]);
    }
  }

  lemma ReplacedSelf(f: Forest, g: Forest, lab: seq<nat>, rank: seq<nat>, p: nat, r: nat)
    requires Wf(f, lab, rank) && Shape(g) && r < N && !Registered(f, r) && Registered(f, p) && Replaced(f, g, p, r)
    ensures Registered(g, r) && NodeOk(g, lab[r := lab[p]], rank[r := rank[p]], r)
  {
    assert NodeOk(f, lab, rank, p);
    var d := f.dad[p];
    assert Registered(f, d) ==> NodeOk(f, lab, rank, d);
    assert g.rson[d] == Renamed(f.rson[d], p, r);
    assert d < N ==> g.lson[d] == Renamed(f.lson[d], p, r);
  }

  /** Take p, whose only child (or NIL) is c, out of the forest. */
  function Splice(f: Forest, p: nat, c: nat): (g: Forest)
    requires Shape(f) && p < N && c <= N && f.dad[p] < N + 257
    requires f.dad[p] > N ==> f.rson[f.dad[p]] == p
    ensures Shape(g)
  {
    var d := f.dad[p];
    var dad := f.dad[c := d][p := NIL];
    if f.rson[d] == p then Forest(dad, f.lson, f.rson[d := c]) else Forest(dad, f.lson[d := c], f.rson)
  }

  ghost predicate Spliced(f: Forest, g: Forest, p: nat, c: nat)
    requires Shape(f) && Shape(g) && p < N
  {
    && g.dad[p] == NIL
    && (forall q: nat {:trigger g.dad[q]} :: q < N && q != p ==> g.dad[q] == Renamed(f.dad[q], p, f.dad[p]))
    && (forall q: nat {:trigger g.lson[q]} :: Registered(f, q) && q != p ==> g.lson[q] == Renamed(f.lson[q], p, c))
    && (forall q: nat {:trigger g.rson[q]} ::
          (Registered(f, q) && q != p) || IsRoot(q) ==> g.rson[q] == Renamed(f.rson[q], p, c))
  }

  ghost predicate OnlyChild(f: Forest, p: nat, c: nat)
    requires Shape(f) && p < N
  {
    (c == f.lson[p] && f.rson[p] == NIL) || (c == f.rson[p] && f.lson[p] == NIL)
  }

  lemma SpliceAt(f: Forest, lab: seq<nat>, rank: seq<nat>, p: nat, c: nat)
    requires Wf(f, lab, rank) && Registered(f, p) && OnlyChild(f, p, c)
    ensures c <= N && f.dad[p] < N + 257 && (f.dad[p] > N ==> f.rson[f.dad[p]] == p)
    ensures Spliced(f, Splice(f, p, c), p, c)
  {
    assert NodeOk(f, lab, rank, p);
    forall q: nat | Registered(f, q)
      ensures f.dad[q] == p ==> q == c
      ensures f.lson[q] == p ==> f.dad[p] == q
      ensures f.rson[q] == p ==> f.dad[p] == q
    {
      assert NodeOk(f, lab, rank, q);
    }
    forall q: nat | IsRoot(q)
      ensures f.rson[q] == p ==> f.dad[p] == q
    {
      assert ChildOk(f, q, f.rson[q]);
    }
  }

  lemma SplicedChild(f: Forest, g: Forest, lab: seq<nat>, rank: seq<nat>, p: nat, c: nat, q: nat, e: nat)
    requires Wf(f, lab, rank) && Shape(g) && Registered(f, p) && OnlyChild(f, p, c) && Spliced(f, g, p, c)
    requires q != p && ChildOk(f, q, e) && q != NIL
    ensures ChildOk(g, q, Renamed(e, p, c))
  {
    assert NodeOk(f, lab, rank, p);
    assert Registered(f, e) ==> NodeOk(f, lab, rank, e);
    assert c == NIL || Registered(f, c);
  }

  lemma SplicedNode(f: Forest, g: Forest, lab: seq<nat>, rank: seq<nat>, p: nat, c: nat, q: nat)
    requires Wf(f, lab, rank) && Shape(g) && Registered(f, p) && OnlyChild(f, p, c) && Spliced(f, g, p, c)
    requires Registered(f, q) && q != p && NodeOk(f, lab, rank, q)
    ensures Registered(g, q) && NodeOk(g, lab, rank, q)
  {
    SplicedChild(f, g, lab, rank, p, c, q, f.lson[q]);
    SplicedChild(f, g, lab, rank, p, c, q, f.rson[q]);
    assert NodeOk(f, lab, rank, p);
    var d := f.dad[q];
    if d == p {
      var e := f.dad[p];
      assert Registered(f, e) ==> NodeOk(f, lab, rank, e);
      assert g.rson[e] == Renamed(f.rson[e], p, c);
      assert e < N ==> g.lson[e] == Renamed(f.lson[e], p, c);
      assert q == c;
    } else {
      assert Registered(f, d) ==> NodeOk(f, lab, rank, d);
      assert g.rson[d] == Renamed(f.rson[d], p, c);
      assert d < N ==> g.lson[d] == Renamed(f.lson[d], p, c);
    }
  }

  /** Splicing keeps the forest; only p leaves it. */
  lemma SpliceKeeps(f: Forest, lab: seq<nat>, rank: seq<nat>, p: nat, c: nat)
    requires Wf(f, lab, rank) && Registered(f, p) && OnlyChild(f, p, c)
    ensures c <= N && f.dad[p] < N + 257 && (f.dad[p] > N ==> f.rson[f.dad[p]] == p)
    ensures Wf(Splice(f, p, c), lab, rank)
    ensures forall q: nat :: q < N ==> (Registered(Splice(f, p, c), q) <==> q != p && Registered(f, q))
  {
    SpliceAt(f, lab, rank, p, c);
    assert NodeOk(f, lab, rank, p);
    hide Splice;
    var g := Splice(f, p, c);
    forall q: nat | Registered(g, q)
      ensures NodeOk(g, lab, rank, q)
    {
      assert NodeOk(f, lab, rank, q);
      SplicedNode(f, g, lab, rank, p, c, q);
    }
    forall q: nat | IsRoot(q)
      ensures ChildOk(g, q, g.rson[q])
    {
      assert ChildOk(f, q, f.rson[q]);
      SplicedChild(f, g, lab, rank, p, c, q, f.rson[q]);
    }
  }

  /** Some labelling and ranking makes the tables a forest. */
  ghost predicate Forested(f: Forest) {
    exists lab: seq<nat>, rank: seq<nat> :: Wf(f, lab, rank)
  }

  /** Slots ranked above k bound how far a descent from rank k can go. */
  ghost function Above(rank: seq<nat>, k: nat): (s: set<nat>)
    requires |rank| == N
  {
    set p: nat | p < N && rank[p] > k
  }

  lemma AboveShrinks(rank: seq<nat>, k: nat, c: nat)
    requires |rank| == N && c < N && k < rank[c]
    ensures |Above(rank, rank[c])| < |Above(rank, k)|
  {
    var a, b := Above(rank, rank[c]), Above(rank, k);
    assert a + {c} <= b && c !in a;
    CardinalityUpTo(a + {c}, b);
  }

  lemma CardinalityUpTo(a: set<nat>, b: set<nat>)
    requires a <= b
    ensures |a| <= |b|
  {
    assert b == a + (b - a);
  }

  ghost function Slots(n: nat): (s: set<nat>)
    ensures |s| == n && forall p: nat :: p in s <==> p < n
  {
    if n == 0 then {} else Slots(n - 1) + {n - 1}
  }

  lemma AboveBound(rank: seq<nat>, k: nat)
    requires |rank| == N
    ensures |Above(rank, k)| <= N
  {
    CardinalityUpTo(Above(rank, k), Slots(N));
  }

  lemma Children(f: Forest, p: nat)
    requires Shape(f) && Forested(f) && Registered(f, p)
    ensures f.lson[p] == NIL || Registered(f, f.lson[p])
    ensures f.rson[p] == NIL || Registered(f, f.rson[p])
    ensures f.dad[p] < N + 257 && (f.dad[p] > N ==> f.rson[f.dad[p]] == p)
  {
    var lab, rank :| Wf(f, lab, rank);
    assert NodeOk(f, lab, rank, p);
  }

  /** Follow right children for at most fuel steps. */
  function Rightmost(f: Forest, q: nat, fuel: nat): (r: nat)
    requires Shape(f) && Forested(f) && Registered(f, q)
    ensures Registered(f, r)
    decreases fuel
  {
    Children(f, q);
    if fuel == 0 || f.rson[q] == NIL then q else Rightmost(f, f.rson[q], fuel - 1)
  }

  lemma {:induction false} RightmostEnds(f: Forest, lab: seq<nat>, rank: seq<nat>, q: nat, fuel: nat)
    requires Wf(f, lab, rank) && Registered(f, q) && |Above(rank, rank[q])| <= fuel
    ensures Forested(f)
    ensures var r := Rightmost(f, q, fuel);
            && f.rson[r] == NIL && rank[q] <= rank[r] && lab[r] == lab[q]
            && (r != q ==> f.dad[r] < N && f.rson[f.dad[r]] == r && rank[q] <= rank[f.dad[r]])
    decreases fuel
  {
    assert NodeOk(f, lab, rank, q);
    var c := f.rson[q];
    if c == NIL {
    } else {
      assert NodeOk(f, lab, rank, c);
      AboveShrinks(rank, rank[q], c);
      RightmostEnds(f, lab, rank, c, fuel - 1);
    }
  }

  /** Move q, freed of its old place, into the place of p. */
  function Relink(f: Forest, p: nat, q: nat): (g: Forest)
    requires Shape(f) && p < N && q < N && f.rson[p] <= N && f.dad[p] < N + 257
    requires f.dad[p] > N ==> f.rson[f.dad[p]] == p && q < N
    ensures Shape(g)
  {
    var d := f.dad[p];
    var rson := f.rson[q := f.rson[p]];
    var dad := f.dad[f.rson[p] := q][q := d][p := NIL];
    if rson[d] == p then Forest(dad, f.lson, rson[d := q]) else Forest(dad, f.lson[d := q], rson)
  }

  /** Cut q, a right child without right child of its own, loose and give it the left subtree of p. */
  function Detach(f: Forest, p: nat, q: nat): (g: Forest)
    requires Shape(f) && p < N && q < N && f.lson[q] <= N && f.lson[p] <= N && f.dad[q] < N
    ensures Shape(g)
  {
    Forest(f.dad[f.lson[q] := f.dad[q]][f.lson[p] := q], f.lson[q := f.lson[p]], f.rson[f.dad[q] := f.lson[q]])
  }

  lemma PredecessorPlace(f: Forest, p: nat)
    requires Shape(f) && Forested(f) && Registered(f, p) && Registered(f, f.lson[p])
    requires f.rson[f.lson[p]] != NIL
    ensures var q := Rightmost(f, f.lson[p], N);
            && q != p && q != f.lson[p] && f.lson[q] <= N && f.dad[q] < N && f.dad[q] != p
            && f.rson[q] == NIL && f.rson[f.dad[q]] == q && f.dad[p] != q && f.lson[q] != p
  {
    var lab, rank :| Wf(f, lab, rank);
    assert NodeOk(f, lab, rank, p);
    assert NodeOk(f, lab, rank, f.lson[p]);
    AboveBound(rank, rank[f.lson[p]]);
    RightmostEnds(f, lab, rank, f.lson[p], N);
    var q := Rightmost(f, f.lson[p], N);
    assert NodeOk(f, lab, rank, q);
    assert Registered(f, f.lson[q]) ==> NodeOk(f, lab, rank, f.lson[q]);
  }

  /** Remove slot p from the forest. */
  function Delete(f: Forest, p: nat): (g: Forest)
    requires Shape(f) && Forested(f) && p < N
    ensures Shape(g)
  {
    if f.dad[p] == NIL then f
    else
      Children(f, p);
      if f.rson[p] == NIL then Splice(f, p, f.lson[p])
      else if f.lson[p] == NIL then Splice(f, p, f.rson[p])
      else if f.rson[f.lson[p]] == NIL then Relink(f, p, f.lson[p])
      else
        PredecessorPlace(f, p);
        var q := Rightmost(f, f.lson[p], N);
        Relink(Detach(f, p, q), p, q)
  }

  /** Agreement on everything a forest is made of. */
  ghost predicate SameForest(f: Forest, g: Forest)
    requires Shape(f) && Shape(g)
  {
    && (forall p: nat {:trigger g.dad[p]} :: p < N ==> g.dad[p] == f.dad[p])
    && (forall p: nat {:trigger g.lson[p]} :: Registered(f, p) ==> g.lson[p] == f.lson[p])
    && (forall p: nat {:trigger g.rson[p]} :: Registered(f, p) || IsRoot(p) ==> g.rson[p] == f.rson[p])
  }

  lemma SameKeeps(f: Forest, g: Forest, lab: seq<nat>, rank: seq<nat>)
    requires Wf(f, lab, rank) && Shape(g) && SameForest(f, g)
    ensures Wf(g, lab, rank)
  {
    forall p: nat | Registered(g, p) ensures NodeOk(g, lab, rank, p) { assert NodeOk(f, lab, rank, p); }
    forall p: nat | IsRoot(p) ensures ChildOk(g, p, g.rson[p]) { assert ChildOk(f, p, f.rson[p]); }
  }

  /** Slot q, without right child, leaves its place and takes over that of p. */
  ghost predicate Moved(f: Forest, g: Forest, p: nat, q: nat)
    requires Shape(f) && Shape(g)
  {
    && p < N && q < N && f.lson[q] <= N && f.rson[q] == NIL
    && f.dad[q] < N + 257 && (f.dad[q] > N ==> f.rson[f.dad[q]] == q)
    && var h := Splice(f, q, f.lson[q]);
       && h.dad[p] < N + 257 && h.lson[p] <= N && h.rson[p] <= N && (h.dad[p] > N ==> h.rson[h.dad[p]] == p)
       && SameForest(Replace(h, p, q), g)
  }

  lemma RelinkShallow(f: Forest, lab: seq<nat>, rank: seq<nat>, p: nat) returns (rank': seq<nat>)
    requires Wf(f, lab, rank) && Registered(f, p) && f.rson[p] != NIL && Registered(f, f.lson[p])
    requires f.rson[f.lson[p]] == NIL && f.rson[p] <= N && f.dad[p] < N + 257
    requires f.dad[p] > N ==> f.rson[f.dad[p]] == p
    ensures Wf(Relink(f, p, f.lson[p]), lab, rank')
    ensures forall q: nat :: q < N ==> (Registered(Relink(f, p, f.lson[p]), q) <==> q != p && Registered(f, q))
    ensures Moved(f, Relink(f, p, f.lson[p]), p, f.lson[p])
  {
    var q := f.lson[p];
    assert NodeOk(f, lab, rank, p) && NodeOk(f, lab, rank, q) && NodeOk(f, lab, rank, f.rson[p]);
    SpliceKeeps(f, lab, rank, q, f.lson[q]);
    var h := Splice(f, q, f.lson[q]);
    ReplaceKeeps(h, lab, rank, p, q);
    rank' := rank[q := rank[p]];
    assert lab[q := lab[p]] == lab;
    var d := f.dad[p];
    assert Registered(f, d) ==> NodeOk(f, lab, rank, d);
    assert Registered(f, f.lson[q]) ==> NodeOk(f, lab, rank, f.lson[q]);
    ShallowSame(f, p, q, h);
    SameKeeps(Replace(h, p, q), Relink(f, p, q), lab, rank');
  }

  lemma ShallowSame(f: Forest, p: nat, q: nat, h: Forest)
    requires Shape(f) && p < N && q < N && p != q && f.lson[p] == q && f.dad[q] == p && f.rson[q] == NIL
    requires f.rson[p] < N && f.rson[p] != q && f.rson[p] != p && f.lson[q] <= N && f.lson[q] != p && f.lson[q] != q
    requires f.dad[p] < N + 257 && f.dad[p] != NIL && f.dad[p] != p && f.dad[p] != q && f.lson[q] != f.rson[p]
    requires f.dad[p] > N ==> f.rson[f.dad[p]] == p
    requires f.dad[p] < N ==> f.lson[f.dad[p]] == p || f.rson[f.dad[p]] == p
    requires h == Splice(f, q, f.lson[q])
    requires f.lson[q] < N ==> f.dad[f.lson[q]] == q
    ensures h.dad[p] < N + 257 && h.lson[p] <= N && h.rson[p] <= N && (h.dad[p] > N ==> h.rson[h.dad[p]] == p)
    ensures SameForest(Replace(h, p, q), Relink(f, p, q))
  {
  }

  lemma RelinkDeep(f: Forest, lab: seq<nat>, rank: seq<nat>, p: nat) returns (rank': seq<nat>)
    requires Wf(f, lab, rank) && Forested(f) && Registered(f, p) && Registered(f, f.rson[p]) && Registered(f, f.lson[p])
    requires f.rson[f.lson[p]] != NIL
    ensures var g := Delete(f, p); Wf(g, lab, rank') && Moved(f, g, p, Rightmost(f, f.lson[p], N))
    ensures forall q: nat :: q < N ==> (Registered(Delete(f, p), q) <==> q != p && Registered(f, q))
  {
    PredecessorPlace(f, p);
    var q := Rightmost(f, f.lson[p], N);
    AboveBound(rank, rank[f.lson[p]]);
    RightmostEnds(f, lab, rank, f.lson[p], N);
    assert NodeOk(f, lab, rank, p) && NodeOk(f, lab, rank, q);
    assert NodeOk(f, lab, rank, f.lson[p]) && NodeOk(f, lab, rank, f.rson[p]);
    SpliceKeeps(f, lab, rank, q, f.lson[q]);
    var h := Splice(f, q, f.lson[q]);
    ReplaceKeeps(h, lab, rank, p, q);
    rank' := rank[q := rank[p]];
    assert lab[q := lab[p]] == lab;
    assert Registered(f, f.lson[q]) ==> NodeOk(f, lab, rank, f.lson[q]);
    DeepSame(f, p, q);
  }

  lemma DeepSame(f: Forest, p: nat, q: nat)
    requires Shape(f) && p < N && q < N && p != q && f.lson[p] < N && f.rson[p] < N && f.lson[p] != q && f.rson[p] != q
    requires f.dad[q] < N && f.dad[q] != p && f.dad[q] != q && f.lson[q] <= N && f.lson[q] != q && f.lson[q] != p
    requires f.rson[f.dad[q]] == q && f.dad[p] < N + 257 && f.dad[p] != q && f.dad[p] != NIL
    requires f.lson[q] != f.lson[p] && f.lson[q] != f.rson[p] && f.lson[p] != p && f.rson[p] != p
    requires f.dad[p] > N ==> f.rson[f.dad[p]] == p
    ensures var h := Splice(f, q, f.lson[q]);
            && h.dad[p] < N + 257 && h.lson[p] <= N && h.rson[p] <= N && (h.dad[p] > N ==> h.rson[h.dad[p]] == p)
            && Detach(f, p, q).rson[p] <= N && Detach(f, p, q).dad[p] < N + 257
            && (Detach(f, p, q).dad[p] > N ==> Detach(f, p, q).rson[Detach(f, p, q).dad[p]] == p)
            && Replace(h, p, q) == Relink(Detach(f, p, q), p, q)
  {
  }

  /** Deleting keeps the forest and unregisters p alone. */
  lemma DeleteKeeps(f: Forest, lab: seq<nat>, rank: seq<nat>, p: nat) returns (rank': seq<nat>)
    requires Wf(f, lab, rank) && p < N
    ensures Forested(f)
    ensures Wf(Delete(f, p), lab, rank')
    ensures forall q: nat :: q < N ==> (Registered(Delete(f, p), q) <==> q != p && Registered(f, q))
  {
    rank' := rank;
    if f.dad[p] != NIL {
      assert NodeOk(f, lab, rank, p);
      if f.rson[p] == NIL {
        SpliceKeeps(f, lab, rank, p, f.lson[p]);
      } else if f.lson[p] == NIL {
        SpliceKeeps(f, lab, rank, p, f.rson[p]);
      } else if f.rson[f.lson[p]] == NIL {
        rank' := RelinkShallow(f, lab, rank, p);
      } else {
        rank' := RelinkDeep(f, lab, rank, p);
      }
    }
  }

  /** Deleting a slot with two children moves the last slot of its left subtree into its place. */
  lemma DeleteMoves(f: Forest, lab: seq<nat>, rank: seq<nat>, p: nat)
    requires Wf(f, lab, rank) && Registered(f, p) && f.lson[p] != NIL && f.rson[p] != NIL
    ensures Forested(f) && Registered(f, f.lson[p])
    ensures Moved(f, Delete(f, p), p, Rightmost(f, f.lson[p], N))
  {
    hide Moved;
    assert NodeOk(f, lab, rank, p);
    if f.rson[f.lson[p]] == NIL {
      var rank' := RelinkShallow(f, lab, rank, p);
    } else {
      var rank' := RelinkDeep(f, lab, rank, p);
    }
  }

  /** The empty forest, as the tables are first initialised. */
  function FreshForest(): (f: Forest)
    ensures Shape(f)
  {
    Forest(seq(N + 1, i => if i < N then NIL else 0), seq(N + 1, _ => 0), seq(N + 257, i => if i > N then NIL else 0))
  }

  lemma FreshForestOk()
    ensures Wf(FreshForest(), seq(N, _ => 0), seq(N, _ => 0)) && Forested(FreshForest())
    ensures forall p: nat :: p < N ==> !Registered(FreshForest(), p)
  {
    var f := FreshForest();
    assert Wf(f, seq(N, _ => 0), seq(N, _ => 0));
  }

  lemma ChildNotSelf(f: Forest, p: nat)
    requires Shape(f) && Forested(f) && Registered(f, p) && f.rson[p] != NIL && f.lson[p] != NIL
    ensures f.rson[p] < N && f.rson[p] != p && f.lson[p] < N && f.lson[p] != p && f.rson[p] != f.lson[p]
    ensures f.dad[p] != f.lson[p]
  {
    var lab, rank :| Wf(f, lab, rank);
    assert NodeOk(f, lab, rank, p) && NodeOk(f, lab, rank, f.rson[p]) && NodeOk(f, lab, rank, f.lson[p]);
  }

  lemma ChildRank(f: Forest, lab: seq<nat>, rank: seq<nat>, q: nat)
    requires Wf(f, lab, rank) && Registered(f, q) && f.rson[q] != NIL
    ensures |rank| == N && Registered(f, f.rson[q]) && rank[f.rson[q]] > rank[q]
  {
    assert NodeOk(f, lab, rank, q) && NodeOk(f, lab, rank, f.rson[q]);
  }

  lemma RelinkIsSplice(g: Forest, p: nat, q: nat)
    requires Shape(g) && p < N && q < N && g.rson[p] <= N && g.rson[p] != p && g.dad[p] < N + 257
    requires g.dad[p] > N ==> g.rson[g.dad[p]] == p
    requires q != p && g.dad[p] != q
    ensures var h := g.(rson := g.rson[q := g.rson[p]], dad := g.dad[g.rson[p] := q]);
            && h.dad[p] < N + 257 && (h.dad[p] > N ==> h.rson[h.dad[p]] == p)
            && Relink(g, p, q) == Splice(h, p, q)
  {
  }

  /** Detaching does not touch the links of p that the last step uses. */
  lemma DetachFrame(f: Forest, p: nat, q: nat)
    requires Shape(f) && p < N && q < N && f.lson[p] <= N && f.lson[p] != p && f.lson[q] <= N && f.lson[q] != p
    requires f.dad[q] < N && f.dad[q] != p && f.dad[p] < N + 257 && (f.dad[p] > N ==> f.rson[f.dad[p]] == p)
    ensures var g := Detach(f, p, q);
            && g.rson[p] == f.rson[p] && g.dad[p] == f.dad[p]
            && (g.dad[p] > N ==> g.rson[g.dad[p]] == p)
  {
  }

  lemma Witness(f: Forest) returns (lab: seq<nat>, rank: seq<nat>)
    requires Forested(f)
    ensures Wf(f, lab, rank)
  {
    lab, rank :| Wf(f, lab, rank);
  }

  lemma NotSelf(f: Forest, p: nat, r: nat)
    requires Shape(f) && Forested(f) && Registered(f, p) && r < N && !Registered(f, r)
    ensures p != r && f.lson[p] != p && f.rson[p] != p && f.dad[p] != r && f.lson[p] != r && f.rson[p] != r
  {
    var lab, rank :| Wf(f, lab, rank);
    assert NodeOk(f, lab, rank, p);
  }
}
