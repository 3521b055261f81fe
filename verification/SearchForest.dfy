/**
 The forest as 256 search trees: registering and deleting slots keep their order, and in
 ordered trees the match found is a longest one.
 */
module SearchForest {
  import opened Bits
  import opened MatchForest
  import opened MatchFinder
  import opened SearchTree

  // One slot for another.

  function Rename(t: Tree, p: nat, r: nat): (u: Tree) {
    match t case Leaf => Leaf case Node(a, q, b) => Node(Rename(a, p, r), Renamed(q, p, r), Rename(b, p, r))
  }

  function Renames(s: seq<nat>, p: nat, r: nat): (u: seq<nat>)
    ensures |u| == |s|
  {
    seq(|s|, i requires 0 <= i < |s| => Renamed(s[i], p, r))
  }

  lemma {:induction false} RenameInorder(t: Tree, p: nat, r: nat)
    ensures Inorder(Rename(t, p, r)) == Renames(Inorder(t), p, r)
    decreases t
  {
    match t
    case Leaf =>
    case Node(a, q, b) =>
      RenameInorder(a, p, r);
      RenameInorder(b, p, r);
  }

  lemma {:induction false} RenameNone(t: Tree, p: nat, r: nat)
    requires p !in Inorder(t)
    ensures Rename(t, p, r) == t
    decreases t
  {
    match t
    case Leaf =>
    case Node(a, q, b) =>
      InorderNode(a, q, b);
      RenameNone(a, p, r);
      RenameNone(b, p, r);
  }

  lemma ChildrenDiffer(f: Forest, lab: seq<nat>, rank: seq<nat>, p: nat)
    requires Wf(f, lab, rank) && Registered(f, p)
    ensures f.lson[p] != p && f.rson[p] != p
  {
    assert NodeOk(f, lab, rank, p);
  }

  lemma {:induction false} ReplacedHolds(f: Forest, g: Forest, lab: seq<nat>, rank: seq<nat>, q: nat, t: Tree,
                                         p: nat, r: nat)
    requires Shape(f) && Shape(g) && Wf(f, lab, rank) && r < N && !Registered(f, r) && Registered(f, p)
    requires Replaced(f, g, p, r) && Holds(f, q, t)
    ensures Holds(g, Renamed(q, p, r), Rename(t, p, r))
    decreases t
  {
    hide Wf;
    match t
    case Leaf =>
    case Node(a, s, b) =>
      ChildrenDiffer(f, lab, rank, s);
      ReplacedHolds(f, g, lab, rank, f.lson[s], a, p, r);
      ReplacedHolds(f, g, lab, rank, f.rson[s], b, p, r);
      ParentThere(f, lab, rank, p);
  }

  lemma ParentThere(f: Forest, lab: seq<nat>, rank: seq<nat>, p: nat)
    requires Wf(f, lab, rank) && Registered(f, p)
    ensures f.dad[p] != NIL && f.dad[p] < N + 257 && f.dad[p] != p
  {
    assert NodeOk(f, lab, rank, p);
  }

  /** A slot added over one with its text takes its place. */
  lemma {:induction false} AddOver(f: Forest, text: seq<byte>, r: nat, p0: nat, right0: bool, qs: seq<nat>,
                                   p: nat, t: Tree)
    requires Shape(f) && |text| == N + F - 1 && r < N && (if right0 then p0 < N + 257 else p0 <= N)
    requires Path(f, text, r, p0, right0, qs, Over(p)) && Holds(f, Child(f, p0, right0), t) && Proper(t)
    ensures p in Inorder(t) && Add(text, t, r) == Rename(t, p, r)
    decreases t
  {
    hide SameTo, NotBefore, Inorder, Different;
    InorderLeaf();
    match t
    case Leaf =>
    case Node(a, q, b) =>
      InorderNode(a, q, b);
      ProperSplits(a, q, b);
      if SameTo(text, r, q, F) {
        RenameNone(a, p, r);
        RenameNone(b, p, r);
      } else if NotBefore(text, r, q) {
        AddOver(f, text, r, q, true, qs[1..], p, b);
        RenameNone(a, p, r);
      } else {
        AddOver(f, text, r, q, false, qs[1..], p, a);
        RenameNone(b, p, r);
      }
  }

  // One slot out.

  /** The tree without slot p, where that has at most one child. */
  function Cut(t: Tree, p: nat): (u: Tree) {
    match t
    case Leaf => Leaf
    case Node(a, q, b) =>
      if q != p then Node(Cut(a, p), q, Cut(b, p)) else if b.Leaf? then Cut(a, p) else Cut(b, p)
  }

  function Minus(s: seq<nat>, p: nat): (u: seq<nat>) {
    if s == [] then [] else Minus(s[..|s| - 1], p) + if s[|s| - 1] == p then [] else [s[|s| - 1]]
  }

  lemma {:induction false} MinusConcat(a: seq<nat>, b: seq<nat>, p: nat)
    ensures Minus(a + b, p) == Minus(a, p) + Minus(b, p)
    decreases |b|
  {
    if b == [] {
      assert a + b == a;
    } else {
      MinusConcat(a, b[..|b| - 1], p);
      assert (a + b)[..|a + b| - 1] == a + b[..|b| - 1];
    }
  }

  lemma {:induction false} MinusNone(s: seq<nat>, p: nat)
    requires p !in s
    ensures Minus(s, p) == s
    decreases |s|
  {
    if s == [] {
    } else {
      MinusNone(s[..|s| - 1], p);
      assert s[..|s| - 1] + [s[|s| - 1]] == s;
    }
  }

  lemma {:induction false} MinusMembers(s: seq<nat>, p: nat)
    ensures forall x :: x in Minus(s, p) <==> x in s && x != p
    decreases |s|
  {
    if s == [] {
    } else {
      MinusMembers(s[..|s| - 1], p);
      assert s[..|s| - 1] + [s[|s| - 1]] == s;
    }
  }

  lemma MinusAround(a: seq<nat>, q: nat, b: seq<nat>, p: nat)
    ensures Minus(a + [q] + b, p) == Minus(a, p) + (if q == p then [] else [q]) + Minus(b, p)
  {
    hide Minus;
    MinusConcat(a + [q], b, p);
    MinusConcat(a, [q], p);
    MinusOne(q, p);
  }

  lemma MinusOne(q: nat, p: nat)
    ensures Minus([q], p) == if q == p then [] else [q]
  {
    assert [q][..0] == [] && Minus([], p) == [];
  }

  lemma {:induction false} CutInorder(f: Forest, q: nat, t: Tree, p: nat, c: nat)
    requires Shape(f) && p < N && OnlyChild(f, p, c) && Holds(f, q, t)
    ensures Inorder(Cut(t, p)) == Minus(Inorder(t), p)
    decreases t
  {
    hide Minus;
    match t
    case Leaf =>
      MinusNone([], p);
    case Node(a, s, b) =>
      CutInorder(f, f.lson[s], a, p, c);
      CutInorder(f, f.rson[s], b, p, c);
      MinusAround(Inorder(a), s, Inorder(b), p);
      MinusNone([], p);
  }

  lemma {:induction false} SplicedHolds(f: Forest, g: Forest, lab: seq<nat>, rank: seq<nat>, q: nat, t: Tree,
                                        p: nat, c: nat)
    requires Shape(f) && Shape(g) && Wf(f, lab, rank) && Registered(f, p) && OnlyChild(f, p, c) && Spliced(f, g, p, c)
    requires Holds(f, q, t)
    ensures Holds(g, Renamed(q, p, c), Cut(t, p))
    decreases t
  {
    hide Wf;
    match t
    case Leaf =>
    case Node(a, s, b) =>
      ChildrenDiffer(f, lab, rank, s);
      SplicedHolds(f, g, lab, rank, f.lson[s], a, p, c);
      SplicedHolds(f, g, lab, rank, f.rson[s], b, p, c);
      ParentThere(f, lab, rank, p);
  }

  // The forest.

  /** The tree of byte b. */
  ghost predicate TreeOf(f: Forest, text: seq<byte>, b: nat, t: Tree)
    requires Shape(f) && |text| == N + F - 1 && b < 256
  {
    Holds(f, f.rson[N + 1 + b], t) && Searches(text, t)
  }

  ghost predicate HasTree(f: Forest, text: seq<byte>, b: nat)
    requires Shape(f) && |text| == N + F - 1 && b < 256
  {
    exists t :: TreeOf(f, text, b, t)
  }

  /** Every tree is a search tree. */
  ghost predicate InOrder(f: Forest, text: seq<byte>)
    requires Shape(f) && |text| == N + F - 1
  {
    forall b: nat :: b < 256 ==> HasTree(f, text, b)
  }

  lemma {:induction false} HeldLabels(f: Forest, lab: seq<nat>, rank: seq<nat>, q: nat, t: Tree, b: nat)
    requires Shape(f) && Wf(f, lab, rank) && Holds(f, q, t) && (Registered(f, q) ==> lab[q] == b)
    ensures forall x :: x in Inorder(t) ==> Registered(f, x) && lab[x] == b
    decreases t
  {
    hide Inorder, NodeOk, ChildOk;
    InorderLeaf();
    match t
    case Leaf =>
    case Node(l, s, r) =>
      InorderNode(l, s, r);
      ChildFacts(f, lab, rank, s, false);
      ChildFacts(f, lab, rank, s, true);
      HeldLabels(f, lab, rank, f.lson[s], l, b);
      HeldLabels(f, lab, rank, f.rson[s], r, b);
  }

  lemma TreeLabels(f: Forest, lab: seq<nat>, rank: seq<nat>, b: nat, t: Tree)
    requires Shape(f) && Wf(f, lab, rank) && b < 256 && Holds(f, f.rson[N + 1 + b], t)
    ensures forall x :: x in Inorder(t) ==> Registered(f, x) && lab[x] == b
  {
    hide Inorder, NodeOk, ChildOk, Holds;
    ChildFacts(f, lab, rank, N + 1 + b, true);
    HeldLabels(f, lab, rank, f.rson[N + 1 + b], t, b);
  }

  lemma {:induction false} ChildListed(f: Forest, q: nat, t: Tree, d: nat, x: nat)
    requires Shape(f) && Holds(f, q, t) && d in Inorder(t) && d < N && (f.lson[d] == x || f.rson[d] == x) && x != NIL
    ensures x in Inorder(t)
    decreases t
  {
    match t
    case Leaf =>
    case Node(l, s, r) =>
      InorderNode(l, s, r);
      if d == s {
        TopListed(f, f.lson[s], l);
        TopListed(f, f.rson[s], r);
      } else if d in Inorder(l) {
        ChildListed(f, f.lson[s], l, d, x);
      } else {
        ChildListed(f, f.rson[s], r, d, x);
      }
  }

  lemma TopListed(f: Forest, q: nat, t: Tree)
    requires Shape(f) && Holds(f, q, t)
    ensures q != NIL ==> q in Inorder(t)
  {
  }

  /** Every registered slot is in the tree of its byte. */
  lemma {:induction false} Listed(f: Forest, lab: seq<nat>, rank: seq<nat>, x: nat, t: Tree)
    requires Shape(f) && Wf(f, lab, rank) && Registered(f, x) && lab[x] < 256 && Holds(f, f.rson[N + 1 + lab[x]], t)
    ensures x in Inorder(t)
    decreases rank[x]
  {
    hide Inorder, Holds;
    assert NodeOk(f, lab, rank, x);
    var d := f.dad[x];
    if IsRoot(d) {
      TopListed(f, x, t);
    } else {
      Listed(f, lab, rank, d, t);
      ChildListed(f, f.rson[N + 1 + lab[x]], t, d, x);
    }
  }

  /** Registering slot r adds it to the tree of its byte, and leaves the other trees alone. */
  lemma InsertTrees(f: Forest, lab: seq<nat>, rank: seq<nat>, text: seq<byte>, r: nat, pos: int,
                    own: Tree, b: nat, t: Tree)
    requires Shape(f) && Wf(f, lab, rank) && |text| == N + F - 1 && r < N && !Registered(f, r) && b < 256
    requires Holds(f, f.rson[N + 1 + text[r]], own) && Proper(own)
    requires Holds(f, f.rson[N + 1 + b], t) && Proper(t) && (b == text[r] ==> t == own)
    ensures Forested(f) && r !in Inorder(own)
    ensures Holds(Insert(f, text, r, pos).0, Insert(f, text, r, pos).0.rson[N + 1 + b],
                  if b == text[r] then Add(text, own, r) else t)
  {
    hide Inorder, Holds, Different, Insert, Found, Path, NodeOk, ChildOk, Attach, Replaced, Add;
    var qs, pl := InsertFinds(f, lab, rank, text, r, pos);
    var g := Insert(f, text, r, pos).0;
    TreeLabels(f, lab, rank, text[r], own);
    TreeLabels(f, lab, rank, b, t);
    match pl
    case Under(p, right) =>
      AttachHolds(f, text, r, N + 1 + text[r], true, qs, p, right, own);
      if b != text[r] {
        AttachLinks(f, p, right, r);
        HoldsFrame(f, g, f.rson[N + 1 + b], t);
      }
    case Over(p) =>
      AddOver(f, text, r, N + 1 + text[r], true, qs, p, own);
      ReplacedHolds(f, g, lab, rank, f.rson[N + 1 + b], t, p, r);
      ReplacedRoot(f, g, p, r, b);
      if b != text[r] { RenameNone(t, p, r); }
  }

  lemma ReplacedRoot(f: Forest, g: Forest, p: nat, r: nat, b: nat)
    requires Shape(f) && Shape(g) && p < N && r < N && b < 256 && Replaced(f, g, p, r)
    ensures g.rson[N + 1 + b] == Renamed(f.rson[N + 1 + b], p, r)
  {
    assert IsRoot(N + 1 + b);
  }

  lemma {:induction false} HoldsUnique(f: Forest, q: nat, t: Tree, t': Tree)
    requires Shape(f) && Holds(f, q, t) && Holds(f, q, t')
    ensures t == t'
    decreases t
  {
    match t
    case Leaf =>
    case Node(l, s, r) =>
      HoldsUnique(f, f.lson[s], l, t'.left);
      HoldsUnique(f, f.rson[s], r, t'.right);
  }

  lemma TreeProper(f: Forest, text: seq<byte>, b: nat, t: Tree)
    requires Shape(f) && |text| == N + F - 1 && b < 256 && TreeOf(f, text, b, t)
    ensures Holds(f, f.rson[N + 1 + b], t) && Proper(t)
  {
  }

  /** A registered slot stays so, or the new one has its byte and its text. */
  lemma InsertMembers(f: Forest, lab: seq<nat>, rank: seq<nat>, text: seq<byte>, r: nat, pos: int, q: nat)
    requires Shape(f) && Wf(f, lab, rank) && |text| == N + F - 1 && r < N && !Registered(f, r) && InOrder(f, text)
    requires Registered(f, q) && lab[q] < 256
    ensures Forested(f) && Registered(Insert(f, text, r, pos).0, r)
    ensures Registered(Insert(f, text, r, pos).0, q) || (lab[q] == text[r] && SameTo(text, r, q, F))
  {
    hide Inorder, Holds, Searches, Proper, Insert, NodeOk, ChildOk, Add, TreeOf, SameTo;
    assert HasTree(f, text, text[r]) && HasTree(f, text, lab[q]);
    var own :| TreeOf(f, text, text[r], own);
    var t :| TreeOf(f, text, lab[q], t) && (lab[q] == text[r] ==> t == own);
    TreeProper(f, text, text[r], own);
    TreeProper(f, text, lab[q], t);
    Listed(f, lab, rank, q, t);
    InsertTrees(f, lab, rank, text, r, pos, own, text[r], own);
    InsertTrees(f, lab, rank, text, r, pos, own, lab[q], t);
    var g := Insert(f, text, r, pos).0;
    AddMembers(text, own, r) by { ProperRing(own); }
    ProperRing(own);
    HeldSlots(g, g.rson[N + 1 + text[r]], Add(text, own, r));
    if lab[q] != text[r] { HeldSlots(g, g.rson[N + 1 + lab[q]], t); }
  }

  lemma ProperRing(t: Tree)
    requires Proper(t)
    ensures InRing(Inorder(t))
  {
  }

  /** Registering a slot keeps every tree a search tree. */
  lemma InsertKeepsOrder(f: Forest, lab: seq<nat>, rank: seq<nat>, text: seq<byte>, r: nat, pos: int)
    requires Shape(f) && Wf(f, lab, rank) && |text| == N + F - 1 && r < N && !Registered(f, r) && InOrder(f, text)
    ensures Forested(f) && InOrder(Insert(f, text, r, pos).0, text)
  {
    hide Inorder, Holds, Ascending, Different, Insert, NodeOk, ChildOk, Add;
    assert HasTree(f, text, text[r]);
    var own :| TreeOf(f, text, text[r], own);
    InsertTrees(f, lab, rank, text, r, pos, own, text[r], own);
    AddSearches(text, own, r);
    var g := Insert(f, text, r, pos).0;
    forall b: nat | b < 256 ensures HasTree(g, text, b) {
      assert HasTree(f, text, b);
      var t :| TreeOf(f, text, b, t) && (b == text[r] ==> t == own);
      InsertTrees(f, lab, rank, text, r, pos, own, b, t);
      assert TreeOf(g, text, b, if b == text[r] then Add(text, own, r) else t);
    }
  }

  /** In search trees the match found is a longest one: no registered slot of the byte agrees further. */
  lemma InsertLongest(f: Forest, lab: seq<nat>, rank: seq<nat>, text: seq<byte>, r: nat, pos: int, x: nat)
    requires Shape(f) && Wf(f, lab, rank) && |text| == N + F - 1 && r < N && !Registered(f, r) && InOrder(f, text)
    requires Registered(f, x) && lab[x] == text[r]
    ensures Forested(f)
    ensures var n := Agree(text, r, x, 1); n <= THRESHOLD || n <= Insert(f, text, r, pos).1
  {
    hide Inorder, Holds, Searches, Insert, Path, NodeOk, ChildOk, Agree, Placed;
    var qs, pl := InsertFinds(f, lab, rank, text, r, pos);
    assert HasTree(f, text, text[r]);
    var t :| TreeOf(f, text, text[r], t);
    Listed(f, lab, rank, x, t);
    var k := PathCovers(f, text, r, N + 1 + text[r], true, qs, pl, t, x);
    assert NoBetter(text, r, qs[k], Insert(f, text, r, pos).1, Insert(f, text, r, pos).2);
  }

  // Deleting.

  lemma {:induction false} MinusSearches(text: seq<byte>, s: seq<nat>, p: nat)
    requires |text| == N + F - 1 && InRing(s) && Ascending(text, s) && Different(s)
    ensures var u := Minus(s, p); InRing(u) && Ascending(text, u) && Different(u)
    decreases |s|
  {
    hide Before;
    if s == [] {
    } else {
      var n := |s| - 1;
      MinusSearches(text, s[..n], p);
      MinusMembers(s[..n], p);
      var u := Minus(s[..n], p);
      forall x | x in u ensures x != s[n] && x < N && !Before(text, s[n], x) {
        var i :| 0 <= i < n && s[i] == x;
      }
    }
  }

  /** The last slot of a tree is where following right children ends. */
  lemma {:induction false} LastSlot(f: Forest, q: nat, t: Tree, fuel: nat)
    requires Shape(f) && Forested(f) && Registered(f, q) && Holds(f, q, t) && f.rson[Rightmost(f, q, fuel)] == NIL
    ensures var s := Inorder(t); s != [] && s[|s| - 1] == Rightmost(f, q, fuel)
    decreases t
  {
    hide Forested;
    Children(f, q);
    if f.rson[q] == NIL {
      assert t.right.Leaf?;
    } else {
      LastSlot(f, f.rson[q], t.right, fuel - 1);
    }
  }

  /** In the order of the tree the slot moved into the place of p stands right before p. */
  lemma {:induction false} Neighbours(f: Forest, q: nat, t: Tree, p: nat) returns (u: seq<nat>, v: seq<nat>)
    requires Shape(f) && Forested(f) && Holds(f, q, t) && p in Inorder(t) && p < N && Registered(f, f.lson[p])
    requires f.rson[Rightmost(f, f.lson[p], N)] == NIL
    ensures Inorder(t) == u + [Rightmost(f, f.lson[p], N), p] + v
    decreases t
  {
    hide Forested, Rightmost;
    var l, s, r := t.left, t.slot, t.right;
    InorderNode(l, s, r);
    if s == p {
      LastSlot(f, f.lson[p], l, N);
      var n := |Inorder(l)| - 1;
      u, v := Inorder(l)[..n], Inorder(r);
    } else if p in Inorder(l) {
      var a, b := Neighbours(f, f.lson[s], l, p);
      u, v := a, b + [s] + Inorder(r);
    } else {
      var a, b := Neighbours(f, f.rson[s], r, p);
      u, v := Inorder(l) + [s] + a, b;
    }
  }

  lemma MovedSlots(s: seq<nat>, u: seq<nat>, q: nat, p: nat, v: seq<nat>)
    requires s == u + [q, p] + v && Different(s)
    ensures Renames(Minus(s, q), p, q) == Minus(s, p)
  {
    hide Minus;
    var n := |u|;
    assert s[n] == q && s[n + 1] == p;
    assert forall i :: 0 <= i < n ==> s[i] == u[i];
    assert forall i :: 0 <= i < |v| ==> s[n + 2 + i] == v[i];
    assert p !in u && q !in u && p !in v && q !in v && p != q;
    MinusAround(u, q, [p] + v, q);
    MinusConcat([p], v, q);
    MinusOne(p, q);
    MinusAround(u + [q], p, v, p);
    MinusConcat(u, [q], p);
    MinusOne(q, p);
    MinusNone(u, q);
    MinusNone(v, q);
    MinusNone(u, p);
    MinusNone(v, p);
    assert s == u + [q] + ([p] + v) && s == u + [q] + [p] + v;
  }

  lemma SplicedTree(f: Forest, lab: seq<nat>, rank: seq<nat>, p: nat, c: nat, b: nat, t: Tree)
    requires Shape(f) && Wf(f, lab, rank) && Registered(f, p) && OnlyChild(f, p, c) && b < 256
    requires Holds(f, f.rson[N + 1 + b], t)
    ensures c <= N && f.dad[p] < N + 257 && (f.dad[p] > N ==> f.rson[f.dad[p]] == p)
    ensures var g := Splice(f, p, c);
            Holds(g, g.rson[N + 1 + b], Cut(t, p)) && Inorder(Cut(t, p)) == Minus(Inorder(t), p)
  {
    hide Inorder, Holds, NodeOk, ChildOk, Cut, Minus, Splice;
    SpliceAt(f, lab, rank, p, c);
    var g := Splice(f, p, c);
    SplicedHolds(f, g, lab, rank, f.rson[N + 1 + b], t, p, c);
    CutInorder(f, f.rson[N + 1 + b], t, p, c);
    assert IsRoot(N + 1 + b);
  }

  lemma MovedTree(f: Forest, g: Forest, lab: seq<nat>, rank: seq<nat>, p: nat, q: nat, b: nat, t: Tree)
    returns (t': Tree)
    requires Shape(f) && Shape(g) && Wf(f, lab, rank) && Registered(f, p) && Registered(f, q) && p != q
    requires Moved(f, g, p, q) && b < 256 && Holds(f, f.rson[N + 1 + b], t)
    ensures Holds(g, g.rson[N + 1 + b], t') && Inorder(t') == Renames(Minus(Inorder(t), q), p, q)
  {
    hide Inorder, Holds, NodeOk, ChildOk, Cut, Minus, Splice, Replace, Wf, Rename, Renames;
    var c := f.lson[q];
    SpliceKeeps(f, lab, rank, q, c);
    SplicedTree(f, lab, rank, q, c, b, t);
    var h := Splice(f, q, c);
    ReplaceAt(h, lab, rank, p, q);
    var x := Replace(h, p, q);
    ReplacedHolds(h, x, lab, rank, h.rson[N + 1 + b], Cut(t, q), p, q);
    ReplacedRoot(h, x, p, q, b);
    t' := Rename(Cut(t, q), p, q);
    RenameInorder(Cut(t, q), p, q);
    HeldSlots(x, x.rson[N + 1 + b], t');
    assert IsRoot(N + 1 + b);
    HoldsFrame(x, g, x.rson[N + 1 + b], t');
  }

  lemma RenamesNone(s: seq<nat>, p: nat, r: nat)
    requires p !in s
    ensures Renames(s, p, r) == s
  {
  }

  /** Deleting slot p takes it out of its tree and leaves everything else in place. */
  lemma DeleteTrees(f: Forest, lab: seq<nat>, rank: seq<nat>, text: seq<byte>, p: nat, b: nat, t: Tree)
    returns (t': Tree)
    requires Shape(f) && Wf(f, lab, rank) && |text| == N + F - 1 && p < N && b < 256 && TreeOf(f, text, b, t)
    ensures Forested(f) && Inorder(t') == Minus(Inorder(t), p)
    ensures Holds(Delete(f, p), Delete(f, p).rson[N + 1 + b], t')
  {
    hide Inorder, Holds, NodeOk, ChildOk, Minus, Splice, Moved, Rightmost;
    TreeLabels(f, lab, rank, b, t);
    if f.dad[p] == NIL {
      t' := t;
      MinusNone(Inorder(t), p);
    } else if f.rson[p] == NIL {
      SplicedTree(f, lab, rank, p, f.lson[p], b, t);
      t' := Cut(t, p);
    } else if f.lson[p] == NIL {
      SplicedTree(f, lab, rank, p, f.rson[p], b, t);
      t' := Cut(t, p);
    } else {
      t' := DeleteInner(f, lab, rank, text, p, b, t);
    }
  }

  lemma DeleteInner(f: Forest, lab: seq<nat>, rank: seq<nat>, text: seq<byte>, p: nat, b: nat, t: Tree)
    returns (t': Tree)
    requires Shape(f) && Wf(f, lab, rank) && |text| == N + F - 1 && b < 256 && TreeOf(f, text, b, t)
    requires Registered(f, p) && f.lson[p] != NIL && f.rson[p] != NIL
    ensures Forested(f) && Inorder(t') == Minus(Inorder(t), p)
    ensures Holds(Delete(f, p), Delete(f, p).rson[N + 1 + b], t')
  {
    hide Inorder, Holds, NodeOk, ChildOk, Minus, Splice, Moved, Rightmost, Delete, Renames;
    TreeLabels(f, lab, rank, b, t);
    DeleteMoves(f, lab, rank, p);
    AboveBound(rank, rank[f.lson[p]]);
    RightmostEnds(f, lab, rank, f.lson[p], N);
    ChildFacts(f, lab, rank, p, false);
    var q := Rightmost(f, f.lson[p], N);
    t' := MovedTree(f, Delete(f, p), lab, rank, p, q, b, t);
    if p in Inorder(t) {
      var u, v := Neighbours(f, f.rson[N + 1 + b], t, p);
      MovedSlots(Inorder(t), u, q, p, v);
    } else {
      OtherTree(f, lab, rank, p, q, b, t);
      MinusNone(Inorder(t), p);
      MinusNone(Inorder(t), q);
      RenamesNone(Inorder(t), p, q);
    }
  }

  lemma OtherTree(f: Forest, lab: seq<nat>, rank: seq<nat>, p: nat, q: nat, b: nat, t: Tree)
    requires Shape(f) && Wf(f, lab, rank) && b < 256 && Holds(f, f.rson[N + 1 + b], t)
    requires Registered(f, p) && Registered(f, q) && lab[q] == lab[p] && p !in Inorder(t)
    ensures q !in Inorder(t)
  {
    hide Inorder, Holds, NodeOk, ChildOk;
    TreeLabels(f, lab, rank, b, t);
    if lab[p] == b { Listed(f, lab, rank, p, t); }
  }

  /** Deleting a slot keeps every tree a search tree. */
  lemma DeleteKeepsOrder(f: Forest, lab: seq<nat>, rank: seq<nat>, text: seq<byte>, p: nat)
    requires Shape(f) && Wf(f, lab, rank) && |text| == N + F - 1 && p < N && InOrder(f, text)
    ensures Forested(f) && InOrder(Delete(f, p), text)
  {
    hide Inorder, Holds, NodeOk, ChildOk, Minus, Delete;
    forall b: nat | b < 256 ensures Forested(f) && HasTree(Delete(f, p), text, b) {
      assert HasTree(f, text, b);
      var t :| TreeOf(f, text, b, t);
      var t' := DeleteTrees(f, lab, rank, text, p, b, t);
      MinusSearches(text, Inorder(t), p);
      assert TreeOf(Delete(f, p), text, b, t');
    }
  }
}
