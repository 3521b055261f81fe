/**
 The trees of the forest as values: what the links hold, in which order the texts stand in
 them, and what registering and deleting a slot make of them.
 */
module SearchTree {
  import opened Bits
  import opened MatchForest
  import opened MatchFinder

  // The order of the texts.

  /** The text at a comes before the text at b: at the first difference its byte is the smaller one. */
  ghost predicate Before(text: seq<byte>, a: nat, b: nat)
    requires |text| == N + F - 1 && a < N && b < N
  {
    !NotBefore(text, a, b)
  }

  lemma BeforeAt(text: seq<byte>, a: nat, b: nat)
    requires |text| == N + F - 1 && a < N && b < N
    ensures var i := Agree(text, a, b, 1); Before(text, a, b) <==> i < F && text[a + i] < text[b + i]
  {
    hide Agree, NotBefore, SameTo;
    AgreeOrders(text, a, b);
  }

  lemma AgreeIs(text: seq<byte>, a: nat, b: nat, n: nat)
    requires |text| == N + F - 1 && a < N && b < N && 1 <= n <= F
    requires SameTo(text, a, b, n) && (n < F ==> text[a + n] != text[b + n])
    ensures Agree(text, a, b, 1) == n
  {
    hide Agree;
    var i := Agree(text, a, b, 1);
    assert i < n ==> SameAt(text, a, b, i);
    assert n < i ==> SameAt(text, a, b, n);
  }

  lemma AgreeSwap(text: seq<byte>, a: nat, b: nat)
    requires |text| == N + F - 1 && a < N && b < N
    ensures Agree(text, a, b, 1) == Agree(text, b, a, 1)
  {
    hide Agree;
    var i := Agree(text, b, a, 1);
    forall j: nat | 1 <= j < i ensures SameAt(text, a, b, j) { assert SameAt(text, b, a, j); }
    AgreeIs(text, a, b, i);
  }

  /** The further apart in the order, the less two texts agree. */
  lemma Between(text: seq<byte>, a: nat, b: nat, c: nat)
    requires |text| == N + F - 1 && a < N && b < N && c < N && !Before(text, b, a) && !Before(text, c, b)
    ensures !Before(text, c, a)
    ensures Agree(text, a, c, 1) <= Agree(text, a, b, 1) && Agree(text, a, c, 1) <= Agree(text, b, c, 1)
  {
    hide Agree, Before;
    BeforeAt(text, b, a);
    BeforeAt(text, c, b);
    BeforeAt(text, c, a);
    AgreeSwap(text, a, b);
    AgreeSwap(text, b, c);
    AgreeSwap(text, a, c);
    var i, k := Agree(text, a, b, 1), Agree(text, b, c, 1);
    var m := if i < k then i else k;
    forall j: nat | 1 <= j < m ensures SameAt(text, a, c, j) {
      assert SameAt(text, a, b, j) && SameAt(text, b, c, j);
    }
    assert m < i ==> SameAt(text, a, b, m);
    assert m < k ==> SameAt(text, b, c, m);
    AgreeIs(text, a, c, m);
  }

  ghost predicate InRing(s: seq<nat>) {
    forall k :: 0 <= k < |s| ==> s[k] < N
  }

  /** No text stands behind one that comes before it. */
  ghost predicate Ascending(text: seq<byte>, s: seq<nat>)
    requires |text| == N + F - 1 && InRing(s)
  {
    forall i, j :: 0 <= i < j < |s| ==> !Before(text, s[j], s[i])
  }

  ghost predicate Different(s: seq<nat>) {
    forall i, j :: 0 <= i < j < |s| ==> s[i] != s[j]
  }

  // Trees.

  datatype Tree = Leaf | Node(left: Tree, slot: nat, right: Tree)

  /** The slots from left to right. */
  function Inorder(t: Tree): (s: seq<nat>) {
    match t case Leaf => [] case Node(l, q, r) => Inorder(l) + [q] + Inorder(r)
  }

  /** The links from q on hold the tree t. */
  ghost predicate Holds(f: Forest, q: nat, t: Tree)
    requires Shape(f)
    decreases t
  {
    match t
    case Leaf => q == NIL
    case Node(l, s, r) => q == s && Registered(f, s) && Holds(f, f.lson[s], l) && Holds(f, f.rson[s], r)
  }

  /** No slot is in the tree twice. */
  ghost predicate Proper(t: Tree) {
    InRing(Inorder(t)) && Different(Inorder(t))
  }

  /** A search tree: its texts ascend from left to right. */
  ghost predicate Searches(text: seq<byte>, t: Tree)
    requires |text| == N + F - 1
  {
    Proper(t) && Ascending(text, Inorder(t))
  }

  lemma InorderNode(l: Tree, q: nat, r: Tree)
    ensures var s := Inorder(Node(l, q, r));
            && s == Inorder(l) + [q] + Inorder(r)
            && forall x :: x in s <==> x in Inorder(l) || x == q || x in Inorder(r)
  {
  }

  lemma {:induction false} HeldSlots(f: Forest, q: nat, t: Tree)
    requires Shape(f) && Holds(f, q, t)
    ensures forall x :: x in Inorder(t) ==> Registered(f, x)
    decreases t
  {
    match t
    case Leaf =>
    case Node(l, s, r) =>
      HeldSlots(f, f.lson[s], l);
      HeldSlots(f, f.rson[s], r);
  }

  /** Reading a list by its parts. */
  lemma Parts(a: seq<nat>, q: nat, b: seq<nat>, s: seq<nat>)
    requires s == a + [q] + b
    ensures |s| == |a| + 1 + |b| && s[|a|] == q
    ensures forall i :: 0 <= i < |a| ==> s[i] == a[i]
    ensures forall i :: 0 <= i < |b| ==> s[|a| + 1 + i] == b[i]
  {
  }

  lemma DifferentParts(a: seq<nat>, q: nat, b: seq<nat>, s: seq<nat>)
    requires s == a + [q] + b && Different(s)
    ensures Different(a) && Different(b) && q !in a && q !in b && forall x :: x in a ==> x !in b
  {
    Parts(a, q, b, s);
    var n := |a|;
    forall i, j | 0 <= i < j < |b| ensures b[i] != b[j] { assert s[n + 1 + i] != s[n + 1 + j]; }
    forall x | x in b ensures x != q && x !in a {
      var j :| 0 <= j < |b| && b[j] == x;
      assert s[n + 1 + j] == x;
    }
  }

  lemma ProperSplits(l: Tree, q: nat, r: Tree)
    requires Proper(Node(l, q, r))
    ensures q < N && Proper(l) && Proper(r) && q !in Inorder(l) && q !in Inorder(r)
    ensures forall x :: x in Inorder(l) ==> x < N && x !in Inorder(r)
    ensures forall x :: x in Inorder(r) ==> x < N
  {
    hide Inorder, Different;
    InorderNode(l, q, r);
    DifferentParts(Inorder(l), q, Inorder(r), Inorder(Node(l, q, r)));
    Parts(Inorder(l), q, Inorder(r), Inorder(Node(l, q, r)));
    RingSplits(Inorder(l), q, Inorder(r));
  }

  lemma RingSplits(a: seq<nat>, q: nat, b: seq<nat>)
    requires InRing(a + [q] + b)
    ensures InRing(a) && q < N && InRing(b)
  {
    Parts(a, q, b, a + [q] + b);
  }

  lemma AscendingParts(text: seq<byte>, a: seq<nat>, q: nat, b: seq<nat>, s: seq<nat>)
    requires |text| == N + F - 1 && s == a + [q] + b && InRing(s) && Ascending(text, s)
    ensures InRing(a) && q < N && InRing(b) && Ascending(text, a) && Ascending(text, b)
    ensures forall x :: x in a ==> !Before(text, q, x)
    ensures forall x :: x in b ==> !Before(text, x, q)
  {
    hide Before;
    Parts(a, q, b, s);
    RingSplits(a, q, b);
    var n := |a|;
    forall i, j | 0 <= i < j < |b| ensures !Before(text, b[j], b[i]) {
      assert !Before(text, s[n + 1 + j], s[n + 1 + i]);
    }
    forall x | x in b ensures !Before(text, x, q) {
      var j :| 0 <= j < |b| && b[j] == x;
      assert s[n + 1 + j] == x;
    }
  }

  /** A search tree splits into two, with the slot at the top between them. */
  lemma SearchesSplits(text: seq<byte>, l: Tree, q: nat, r: Tree)
    requires |text| == N + F - 1 && Searches(text, Node(l, q, r))
    ensures q < N && Searches(text, l) && Searches(text, r) && q !in Inorder(l) && q !in Inorder(r)
    ensures forall x :: x in Inorder(l) ==> x < N && !Before(text, q, x) && x !in Inorder(r)
    ensures forall x :: x in Inorder(r) ==> x < N && !Before(text, x, q)
  {
    hide Before, Inorder, Different, Ascending;
    ProperSplits(l, q, r);
    InorderNode(l, q, r);
    AscendingParts(text, Inorder(l), q, Inorder(r), Inorder(Node(l, q, r)));
  }

  lemma ProperJoins(l: Tree, q: nat, r: Tree)
    requires q < N && Proper(l) && Proper(r) && q !in Inorder(l) && q !in Inorder(r)
    requires forall x :: x in Inorder(l) ==> x !in Inorder(r)
    ensures Proper(Node(l, q, r))
  {
    hide Inorder;
    InorderNode(l, q, r);
    var s, a, b := Inorder(Node(l, q, r)), Inorder(l), Inorder(r);
    var n := |a|;
    forall i, j | 0 <= i < j < |s| ensures s[i] != s[j] {
      if j < n {
        assert s[i] == a[i] && s[j] == a[j];
      } else if i > n {
        assert s[i] == b[i - n - 1] && s[j] == b[j - n - 1];
      } else {
        assert i < n ==> s[i] in a;
        assert j > n ==> s[j] in b;
      }
    }
  }

  /** Two search trees join around a slot between them. */
  lemma SearchesJoins(text: seq<byte>, l: Tree, q: nat, r: Tree)
    requires |text| == N + F - 1 && q < N && Searches(text, l) && Searches(text, r)
    requires q !in Inorder(l) && q !in Inorder(r)
    requires forall x :: x in Inorder(l) ==> x < N && !Before(text, q, x) && x !in Inorder(r)
    requires forall x :: x in Inorder(r) ==> x < N && !Before(text, x, q)
    ensures Searches(text, Node(l, q, r))
  {
    hide Before, Inorder;
    ProperJoins(l, q, r);
    InorderNode(l, q, r);
    var s, a, b := Inorder(Node(l, q, r)), Inorder(l), Inorder(r);
    var n := |a|;
    forall i, j | 0 <= i < j < |s| ensures !Before(text, s[j], s[i]) {
      if j < n {
        assert s[i] == a[i] && s[j] == a[j];
      } else if i > n {
        assert s[i] == b[i - n - 1] && s[j] == b[j - n - 1];
      } else {
        assert i < n ==> s[i] in a;
        assert j > n ==> s[j] in b;
        if i < n < j { Between(text, s[i], q, s[j]); }
      }
    }
  }

  lemma RingParts(a: Tree, q: nat, b: Tree)
    requires InRing(Inorder(Node(a, q, b)))
    ensures InRing(Inorder(a)) && q < N && InRing(Inorder(b))
  {
    hide Inorder;
    InorderNode(a, q, b);
    RingSplits(Inorder(a), q, Inorder(b));
  }

  /** Registering slot r in the tree of its byte: it takes the place of a slot with its text, if it meets one. */
  ghost function Add(text: seq<byte>, t: Tree, r: nat): (u: Tree)
    requires |text| == N + F - 1 && r < N && InRing(Inorder(t))
    decreases t
  {
    match t
    case Leaf => Node(Leaf, r, Leaf)
    case Node(a, q, b) =>
      InorderNode(a, q, b);
      RingParts(a, q, b);
      if SameTo(text, r, q, F) then Node(a, r, b)
      else if NotBefore(text, r, q) then Node(a, q, Add(text, b, r))
      else Node(Add(text, a, r), q, b)
  }

  /** A slot more in the order from left to right, or one slot replaced by one with the same text. */
  lemma {:induction false} AddInorder(text: seq<byte>, t: Tree, r: nat)
    returns (u: seq<nat>, was: seq<nat>, v: seq<nat>)
    requires |text| == N + F - 1 && r < N && InRing(Inorder(t))
    ensures Inorder(t) == u + was + v && Inorder(Add(text, t, r)) == u + [r] + v
    ensures was == [] || (|was| == 1 && was[0] < N && SameTo(text, r, was[0], F))
    decreases t
  {
    hide SameTo, NotBefore, Inorder;
    InorderLeaf();
    match t
    case Leaf =>
      u, was, v := [], [], [];
      InorderNode(Leaf, r, Leaf);
    case Node(a, q, b) =>
      RingParts(a, q, b);
      InorderNode(a, q, b);
      if SameTo(text, r, q, F) {
        u, was, v := Inorder(a), [q], Inorder(b);
        InorderNode(a, r, b);
      } else if NotBefore(text, r, q) {
        var c, d, e := AddInorder(text, b, r);
        u, was, v := Inorder(a) + [q] + c, d, e;
        InorderNode(a, q, Add(text, b, r));
        Regrouped(Inorder(a) + [q], c, d, e, []);
        Regrouped(Inorder(a) + [q], c, [r], e, []);
      } else {
        var c, d, e := AddInorder(text, a, r);
        u, was, v := c, d, e + ([q] + Inorder(b));
        InorderNode(Add(text, a, r), q, b);
        Regrouped([], c, d, e, [q] + Inorder(b));
        Regrouped([], c, [r], e, [q] + Inorder(b));
      }
  }

  lemma Regrouped(a: seq<nat>, b: seq<nat>, c: seq<nat>, d: seq<nat>, e: seq<nat>)
    ensures a + (b + c + d) + e == (a + b) + c + (d + e)
    ensures a + [] == a && [] + a == a && (b + c + d) + e == b + c + (d + e)
  {
  }

  lemma AddMembers(text: seq<byte>, t: Tree, r: nat)
    requires |text| == N + F - 1 && r < N && InRing(Inorder(t))
    ensures r in Inorder(Add(text, t, r))
    ensures forall x :: x in Inorder(Add(text, t, r)) ==> x == r || x in Inorder(t)
    ensures forall x :: x in Inorder(t) ==> x in Inorder(Add(text, t, r)) || (x < N && SameTo(text, r, x, F))
  {
    hide Add, Inorder, SameTo;
    var u, was, v := AddInorder(text, t, r);
  }

  lemma BeforeOneWay(text: seq<byte>, a: nat, b: nat)
    requires |text| == N + F - 1 && a < N && b < N
    ensures !(Before(text, a, b) && Before(text, b, a))
    ensures SameTo(text, a, b, F) ==> !Before(text, a, b) && !Before(text, b, a)
  {
    hide Agree, Before, SameTo;
    BeforeAt(text, a, b);
    BeforeAt(text, b, a);
    AgreeSwap(text, a, b);
    AgreeOrders(text, a, b);
  }

  lemma {:induction false} AddProper(text: seq<byte>, t: Tree, r: nat)
    requires |text| == N + F - 1 && r < N && Proper(t) && r !in Inorder(t)
    ensures Proper(Add(text, t, r))
    decreases t
  {
    hide SameTo, NotBefore, Different;
    match t
    case Leaf =>
      SearchesOne(text, r);
    case Node(a, q, b) =>
      hide Inorder;
      InorderNode(a, q, b);
      ProperSplits(a, q, b);
      if SameTo(text, r, q, F) {
        ProperJoins(a, r, b);
      } else if NotBefore(text, r, q) {
        AddProper(text, b, r);
        AddMembers(text, b, r);
        ProperJoins(a, q, Add(text, b, r));
      } else {
        AddProper(text, a, r);
        AddMembers(text, a, r);
        ProperJoins(Add(text, a, r), q, b);
      }
  }

  /** Registering a slot keeps the search tree. */
  lemma {:induction false} AddSearches(text: seq<byte>, t: Tree, r: nat)
    requires |text| == N + F - 1 && r < N && Searches(text, t) && r !in Inorder(t)
    ensures Searches(text, Add(text, t, r))
    decreases t
  {
    hide SameTo, Searches;
    match t
    case Leaf =>
      SearchesOne(text, r);
    case Node(a, q, b) =>
      hide Inorder;
      InorderNode(a, q, b);
      SearchesSplits(text, a, q, b);
      BeforeOneWay(text, r, q);
      SearchesRing(text, t);
      SearchesRing(text, a);
      SearchesRing(text, b);
      if SameTo(text, r, q, F) {
        forall x | x in Inorder(a) ensures !Before(text, r, x) { Between(text, x, q, r); }
        forall x | x in Inorder(b) ensures !Before(text, x, r) { Between(text, r, q, x); }
        SearchesJoins(text, a, r, b);
      } else if NotBefore(text, r, q) {
        AddSearches(text, b, r);
        AddMembers(text, b, r);
        SearchesJoins(text, a, q, Add(text, b, r));
      } else {
        AddSearches(text, a, r);
        AddMembers(text, a, r);
        SearchesJoins(text, Add(text, a, r), q, b);
      }
  }

  lemma SearchesRing(text: seq<byte>, t: Tree)
    requires |text| == N + F - 1 && Searches(text, t)
    ensures InRing(Inorder(t))
  {
  }

  lemma SearchesOne(text: seq<byte>, r: nat)
    requires |text| == N + F - 1 && r < N
    ensures Searches(text, Leaf) && Searches(text, Node(Leaf, r, Leaf))
  {
    assert Inorder(Node(Leaf, r, Leaf)) == [r];
  }

  /** Whatever slot of the tree, a node on the path agrees with r at least as far. */
  lemma {:induction false} PathCovers(f: Forest, text: seq<byte>, r: nat, p: nat, right: bool, qs: seq<nat>, pl: Place,
                                      t: Tree, x: nat) returns (k: nat)
    requires Shape(f) && |text| == N + F - 1 && r < N && (if right then p < N + 257 else p <= N)
    requires Path(f, text, r, p, right, qs, pl) && Holds(f, Child(f, p, right), t)
    requires Searches(text, t) && x in Inorder(t)
    ensures k < |qs| && qs[k] < N && x < N && Agree(text, r, x, 1) <= Agree(text, r, qs[k], 1)
    decreases t
  {
    hide Agree, SameTo, Searches, Inorder;
    InorderLeaf();
    var q := t.slot;
    InorderNode(t.left, q, t.right);
    SearchesSplits(text, t.left, q, t.right);
    BeforeOneWay(text, r, q);
    AgreeOrders(text, r, q);
    AgreeSwap(text, r, q);
    AgreeSwap(text, r, x);
    if SameTo(text, r, q, F) || x == q {
      k := 0;
    } else if NotBefore(text, r, q) {
      if x in Inorder(t.left) {
        k := 0;
        Between(text, x, q, r);
      } else {
        var m := PathCovers(f, text, r, q, true, qs[1..], pl, t.right, x);
        k := m + 1;
      }
    } else {
      if x in Inorder(t.right) {
        k := 0;
        Between(text, r, q, x);
      } else {
        var m := PathCovers(f, text, r, q, false, qs[1..], pl, t.left, x);
        k := m + 1;
      }
    }
  }

  lemma InorderLeaf()
    ensures Inorder(Leaf) == []
  {
  }

  // Links.

  lemma {:induction false} HoldsFrame(f: Forest, g: Forest, q: nat, t: Tree)
    requires Shape(f) && Shape(g) && Holds(f, q, t)
    requires forall x: nat :: x in Inorder(t) && x < N ==>
               Registered(g, x) && g.lson[x] == f.lson[x] && g.rson[x] == f.rson[x]
    ensures Holds(g, q, t)
    decreases t
  {
    match t
    case Leaf =>
    case Node(l, s, r) =>
      InorderNode(l, s, r);
      HoldsFrame(f, g, f.lson[s], l);
      HoldsFrame(f, g, f.rson[s], r);
  }

  /** A slot hung at the end of its path is added to the tree. */
  lemma {:induction false} AttachHolds(f: Forest, text: seq<byte>, r: nat, p0: nat, right0: bool, qs: seq<nat>,
                                       p: nat, right: bool, t: Tree)
    requires Shape(f) && |text| == N + F - 1 && r < N && !Registered(f, r) && p0 != r && p0 != NIL && p0 !in Inorder(t)
    requires (if right0 then p0 < N + 257 else p0 <= N) && (if right then p < N + 257 else p <= N)
    requires Path(f, text, r, p0, right0, qs, Under(p, right))
    requires Holds(f, Child(f, p0, right0), t) && Proper(t)
    ensures (p == p0 && right == right0) || p in Inorder(t)
    ensures var g := Attach(f, p, right, r); Holds(g, Child(g, p0, right0), Add(text, t, r))
    decreases t
  {
    hide SameTo, NotBefore, Inorder, Attach, Different;
    InorderLeaf();
    var g := Attach(f, p, right, r);
    match t
    case Leaf =>
      AttachLinks(f, p, right, r);
    case Node(a, q, b) =>
      InorderNode(a, q, b);
      ProperSplits(a, q, b);
      HeldSlots(f, q, t);
      if NotBefore(text, r, q) {
        AttachHolds(f, text, r, q, true, qs[1..], p, right, b);
        AttachLinks(f, p, right, r);
        HoldsFrame(f, g, f.lson[q], a);
      } else {
        AttachHolds(f, text, r, q, false, qs[1..], p, right, a);
        AttachLinks(f, p, right, r);
        HoldsFrame(f, g, f.rson[q], b);
      }
  }

  /** Hanging r under p sets one link of p and the links of r. */
  lemma AttachLinks(f: Forest, p: nat, right: bool, r: nat)
    requires Shape(f) && r < N && p != NIL && p != r && (if right then p < N + 257 else p < N)
    ensures var g := Attach(f, p, right, r);
            && Registered(g, r) && g.lson[r] == NIL && g.rson[r] == NIL && Child(g, p, right) == r
            && (forall x: nat {:trigger Registered(g, x)} ::
                  x < N && x != r ==> (Registered(g, x) <==> Registered(f, x)))
            && (forall x: nat {:trigger g.lson[x]} :: x < N && x != r && (x != p || right) ==> g.lson[x] == f.lson[x])
            && (forall x: nat {:trigger g.rson[x]} ::
                  x < N + 257 && x != r && (x != p || !right) ==> g.rson[x] == f.rson[x])
  {
  }
}
