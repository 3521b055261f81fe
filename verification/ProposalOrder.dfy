/**
 The order of proposals: by size and MID, then stably by precedence.
 */
module ProposalOrder {
  import opened Mailbox

  predicate Contains(s: string, t: string) {
    t <= s || (s != [] && Contains(s[1..], t))
  }

  /** Flash, immediate, priority, routine. */
  function Precedence(title: string): (p: nat)
    ensures p <= 3
  {
    if Contains(title, "//WL2K Z/") then 0
    else if Contains(title, "//WL2K O/") then 1
    else if Contains(title, "//WL2K P/") then 2
    else 3
  }

  /** String order. */
  predicate Less(a: string, b: string) {
    b != [] && (a == [] || a[0] < b[0] || (a[0] == b[0] && Less(a[1..], b[1..])))
  }

  predicate SizeLess(a: Msg, b: Msg) {
    if a.size != b.size then a.size < b.size else Less(a.mid, b.mid)
  }

  predicate PrecLess(a: Msg, b: Msg) {
    Precedence(a.title) < Precedence(b.title)
  }

  predicate KeyLess(a: Msg, b: Msg) {
    PrecLess(a, b) || (Precedence(a.title) == Precedence(b.title) && SizeLess(a, b))
  }

  /** A title carries the tag of a precedence. */
  ghost predicate Tagged(title: string, letter: char) {
    exists pre: string, post: string :: title == pre + ("//WL2K " + [letter, '/']) + post
  }

  lemma {:induction false} ContainsMeans(s: string, t: string)
    ensures Contains(s, t) <==> exists pre: string, post: string :: s == pre + t + post
    decreases |s|
  {
    if t <= s {
      assert s == [] + t + s[|t|..];
    } else if s == [] {
    } else {
      ContainsMeans(s[1..], t);
      if pre: string, post: string :| s[1..] == pre + t + post {
        assert s == [s[0]] + pre + t + post;
      }
      if pre: string, post: string :| s == pre + t + post {
        assert pre == [] ==> t <= s;
        assert s[1..] == pre[1..] + t + post;
      }
    }
  }

  /** The most urgent tag in the title decides: Z, then O, then P, then none. */
  lemma PrecedenceMeans(title: string)
    ensures Precedence(title) == if Tagged(title, 'Z') then 0 else if Tagged(title, 'O') then 1
                                 else if Tagged(title, 'P') then 2 else 3
  {
    hide Contains;
    ContainsMeans(title, "//WL2K Z/");
    ContainsMeans(title, "//WL2K O/");
    ContainsMeans(title, "//WL2K P/");
    assert "//WL2K " + ['Z', '/'] == "//WL2K Z/" && "//WL2K " + ['O', '/'] == "//WL2K O/";
    assert "//WL2K " + ['P', '/'] == "//WL2K P/";
  }

  /** The texts part at n: the one of a ends, or goes on with the smaller character. */
  ghost predicate PartsAt(a: string, b: string, n: nat) {
    n <= |a| && n < |b| && a[..n] == b[..n] && (n == |a| || a[n] < b[n])
  }

  lemma PartsAtFront(a: string, b: string)
    ensures forall n: nat :: PartsAt(a, b, n) ==> b != [] && (n > 0 ==> a != [] && a[0] == b[0])
  {
    forall n: nat | PartsAt(a, b, n) && n > 0 ensures a[0] == b[0] { assert a[..n][0] == b[..n][0]; }
  }

  lemma {:induction false} LessMeans(a: string, b: string)
    ensures Less(a, b) <==> exists n: nat :: PartsAt(a, b, n)
    decreases |a|
  {
    if a == [] || b == [] || a[0] != b[0] {
      if Less(a, b) { assert PartsAt(a, b, 0); }
      PartsAtFront(a, b);
    } else {
      LessMeans(a[1..], b[1..]);
      if n: nat :| PartsAt(a[1..], b[1..], n) {
        assert a[..n + 1] == [a[0]] + a[1..][..n] && b[..n + 1] == [b[0]] + b[1..][..n];
        assert PartsAt(a, b, n + 1);
      }
      if n: nat :| PartsAt(a, b, n) {
        assert n > 0 ==> a[1..][..n - 1] == a[..n][1..] && b[1..][..n - 1] == b[..n][1..];
        assert n > 0 ==> PartsAt(a[1..], b[1..], n - 1);
      }
    }
  }

  lemma {:induction false} LessTotal(a: string, b: string)
    ensures !Less(a, a)
    ensures Less(a, b) || Less(b, a) || a == b
    ensures !(Less(a, b) && Less(b, a))
    decreases |a|
  {
    if a == [] {
    } else {
      LessTotal(a[1..], a[1..]);
    }
    if a != [] && b != [] && a[0] == b[0] {
      LessTotal(a[1..], b[1..]);
      assert a == [a[0]] + a[1..] && b == [b[0]] + b[1..];
    }
  }

  lemma {:induction false} LessTrans(a: string, b: string, c: string)
    requires Less(a, b) && Less(b, c)
    ensures Less(a, c)
    decreases |a|
  {
    if a != [] && a[0] == b[0] && b[0] == c[0] {
      LessTrans(a[1..], b[1..], c[1..]);
    }
  }

  lemma KeyTotal(a: Msg, b: Msg)
    ensures KeyLess(a, b) || KeyLess(b, a) || a.mid == b.mid
    ensures !(KeyLess(a, b) && KeyLess(b, a))
  {
    LessTotal(a.mid, b.mid);
  }

  lemma KeyTrans(a: Msg, b: Msg, c: Msg)
    requires KeyLess(a, b) && KeyLess(b, c)
    ensures KeyLess(a, c)
  {
    if a.size == b.size && b.size == c.size && Less(a.mid, b.mid) && Less(b.mid, c.mid) {
      LessTrans(a.mid, b.mid, c.mid);
    }
  }

  /** What a sort by size delivers. */
  ghost predicate SortedBySize(ms: seq<Msg>) {
    forall i, j :: 0 <= i < j < |ms| ==> !SizeLess(ms[j], ms[i])
  }

  function OfPrecedence(ms: seq<Msg>, p: nat): (r: seq<Msg>) {
    if ms == [] then []
    else
      var m := ms[|ms| - 1];
      OfPrecedence(ms[..|ms| - 1], p) + if Precedence(m.title) == p then [m] else []
  }

  /** What a stable sort by precedence delivers. */
  ghost predicate StablySorted(ms: seq<Msg>, out: seq<Msg>) {
    && (forall i, j :: 0 <= i < j < |out| ==> !PrecLess(out[j], out[i]))
    && (forall p :: OfPrecedence(out, p) == OfPrecedence(ms, p))
  }

  ghost predicate KeySorted(ms: seq<Msg>) {
    forall i, j :: 0 <= i < j < |ms| ==> KeyLess(ms[i], ms[j])
  }

  /** Insert into a sorted list. */
  function Insert(ms: seq<Msg>, m: Msg): (r: seq<Msg>)
    ensures multiset(r) == multiset(ms) + multiset{m}
  {
    if ms == [] || KeyLess(ms[|ms| - 1], m) then ms + [m]
    else
      assert ms == ms[..|ms| - 1] + [ms[|ms| - 1]];
      Insert(ms[..|ms| - 1], m) + [ms[|ms| - 1]]
  }

  /** The proposals in the order they are offered. */
  function Arrange(ms: seq<Msg>): (r: seq<Msg>)
    ensures multiset(r) == multiset(ms)
  {
    if ms == [] then []
    else
      assert ms == ms[..|ms| - 1] + [ms[|ms| - 1]];
      Insert(Arrange(ms[..|ms| - 1]), ms[|ms| - 1])
  }

  lemma {:induction false} InsertSorts(ms: seq<Msg>, m: Msg)
    requires KeySorted(ms) && forall x :: x in ms ==> x.mid != m.mid
    ensures KeySorted(Insert(ms, m))
    decreases |ms|
  {
    hide KeyLess;
    if ms == [] {
    } else {
      var n := |ms| - 1;
      var head, last := ms[..n], ms[n];
      KeyTotal(last, m);
      if KeyLess(last, m) {
        forall i | 0 <= i < n ensures KeyLess(ms[i], m) { KeyTrans(ms[i], last, m); }
      } else {
        InsertSorts(head, m);
        var r := Insert(head, m);
        forall x | x in r ensures KeyLess(x, last) {
          assert x in multiset(r);
          assert x in multiset(head) + multiset{m};
        }
      }
    }
  }

  lemma {:induction false} ArrangeSorts(ms: seq<Msg>)
    requires Distinct(ms)
    ensures KeySorted(Arrange(ms))
    decreases |ms|
  {
    if ms == [] {
    } else {
      var n := |ms| - 1;
      var head := ms[..n];
      ArrangeSorts(head);
      forall x | x in Arrange(head) ensures x.mid != ms[n].mid {
        assert x in multiset(Arrange(head));
        assert x in head;
      }
      InsertSorts(Arrange(head), ms[n]);
    }
  }

  lemma {:induction false} CountOnce(ms: seq<Msg>, x: Msg)
    requires Distinct(ms)
    ensures multiset(ms)[x] <= 1
    decreases |ms|
  {
    if ms == [] {
    } else {
      var n := |ms| - 1;
      CountOnce(ms[..n], x);
      assert ms == ms[..n] + [ms[n]];
      if ms[n] == x {
        assert x !in ms[..n];
      }
    }
  }

  lemma {:induction false} CountPair(ms: seq<Msg>, i: nat, j: nat)
    requires i < j < |ms| && ms[i] == ms[j]
    ensures multiset(ms)[ms[i]] >= 2
  {
    assert ms == ms[..j] + [ms[j]] + ms[j + 1..];
    assert ms[i] in ms[..j];
  }

  lemma PermutationDistinct(ms: seq<Msg>, out: seq<Msg>)
    requires Distinct(ms) && multiset(ms) == multiset(out)
    ensures Distinct(out)
  {
    forall i, j | 0 <= i < j < |out| ensures out[i].mid != out[j].mid {
      if out[i].mid == out[j].mid {
        assert out[i] in multiset(ms) && out[j] in multiset(ms);
        assert out[i] == out[j];
        CountPair(out, i, j);
        CountOnce(ms, out[i]);
      }
    }
  }

  lemma {:induction false} CountOf(ms: seq<Msg>, x: Msg)
    ensures multiset(OfPrecedence(ms, Precedence(x.title)))[x] == multiset(ms)[x]
    decreases |ms|
  {
    if ms == [] {
    } else {
      CountOf(ms[..|ms| - 1], x);
      assert ms == ms[..|ms| - 1] + [ms[|ms| - 1]];
    }
  }

  /** x stands before y. */
  ghost predicate Before(ms: seq<Msg>, x: Msg, y: Msg) {
    exists i, j :: 0 <= i < j < |ms| && ms[i] == x && ms[j] == y
  }

  lemma {:induction false} PrecedenceKeeps(ms: seq<Msg>, p: nat, x: Msg, y: Msg)
    requires Precedence(x.title) == p == Precedence(y.title)
    ensures x in ms ==> x in OfPrecedence(ms, p)
    ensures Before(ms, x, y) ==> Before(OfPrecedence(ms, p), x, y)
    decreases |ms|
  {
    hide Precedence;
    if ms == [] {
    } else {
      var n := |ms| - 1;
      var head, r := OfPrecedence(ms[..n], p), OfPrecedence(ms, p);
      PrecedenceKeeps(ms[..n], p, x, y);
      if Before(ms, x, y) {
        var i, j :| 0 <= i < j < |ms| && ms[i] == x && ms[j] == y;
        if j < n {
          assert ms[..n][i] == x && ms[..n][j] == y;
          var a, b :| 0 <= a < b < |head| && head[a] == x && head[b] == y;
          assert r[a] == x && r[b] == y;
        } else {
          assert ms[..n][i] == x;
          var a :| 0 <= a < |head| && head[a] == x;
          assert r[a] == x && r[|head|] == y;
        }
      }
    }
  }

  lemma {:induction false} PrecedenceReflects(ms: seq<Msg>, p: nat, x: Msg, y: Msg)
    ensures x in OfPrecedence(ms, p) ==> x in ms
    ensures Before(OfPrecedence(ms, p), x, y) ==> Before(ms, x, y)
    decreases |ms|
  {
    hide Precedence;
    if ms == [] {
    } else {
      var n := |ms| - 1;
      var head, r := OfPrecedence(ms[..n], p), OfPrecedence(ms, p);
      PrecedenceReflects(ms[..n], p, x, y);
      if Before(r, x, y) {
        var i, j :| 0 <= i < j < |r| && r[i] == x && r[j] == y;
        if j < |head| {
          assert head[i] == x && head[j] == y;
          var a, b :| 0 <= a < b < n && ms[..n][a] == x && ms[..n][b] == y;
          assert ms[a] == x && ms[b] == y;
        } else {
          assert head[i] == x;
          var a :| 0 <= a < n && ms[..n][a] == x;
          assert ms[a] == x && ms[n] == y;
        }
      }
    }
  }

  /** Sorting by size and then stably by precedence orders by precedence, size and MID. */
  lemma TwoSortsByKey(ms: seq<Msg>, mid: seq<Msg>, out: seq<Msg>)
    requires Distinct(ms) && multiset(mid) == multiset(ms) && SortedBySize(mid) && StablySorted(mid, out)
    ensures multiset(out) == multiset(ms) && KeySorted(out)
  {
    forall x: Msg ensures multiset(out)[x] == multiset(ms)[x] {
      CountOf(out, x);
      CountOf(mid, x);
    }
    PermutationDistinct(ms, out);
    forall i, j | 0 <= i < j < |out| ensures KeyLess(out[i], out[j]) {
      var x, y := out[i], out[j];
      var p := Precedence(x.title);
      if Precedence(y.title) == p {
        assert Before(out, x, y);
        PrecedenceKeeps(out, p, x, y);
        PrecedenceReflects(mid, p, x, y);
        assert !SizeLess(y, x);
        LessTotal(x.mid, y.mid);
      }
    }
  }

  lemma SameLast(a: seq<Msg>, b: seq<Msg>)
    requires KeySorted(a) && KeySorted(b) && multiset(a) == multiset(b) && a != [] && b != []
    ensures a[|a| - 1] == b[|b| - 1]
  {
    hide KeyLess;
    var x, y := a[|a| - 1], b[|b| - 1];
    assert x in multiset(b) && y in multiset(a);
    KeyTotal(x, y);
  }

  lemma DropLast(a: seq<Msg>)
    requires a != []
    ensures var n := |a| - 1; multiset(a[..n]) == multiset(a) - multiset{a[n]} && a == a[..n] + [a[n]]
  {
    var n := |a| - 1;
    assert a == a[..n] + [a[n]];
  }

  lemma {:induction false} KeyUnique(a: seq<Msg>, b: seq<Msg>)
    requires KeySorted(a) && KeySorted(b) && multiset(a) == multiset(b)
    ensures a == b
    decreases |a|
  {
    hide KeyLess;
    assert |a| == |multiset(a)| == |b|;
    if a == [] {
    } else {
      var n := |a| - 1;
      SameLast(a, b);
      DropLast(a);
      DropLast(b);
      KeyUnique(a[..n], b[..n]);
    }
  }

  /** However the two sorts break ties on the way, they arrive at the same order. */
  lemma SortProposals(ms: seq<Msg>, mid: seq<Msg>, out: seq<Msg>)
    requires Distinct(ms) && multiset(mid) == multiset(ms) && SortedBySize(mid) && StablySorted(mid, out)
    ensures out == Arrange(ms)
  {
    TwoSortsByKey(ms, mid, out);
    ArrangeSorts(ms);
    KeyUnique(out, Arrange(ms));
  }

  /** Mail is offered by precedence, then the smaller first, then in the order of the MIDs. */
  lemma OfferOrder(ms: seq<Msg>, i: nat, j: nat)
    requires Distinct(ms) && i < j < |Arrange(ms)|
    ensures var (x, y) := (Arrange(ms)[i], Arrange(ms)[j]); var (p, q) := (Precedence(x.title), Precedence(y.title));
            p < q || (p == q && (x.size < y.size || (x.size == y.size && exists n: nat :: PartsAt(x.mid, y.mid, n))))
  {
    hide Arrange, Less;
    ArrangeSorts(ms);
    LessMeans(Arrange(ms)[i].mid, Arrange(ms)[j].mid);
  }

  const MAX_BLOCK: nat := 5

  /** The proposals of one block. */
  function Block(ms: seq<Msg>): (r: seq<Msg>)
    ensures |r| <= MAX_BLOCK
  {
    var all := Arrange(ms);
    if |all| > MAX_BLOCK then all[..MAX_BLOCK] else all
  }

  /** No proposal left out of the block comes before one inside it. */
  lemma BlockIsFirst(ms: seq<Msg>, x: Msg, y: Msg)
    requires Distinct(ms) && x in Block(ms) && y in ms && y !in Block(ms)
    ensures KeyLess(x, y) && |Block(ms)| == MAX_BLOCK
  {
    hide KeyLess, Arrange;
    ArrangeSorts(ms);
    var all := Arrange(ms);
    assert y in multiset(all);
    var j :| 0 <= j < |all| && all[j] == y;
    var i :| 0 <= i < |Block(ms)| && Block(ms)[i] == x;
    assert all[i] == x;
    assert forall k :: 0 <= k < |Block(ms)| ==> Block(ms)[k] == all[k];
  }
}
