/**
 Codes of the adaptive tree: the path from the root to a leaf, the walk that reads it back,
 and how long a path can get.
 */
module HuffmanCode {
  import opened Sums
  import opened Bits
  import opened HuffmanTree
  import opened HuffmanRebuild

  /** The turns from the root down to position k: 0 to the even sibling, 1 to the odd one. */
  function Path(t: Tree, k: nat): (p: seq<bit>)
    requires Balanced(t, T) && k < T
    decreases T - k
  {
    if k == ROOT then [] else
    assert ParentOk(t, k);
    Path(t, t.prnt[k]) + [k % 2]
  }

  /** Below every inner node the code goes on with 0 to the first and 1 to the second of its children. */
  lemma ChildPaths(t: Tree, p: nat)
    requires Balanced(t, T) && p < T && t.son[p] < T
    ensures t.son[p] + 1 < T && Path(t, ROOT) == []
    ensures Path(t, t.son[p]) == Path(t, p) + [0] && Path(t, t.son[p] + 1) == Path(t, p) + [1]
  {
    hide Ordered, Sum, SumOk;
    assert SonOk(t, p);
    assert ParentOk(t, t.son[p]) && ParentOk(t, t.son[p] + 1);
  }

  function Code(t: Tree, c: nat): (p: seq<bit>)
    requires Balanced(t, T) && c < NUM_CHAR
    ensures |p| >= 1
  {
    assert LeafOk(t, c);
    RootChildren(t, T);
    Path(t, t.prnt[T + c])
  }

  /** A position in a bit string; ok turns false when a read runs past the end. */
  datatype Cursor = Cursor(pos: nat, ok: bool)

  /** Read n bits as a number.  A read past the end consumes nothing, yields 0 and is remembered. */
  function Take(bits: seq<bit>, s: Cursor, n: nat): (r: (nat, Cursor)) {
    if s.pos + n <= |bits| then (Value(bits[s.pos..s.pos + n]), Cursor(s.pos + n, s.ok))
    else (0, s.(ok := false))
  }

  lemma TakeBit(bits: seq<bit>, s: Cursor)
    requires s.pos < |bits|
    ensures Take(bits, s, 1) == (bits[s.pos], Cursor(s.pos + 1, s.ok))
  {
    assert bits[s.pos..s.pos + 1] == [bits[s.pos]];
    ShlBit(bits[s.pos]);
  }

  /** Walk down from a son entry to a leaf; one bit per level. */
  function Walk(t: Tree, c: nat, bits: seq<bit>, s: Cursor): (r: (nat, Cursor))
    requires Balanced(t, T) && c < T + NUM_CHAR && (c < T ==> c % 2 == 0 && c + 1 < ROOT)
    ensures r.0 < NUM_CHAR
    ensures s.pos <= r.1.pos && (s.pos <= |bits| ==> r.1.pos <= |bits|) && (r.1.ok ==> s.ok)
    decreases if c < T then c + 1 else 0
  {
    if c >= T then (c - T, s)
    else
      var (b, s') := Take(bits, s, 1);
      assert b <= 1 by { if s.pos < |bits| { TakeBit(bits, s); } }
      assert SonOk(t, c + b);
      Walk(t, t.son[c + b], bits, s')
  }

  function DecodeChar(t: Tree, bits: seq<bit>, s: Cursor): (r: (nat, Cursor))
    requires Balanced(t, T)
    ensures r.0 < NUM_CHAR
    ensures s.pos <= r.1.pos && (s.pos <= |bits| ==> r.1.pos <= |bits|) && (r.1.ok ==> s.ok)
  {
    assert SonOk(t, ROOT);
    Walk(t, t.son[ROOT], bits, s)
  }

  ghost predicate StartsAt(bits: seq<bit>, pos: nat, p: seq<bit>) {
    pos + |p| <= |bits| && bits[pos..pos + |p|] == p
  }

  lemma StartsWithin(bits: seq<bit>, all: seq<bit>, at: nat, p: seq<bit>)
    requires StartsAt(bits, 0, all) && StartsAt(all, at, p)
    ensures StartsAt(bits, at, p)
  {
    forall i | 0 <= i < |p|
      ensures bits[at..at + |p|][i] == p[i]
    {
      assert p[i] == all[at..at + |p|][i] == all[at + i] == bits[0..|all|][at + i];
    }
  }

  lemma StartsSnoc(bits: seq<bit>, pos: nat, p: seq<bit>, b: bit)
    requires StartsAt(bits, pos, p + [b])
    ensures StartsAt(bits, pos, p) && pos + |p| < |bits| && bits[pos + |p|] == b
  {
    var all := bits[pos..pos + |p| + 1];
    assert all == p + [b];
    assert all[..|p|] == p && all[|p|] == b;
    assert bits[pos..pos + |p|] == all[..|p|];
  }

  /** The walk, one level at a time. */
  lemma WalkOnce(t: Tree, c: nat, bits: seq<bit>, s: Cursor)
    requires Balanced(t, T) && c < T && c % 2 == 0 && c + 1 < ROOT
    ensures |t.son| == T
    ensures var (b, e) := Take(bits, s, 1);
            && b <= 1
            && var k := t.son[c + b];
               && k < T + NUM_CHAR && (k < T ==> k % 2 == 0 && k + 1 < ROOT && k < c)
               && Walk(t, c, bits, s) == Walk(t, k, bits, e)
  {
    if s.pos < |bits| { TakeBit(bits, s); }
    var (b, e) := Take(bits, s, 1);
    assert SonOk(t, c + b);
  }

  /** One bit takes the decoder from a node to the child the bit names. */
  lemma WalkDown(t: Tree, k: nat, bits: seq<bit>, s: Cursor)
    requires Balanced(t, T) && k < ROOT && s.pos < |bits| && bits[s.pos] == k % 2
    ensures |t.prnt| == T + NUM_CHAR && |t.son| == T && t.prnt[k] < T && t.son[t.prnt[k]] == k - k % 2
    ensures t.son[k] < T + NUM_CHAR && (t.son[k] < T ==> t.son[k] % 2 == 0 && t.son[k] + 1 < ROOT)
    ensures Walk(t, t.son[t.prnt[k]], bits, s) == Walk(t, t.son[k], bits, Cursor(s.pos + 1, s.ok))
  {
    hide Balanced, Path, Walk, Take;
    ParentOf(t, k);
    TakeBit(bits, s);
    WalkOnce(t, k - k % 2, bits, s);
  }

  lemma ParentOf(t: Tree, k: nat)
    requires Balanced(t, T) && k < ROOT
    ensures |t.prnt| == T + NUM_CHAR && |t.son| == T && t.prnt[k] < T && t.son[t.prnt[k]] == k - k % 2
  {
    hide Ordered, Sum, SumOk;
    assert ParentOk(t, k);
  }

  /** Reading the path of position k from the root arrives at k. */
  lemma {:induction false} WalkPath(t: Tree, k: nat, bits: seq<bit>, s: Cursor)
    requires Balanced(t, T) && k < T && StartsAt(bits, s.pos, Path(t, k))
    ensures t.son[k] < T + NUM_CHAR && (t.son[k] < T ==> t.son[k] % 2 == 0 && t.son[k] + 1 < ROOT)
    ensures DecodeChar(t, bits, s) == Walk(t, t.son[k], bits, Cursor(s.pos + |Path(t, k)|, s.ok))
    decreases T - k
  {
    hide Ordered, Sum, Walk;
    assert SonOk(t, k);
    if k >= ROOT {
    } else {
      assert ParentOk(t, k);
      var q := Path(t, t.prnt[k]);
      assert Path(t, k) == q + [k % 2];
      StartsSnoc(bits, s.pos, q, k % 2);
      WalkPath(t, t.prnt[k], bits, s);
      WalkDown(t, k, bits, Cursor(s.pos + |q|, s.ok));
    }
  }

  /** The decoder returns c after reading exactly the code of c ... */
  lemma DecodeCode(t: Tree, c: nat, bits: seq<bit>, s: Cursor)
    requires Balanced(t, T) && c < NUM_CHAR && StartsAt(bits, s.pos, Code(t, c))
    ensures DecodeChar(t, bits, s) == (c, Cursor(s.pos + |Code(t, c)|, s.ok))
  {
    assert LeafOk(t, c);
    WalkPath(t, t.prnt[T + c], bits, s);
  }

  /** ... and never otherwise: whatever it returns within the string, it has read the code of it. */
  lemma {:induction false} WalkReadsPath(t: Tree, k: nat, bits: seq<bit>, s: Cursor)
    requires Balanced(t, T) && k < T && s.ok
    requires t.son[k] < T + NUM_CHAR && (t.son[k] < T ==> t.son[k] % 2 == 0 && t.son[k] + 1 < ROOT)
    ensures var (c, e) := Walk(t, t.son[k], bits, s);
            e.ok && s.pos <= |bits| ==> Code(t, c) == Path(t, k) + bits[s.pos..e.pos]
    decreases k
  {
    hide Ordered, Sum, SumOk, Walk, Path, Take;
    assert SonOk(t, k);
    if t.son[k] >= T {
      WalkedOut(t, t.son[k], bits, s);
      assert s.pos <= |bits| ==> Path(t, k) + bits[s.pos..s.pos] == Path(t, k);
    } else if s.pos < |bits| {
      TakeBit(bits, s);
      WalkOnce(t, t.son[k], bits, s);
      var b := bits[s.pos];
      var n := t.son[k] + b;
      WalkReadsPath(t, n, bits, Cursor(s.pos + 1, true));
      PathDown(t, k, b);
      var (_, e) := Walk(t, t.son[n], bits, Cursor(s.pos + 1, true));
      SliceFirst(bits, s.pos, e.pos);
    } else {
      WalksOff(t, t.son[k], bits, s);
    }
  }

  lemma WalkedOut(t: Tree, c: nat, bits: seq<bit>, s: Cursor)
    requires Balanced(t, T) && T <= c < T + NUM_CHAR
    ensures Walk(t, c, bits, s) == (c - T, s)
  {
  }

  /** Behind the end of the stream no symbol is read. */
  lemma WalksOff(t: Tree, c: nat, bits: seq<bit>, s: Cursor)
    requires Balanced(t, T) && c % 2 == 0 && c + 1 < ROOT && s.pos >= |bits|
    ensures !Walk(t, c, bits, s).1.ok
  {
    hide Ordered, Sum, SumOk;
  }

  lemma SliceFirst(bits: seq<bit>, i: nat, j: nat)
    requires i < j <= |bits|
    ensures bits[i..j] == [bits[i]] + bits[i + 1..j]
  {
  }

  lemma PathDown(t: Tree, k: nat, b: bit)
    requires Balanced(t, T) && k < T && t.son[k] < T
    ensures t.son[k] + b < ROOT && Path(t, t.son[k] + b) == Path(t, k) + [b]
  {
    hide Ordered, Sum, SumOk;
    assert SonOk(t, k);
  }

  lemma DecodeReadsCode(t: Tree, bits: seq<bit>, s: Cursor)
    requires Balanced(t, T) && s.ok && s.pos <= |bits|
    ensures var (c, e) := DecodeChar(t, bits, s);
            e.ok ==> bits[s.pos..e.pos] == Code(t, c)
  {
    assert SonOk(t, ROOT);
    WalkReadsPath(t, ROOT, bits, s);
    var (c, e) := DecodeChar(t, bits, s);
    assert e.ok ==> Path(t, ROOT) + bits[s.pos..e.pos] == bits[s.pos..e.pos];
  }

  /** A symbol is read within the stream exactly if its code is what comes next. */
  lemma DecodeIff(t: Tree, c: nat, bits: seq<bit>, s: Cursor)
    requires Balanced(t, T) && c < NUM_CHAR && s.ok && s.pos <= |bits|
    ensures DecodeChar(t, bits, s).0 == c && DecodeChar(t, bits, s).1.ok <==> StartsAt(bits, s.pos, Code(t, c))
    ensures StartsAt(bits, s.pos, Code(t, c)) ==> DecodeChar(t, bits, s).1 == Cursor(s.pos + |Code(t, c)|, true)
  {
    hide Balanced, Code, DecodeChar;
    if StartsAt(bits, s.pos, Code(t, c)) { DecodeCode(t, c, bits, s); }
    DecodeReadsCode(t, bits, s);
  }

  lemma StartsConcat(bits: seq<bit>, pos: nat, a: seq<bit>, b: seq<bit>)
    ensures StartsAt(bits, pos, a + b) <==> StartsAt(bits, pos, a) && StartsAt(bits, pos + |a|, b)
  {
    if pos + |a| + |b| <= |bits| {
      var x, y := bits[pos..pos + |a|], bits[pos + |a|..pos + |a| + |b|];
      assert bits[pos..pos + |a + b|] == x + y;
      if x + y == a + b {
        assert x == (x + y)[..|a|] == (a + b)[..|a|] == a;
        assert y == (x + y)[|a|..] == (a + b)[|a|..] == b;
      }
    }
  }

  function Fib(n: nat): nat {
    if n == 0 then 0 else if n == 1 then 1 else Fib(n - 1) + Fib(n - 2)
  }

  /** Frequencies grow at least like Fibonacci numbers from a node to the root. */
  lemma {:induction false} FibUp(t: Tree, below: nat, k: nat, h: nat)
    requires Balanced(t, T) && below < k < T
    requires t.freq[below] >= Fib(h + 1) && t.freq[k] >= Fib(h + 2)
    ensures t.freq[ROOT] >= Fib(h + 2 + |Path(t, k)|)
    decreases T - k
  {
    hide Balanced, Path, Fib;
    if k >= ROOT {
      RootPath(t);
    } else {
      Heavier(t, below, k);
      FibNext(h + 1);
      FibUp(t, k, t.prnt[k], h + 1);
    }
  }

  lemma RootPath(t: Tree)
    requires Balanced(t, T)
    ensures Path(t, ROOT) == []
  {
  }

  lemma FibNext(n: nat)
    ensures Fib(n + 2) == Fib(n + 1) + Fib(n)
  {
  }

  /** A node and its sibling, which comes after any node below, make up their parent. */
  lemma Heavier(t: Tree, below: nat, k: nat)
    requires Balanced(t, T) && below < k < ROOT
    ensures |t.prnt| == T + NUM_CHAR && k < t.prnt[k] < T && |t.freq| == T + 1
    ensures t.freq[t.prnt[k]] >= t.freq[k] + t.freq[below] && |Path(t, k)| == |Path(t, t.prnt[k])| + 1
  {
    hide Sum;
    assert ParentOk(t, k);
    var p := t.prnt[k];
    assert SonOk(t, p) && SumOk(t, p, T);
    var sibling := if k % 2 == 0 then k + 1 else k - 1;
    assert t.freq[p] == t.freq[k] + t.freq[sibling];
    assert t.freq[below] <= t.freq[sibling];
  }

  /** A code of d bits needs a root frequency of at least Fib(d + 2). */
  lemma CodeLengthBound(t: Tree, c: nat)
    requires Balanced(t, T) && c < NUM_CHAR
    ensures t.freq[ROOT] >= Fib(|Code(t, c)| + 2)
  {
    hide Sum;
    assert LeafOk(t, c);
    RootChildren(t, T);
    var k := t.prnt[T + c];
    assert ParentOk(t, k);
    var p := t.prnt[k];
    assert SonOk(t, p) && SumOk(t, p, T);
    assert t.freq[p] >= 2 == Fib(3);
    FibUp(t, k, p, 1);
    assert |Path(t, k)| == |Path(t, p)| + 1;
  }

  lemma {:induction false} FibMonotone(m: nat, n: nat)
    requires m <= n
    ensures Fib(m) <= Fib(n)
    decreases n - m
  {
    if m >= n {
    } else {
      FibMonotone(m + 1, n);
      assert Fib(m + 1) >= Fib(m);
    }
  }

  lemma FibFacts()
    ensures Fib(19) == 4181 && Fib(24) == 46368
  {
    assert Fib(10) == 55 && Fib(11) == 89;
    assert Fib(19) == 4181 && Fib(20) == 6765;
  }

  /** No code exceeds 21 bits, and none exceeds the 16-bit window while the root is below 4181. */
  lemma CodeLengths(t: Tree, c: nat)
    requires Inv(t) && c < NUM_CHAR
    ensures |Code(t, c)| <= 21
    ensures t.freq[ROOT] < 4181 ==> |Code(t, c)| <= 16
  {
    hide Balanced, Code;
    CodeLengthBound(t, c);
    FibFacts();
    var d := |Code(t, c)|;
    if d >= 22 { FibMonotone(24, d + 2); }
    if d >= 17 { FibMonotone(19, d + 2); }
  }

  lemma CodeIsPath(t: Tree, c: nat)
    requires Balanced(t, T) && c < NUM_CHAR
    ensures |t.prnt| == T + NUM_CHAR && t.prnt[T + c] < ROOT && Code(t, c) == Path(t, t.prnt[T + c])
  {
    assert LeafOk(t, c);
    RootChildren(t, T);
  }

  lemma PathUp(t: Tree, k: nat)
    requires Balanced(t, T) && k < ROOT
    ensures |t.prnt| == T + NUM_CHAR && k < t.prnt[k] <= ROOT
    ensures Path(t, k) == Path(t, t.prnt[k]) + [k % 2]
    ensures Path(t, ROOT) == []
  {
    assert ParentOk(t, k);
  }

  lemma RootSon(t: Tree)
    requires Balanced(t, T)
    ensures |t.son| == T && t.son[ROOT] == ROOT - 2
  {
    RootChildren(t, T);
  }
}
