/**
 Counting symbols does not keep codes within sixteen bits: with certain counts, their sum far below the
 limit, every tree that meets the invariant has a code of seventeen bits whose last bit is set.
 */
module LongCodes {
  import opened Sums
  import opened Bits
  import opened HuffmanTree
  import opened HuffmanCode
  import HC = HuffmanCount
  import HU = HuffmanUnique
  import BP = BitPacker

  // 306 symbols counted once, and eight counted often enough to hang all of those below a chain.

  function FreqAt(i: nat): nat
    requires i <= T
  {
    if i < 306 then 1 else if i < 459 then 2 else if i < 535 then 4 else if i < 536 then 6
    else if i < 573 then 8 else if i < 574 then 10 else if i < 592 then 16 else if i < 593 then 18
    else if i < 602 then 32 else if i < 603 then 50 else if i < 607 then 64 else TopFreq(i)
  }

  function TopFreq(i: nat): nat
    requires 607 <= i <= T
  {
    if i < 613 then (if i < 608 then 114 else if i < 609 then 128 else if i < 610 then 178
                     else if i < 611 then 179 else if i < 612 then 306 else 307)
    else if i < 620 then (if i < 614 then 485 else if i < 615 then 486 else if i < 616 then 792
                          else if i < 617 then 793 else if i < 618 then 1278 else if i < 619 then 1279 else 2071)
    else (if i < 621 then 2072 else if i < 622 then 3350 else if i < 623 then 3351 else if i < 624 then 5422
          else if i < 625 then 5423 else if i < 626 then 8773 else if i < 627 then 14196 else SENTINEL)
  }

  function SonAt(i: nat): nat
    requires i < T
  {
    if i < 306 then T + i
    else if i < 459 then 2 * (i - 306) else if i < 535 then 306 + 2 * (i - 459) else if i < 536 then 458
    else if i < 573 then 460 + 2 * (i - 536) else if i < 574 then 534 else if i < 592 then 536 + 2 * (i - 574)
    else if i < 593 then 572 else if i < 602 then 574 + 2 * (i - 593) else if i < 603 then 592
    else if i < 607 then 594 + 2 * (i - 603) else if i < 608 then 602 else if i < 609 then 604
    else if i < 610 then 606 else if i == ROOT then ROOT - 2
    else if i % 2 == 0 then T + 306 + (i - 610) / 2 else i - 3
  }

  function ParentAt(k: nat): nat
    requires k < T + NUM_CHAR
  {
    if k < 306 then 306 + k / 2 else if k < 458 then 459 + (k - 306) / 2 else if k < 460 then 535
    else if k < 534 then 536 + (k - 460) / 2 else if k < 536 then 573 else if k < 572 then 574 + (k - 536) / 2
    else if k < 574 then 592 else if k < 592 then 593 + (k - 574) / 2 else if k < 594 then 602
    else if k < 602 then 603 + (k - 594) / 2 else if k < 604 then 607 else if k < 606 then 608
    else if k < 608 then 609 else if k < ROOT - 2 then k - k % 2 + 3 else if k < ROOT then ROOT
    else if k < T then 0 else if k < T + 306 then k - T else 610 + 2 * (k - T - 306)
  }

  function LongTree(): (t: Tree)
    ensures Shape(t)
  {
    Tree(seq(T + 1, i requires 0 <= i <= T => FreqAt(i)),
         seq(T + NUM_CHAR, k requires 0 <= k < T + NUM_CHAR => ParentAt(k)),
         seq(T, i requires 0 <= i < T => SonAt(i)))
  }

  lemma SonsOk(i: nat)
    requires i < T
    ensures SonOk(LongTree(), i)
  {
    hide SonOk, LongTree;
    if i < 536 { LowSons(i); } else if i < 610 { MiddleSons(i); } else { HighSons(i); }
  }

  lemma LowSons(i: nat)
    requires i < 536
    ensures SonOk(LongTree(), i)
  {
  }

  lemma MiddleSons(i: nat)
    requires 536 <= i < 610
    ensures SonOk(LongTree(), i)
  {
  }

  lemma HighSons(i: nat)
    requires 610 <= i < T
    ensures SonOk(LongTree(), i)
  {
  }

  lemma ParentsOk(i: nat)
    requires i < ROOT
    ensures ParentOk(LongTree(), i)
  {
  }

  lemma LeavesOk(c: nat)
    requires c < NUM_CHAR
    ensures LeafOk(LongTree(), c)
  {
  }

  lemma SumsOk(i: nat)
    requires i < T
    ensures SumOk(LongTree(), i, T)
  {
  }

  lemma NextFreq(i: nat)
    requires i + 1 < T
    ensures 1 <= FreqAt(i) <= FreqAt(i + 1)
  {
  }

  lemma {:induction false} FreqsOrdered(i: nat, j: nat)
    requires i <= j < T
    ensures 1 <= FreqAt(i) <= FreqAt(j)
    decreases j
  {
    hide FreqAt;
    if i < j {
      NextFreq(j - 1);
      FreqsOrdered(i, j - 1);
    } else if i + 1 < T {
      NextFreq(i);
    } else {
      NextFreq(i - 1);
    }
  }

  lemma PrefixSum(s: seq<int>, k: nat)
    requires k < |s|
    ensures Sum(s[..k + 1]) == Sum(s[..k]) + s[k]
  {
    assert s[..k + 1][..k] == s[..k];
  }

  /** The leaves among the first k nodes, and their weight. */
  function LeafCount(k: nat): nat {
    if k <= 306 then k else if k <= 610 then 306 else if k <= 626 then 306 + (k - 609) / 2 else 314
  }

  function LeafSum(k: nat): nat {
    if k <= 306 then k else if k <= 610 then 306
    else if k <= 618 then (if k <= 612 then 485 else if k <= 614 then 792 else if k <= 616 then 1278 else 2071)
    else (if k <= 620 then 3350 else if k <= 622 then 5422 else if k <= 624 then 8773 else 14196)
  }

  lemma LeafStep(k: nat)
    requires k < T
    ensures LeafCount(k + 1) == LeafCount(k) + if SonAt(k) >= T then 1 else 0
    ensures LeafSum(k + 1) == LeafSum(k) + if SonAt(k) >= T then FreqAt(k) else 0
  {
  }

  lemma {:induction false} LeafSums(k: nat)
    requires k <= T
    ensures var t := LongTree();
            Sum(LeafMarks(t.son)[..k]) == LeafCount(k) && Sum(LeafWeights(t.freq, t.son)[..k]) == LeafSum(k)
    decreases k
  {
    hide FreqAt, SonAt, ParentAt, LeafCount, LeafSum;
    var t := LongTree();
    if k == 0 {
      NoLeaves();
    } else {
      LeafSums(k - 1);
      LeafStep(k - 1);
      PrefixSum(LeafMarks(t.son), k - 1);
      PrefixSum(LeafWeights(t.freq, t.son), k - 1);
    }
  }

  lemma NoLeaves()
    ensures LeafCount(0) == 0 && LeafSum(0) == 0
  {
  }

  lemma LongTreeOk()
    ensures Inv(LongTree()) && LongTree().freq[ROOT] == 14196
  {
    hide FreqAt, SonAt, ParentAt, SonOk, ParentOk, LeafOk, SumOk, Sum;
    var t := LongTree();
    Ends();
    LeafSums(T);
    assert LeafMarks(t.son)[..T] == LeafMarks(t.son) && LeafWeights(t.freq, t.son)[..T] == LeafWeights(t.freq, t.son);
    forall i: nat | i < T ensures SonOk(t, i) && SumOk(t, i, T) { SonsOk(i); SumsOk(i); }
    forall i: nat | i < ROOT ensures ParentOk(t, i) { ParentsOk(i); }
    forall c: nat | c < NUM_CHAR ensures LeafOk(t, c) { LeavesOk(c); }
    forall i, j | 0 <= i <= j < T ensures t.freq[i] >= 1 && t.freq[i] <= t.freq[j] { FreqsOrdered(i, j); }
  }

  lemma Ends()
    ensures FreqAt(ROOT) == 14196 && FreqAt(T) == SENTINEL && ParentAt(ROOT) == 0
    ensures LeafCount(T) == 314 && LeafSum(T) == 14196
  {
  }

  // Any tree with the same counts, from the root down.

  /** The tree counts what the one above does. */
  ghost predicate CountsLong(t: Tree) {
    Inv(t) && HU.SameCounts(t, LongTree())
  }

  lemma LongFreqs(t: Tree)
    requires CountsLong(t)
    ensures |t.freq| == T + 1 && forall i :: 0 <= i <= T ==> t.freq[i] == FreqAt(i)
  {
    hide Balanced, HU.SameCounts, FreqAt, SonAt, ParentAt;
    LongTreeOk();
    HU.FreqUnique(t, LongTree());
  }

  lemma LongCounts(s: nat)
    requires s < NUM_CHAR
    ensures HC.Located(LongTree(), s) && HC.Count(LongTree(), s) == LongCount(s)
  {
  }

  function LongCount(s: nat): nat
    requires s < NUM_CHAR
  {
    if s < 306 then 1 else TopFreq(610 + 2 * (s - 306))
  }

  /** A node counted 2 or 4 is no leaf, and one counted 1 is. */
  lemma Inner(t: Tree, i: nat)
    requires CountsLong(t) && i < T
    ensures t.son[i] < T + NUM_CHAR
    ensures t.freq[i] == 2 || t.freq[i] == 4 ==> t.son[i] < T
    ensures t.freq[i] == 1 ==> t.son[i] >= T
    ensures t.son[i] < T ==> t.son[i] % 2 == 0 && t.son[i] + 1 < i
    ensures t.son[i] < T ==> t.freq[i] == t.freq[t.son[i]] + t.freq[t.son[i] + 1]
    ensures t.son[i] < T ==> t.prnt[t.son[i]] == t.prnt[t.son[i] + 1] == i
  {
    hide Ordered, LongTree, FreqAt, TopFreq;
    assert SonOk(t, i) && SumOk(t, i, T);
    if t.son[i] >= T {
      var s := t.son[i] - T;
      LongCounts(s);
      NotTwoOrFour(s);
      assert HC.Count(t, s) == HC.Count(LongTree(), s);
    } else {
      Positive(t, t.son[i]);
      Positive(t, t.son[i] + 1);
    }
  }

  lemma Positive(t: Tree, i: nat)
    requires Inv(t) && i < T
    ensures t.freq[i] >= 1
  {
    hide Linked, SumOk;
  }

  lemma NotTwoOrFour(s: nat)
    requires s < NUM_CHAR
    ensures LongCount(s) == 1 || LongCount(s) > 4
  {
  }

  function Ones(n: nat): seq<bit> { seq(n, _ => 1) }

  /** One level up: the parent is where the sum of the pair is. */
  lemma Up(t: Tree, k: nat, p: nat)
    requires CountsLong(t) && k < ROOT && p < T
    requires FreqAt(k - k % 2) + FreqAt(k - k % 2 + 1) == FreqAt(p)
    requires forall q :: 0 <= q < T && FreqAt(q) == FreqAt(p) ==> q == p
    ensures Path(t, k) == Path(t, p) + [k % 2]
  {
    hide Ordered, HU.SameCounts, FreqAt, LongTree;
    LongFreqs(t);
    assert ParentOk(t, k);
    assert SumOk(t, t.prnt[k], T);
  }

  /** The frequencies of the chain occur once each. */
  lemma Chained(p: nat)
    requires p in {535, 573, 592, 602, 607, 609, ROOT} || (611 <= p <= 625 && p % 2 == 1)
    ensures forall q :: 0 <= q < T && FreqAt(q) == FreqAt(p) ==> q == p
  {
  }

  lemma {:induction false} Chain(t: Tree, m: nat)
    requires CountsLong(t) && m <= 7
    ensures Path(t, 625 - 2 * m) == Ones(m + 1)
    decreases m
  {
    hide Balanced, CountsLong, Path, FreqAt, TopFreq;
    var k := 625 - 2 * m;
    var p := if m == 0 then ROOT else k + 2;
    Chained(p);
    ChainSums(k);
    Up(t, k, p);
    if m == 0 {
      AtRoot(t);
      assert [] + [1] == Ones(1);
    } else {
      Chain(t, m - 1);
      assert Ones(m) + [1] == Ones(m + 1);
    }
  }

  lemma ChainSums(k: nat)
    requires 611 <= k <= 625 && k % 2 == 1
    ensures FreqAt(k - 1) + FreqAt(k) == FreqAt(if k == 625 then ROOT else k + 2)
  {
  }

  lemma AtRoot(t: Tree)
    requires CountsLong(t)
    ensures Shape(t) && Balanced(t, T) && Path(t, ROOT) == []
  {
  }

  lemma LowerSums()
    ensures FreqAt(608) + FreqAt(609) == FreqAt(611) && FreqAt(606) + FreqAt(607) == FreqAt(609)
    ensures FreqAt(602) + FreqAt(603) == FreqAt(607) && FreqAt(592) + FreqAt(593) == FreqAt(602)
    ensures FreqAt(572) + FreqAt(573) == FreqAt(592) && FreqAt(534) + FreqAt(535) == FreqAt(573)
    ensures FreqAt(458) + FreqAt(459) == FreqAt(535)
  {
  }

  lemma Upper(t: Tree)
    requires CountsLong(t)
    ensures Path(t, 602) == Ones(10) + [0]
  {
    hide CountsLong, Path, FreqAt;
    LowerSums();
    Chain(t, 7);
    Chained(611);
    Up(t, 609, 611);
    Chained(609);
    Up(t, 607, 609);
    Chained(607);
    Up(t, 602, 607);
    assert Ones(8) + [1] + [1] + [0] == Ones(10) + [0];
  }

  lemma Middle(t: Tree)
    requires CountsLong(t)
    ensures Path(t, 573) == Ones(10) + [0, 0, 1]
  {
    hide CountsLong, Path, FreqAt;
    LowerSums();
    Upper(t);
    Chained(602);
    Up(t, 592, 602);
    Chained(592);
    Up(t, 573, 592);
    assert Ones(10) + [0] + [0] + [1] == Ones(10) + [0, 0, 1];
  }

  lemma Lower(t: Tree)
    requires CountsLong(t)
    ensures Path(t, 459) == Ones(10) + [0, 0, 1, 1, 1]
  {
    hide CountsLong, Path, FreqAt;
    LowerSums();
    Middle(t);
    Chained(573);
    Up(t, 535, 573);
    Chained(535);
    Up(t, 459, 535);
    assert Ones(10) + [0, 0, 1] + [1] + [1] == Ones(10) + [0, 0, 1, 1, 1];
  }

  lemma LowFreqs(i: nat)
    requires i < 459
    ensures FreqAt(i) == if i < 306 then 1 else 2
    ensures FreqAt(459) == 4
  {
  }

  /** Two levels below node 459 there is a leaf at the odd end of its pair. */
  lemma DeepLeaf(t: Tree) returns (c: nat)
    requires CountsLong(t)
    ensures Balanced(t, T) && c < NUM_CHAR && Code(t, c) == Ones(10) + [0, 0, 1, 1, 1, 0, 1]
  {
    hide Balanced, CountsLong, Path, FreqAt;
    LongFreqs(t);
    AtRoot(t);
    LowFreqs(0);
    Inner(t, 459);
    var a := t.son[459];
    LowFreqs(a);
    LowFreqs(a + 1);
    Inner(t, a);
    var b := t.son[a];
    LowFreqs(b);
    LowFreqs(b + 1);
    Inner(t, b + 1);
    c := t.son[b + 1] - T;
    Lower(t);
    Down(t, a);
    Down(t, b + 1);
    LeafCode(t, c, b + 1);
    assert Ones(10) + [0, 0, 1, 1, 1] + [0] + [1] == Ones(10) + [0, 0, 1, 1, 1, 0, 1];
  }

  lemma Down(t: Tree, k: nat)
    requires Balanced(t, T) && k < ROOT
    ensures |t.prnt| == T + NUM_CHAR && t.prnt[k] < T && Path(t, k) == Path(t, t.prnt[k]) + [k % 2]
  {
    hide Ordered, SumOk;
    assert ParentOk(t, k);
  }

  lemma LeafCode(t: Tree, c: nat, k: nat)
    requires Balanced(t, T) && c < NUM_CHAR && k < T && t.son[k] == T + c
    ensures Code(t, c) == Path(t, k)
  {
    hide Ordered, SumOk;
    assert SonOk(t, k);
  }

  /** However a tree with these counts came about, one of its codes is carried by no state of the packer. */
  lemma LongCodeOf(t: Tree) returns (c: nat)
    requires CountsLong(t)
    ensures Balanced(t, T) && c < NUM_CHAR
    ensures var code := Code(t, c); |code| == 17 && code[16] == 1 && forall n :: BP.SentAs(n, code) != code
  {
    hide Balanced, CountsLong, Path;
    c := DeepLeaf(t);
    var code := Code(t, c);
    assert code[16] == 1;
    forall n: nat ensures BP.SentAs(n, code) != code { assert BP.SentAs(n, code)[16] == 0; }
  }
}
