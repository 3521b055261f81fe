/**
 The text ring of the writer: N bytes whose first F - 1 are mirrored behind the end, so that
 F bytes can be read from any slot without wrapping.
 */
module TextRing {
  import opened Bits
  import opened MatchForest
  import opened MatchFinder
  import opened Tokens

  /** The slot of text position j; position 0 goes to slot N - F. */
  function Slot(j: int): (s: nat)
    ensures s < N
  {
    (N - F + j) % N
  }

  ghost predicate RingAt(text: seq<byte>, x: seq<byte>, j: int)
    requires |text| == N + F - 1 && j < |x|
  {
    text[Slot(j)] == Hist(x, j) && (Slot(j) < F - 1 ==> text[Slot(j) + N] == Hist(x, j))
  }

  /** The ring holds the last N bytes of sixty spaces followed by x. */
  ghost predicate RingOk(text: seq<byte>, x: seq<byte>) {
    && |text| == N + F - 1
    && forall j: int {:trigger RingAt(text, x, j)} :: 0 <= j + F && j < |x| && |x| - N <= j ==> RingAt(text, x, j)
  }

  lemma FreshRing()
    ensures RingOk(FreshText(), [])
  {
    forall j: int | 0 <= j + F < F ensures RingAt(FreshText(), [], j) { }
  }

  lemma SlotPlus(j: int, i: nat)
    requires i < F
    ensures Slot(j + i) == if Slot(j) + i < N then Slot(j) + i else Slot(j) + i - N
  {
  }

  lemma SlotsDiffer(j: int, k: int)
    requires 0 < k - j < N
    ensures Slot(j) != Slot(k)
  {
    var a, b := (N - F + j) / N, (N - F + k) / N;
    assert N - F + j == N * a + Slot(j);
    assert N - F + k == N * b + Slot(k);
    assert Slot(j) == Slot(k) ==> N * (b - a) == k - j;
  }

  /** Reading i bytes past the slot of j reads position j + i, through the mirror if need be. */
  lemma RingRead(text: seq<byte>, x: seq<byte>, j: int, i: nat)
    requires RingOk(text, x) && i < F && 0 <= j + F && j + i < |x| && |x| - N <= j + i
    ensures text[Slot(j) + i] == Hist(x, j + i)
  {
    assert RingAt(text, x, j + i);
    SlotPlus(j, i);
  }

  /** Store a byte, and its mirror image if the slot has one. */
  function Put(text: seq<byte>, s: nat, b: byte): (r: seq<byte>)
    requires |text| == N + F - 1 && s < N
    ensures |r| == |text|
  {
    if s < F - 1 then text[s := b][s + N := b] else text[s := b]
  }

  lemma RingWrite(text: seq<byte>, x: seq<byte>, b: byte)
    requires RingOk(text, x)
    ensures RingOk(Put(text, Slot(|x|), b), x + [b])
  {
    var u, y := Put(text, Slot(|x|), b), x + [b];
    forall j: int | 0 <= j + F && j < |y| && |y| - N <= j
      ensures RingAt(u, y, j)
    {
      if j < |x| {
        assert RingAt(text, x, j);
        SlotsDiffer(j, |x|);
      }
    }
  }

  /** Distances in the ring are distances in the text. */
  lemma DistOfSlots(pos: int, d: nat)
    requires d < N
    ensures Dist(Slot(pos), Slot(pos - d)) == d
  {
    var a, b := (N - F + pos) / N, (N - F + pos - d) / N;
    assert N - F + pos == N * a + Slot(pos);
    assert N - F + (pos - d) == N * b + Slot(pos - d);
    assert Slot(pos) - Slot(pos - d) == d - N * (a - b);
    ModShift(d, a - b);
  }

  lemma ModShift(d: nat, k: int)
    requires d < N
    ensures (d - N * k) % N == d
  {
  }

  lemma SlotOfDist(pos: int, q: nat)
    requires q < N
    ensures Slot(pos - Dist(Slot(pos), q)) == q
  {
    var d := Dist(Slot(pos), q);
    var a := (N - F + pos) / N;
    assert N - F + pos == N * a + Slot(pos);
    var b := (Slot(pos) - q) / N;
    assert Slot(pos) - q == N * b + d;
    assert N - F + (pos - d) == N * (a + b) + q;
    ModShift(q, -(a + b));
  }

  lemma SlotStep(pos: int)
    ensures Slot(pos + 1) == (Slot(pos) + 1) % N
  {
    SlotPlus(pos, 1);
  }

  lemma DistStep(r: nat, q: nat)
    requires r < N && q < N && Dist(r, q) < N - 1
    ensures Dist((r + 1) % N, q) == Dist(r, q) + 1
  {
  }

  /** The slot being overwritten is the one F ahead. */
  lemma SlotAhead(pos: int)
    ensures Slot(pos + F) == (Slot(pos) + F) % N
  {
    SlotPlus(pos, F - 1);
    SlotPlus(pos + (F - 1), 1);
  }
}
