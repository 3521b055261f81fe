/**
 A run of codes through the packer: exactly when the bytes written begin with the bits of all the codes.
 */
module BitStream {
  import opened Common
  import opened Bits
  import opened BitPacker

  type Code = seq<bit>

  /** Put codes one after the other. */
  function PackAll(cs: seq<Code>): (p: Packer) {
    if cs == [] then EMPTY
    else var n := |cs| - 1; PutCode(PackAll(cs[..n]), |cs[n]|, Align(cs[n]))
  }

  function Join(cs: seq<Code>): (bs: seq<bit>) {
    if cs == [] then [] else var n := |cs| - 1; Join(cs[..n]) + cs[n]
  }

  /** The count of pending bits after l more, kept in eight bits. */
  function Left(n: nat, l: nat): (m: nat) {
    var k := (n + l) % 256;
    if k < 8 then k else if k < 16 then k - 8 else k - 16
  }

  /** The bits pending after some codes; it depends on their lengths only. */
  function Backlog(cs: seq<Code>): (n: nat) {
    if cs == [] then 0 else var n := |cs| - 1; Left(Backlog(cs[..n]), |cs[n]|)
  }

  /** The count of pending bits never overflows. */
  predicate NoOverflow(cs: seq<Code>) {
    cs == [] || var n := |cs| - 1; NoOverflow(cs[..n]) && Backlog(cs[..n]) + |cs[n]| < 256
  }

  /**
   Every code is put where it can go out as it is: with at most sixteen bits pending and none set beyond
   its own sixteenth, or, with more pending, no bit set at all.
   */
  predicate Carries(cs: seq<Code>) {
    cs == [] || var n := |cs| - 1; Carries(cs[..n]) && SentAs(Backlog(cs[..n]), cs[n]) == cs[n]
  }

  /** And the last byte takes all that is pending at the end. */
  predicate Intact(cs: seq<Code>) {
    NoOverflow(cs) && Carries(cs) && Backlog(cs) <= 8
  }

  /** What goes out for the codes. */
  function Sent(cs: seq<Code>): (bs: seq<bit>) {
    if cs == [] then [] else var n := |cs| - 1; Sent(cs[..n]) + SentAs(Backlog(cs[..n]), cs[n])
  }

  lemma {:induction false} BacklogIs(cs: seq<Code>)
    ensures PackAll(cs).putlen == Backlog(cs)
    decreases |cs|
  {
    hide Align, Or, Shr, Shl;
    if cs == [] {
    } else {
      BacklogIs(cs[..|cs| - 1]);
    }
  }

  lemma {:induction false} SentLength(cs: seq<Code>)
    ensures |Sent(cs)| == |Join(cs)|
    decreases |cs|
  {
    hide SentAs;
    if cs == [] {
    } else {
      SentLength(cs[..|cs| - 1]);
    }
  }

  lemma EmptyOk()
    ensures PackOk(EMPTY) && Written(EMPTY) == []
  {
    assert Tail(EMPTY) == [];
  }

  /** Without overflow the packer has accepted exactly what goes out. */
  lemma {:induction false} PackAllSends(cs: seq<Code>)
    requires NoOverflow(cs)
    ensures PackOk(PackAll(cs)) && Written(PackAll(cs)) == Sent(cs)
    decreases |cs|
  {
    hide PackOk, PutCode, Written, Align, SentAs, Left;
    if cs == [] {
      EmptyOk();
    } else {
      var n := |cs| - 1;
      PackAllSends(cs[..n]);
      BacklogIs(cs[..n]);
      PutSends(PackAll(cs[..n]), cs[n]);
    }
  }

  lemma PutLength(p: Packer, l: nat, c: nat)
    ensures var q := PutCode(p, l, c); 8 * |q.out| + q.putlen == 8 * |p.out| + (p.putlen + l) % 256
  {
    hide Or, Shr, Shl;
  }

  /** Every overflow costs 256 bits. */
  lemma {:induction false} LengthBound(cs: seq<Code>)
    ensures var p := PackAll(cs);
            8 * |p.out| + p.putlen <= |Join(cs)| - if NoOverflow(cs) then 0 else 256
    decreases |cs|
  {
    hide Align, PutCode, Left;
    if cs == [] {
    } else {
      var n := |cs| - 1;
      LengthBound(cs[..n]);
      BacklogIs(cs[..n]);
      PutLength(PackAll(cs[..n]), |cs[n]|, Align(cs[n]));
    }
  }

  lemma {:induction false} CarriesIff(cs: seq<Code>)
    ensures Carries(cs) <==> Sent(cs) == Join(cs)
    decreases |cs|
  {
    hide SentAs;
    if cs == [] {
    } else {
      var n := |cs| - 1;
      CarriesIff(cs[..n]);
      SentLength(cs[..n]);
      SplitEqual(Sent(cs[..n]), SentAs(Backlog(cs[..n]), cs[n]), Join(cs[..n]), cs[n]);
    }
  }

  lemma SplitEqual(a: seq<bit>, b: seq<bit>, c: seq<bit>, d: seq<bit>)
    requires |a| == |c|
    ensures a + b == c + d <==> a == c && b == d
  {
    if a + b == c + d {
      assert a == (a + b)[..|a|] == (c + d)[..|a|] == c;
      assert b == (a + b)[|a|..] == (c + d)[|a|..] == d;
    }
  }

  /** The bytes written for the codes. */
  function Bytes(cs: seq<Code>): (bytes: seq<byte>) {
    PutEnd(PackAll(cs))
  }

  /** The bytes begin with the bits of all codes exactly if every code is carried and the end takes the rest. */
  lemma BytesBegin(cs: seq<Code>)
    ensures Join(cs) <= BytesBits(Bytes(cs)) <==> Intact(cs)
    ensures Intact(cs) ==> exists pad: nat :: pad < 8 && BytesBits(Bytes(cs)) == Join(cs) + Zeros(pad)
  {
    hide PackOk, BytesBits, Written, NoOverflow, Carries, Join, Sent, PackAll, PutEnd;
    var p := PackAll(cs);
    BacklogIs(cs);
    LengthBound(cs);
    CarriesIff(cs);
    SentLength(cs);
    if NoOverflow(cs) {
      PackAllSends(cs);
      PutEndCuts(p);
      if p.putlen <= 8 {
        PrefixEqual(Join(cs), Sent(cs), Zeros((8 - p.putlen) % 8));
      }
    } else {
      EndLength(p);
    }
  }

  lemma EndLength(p: Packer)
    ensures |BytesBits(PutEnd(p))| <= 8 * |p.out| + 8
  {
  }

  lemma PrefixEqual(a: seq<bit>, b: seq<bit>, z: seq<bit>)
    requires |a| == |b|
    ensures a <= b + z <==> a == b
  {
    if a <= b + z { assert a == (b + z)[..|a|] == b; }
  }

  /** Codes of at most sixteen bits are always carried. */
  lemma {:induction false} ShortCodesIntact(cs: seq<Code>)
    requires forall c :: c in cs ==> |c| <= 16
    ensures Intact(cs) && Backlog(cs) < 8
    decreases |cs|
  {
    if cs == [] {
    } else {
      ShortCodesIntact(cs[..|cs| - 1]);
    }
  }

  lemma JoinOne(c: Code)
    ensures Join([c]) == c
  {
    assert [c][..0] == [];
    assert [] + c == c;
  }

  lemma {:induction false} JoinConcat(a: seq<Code>, b: seq<Code>)
    ensures Join(a + b) == Join(a) + Join(b)
    decreases |b|
  {
    if b == [] {
      assert a + b == a;
      assert Join(a) + [] == Join(a);
    } else {
      var n := |b| - 1;
      JoinConcat(a, b[..n]);
      assert (a + b)[..|a| + n] == a + b[..n];
      Regroup(Join(a), Join(b[..n]), b[n]);
    }
  }

  lemma Snoc(cs: seq<Code>, c: Code)
    ensures PackAll(cs + [c]) == PutCode(PackAll(cs), |c|, Align(c)) && Join(cs + [c]) == Join(cs) + c
  {
    hide Align, PutCode;
    assert (cs + [c])[..|cs|] == cs;
  }
}
