/**
 A parse of a text that the packer does not carry: 13882 copies of spaces make the counts of LongCodes, and
 one more token has a code whose last bit is lost.
 */
module LongParse {
  import opened Common
  import opened Bits
  import opened HuffmanTree
  import HB = HuffmanRebuild
  import HC = HuffmanCount
  import HU = HuffmanUnique
  import opened HuffmanCode
  import BP = BitPacker
  import BS = BitStream
  import opened Tokens
  import RC = ReaderCorrect
  import opened LongCodes

  function Times(k: Token, n: nat): (ks: seq<Token>)
    ensures |ks| == n
  {
    seq(n, _ => k)
  }

  /** Counting a token n times. */
  lemma {:induction false} CountTimes(t: Tree, k: Token, n: nat, s: nat)
    requires Inv(t) && TokenOk(k) && t.freq[ROOT] + n <= MAX_FREQ && s < NUM_CHAR
    ensures TokensOk(Times(k, n))
    ensures var u := TreeAfter(t, Times(k, n));
            && u.freq[ROOT] == t.freq[ROOT] + n && HC.Located(t, s) && HC.Located(u, s)
            && HC.Count(u, s) == HC.Count(t, s) + if s == Symbol(k) then n else 0
    decreases n
  {
    hide Balanced, HB.Update, Symbol;
    HC.BalancedShape(t, T);
    HC.LeafPlace(t, T, s, 0);
    if n == 0 {
    } else {
      CountTimes(t, k, n - 1, s);
      assert Times(k, n)[..n - 1] == Times(k, n - 1);
      HC.UpdateCounts(TreeAfter(t, Times(k, n - 1)), Symbol(k), s);
    }
  }

  /** The copies of the first m of the eight lengths, each as often as it takes. */
  function LongTokens(m: nat): (ks: seq<Token>)
    requires m <= 8
    ensures TokensOk(ks) && |ks| == LongSize(m) && forall k :: k in ks ==> k.Copy? && k.dist == 1
  {
    if m == 0 then [] else
      SizeStep(m);
      LongTokens(m - 1) + Times(Copy(1, 52 + m), LongCount(305 + m) - 1)
  }

  function LongSize(m: nat): nat {
    if m == 0 then 0 else if m == 1 then 178 else if m == 2 then 484 else if m == 3 then 969
    else if m == 4 then 1761 else if m == 5 then 3039 else if m == 6 then 5110 else if m == 7 then 8460 else 13882
  }

  lemma SizeStep(m: nat)
    requires 1 <= m <= 8
    ensures LongCount(305 + m) >= 1 && LongSize(m) == LongSize(m - 1) + LongCount(305 + m) - 1 <= 13882
  {
  }

  lemma {:induction false} AfterBoth(t: Tree, ks: seq<Token>, more: seq<Token>)
    requires Inv(t) && TokensOk(ks) && TokensOk(more)
    ensures TokensOk(ks + more) && TreeAfter(t, ks + more) == TreeAfter(TreeAfter(t, ks), more)
    decreases |more|
  {
    hide Inv, HB.Update, TreeAfter, Symbol;
    if more == [] {
      assert ks + more == ks;
      AfterNone(TreeAfter(t, ks));
    } else {
      var n := |more| - 1;
      AfterBoth(t, ks, more[..n]);
      AfterOne(t, ks + more[..n], more[n]);
      AfterOne(TreeAfter(t, ks), more[..n], more[n]);
      assert more[..n] + [more[n]] == more && ks + more[..n] + [more[n]] == ks + more;
    }
  }

  lemma AfterOne(t: Tree, ks: seq<Token>, k: Token)
    requires Inv(t) && TokensOk(ks) && TokenOk(k)
    ensures TokensOk(ks + [k]) && TreeAfter(t, ks + [k]) == HB.Update(TreeAfter(t, ks), Symbol(k))
  {
    hide Inv, HB.Update, Symbol;
    assert (ks + [k])[..|ks|] == ks;
  }

  lemma {:induction false} CountLong(m: nat, s: nat)
    requires m <= 8 && s < NUM_CHAR
    ensures Inv(HB.FreshTree())
    ensures var u := TreeAfter(HB.FreshTree(), LongTokens(m));
            && u.freq[ROOT] == NUM_CHAR + LongSize(m)
            && HC.Located(u, s) && HC.Count(u, s) == if 306 <= s < 306 + m then LongCount(s) else 1
    decreases m
  {
    hide Balanced, HB.FreshTree, TreeAfter, LongCount, Times;
    HB.FreshTreeOk();
    if m == 0 {
      AfterNone(HB.FreshTree());
      HC.FreshCounts(s);
    } else {
      CountLong(m - 1, s);
      SizeStep(m);
      var k, n := Copy(1, 52 + m), LongCount(305 + m) - 1;
      var u := TreeAfter(HB.FreshTree(), LongTokens(m - 1));
      CountTimes(u, k, n, s);
      AfterBoth(HB.FreshTree(), LongTokens(m - 1), Times(k, n));
    }
  }

  lemma AfterNone(t: Tree)
    requires Inv(t)
    ensures TreeAfter(t, []) == t
  {
  }

  /** After these tokens the tree counts what LongCodes asks for. */
  lemma Reached()
    ensures Inv(HB.FreshTree()) && CountsLong(TreeAfter(HB.FreshTree(), LongTokens(8)))
  {
    hide Balanced, HB.FreshTree, TreeAfter, LongTokens, LongTree, LongCount, HC.Count;
    HB.FreshTreeOk();
    var u := TreeAfter(HB.FreshTree(), LongTokens(8));
    forall s: nat | s < NUM_CHAR
      ensures HC.Located(u, s) && HC.Located(LongTree(), s) && HC.Count(u, s) == HC.Count(LongTree(), s)
    {
      CountLong(8, s);
      LongCounts(s);
      SmallCounts(s);
    }
  }

  lemma SmallCounts(s: nat)
    requires s < NUM_CHAR
    ensures s < 306 ==> LongCount(s) == 1
  {
  }

  lemma {:induction false} CarriesEach(cs: seq<BS.Code>, i: nat)
    requires BS.Carries(cs) && i < |cs|
    ensures BP.SentAs(BS.Backlog(cs[..i]), cs[i]) == cs[i]
    decreases |cs|
  {
    hide BP.SentAs, BS.Backlog;
    if i == |cs| - 1 {
    } else {
      var n := |cs| - 1;
      CarriesEach(cs[..n], i);
      assert cs[..n][..i] == cs[..i];
    }
  }

  /** A token whose symbol no state of the packer carries is not carried. */
  lemma NotCarried(t: Tree, ks: seq<Token>, k: Token)
    requires Inv(t) && TokensOk(ks) && TokenOk(k)
    requires var code := Code(TreeAfter(t, ks), Symbol(k)); forall n :: BP.SentAs(n, code) != code
    ensures TokensOk(ks + [k]) && !Carried(t, ks + [k])
  {
    hide Balanced, Code, Codes, TokenCodes, TreeAfter, BP.SentAs, BS.Carries, BS.NoOverflow, BS.Backlog, Symbol;
    CodesSnoc(t, ks, k);
    FirstCode(TreeAfter(t, ks), k);
    var cs, i := Codes(t, ks + [k]), |Codes(t, ks)|;
    if BS.Carries(cs) { CarriesEach(cs, i); }
  }

  lemma CodesSnoc(t: Tree, ks: seq<Token>, k: Token)
    requires Inv(t) && TokensOk(ks) && TokenOk(k)
    ensures TokensOk(ks + [k]) && Codes(t, ks + [k]) == Codes(t, ks) + TokenCodes(TreeAfter(t, ks), k)
  {
    hide Inv, TokenCodes, TreeAfter;
    assert (ks + [k])[..|ks|] == ks;
  }

  lemma FirstCode(t: Tree, k: Token)
    requires Inv(t) && TokenOk(k)
    ensures |TokenCodes(t, k)| >= 1 && TokenCodes(t, k)[0] == Code(t, Symbol(k))
  {
    hide Balanced, Code, ToBits;
  }

  lemma {:induction false} CopyCovers(out: seq<byte>, dist: nat, n: nat)
    requires 1 <= dist <= |out| + 60
    ensures CopyOk(CopyBytes(out, dist, n), |out|, dist, n)
    decreases n
  {
    if n == 0 {
    } else {
      CopyCovers(out, dist, n - 1);
      var r, all := CopyBytes(out, dist, n - 1), CopyBytes(out, dist, n);
      forall i | |out| <= i < |all| ensures all[i] == Hist(all, i - dist) {
        if i < |r| { assert r[i] == Hist(r, i - dist); }
      }
    }
  }

  /** Tokens that reach back no further than the spaces before the start are a parse of the text they make. */
  lemma {:induction false} Parses(ks: seq<Token>)
    requires TokensOk(ks) && forall k :: k in ks && k.Copy? ==> k.dist <= 60
    ensures Covers(Expand(ks), ks, |Expand(ks)|)
    decreases |ks|
  {
    hide CopyOk;
    if ks == [] {
    } else {
      var n := |ks| - 1;
      Parses(ks[..n]);
      var out, all, k := Expand(ks[..n]), Expand(ks), ks[n];
      assert out <= all;
      CoversExtend(out, all[|out|..], ks[..n], |out|);
      assert out + all[|out|..] == all;
      if k.Copy? { CopyCovers(out, k.dist, k.len); }
    }
  }

  /** The token for a symbol. */
  function TokenFor(c: nat): (k: Token)
    requires c < NUM_CHAR
    ensures TokenOk(k) && Symbol(k) == c && (k.Copy? ==> k.dist == 1)
  {
    if c < 256 then Literal(c) else Copy(1, c - 253)
  }

  /**
   There is a text, and a parse of it into literals and copies, whose codes the packer does not carry: what is
   written for these tokens is not read back as these tokens.
   */
  lemma LongCodesOccur() returns (ks: seq<Token>)
    ensures Inv(HB.FreshTree()) && TokensOk(ks) && |ks| == 13883 && Covers(Expand(ks), ks, |Expand(ks)|)
    ensures !Carried(HB.FreshTree(), ks)
    ensures RC.Follow(BytesBits(BS.Bytes(Codes(HB.FreshTree(), ks))), HB.FreshTree(), ks).None?
  {
    hide Balanced, HB.FreshTree, TreeAfter, Expand, Covers, LongTokens, CountsLong, BytesBits, BS.Bytes,
         BS.Intact, BS.Join;
    hide RC.Follow, StartsAt, StreamBits, Codes, BP.SentAs;
    HB.FreshTreeOk();
    Reached();
    var t, front := HB.FreshTree(), LongTokens(8);
    var c := LongCodeOf(TreeAfter(t, front));
    NotCarried(t, front, TokenFor(c));
    ks := front + [TokenFor(c)];
    Parses(ks);
    var bits := BytesBits(BS.Bytes(Codes(t, ks)));
    BS.BytesBegin(Codes(t, ks));
    JoinCodes(t, ks);
    RC.FollowIff(bits, t, ks);
    BeginsAt(bits, StreamBits(t, ks));
  }

  lemma BeginsAt(bits: seq<bit>, s: seq<bit>)
    ensures StartsAt(bits, 0, s) <==> s <= bits
  {
  }
}
