/**
 The token stream between match finder and entropy coder: what a stream of literals and
 copies means, and how it is written in bits with a tree that adapts after every symbol.
 */
module Tokens {
  import opened Bits
  import opened HuffmanTree
  import opened HuffmanRebuild
  import opened HuffmanCode
  import opened PositionCode
  import opened Common
  import BS = BitStream

  /** A byte, or a copy of len bytes from dist bytes back. */
  datatype Token = Literal(b: byte) | Copy(dist: nat, len: nat)

  ghost predicate TokenOk(k: Token) {
    k.Copy? ==> 1 <= k.dist <= 1988 && 3 <= k.len <= 60
  }

  ghost predicate TokensOk(ks: seq<Token>) {
    forall i :: 0 <= i < |ks| ==> TokenOk(ks[i])
  }

  /** The text buffer both sides start from: spaces, but for the last sixty slots of the ring and their mirror. */
  function FreshText(): (text: seq<byte>)
    ensures |text| == 2107
  {
    seq(2107, i => if i < 1988 then 32 else 0)
  }

  /** The text behind position 0 counts as spaces. */
  function Hist(x: seq<byte>, j: int): byte
    requires j < |x|
  {
    if j < 0 then 32 else x[j]
  }

  ghost predicate CopyOk(x: seq<byte>, pos: nat, dist: nat, len: nat) {
    && pos + len <= |x|
    && 1 <= dist <= pos + 60
    && forall i :: pos <= i < pos + len ==> x[i] == Hist(x, i - dist)
  }

  /** The tokens tile the first n bytes of x. */
  ghost predicate Covers(x: seq<byte>, ks: seq<Token>, n: int) {
    if ks == [] then n == 0
    else
      var k := ks[|ks| - 1];
      match k
      case Literal(b) => 1 <= n <= |x| && x[n - 1] == b && Covers(x, ks[..|ks| - 1], n - 1)
      case Copy(dist, len) => n >= len && CopyOk(x, n - len, dist, len) && Covers(x, ks[..|ks| - 1], n - len)
  }

  lemma {:induction false} CoversExtend(x: seq<byte>, y: seq<byte>, ks: seq<Token>, n: int)
    requires Covers(x, ks, n)
    ensures Covers(x + y, ks, n)
    decreases |ks|
  {
    if ks == [] {
    } else {
      var k := ks[|ks| - 1];
      CoversExtend(x, y, ks[..|ks| - 1], n - if k.Literal? then 1 else k.len);
      if k.Copy? {
        forall i | n - k.len <= i < n ensures (x + y)[i] == Hist(x + y, i - k.dist) {
          assert x[i] == Hist(x, i - k.dist);
        }
      }
    }
  }

  lemma CoversSnoc(x: seq<byte>, ks: seq<Token>, n: int, k: Token)
    requires Covers(x, ks, n) && 0 <= n
    requires k.Literal? ==> n < |x| && x[n] == k.b
    requires k.Copy? ==> CopyOk(x, n, k.dist, k.len)
    ensures Covers(x, ks + [k], n + if k.Literal? then 1 else k.len)
  {
    hide CopyOk;
    var all := ks + [k];
    assert all[..|all| - 1] == ks && all[|all| - 1] == k;
  }

  /** Append n bytes, each a copy of the one dist back, so a copy may overlap itself. */
  function CopyBytes(out: seq<byte>, dist: nat, n: nat): (r: seq<byte>)
    requires dist >= 1
    ensures |r| == |out| + n && r[..|out|] == out
    decreases n
  {
    if n == 0 then out
    else
      var r := CopyBytes(out, dist, n - 1);
      r + [Hist(r, |r| - dist)]
  }

  function Expand(ks: seq<Token>): (r: seq<byte>)
    requires TokensOk(ks)
  {
    if ks == [] then []
    else
      var out := Expand(ks[..|ks| - 1]);
      match ks[|ks| - 1]
      case Literal(b) => out + [b]
      case Copy(dist, len) => CopyBytes(out, dist, len)
  }

  lemma {:induction false} CopySound(x: seq<byte>, pos: nat, dist: nat, len: nat, n: nat)
    requires CopyOk(x, pos, dist, len) && n <= len
    ensures CopyBytes(x[..pos], dist, n) == x[..pos + n]
    decreases n
  {
    hide CopyBytes;
    CopyLast(x[..pos], dist, n);
    if n == 0 {
    } else {
      CopySound(x, pos, dist, len, n - 1);
      var i := pos + n - 1;
      assert x[i] == Hist(x, i - dist) == Hist(x[..i], i - dist);
      assert x[..i] + [x[i]] == x[..i + 1];
    }
  }

  lemma CopyLast(out: seq<byte>, dist: nat, n: nat)
    requires dist >= 1
    ensures n == 0 ==> CopyBytes(out, dist, n) == out
    ensures n > 0 ==> var r := CopyBytes(out, dist, n - 1); CopyBytes(out, dist, n) == r + [Hist(r, |r| - dist)]
  {
  }

  /** A tiling of x expands to x. */
  lemma {:induction false} CoversExpands(x: seq<byte>, ks: seq<Token>, n: int)
    requires TokensOk(ks) && Covers(x, ks, n)
    ensures 0 <= n <= |x| && Expand(ks) == x[..n]
    decreases |ks|
  {
    if ks == [] {
    } else {
      var k := ks[|ks| - 1];
      var m := n - if k.Literal? then 1 else k.len;
      CoversExpands(x, ks[..|ks| - 1], m);
      if k.Copy? {
        CopySound(x, m, k.dist, k.len, k.len);
      } else {
        assert x[..n] == x[..m] + [x[m]];
      }
    }
  }

  function Symbol(k: Token): (c: nat)
    requires TokenOk(k)
    ensures c < NUM_CHAR
  {
    match k case Literal(b) => b case Copy(_, len) => 253 + len
  }

  /** The symbols: the bytes, and then the lengths of a copy from 3 on, one each. */
  lemma SymbolOrder(b: byte, d: nat, len: nat)
    requires 1 <= d <= 1988 && 3 <= len <= 60
    ensures Symbol(Literal(0)) == 0 && (b < 255 ==> Symbol(Literal(b + 1)) == Symbol(Literal(b)) + 1)
    ensures Symbol(Copy(d, 3)) == Symbol(Literal(255)) + 1
    ensures len < 60 ==> Symbol(Copy(d, len + 1)) == Symbol(Copy(d, len)) + 1
  {
  }

  /** A copy at the very start is of spaces, from however far back. */
  lemma {:induction false} BlankStart(d: nat, n: nat)
    requires d >= 1
    ensures CopyBytes([], d, n) == seq(n, _ => 32)
    decreases n
  {
    if n == 0 {
    } else {
      BlankStart(d, n - 1);
    }
  }

  function TreeAfter(t: Tree, ks: seq<Token>): (r: Tree)
    requires Inv(t) && TokensOk(ks)
    ensures Inv(r)
  {
    if ks == [] then t else Update(TreeAfter(t, ks[..|ks| - 1]), Symbol(ks[|ks| - 1]))
  }

  function TokenBits(t: Tree, k: Token): (bs: seq<bit>)
    requires Inv(t) && TokenOk(k)
    ensures |bs| >= 1
  {
    Code(t, Symbol(k)) + match k case Literal(_) => [] case Copy(dist, _) => PosBits(dist - 1)
  }

  /** The bit stream of the tokens, with the tree updated after each symbol. */
  function StreamBits(t: Tree, ks: seq<Token>): (bs: seq<bit>)
    requires Inv(t) && TokensOk(ks)
    ensures |bs| >= |ks|
  {
    if ks == [] then []
    else StreamBits(t, ks[..|ks| - 1]) + TokenBits(TreeAfter(t, ks[..|ks| - 1]), ks[|ks| - 1])
  }

  /** The codes put for a token: the symbol, and for a copy the two parts of its position. */
  function TokenCodes(t: Tree, k: Token): (cs: seq<BS.Code>)
    requires Inv(t) && TokenOk(k)
  {
    [Code(t, Symbol(k))] +
    match k case Literal(_) => [] case Copy(dist, _) => [PosPrefix((dist - 1) / 64), ToBits((dist - 1) % 64, 6)]
  }

  function Codes(t: Tree, ks: seq<Token>): (cs: seq<BS.Code>)
    requires Inv(t) && TokensOk(ks)
  {
    if ks == [] then []
    else Codes(t, ks[..|ks| - 1]) + TokenCodes(TreeAfter(t, ks[..|ks| - 1]), ks[|ks| - 1])
  }

  /** The packer carries the codes of the tokens, every one of them as it is, to the last byte. */
  ghost predicate Carried(t: Tree, ks: seq<Token>)
    requires Inv(t) && TokensOk(ks)
  {
    BS.Intact(Codes(t, ks))
  }

  lemma JoinToken(t: Tree, k: Token)
    requires Inv(t) && TokenOk(k)
    ensures BS.Join(TokenCodes(t, k)) == TokenBits(t, k)
  {
    hide Balanced, Code, PosPrefix, ToBits, BS.Join, Symbol;
    var c := Code(t, Symbol(k));
    if k.Copy? {
      JoinThree(c, PosPrefix((k.dist - 1) / 64), ToBits((k.dist - 1) % 64, 6));
    } else {
      BS.JoinOne(c);
      assert [c] + [] == [c] && c + [] == c;
    }
  }

  lemma JoinThree(c: seq<bit>, hi: seq<bit>, lo: seq<bit>)
    ensures BS.Join([c] + [hi, lo]) == c + (hi + lo)
  {
    hide BS.Join;
    BS.JoinOne(c);
    BS.Snoc([c], hi);
    BS.Snoc([c, hi], lo);
    assert [c] + [hi] == [c, hi] && [c, hi] + [lo] == [c] + [hi, lo];
    Regroup(c, hi, lo);
  }

  /** The codes, one after the other, are the bit stream. */
  lemma {:induction false} JoinCodes(t: Tree, ks: seq<Token>)
    requires Inv(t) && TokensOk(ks)
    ensures BS.Join(Codes(t, ks)) == StreamBits(t, ks)
    decreases |ks|
  {
    hide Inv, TokenCodes, TokenBits, TreeAfter;
    if ks == [] {
      assert BS.Join([]) == [];
    } else {
      var n := |ks| - 1;
      JoinCodes(t, ks[..n]);
      JoinToken(TreeAfter(t, ks[..n]), ks[n]);
      BS.JoinConcat(Codes(t, ks[..n]), TokenCodes(TreeAfter(t, ks[..n]), ks[n]));
    }
  }

  lemma {:induction false} FewTokens(t: Tree, ks: seq<Token>)
    requires Inv(t) && TokensOk(ks) && t.freq[ROOT] + |ks| <= 4181
    ensures TreeAfter(t, ks).freq[ROOT] == t.freq[ROOT] + |ks|
    ensures forall c :: c in Codes(t, ks) ==> |c| <= 16
    decreases |ks|
  {
    hide Balanced, Code;
    if ks == [] {
    } else {
      var front := ks[..|ks| - 1];
      FewTokens(t, front);
      CodeLengths(TreeAfter(t, front), Symbol(ks[|ks| - 1]));
    }
  }

  lemma {:induction false} CoversCount(x: seq<byte>, ks: seq<Token>, n: int)
    requires TokensOk(ks) && Covers(x, ks, n)
    ensures |ks| <= n
    decreases |ks|
  {
    if ks == [] {
    } else {
      var k := ks[|ks| - 1];
      assert TokenOk(k);
      CoversCount(x, ks[..|ks| - 1], n - if k.Literal? then 1 else k.len);
    }
  }
}
