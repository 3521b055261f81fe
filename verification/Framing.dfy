/**
 A message on the wire: a header with title and offset, blocks of data, and a checksum.
 */
module Framing {
  import opened Bits
  import opened Common
  import opened Text

  const SOH: byte := 1
  const STX: byte := 2
  const EOT: byte := 4
  const MAX_MSG: nat := 125

  function ByteSum(s: seq<byte>): (n: nat) {
    if s == [] then 0 else ByteSum(s[..|s| - 1]) + s[|s| - 1]
  }

  function Flat(cs: seq<seq<byte>>): (s: seq<byte>) {
    if cs == [] then [] else cs[0] + Flat(cs[1..])
  }

  function DigitByte(c: char): (b: byte)
    requires IsDigit(c)
    ensures b as char == c && b != 0
  {
    c as int
  }

  /** Digits as bytes. */
  function BytesOf(s: string): (b: seq<byte>)
    requires AllDigits(s)
    ensures |b| == |s| && 0 !in b
  {
    seq(|s|, i requires 0 <= i < |s| && AllDigits(s) => DigitByte(s[i]))
  }

  function AsText(b: seq<byte>): (s: string)
    ensures |s| == |b|
  {
    seq(|b|, i requires 0 <= i < |b| => b[i] as char)
  }

  /** A number in decimal, as bytes. */
  function DecBytes(n: nat): (s: seq<byte>)
    ensures 0 !in s
  {
    FromDec(n);
    BytesOf(Dec(n))
  }

  function Header(title: seq<byte>, offset: nat): (s: seq<byte>) {
    [SOH, (|title| + |DecBytes(offset)| + 2) % 256] + title + [0] + DecBytes(offset) + [0]
  }

  /** One block: its length, with 256 written as 0, and its data. */
  function Block(c: seq<byte>): (s: seq<byte>) {
    [STX, |c| % 256] + c
  }

  function Blocks(cs: seq<seq<byte>>): (s: seq<byte>) {
    if cs == [] then [] else Block(cs[0]) + Blocks(cs[1..])
  }

  /** The byte that brings the sum to 0. */
  function Trailer(data: seq<byte>): (s: seq<byte>) {
    [EOT, (256 - ByteSum(data) % 256) % 256]
  }

  function PieceLength(data: seq<byte>): (n: nat)
    ensures n <= |data| && n <= MAX_MSG && (data != [] ==> n > 0)
  {
    if |data| < MAX_MSG then |data| else MAX_MSG
  }

  /** Data cut into pieces of at most MAX_MSG bytes. */
  function Pieces(data: seq<byte>): (cs: seq<seq<byte>>) {
    if data == [] then [] else [data[..PieceLength(data)]] + Pieces(data[PieceLength(data)..])
  }

  /** What is sent for compressed data from an offset on. */
  function Frame(title: seq<byte>, offset: nat, data: seq<byte>): (s: seq<byte>)
    requires offset <= |data|
  {
    Header(title, offset) + Blocks(Pieces(data[offset..])) + Trailer(data[offset..])
  }

  lemma {:induction false} ByteSumConcat(a: seq<byte>, b: seq<byte>)
    ensures ByteSum(a + b) == ByteSum(a) + ByteSum(b)
    decreases |b|
  {
    if b == [] {
      assert a + b == a;
    } else {
      ByteSumConcat(a, b[..|b| - 1]);
      assert (a + b)[..|a + b| - 1] == a + b[..|b| - 1];
    }
  }

  /** Data too short to be compressed data is not sent beyond the header. */
  method WriteCompressed(title: seq<byte>, offset: nat, data: seq<byte>) returns (out: seq<byte>, ok: bool)
    requires offset <= |data|
    ensures ok == (|data| >= 6)
    ensures out == if ok then Frame(title, offset, data) else Header(title, offset)
  {
    out := Header(title, offset);
    if |data| < 6 {
      return out, false;
    }
    var body, sum := WriteBlocks(data[offset..]);
    out := out + body + [EOT, (256 - sum % 256) % 256];
    ok := true;
  }

  /** Write the data block by block. */
  method WriteBlocks(data: seq<byte>) returns (out: seq<byte>, sum: nat)
    ensures out == Blocks(Pieces(data)) && sum == ByteSum(data)
  {
    hide Block, ByteSum, Pieces, Blocks;
    var left: seq<byte> := data;
    out, sum := [], 0;
    Nothing();
    assert [] + Blocks(Pieces(data)) == Blocks(Pieces(data));
    while left != []
      invariant out + Blocks(Pieces(left)) == Blocks(Pieces(data))
      invariant sum + ByteSum(left) == ByteSum(data)
      decreases |left|
    {
      var n := PieceLength(left);
      var block, s := WriteBlock(left, n, sum);
      NextPiece(left, out);
      out, sum, left := out + block, s, left[n..];
    }
    assert out + [] == out;
  }

  lemma Nothing()
    ensures Blocks(Pieces([])) == [] && ByteSum([]) == 0
  {
  }

  lemma NextPiece(left: seq<byte>, out: seq<byte>)
    requires left != []
    ensures var n := PieceLength(left);
            && out + Blocks(Pieces(left)) == out + Block(left[..n]) + Blocks(Pieces(left[n..]))
            && ByteSum(left) == ByteSum(left[..n]) + ByteSum(left[n..])
  {
    hide Block, ByteSum;
    var n := PieceLength(left);
    var c: seq<byte>, rest: seq<byte> := left[..n], left[n..];
    assert c + rest == left;
    ByteSumConcat(c, rest);
    var ps := Pieces(rest);
    assert Pieces(left) == [c] + ps;
    assert ([c] + ps)[1..] == ps;
    Regroup(out, Block(c), Blocks(ps));
  }

  /** Write one block of n bytes, adding them up. */
  method WriteBlock(left: seq<byte>, n: nat, sum: nat) returns (block: seq<byte>, s: nat)
    requires n <= |left| && n <= MAX_MSG
    ensures block == Block(left[..n]) && s == sum + ByteSum(left[..n])
  {
    block, s := [STX, n], sum;
    for i := 0 to n
      invariant block == [STX, n] + left[..i] && s == sum + ByteSum(left[..i])
    {
      assert left[..i + 1] == left[..i] + [left[i]];
      assert left[..i + 1][..i] == left[..i];
      assert [STX, n] + left[..i] + [left[i]] == [STX, n] + left[..i + 1];
      block := block + [left[i]];
      s := s + left[i];
    }
  }

  // Reading.

  datatype Error = Eof | BadStart | HeaderMismatch | BadOffset | WrongOffset | BadByte | BadChecksum | LengthMismatch

  datatype Outcome = Message(title: seq<byte>, data: seq<byte>, rest: seq<byte>) | Failure(error: Error)

  /** The bytes up to the first NUL and what follows it. */
  function CutNul(s: seq<byte>): (r: Option<(seq<byte>, seq<byte>)>)
    ensures r.Some? ==> |r.value.1| < |s|
  {
    if s == [] then None
    else if s[0] == 0 then Some(([], s[1..]))
    else
      match CutNul(s[1..])
      case None => None
      case Some((head, rest)) => Some(([s[0]] + head, rest))
  }

  /** The byte at i, 0 past the end. */
  function ByteAt(s: seq<byte>, i: nat): byte {
    if i < |s| then s[i] else 0
  }

  function BlockLength(s: seq<byte>): (n: nat)
    ensures 1 <= n <= 256
  {
    if ByteAt(s, 1) == 0 then 256 else ByteAt(s, 1)
  }

  /** Read blocks onto buf until the end mark. */
  function ReadBlocks(title: seq<byte>, s: seq<byte>, buf: seq<byte>, size: int): (r: Outcome)
    decreases |s|
  {
    if s == [] then Failure(Eof)
    else if s[0] == STX then
      var n := BlockLength(s);
      if |s| < 2 + n then Failure(Eof)
      else ReadBlocks(title, s[2 + n..], buf + s[2..2 + n], size)
    else if s[0] == EOT then
      if (ByteSum(buf) + ByteAt(s, 1)) % 256 != 0 then Failure(BadChecksum)
      else if |buf| != size then Failure(LengthMismatch)
      else Message(title, buf, if |s| < 2 then [] else s[2..])
    else Failure(BadByte)
  }

  /** The header: the title and what follows the header, if it is the one expected. */
  function ReadHeader(s: seq<byte>, offset: int): (r: Outcome) {
    if s == [] then Failure(Eof)
    else if s[0] != SOH then Failure(BadStart)
    else if |s| < 2 then Failure(Eof)
    else
      match CutNul(s[2..])
      case None => Failure(Eof)
      case Some((title, more)) =>
        match CutNul(more)
        case None => Failure(Eof)
        case Some((off, rest)) =>
          if s[1] != |title| + |off| + 2 then Failure(HeaderMismatch)
          else
            match Atoi(AsText(off))
            case None => Failure(BadOffset)
            case Some(v) => if v != offset then Failure(WrongOffset) else Message(title, [], rest)
  }

  /** One message from the front of s. */
  function ReadFrame(s: seq<byte>, size: int, offset: int): (r: Outcome) {
    match ReadHeader(s, offset)
    case Failure(e) => Failure(e)
    case Message(title, _, rest) => ReadBlocks(title, rest, [], size)
  }

  /** Read a message, byte by byte. */
  method ReadCompressed(s: seq<byte>, size: int, offset: int) returns (r: Outcome)
    ensures r == ReadFrame(s, size, offset)
  {
    hide ByteSum, BlockLength, ReadHeader;
    var h := ReadHeader(s, offset);
    if h.Failure? {
      return h;
    }
    var left: seq<byte>, buf: seq<byte>, sum := h.rest, [], 0;
    assert sum == ByteSum(buf) % 256 by { Nothing(); }
    while true
      invariant ReadBlocks(h.title, left, buf, size) == ReadFrame(s, size, offset)
      invariant sum == ByteSum(buf) % 256
      decreases |left|
    {
      if left == [] {
        return Failure(Eof);
      } else if left[0] == STX {
        var n := BlockLength(left);
        if |left| < 2 + n {
          return Failure(Eof);
        }
        buf, sum := TakeBytes(left, n, buf, sum);
        left := left[2 + n..];
      } else if left[0] == EOT {
        sum := (sum + ByteAt(left, 1)) % 256;
        if sum != 0 {
          return Failure(BadChecksum);
        } else if size != |buf| {
          return Failure(LengthMismatch);
        }
        return Message(h.title, buf, if |left| < 2 then [] else left[2..]);
      } else {
        return Failure(BadByte);
      }
    }
  }

  method TakeBytes(s: seq<byte>, n: nat, buf: seq<byte>, sum: nat) returns (b: seq<byte>, t: nat)
    requires 2 + n <= |s| && sum == ByteSum(buf) % 256
    ensures b == buf + s[2..2 + n] && t == ByteSum(b) % 256
  {
    hide ByteSum;
    b, t := buf, sum;
    assert buf + s[2..2] == buf;
    for i := 0 to n
      invariant b == buf + s[2..2 + i] && t == ByteSum(b) % 256
    {
      OneByteMore(b, s[2 + i]);
      TakeOne(buf, s, i);
      b := b + [s[2 + i]];
      t := (t + s[2 + i]) % 256;
    }
  }

  lemma OneByteMore(b: seq<byte>, c: byte)
    ensures ByteSum(b + [c]) % 256 == (ByteSum(b) % 256 + c) % 256
  {
    assert (b + [c])[..|b|] == b;
  }

  lemma TakeOne(buf: seq<byte>, s: seq<byte>, i: nat)
    requires 2 + i < |s|
    ensures buf + s[2..2 + i] + [s[2 + i]] == buf + s[2..2 + (i + 1)]
  {
  }

  // What is written is read.

  lemma {:induction false} CutFirst(head: seq<byte>, rest: seq<byte>)
    requires 0 !in head
    ensures CutNul(head + [0] + rest) == Some((head, rest))
    decreases |head|
  {
    var s: seq<byte> := head + [0] + rest;
    if head == [] {
      assert s[1..] == rest;
    } else {
      var more: seq<byte> := head[1..];
      CutFirst(more, rest);
      assert s[1..] == more + [0] + rest;
      assert [head[0]] + more == head;
    }
  }

  lemma OffsetReads(offset: nat)
    requires offset <= MAX_INT
    ensures Atoi(AsText(DecBytes(offset))) == Some(offset as int)
  {
    FromDec(offset);
    assert AsText(BytesOf(Dec(offset))) == Dec(offset);
    AtoiDec(offset);
  }

  /** The header is read back exactly when its length fits the length byte. */
  lemma HeaderReads(title: seq<byte>, offset: nat, rest: seq<byte>)
    requires 0 !in title && offset <= MAX_INT
    ensures ReadHeader(Header(title, offset) + rest, offset) ==
            if |title| + |DecBytes(offset)| + 2 <= 255 then Message(title, [], rest) else Failure(HeaderMismatch)
  {
    hide CutNul, Atoi, DecBytes;
    var off: seq<byte> := DecBytes(offset);
    var more: seq<byte> := off + [0] + rest;
    var s: seq<byte> := Header(title, offset) + rest;
    HeaderParts(title, off, rest, s);
    CutFirst(title, more);
    CutFirst(off, rest);
    OffsetReads(offset);
  }

  lemma HeaderParts(title: seq<byte>, off: seq<byte>, rest: seq<byte>, s: seq<byte>)
    requires s == [SOH, (|title| + |off| + 2) % 256] + title + [0] + off + [0] + rest
    ensures |s| >= 2 && s[0] == SOH && s[1] == (|title| + |off| + 2) % 256 && s[2..] == title + [0] + (off + [0] + rest)
  {
  }

  lemma BlockSplits(c: seq<byte>, rest: seq<byte>)
    requires 1 <= |c| <= 256
    ensures var s: seq<byte> := Block(c) + rest;
            && |s| == 2 + |c| + |rest| && s[0] == STX && BlockLength(s) == |c|
            && s[2..2 + |c|] == c && s[2 + |c|..] == rest
  {
    var s: seq<byte> := Block(c) + rest;
    assert s[1] == |c| % 256;
  }

  /** However the data is cut into blocks of 1 to 256 bytes, the reader puts it together again. */
  lemma {:induction false} BlocksRead(title: seq<byte>, cs: seq<seq<byte>>, tail: seq<byte>, buf: seq<byte>, size: int)
    requires forall c :: c in cs ==> 1 <= |c| <= 256
    ensures ReadBlocks(title, Blocks(cs) + tail, buf, size) == ReadBlocks(title, tail, buf + Flat(cs), size)
    decreases |cs|
  {
    hide Block, BlockLength, ByteSum;
    if cs == [] {
      assert [] + tail == tail && buf + [] == buf;
    } else {
      var c: seq<byte>, more := cs[0], cs[1..];
      var rest: seq<byte> := Blocks(more) + tail;
      BlockSplits(c, rest);
      Regroup(Block(c), Blocks(more), tail);
      BlocksRead(title, more, tail, buf + c, size);
      Regroup(buf, c, Flat(more));
    }
  }

  lemma TrailerReads(title: seq<byte>, data: seq<byte>, rest: seq<byte>, size: int)
    ensures ReadBlocks(title, Trailer(data) + rest, data, size) ==
            if |data| == size then Message(title, data, rest) else Failure(LengthMismatch)
  {
    var s: seq<byte> := Trailer(data) + rest;
    assert s[2..] == rest;
  }

  lemma {:induction false} PiecesWhole(data: seq<byte>)
    ensures Flat(Pieces(data)) == data && forall c :: c in Pieces(data) ==> 1 <= |c| <= 256
    decreases |data|
  {
    if data == [] {
    } else {
      var n := PieceLength(data);
      var c: seq<byte>, rest: seq<byte> := data[..n], data[n..];
      PiecesWhole(rest);
      assert ([c] + Pieces(rest))[1..] == Pieces(rest);
      assert c + rest == data;
    }
  }

  /**
   A frame reads back as what was written, and leaves the bytes behind it alone, exactly when its header
   fits the length byte and what was sent has the length announced.
   */
  lemma FrameReads(title: seq<byte>, offset: nat, data: seq<byte>, rest: seq<byte>, size: int)
    requires 0 !in title && offset <= |data| && offset <= MAX_INT
    ensures ReadFrame(Frame(title, offset, data) + rest, size, offset) ==
            if |title| + |DecBytes(offset)| + 2 > 255 then Failure(HeaderMismatch)
            else if |data| - offset != size then Failure(LengthMismatch)
            else Message(title, data[offset..], rest)
  {
    hide Header, ReadHeader, ReadBlocks, Blocks, Pieces, Trailer, DecBytes;
    var sent: seq<byte> := data[offset..];
    var h, b, t := Header(title, offset), Blocks(Pieces(sent)), Trailer(sent);
    var tail: seq<byte> := t + rest;
    Regroup(h + b, t, rest);
    Regroup(h, b, tail);
    HeaderReads(title, offset, b + tail);
    PiecesWhole(sent);
    BlocksRead(title, Pieces(sent), tail, [], size);
    assert [] + sent == sent;
    TrailerReads(title, sent, rest, size);
  }

  // What the reader accepts.

  /** However data is cut into blocks, the checksum byte and then the announced size decide. */
  lemma BlocksDecide(title: seq<byte>, cs: seq<seq<byte>>, c: byte, rest: seq<byte>, size: int)
    requires forall b :: b in cs ==> 1 <= |b| <= 256
    ensures ReadBlocks(title, Blocks(cs) + ([4, c] + rest), [], size) ==
            if (ByteSum(Flat(cs)) + c) % 256 != 0 then Failure(BadChecksum)
            else if |Flat(cs)| != size then Failure(LengthMismatch)
            else Message(title, Flat(cs), rest)
  {
    hide Blocks, Flat, ByteSum;
    var tail: seq<byte> := [4, c] + rest;
    BlocksRead(title, cs, tail, [], size);
    assert [] + Flat(cs) == Flat(cs);
    assert tail[2..] == rest;
  }

  /** Changing one byte changes the sum by the difference. */
  lemma ByteSumChange(s: seq<byte>, k: nat, b: byte)
    requires k < |s|
    ensures ByteSum(s[k := b]) == ByteSum(s) - s[k] + b
  {
    var u: seq<byte>, v: seq<byte> := s[..k], s[k + 1..];
    ByteSumAround(u, s[k], v);
    ByteSumAround(u, b, v);
    assert s == u + [s[k]] + v && s[k := b] == u + [b] + v;
  }

  lemma ByteSumAround(u: seq<byte>, b: byte, v: seq<byte>)
    ensures ByteSum(u + [b] + v) == ByteSum(u) + b + ByteSum(v)
  {
    ByteSumConcat(u + [b], v);
    ByteSumConcat(u, [b]);
  }

  /** Where data byte k stands among the blocks written: every block but the last is full. */
  function DataAt(k: nat): (i: nat) {
    k + 2 * (k / 125 + 1)
  }

  /** Byte k of the data is byte DataAt(k) of the blocks, and nothing else depends on it. */
  lemma {:induction false} ChangedAt(data: seq<byte>, k: nat, b: byte)
    requires k < |data|
    ensures DataAt(k) < |Blocks(Pieces(data))| && Blocks(Pieces(data))[DataAt(k)] == data[k]
    ensures Blocks(Pieces(data))[DataAt(k) := b] == Blocks(Pieces(data[k := b]))
    decreases |data|
  {
    hide Pieces, Blocks;
    var n := PieceLength(data);
    var c: seq<byte>, rest: seq<byte> := data[..n], data[n..];
    var u: seq<byte> := data[k := b];
    PiecesNext(data);
    PiecesNext(u);
    if k < n {
      assert u[..n] == c[k := b] && u[n..] == rest;
    } else {
      assert n == 125 && u[..n] == c && u[n..] == rest[k - n := b];
      ChangedAt(rest, k - n, b);
      assert DataAt(k) == DataAt(k - n) + n + 2;
    }
  }

  lemma PiecesNext(data: seq<byte>)
    requires data != []
    ensures var n := PieceLength(data);
            Blocks(Pieces(data)) == [STX, n] + data[..n] + Blocks(Pieces(data[n..]))
  {
    var n := PieceLength(data);
    var c: seq<byte>, ps := data[..n], Pieces(data[n..]);
    assert Pieces(data) == [c] + ps && ([c] + ps)[1..] == ps;
  }

  /** A frame with exactly one of its data bytes changed is refused. */
  lemma ChangedByteRefused(title: seq<byte>, offset: nat, data: seq<byte>, k: nat, b: byte, rest: seq<byte>, size: int)
    requires 0 !in title && offset <= MAX_INT && |title| + |DecBytes(offset)| + 2 <= 255
    requires offset + k < |data| && b != data[offset + k]
    ensures var s, i := Frame(title, offset, data), |Header(title, offset)| + DataAt(k);
            && i < |s| && s[i] == data[offset + k]
            && ReadFrame(s[i := b] + rest, size, offset) == Failure(BadChecksum)
  {
    hide Header, ReadHeader, ReadBlocks, Blocks, Pieces, DecBytes, ByteSum, Flat, DataAt;
    var sent: seq<byte> := data[offset..];
    var h, d, t := Header(title, offset), Blocks(Pieces(sent)), Trailer(sent);
    var u: seq<byte> := sent[k := b];
    var d' := Blocks(Pieces(u));
    ChangedAt(sent, k, b);
    ChangedIn(h, d, t, DataAt(k), b);
    Regroup(h + d', t, rest);
    Regroup(h, d', t + rest);
    HeaderReads(title, offset, d' + (t + rest));
    PiecesWhole(u);
    ByteSumChange(sent, k, b);
    var sum := ByteSum(sent);
    BlocksDecide(title, Pieces(u), (256 - sum % 256) % 256, rest, size);
    ChecksumBreaks(sum, sent[k], b);
  }

  lemma ChangedIn(h: seq<byte>, d: seq<byte>, t: seq<byte>, i: nat, b: byte)
    requires i < |d|
    ensures (h + d + t)[|h| + i := b] == h + d[i := b] + t && (h + d + t)[|h| + i] == d[i]
  {
  }

  lemma ChecksumBreaks(sum: nat, a: byte, b: byte)
    requires a != b
    ensures (sum - a + b + (256 - sum % 256) % 256) % 256 != 0
  {
    var r, c := sum % 256, (256 - sum % 256) % 256;
    var q := if r == 0 then sum / 256 else sum / 256 + 1;
    assert sum + c == 256 * q;
    OffByLess(q, b - a);
  }

  /** Less than 256 away from a multiple of it there is no other. */
  lemma OffByLess(q: int, d: int)
    requires -256 < d < 256 && d != 0
    ensures (256 * q + d) % 256 != 0
  {
    var n := 256 * q + d;
    var e := n / 256 - q;
    assert n % 256 == d - 256 * e;
  }

  /** The blocks of whatever is accepted, and that nothing else was in it. */
  lemma {:induction false} BlocksAccepted(title: seq<byte>, s: seq<byte>, buf: seq<byte>, size: int)
    returns (cs: seq<seq<byte>>, tail: seq<byte>)
    requires ReadBlocks(title, s, buf, size).Message?
    ensures forall c :: c in cs ==> 1 <= |c| <= 256
    ensures s == Blocks(cs) + [4] + tail
    ensures var data := buf + Flat(cs);
            && |data| == size && (ByteSum(data) + ByteAt(tail, 0)) % 256 == 0
            && ReadBlocks(title, s, buf, size) == Message(title, data, if tail == [] then [] else tail[1..])
    decreases |s|
  {
    hide ByteSum, Block, Blocks, Flat, BlockLength, ReadBlocks;
    AcceptedOnce(title, s, buf, size);
    if s[0] == STX {
      var n := BlockLength(s);
      var c: seq<byte>, left: seq<byte> := s[2..2 + n], s[2 + n..];
      var ds, t := BlocksAccepted(title, left, buf + c, size);
      cs, tail := [c] + ds, t;
      BlockJoins(s, n);
      BlocksJoin(c, ds, t, buf);
    } else {
      cs, tail := [], s[1..];
      NoBlocks(buf);
      assert s == [] + [4] + tail;
    }
  }

  /** What is accepted starts with a block, and the rest is accepted, or with the end mark. */
  lemma AcceptedOnce(title: seq<byte>, s: seq<byte>, buf: seq<byte>, size: int)
    requires ReadBlocks(title, s, buf, size).Message?
    ensures s != [] && (s[0] == 2 || s[0] == 4)
    ensures s[0] == 2 ==>
              var n := BlockLength(s);
              && |s| >= 2 + n
              && ReadBlocks(title, s, buf, size) == ReadBlocks(title, s[2 + n..], buf + s[2..2 + n], size)
    ensures s[0] == 4 ==>
              && |buf| == size && (ByteSum(buf) + ByteAt(s[1..], 0)) % 256 == 0
              && ReadBlocks(title, s, buf, size) == Message(title, buf, if s[1..] == [] then [] else s[1..][1..])
  {
    hide ByteSum, BlockLength;
    assert ByteAt(s[1..], 0) == ByteAt(s, 1);
    if |s| >= 2 { assert s[1..][1..] == s[2..]; }
  }

  lemma BlocksJoin(c: seq<byte>, ds: seq<seq<byte>>, t: seq<byte>, buf: seq<byte>)
    ensures Blocks([c] + ds) + [4] + t == Block(c) + (Blocks(ds) + [4] + t)
    ensures buf + Flat([c] + ds) == buf + c + Flat(ds)
  {
    assert ([c] + ds)[1..] == ds;
  }

  lemma NoBlocks(buf: seq<byte>)
    ensures Blocks([]) == [] && buf + Flat([]) == buf
  {
  }

  lemma BlockJoins(s: seq<byte>, n: nat)
    requires |s| >= 2 + n && s[0] == STX && n == BlockLength(s)
    ensures s == Block(s[2..2 + n]) + s[2 + n..]
  {
  }

  lemma {:induction false} CutAccepted(s: seq<byte>)
    requires CutNul(s).Some?
    ensures var (head, rest) := CutNul(s).value; 0 !in head && s == head + [0] + rest
    decreases |s|
  {
    if s[0] == 0 {
      assert s == [] + [0] + s[1..];
    } else {
      CutAccepted(s[1..]);
      var (head, rest) := CutNul(s[1..]).value;
      assert s == [s[0]] + head + [0] + rest;
    }
  }

  /** Whatever header is accepted: its length byte, a title, the offset expected. */
  lemma HeaderAccepted(s: seq<byte>, offset: int) returns (off: seq<byte>)
    requires ReadHeader(s, offset).Message?
    ensures var h := ReadHeader(s, offset);
            && 0 !in h.title && 0 !in off && |h.title| + |off| + 2 <= 255
            && Atoi(AsText(off)) == Some(offset)
            && s == [1, |h.title| + |off| + 2] + h.title + [0] + off + [0] + h.rest
  {
    hide CutNul, Atoi;
    CutAccepted(s[2..]);
    var (title, more) := CutNul(s[2..]).value;
    CutAccepted(more);
    off := CutNul(more).value.0;
    var rest := CutNul(more).value.1;
    HeaderJoins(s, title, off, rest);
  }

  lemma HeaderJoins(s: seq<byte>, title: seq<byte>, off: seq<byte>, rest: seq<byte>)
    requires |s| >= 2 && s[0] == 1 && s[1] == |title| + |off| + 2 && s[2..] == title + [0] + (off + [0] + rest)
    ensures s == [1, |title| + |off| + 2] + title + [0] + off + [0] + rest
  {
    assert s == [s[0], s[1]] + s[2..];
  }

  /**
   Whatever is accepted as a message is a frame: a header with the expected offset, blocks holding
   exactly the data returned, of the announced size, and a byte that brings their sum to 0.
   */
  lemma FrameAccepted(s: seq<byte>, size: int, offset: int)
    returns (off: seq<byte>, cs: seq<seq<byte>>, tail: seq<byte>)
    requires ReadFrame(s, size, offset).Message?
    ensures var m := ReadFrame(s, size, offset);
            && 0 !in m.title && 0 !in off && |m.title| + |off| + 2 <= 255 && Atoi(AsText(off)) == Some(offset)
            && s == [1, |m.title| + |off| + 2] + m.title + [0] + off + [0] + (Blocks(cs) + [4] + tail)
            && m.data == Flat(cs) && |m.data| == size && (forall c :: c in cs ==> 1 <= |c| <= 256)
            && (ByteSum(m.data) + ByteAt(tail, 0)) % 256 == 0
            && m.rest == if tail == [] then [] else tail[1..]
  {
    hide ReadHeader, ReadBlocks, Blocks, Flat, ByteSum, Atoi;
    off := HeaderAccepted(s, offset);
    var h := ReadHeader(s, offset);
    cs, tail := BlocksAccepted(h.title, h.rest, [], size);
    assert [] + Flat(cs) == Flat(cs);
  }

  // A batch of messages.

  function Frames(ms: seq<(seq<byte>, seq<byte>)>): (s: seq<byte>) {
    if ms == [] then [] else Frame(ms[0].0, 0, ms[0].1) + Frames(ms[1..])
  }

  /** Read messages of the given sizes one after the other; what they hold and what is left. */
  function ReadBatch(s: seq<byte>, sizes: seq<int>): (r: Option<(seq<seq<byte>>, seq<byte>)>)
    decreases |sizes|
  {
    if sizes == [] then Some(([], s))
    else
      match ReadFrame(s, sizes[0], 0)
      case Failure(_) => None
      case Message(_, data, rest) =>
        match ReadBatch(rest, sizes[1..])
        case None => None
        case Some((more, left)) => Some(([data] + more, left))
  }

  ghost predicate Sendable(m: (seq<byte>, seq<byte>)) {
    0 !in m.0 && |m.0| <= 252
  }

  function Sizes(ms: seq<(seq<byte>, seq<byte>)>): (r: seq<int>)
    ensures |r| == |ms|
  {
    seq(|ms|, i requires 0 <= i < |ms| => |ms[i].1|)
  }

  function Datas(ms: seq<(seq<byte>, seq<byte>)>): (r: seq<seq<byte>>)
    ensures |r| == |ms|
  {
    seq(|ms|, i requires 0 <= i < |ms| => ms[i].1)
  }

  /** A batch of frames reads back message by message, each taking exactly its own bytes. */
  lemma {:induction false} BatchReads(ms: seq<(seq<byte>, seq<byte>)>, rest: seq<byte>)
    requires forall m :: m in ms ==> Sendable(m)
    ensures ReadBatch(Frames(ms) + rest, Sizes(ms)) == Some((Datas(ms), rest))
    decreases |ms|
  {
    hide ReadFrame, Frame, DecBytes;
    if ms == [] {
      assert [] + rest == rest;
    } else {
      var m, more := ms[0], ms[1..];
      assert Sendable(m);
      var tail: seq<byte> := Frames(more) + rest;
      Regroup(Frame(m.0, 0, m.1), Frames(more), rest);
      FrameReads(m.0, 0, m.1, tail, |m.1|);
      assert |DecBytes(0)| == 1 by { ZeroLength(); }
      assert m.1[0..] == m.1;
      BatchReads(more, rest);
      assert Sizes(ms)[1..] == Sizes(more);
      assert [m.1] + Datas(more) == Datas(ms);
    }
  }

  lemma ZeroLength()
    ensures |DecBytes(0)| == 1
  {
  }
}
