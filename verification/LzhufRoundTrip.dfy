/**
 The codec as a whole: whatever was written, in whatever pieces, is read back, in whatever
 pieces, and the reader is satisfied at the end.
 */
module LzhufRoundTrip {
  import opened Bits
  import HT = HuffmanTree
  import HB = HuffmanRebuild
  import opened HuffmanCode
  import opened Tokens
  import BS = BitStream
  import opened Crc
  import opened FileFormat
  import WM = WriterModel
  import WC = WriterCorrect
  import RM = ReaderModel
  import RC = ReaderCorrect
  import LzhufWriter
  import opened LzhufReader
  import BR = BitReader

  const MAX_SIZE: nat := 0x7fff_ffff

  /** The packer carries all codes the writer puts for x. */
  ghost predicate CodesCarried(x: seq<byte>) {
    HB.FreshTreeOk();
    WC.WriterEmits(HB.FreshTree(), x);
    Carried(HB.FreshTree(), WC.TokensFor(HB.FreshTree(), x))
  }

  /** No token before the last ends where the reader's 32-bit counter has reached the size field. */
  ghost predicate SizeReached(x: seq<byte>) {
    HB.FreshTreeOk();
    WC.WriterEmits(HB.FreshTree(), x);
    var ks := WC.TokensFor(HB.FreshTree(), x);
    RC.Stop(ks, RM.Wrap32(|x|), 0) == |ks|
  }

  /** The compressed file of x. */
  function Compressed(crc16: bool, x: seq<byte>): (f: seq<byte>) {
    HB.FreshTreeOk();
    File(crc16, RM.Wrap32(|x|), WC.Payload(HB.FreshTree(), x))
  }

  /** The codes of texts of at most 3867 bytes are always carried. */
  lemma ShortTextsCarried(x: seq<byte>)
    requires |x| <= 3867
    ensures CodesCarried(x)
  {
    hide HT.Inv, HB.FreshTree, Covers, Codes, TreeAfter, BS.Intact;
    var t := HB.FreshTree();
    HB.FreshTreeOk();
    WC.WriterEmits(t, x);
    var ks := WC.TokensFor(t, x);
    CoversCount(x, ks, |x|);
    FewTokens(t, ks);
    BS.ShortCodesIntact(Codes(t, ks));
  }

  /** The payload of x begins with the bit stream of its tokens exactly if their codes are carried. */
  lemma PayloadBegins(x: seq<byte>)
    ensures HT.Inv(HB.FreshTree())
    ensures var t := HB.FreshTree(); var ks := WC.TokensFor(t, x); var bits := BytesBits(WC.Payload(t, x));
            && TokensOk(ks) && Covers(x, ks, |x|)
            && (StartsAt(bits, 0, StreamBits(t, ks)) <==> CodesCarried(x))
            && (CodesCarried(x) ==> exists pad: nat :: pad < 8 && bits == StreamBits(t, ks) + Zeros(pad))
  {
    hide HT.Inv, HB.FreshTree, Covers, Codes, StreamBits, WC.TokensFor, WC.Payload, BytesBits, BS.Intact,
         BS.Bytes, BS.Join;
    var t := HB.FreshTree();
    HB.FreshTreeOk();
    WC.WriterEmits(t, x);
    var ks := WC.TokensFor(t, x);
    JoinCodes(t, ks);
    BS.BytesBegin(Codes(t, ks));
    Begins(BytesBits(WC.Payload(t, x)), StreamBits(t, ks));
  }

  lemma Begins(bits: seq<bit>, s: seq<bit>)
    ensures StartsAt(bits, 0, s) <==> s <= bits
  {
  }

  /**
   What the reader decodes from the payload of x is the tokens the writer chose exactly if their codes
   are carried.
   */
  lemma TokensReadBack(x: seq<byte>)
    ensures HT.Inv(HB.FreshTree())
    ensures var t := HB.FreshTree(); var ks := WC.TokensFor(t, x);
            && TokensOk(ks) && Covers(x, ks, |x|)
            && (RC.Follow(BytesBits(WC.Payload(t, x)), t, ks).Some? <==> CodesCarried(x))
  {
    hide HT.Inv, HB.FreshTree, Covers, StreamBits, WC.TokensFor, WC.Payload, BytesBits, CodesCarried, RC.Follow,
         StartsAt;
    PayloadBegins(x);
    var t := HB.FreshTree();
    RC.FollowIff(BytesBits(WC.Payload(t, x)), t, WC.TokensFor(t, x));
  }

  /**
   Decoding the payload of a text whose codes are carried delivers a prefix of the text, without an error: the
   text itself exactly if its size is reached at its end, and then all but the last byte of the payload is read.
   */
  lemma PayloadDecodes(x: seq<byte>)
    requires CodesCarried(x)
    ensures HT.Inv(HB.FreshTree())
    ensures var payload, size := WC.Payload(HB.FreshTree(), x), RM.Wrap32(|x|);
            && RM.Ok(BytesBits(payload), RM.FreshReader(HB.FreshTree()))
            && var (v, out) := RM.Run(BytesBits(payload), size, RM.FreshReader(HB.FreshTree()));
               && out <= x && v.cur.ok && (out == x <==> SizeReached(x))
               && (SizeReached(x) ==> v.pos == size && 8 * |payload| < v.cur.pos + 8)
  {
    hide HT.Balanced, HB.FreshTree, Covers, CodesCarried, StreamBits, WC.TokensFor, WC.Payload, BytesBits,
         RM.Run, RM.Wrap32, RC.Stop, Expand;
    var t := HB.FreshTree();
    PayloadBegins(x);
    var ks := WC.TokensFor(t, x);
    var bits, size := BytesBits(WC.Payload(t, x)), RM.Wrap32(|x|);
    var pad: nat :| pad < 8 && bits == StreamBits(t, ks) + Zeros(pad);
    assert ks[..|ks|] == ks;
    RC.ShorterText(x, ks, |ks|);
    RC.ReaderDelivers(bits, t, ks, x, size);
    RC.ShorterText(x, ks, RC.Stop(ks, size, 0));
  }

  /** Sizes that fit the size field are reached at the end of the text, and only there. */
  lemma SmallSizesReached(x: seq<byte>)
    requires |x| <= MAX_SIZE
    ensures SizeReached(x) && RM.Wrap32(|x|) == |x|
  {
    hide HT.Inv, HB.FreshTree, Covers, WC.TokensFor, WC.Payload, RM.Wrap32, RC.Stop;
    RM.WrapSmall(|x|);
    HB.FreshTreeOk();
    WC.WriterEmits(HB.FreshTree(), x);
    RC.StopsAtEnd(x, WC.TokensFor(HB.FreshTree(), x), 0);
  }

  /**
   From 2^31 bytes on the size field does not hold the size, and the text is not delivered: what the
   reader hands out is shorter.
   */
  lemma OversizeNotDelivered(x: seq<byte>)
    requires |x| > MAX_SIZE && RM.Wrap32(|x|) <= MAX_SIZE - 60
    ensures HT.Inv(HB.FreshTree())
    ensures var bits := BytesBits(WC.Payload(HB.FreshTree(), x));
            && RM.Ok(bits, RM.FreshReader(HB.FreshTree()))
            && |RM.Run(bits, RM.Wrap32(|x|), RM.FreshReader(HB.FreshTree())).1| < |x|
  {
    hide HT.Inv, HB.FreshTree, WC.Payload, BytesBits, RM.Run;
    HB.FreshTreeOk();
    var t := HB.FreshTree();
    RM.RunLength(BytesBits(WC.Payload(t, x)), RM.Wrap32(|x|), RM.FreshReader(t));
  }

  function Flatten(ps: seq<seq<byte>>): (x: seq<byte>) {
    if ps == [] then [] else Flatten(ps[..|ps| - 1]) + ps[|ps| - 1]
  }

  lemma FlattenOne(x: seq<byte>)
    ensures Flatten([x]) == x
  {
    assert [x][..0] == [] && [x][1..] == [];
    assert Flatten([]) == [];
    assert [] + x == x && x + [] == x;
  }

  /** The size field counts the bytes written, as far as 32 bits go. */
  lemma {:induction false} FileSizeCounts(t: HT.Tree, x: seq<byte>)
    requires HT.Inv(t)
    ensures WM.Open(WM.FreshWriter(t)) && WM.WriteAll(WM.FreshWriter(t), x).fileSize == RM.Wrap32(|x|)
    decreases |x|
  {
    hide WM.Open, HT.Inv, WM.WriteByte;
    WM.FreshWriterOpen(t);
    if x == [] {
    } else {
      var n := |x| - 1;
      FileSizeCounts(t, x[..n]);
      WM.WriteByteSize(WM.WriteAll(WM.FreshWriter(t), x[..n]), x[n]);
    }
  }

  /** Write the pieces, close, and take the file: it depends on their concatenation only. */
  method Compress(pieces: seq<seq<byte>>, crc16: bool) returns (file: seq<byte>)
    ensures file == Compressed(crc16, Flatten(pieces))
  {
    hide HT.Inv, HB.FreshTree, WM.Open, WM.WriteAll, WM.FreshWriter, WM.Drain;
    ghost var t := HB.FreshTree();
    HB.FreshTreeOk();
    WM.FreshWriterOpen(t);
    var w := new LzhufWriter.Writer(crc16);
    WM.WriteAllNone(WM.FreshWriter(t), []);
    for i := 0 to |pieces|
      invariant w.crc16 == crc16 && w.z.Shaped() && fresh(w.Repr())
      invariant WM.Open(w.View()) && w.View() == WM.WriteAll(WM.FreshWriter(t), Flatten(pieces[..i]))
    {
      assert pieces[..i + 1][..i] == pieces[..i];
      WM.WriteAllConcat(WM.FreshWriter(t), Flatten(pieces[..i]), pieces[i]);
      var _ := w.Write(pieces[i]);
    }
    assert pieces[..|pieces|] == pieces;
    FileSizeCounts(t, Flatten(pieces));
    file := w.Close();
  }

  /** A reader bound to end in state fin that has handed out data of x so far. */
  ghost predicate Reading(d: LzhufReader.Reader, fin: RM.State, x: seq<byte>, data: seq<byte>)
    reads d.Repr()
    requires -0x8000_0000 <= d.size < 0x8000_0000
  {
    && d.Valid()
    && d.br.r.crcw.sum == Running(Running(0, LE32(d.size)), d.br.r.data[..d.br.r.fetched])
    && d.Rest().0 == fin
    && data + d.Rest().1 == x
    && fin.cur.ok && fin.pos == d.size && 8 * |d.br.r.data| < fin.cur.pos + 8
  }

  /** Taking a file apart. */
  lemma FileParts(crc16: bool, size: int, payload: seq<byte>)
    requires -0x8000_0000 <= size <= MAX_SIZE
    ensures var f, h := File(crc16, size, payload), if crc16 then 2 else 0;
            && |f| >= h + 4 && f[h..h + 4] == LE32(size) && f[h + 4..] == payload && FromLE32(f[h..h + 4]) == size
            && (crc16 ==> FromLE16(f[..2]) == Checksum(LE32(size) + payload))
  {
    hide Checksum, LE32, FromLE32;
    LE32RoundTrip(size);
    var body := LE32(size) + payload;
    var f := File(crc16, size, payload);
    if crc16 {
      LE16RoundTrip(Checksum(body));
      assert f[..2] == LE16(Checksum(body));
      assert f[2..6] == LE32(size);
      assert f[6..] == payload;
    } else {
      assert f[0..4] == LE32(size);
      assert f[4..] == payload;
    }
  }

  /** At the end of the text the reader stands in the last byte, so the checksum has seen everything. */
  lemma AtTheEnd(d: LzhufReader.Reader, fin: RM.State, x: seq<byte>, data: seq<byte>)
    requires -0x8000_0000 <= d.size < 0x8000_0000 && Reading(d, fin, x, data)
    ensures !d.br.err && |data| <= |x| && data == x[..|data|]
    ensures d.pos == d.size && d.buf == [] <==> |data| == |x|
    ensures |data| == |x| ==>
        Running(d.br.r.crcw.sum, [0, 0]) == Checksum(LE32(d.size) + d.br.r.data)
  {
    hide HT.Inv, BytesBits, RM.Run, Update, LE32, BR.Holds;
    RM.RunFacts(d.Stream(), d.size, d.View());
    RM.RunStops(d.Stream(), d.size, d.View());
    assert (data + d.Rest().1)[..|data|] == data;
    if |data| == |x| {
      assert d.Rest().1 == [];
      assert d.View() == d.Rest().0;
      BR.HoldsRange(d.br.r.data, d.br.r.at, d.br.n, d.br.bits);
      assert d.br.r.at >= |d.br.r.data|;
      assert d.br.r.data[..d.br.r.fetched] == d.br.r.data;
      RunningConcat(0, LE32(d.size), d.br.r.data);
      RunningConcat(0, LE32(d.size) + d.br.r.data, [0, 0]);
    }
  }

  /** Open the compressed file of x. */
  method OpenFile(file: seq<byte>, crc16: bool, ghost x: seq<byte>) returns (d: LzhufReader.Reader, ghost fin: RM.State)
    requires CodesCarried(x) && SizeReached(x) && file == Compressed(crc16, x)
    ensures fresh(d.Repr()) && d.size == RM.Wrap32(|x|) && d.crc16 == crc16 && !d.failed && Reading(d, fin, x, [])
    ensures crc16 ==> d.headerCrc == Checksum(LE32(d.size) + d.br.r.data)
  {
    hide HT.Inv, HB.FreshTree, CodesCarried, SizeReached, WC.Payload, BytesBits, RM.Run, Update, LE32, FromLE32,
         File, Checksum, RM.Wrap32;
    HB.FreshTreeOk();
    ghost var payload, size := WC.Payload(HB.FreshTree(), x), RM.Wrap32(|x|);
    FileParts(crc16, size, payload);
    PayloadDecodes(x);
    var o := LzhufReader.NewReader(file, crc16);
    d := o.d;
    fin := RM.Run(BytesBits(payload), size, RM.FreshReader(HB.FreshTree())).0;
    assert d.br.r.data[..0] == [];
    BR.RunningNothing(Running(0, LE32(size)));
    assert [] + d.Rest().1 == d.Rest().1;
  }

  /** Read on, keeping the books. */
  method ReadMore(d: LzhufReader.Reader, k: nat, ghost fin: RM.State, ghost x: seq<byte>, data: seq<byte>)
    returns (more: seq<byte>, end: bool)
    requires -0x8000_0000 <= d.size < 0x8000_0000 && Reading(d, fin, x, data) && !d.failed
    modifies d.Repr()
    ensures Reading(d, fin, x, more) && !d.failed
    ensures end ==> |more| == |x|
    ensures |more| >= |data| && (!end && k >= 1 ==> |more| > |data|)
  {
    hide HT.Inv, BytesBits, RM.Run, Update, LE32, BR.Holds, Running;
    AtTheEnd(d, fin, x, data);
    ghost var f1, rest := d.br.r.fetched, d.Rest().1;
    ghost var s0 := Running(0, LE32(d.size));
    var piece, status := d.Read(k);
    RunningParts(s0, d.br.r.data, f1, d.br.r.fetched);
    more := data + piece;
    end := status.EndOfFile?;
    if status.Fine? {
      TakenOff(data, piece, rest);
    } else {
      assert data + piece == data;
    }
  }

  lemma RunningParts(sum: sum16, data: seq<byte>, f: nat, g: nat)
    requires f <= g <= |data|
    ensures Running(Running(sum, data[..f]), data[f..g]) == Running(sum, data[..g])
  {
    hide Running;
    RunningConcat(sum, data[..f], data[f..g]);
    assert data[..f] + data[f..g] == data[..g];
  }

  lemma TakenOff(data: seq<byte>, piece: seq<byte>, rest: seq<byte>)
    requires |piece| <= |rest| && piece == rest[..|piece|]
    ensures data + piece + rest[|piece|..] == data + rest
  {
    assert piece + rest[|piece|..] == rest;
  }

  /**
   Reading a compressed file with any buffer sizes, empty ones included, and then to its end gives the text
   back, and the checksum agrees.
   */
  method Decompress(file: seq<byte>, crc16: bool, sizes: seq<nat>, last: nat, ghost x: seq<byte>)
    returns (data: seq<byte>, verdict: Verdict)
    requires CodesCarried(x) && SizeReached(x) && file == Compressed(crc16, x) && last >= 1
    ensures data == x && verdict == Intact
  {
    hide HT.Inv, HB.FreshTree, CodesCarried, SizeReached, RM.Wrap32, Compressed, RM.Run, Update, LE32, Checksum,
         Running;
    ghost var fin;
    var d;
    d, fin := OpenFile(file, crc16, x);
    data := [];
    var end, i := false, 0;
    while i < |sizes| || !end
      modifies d.Repr()
      invariant fresh(d.Repr()) && d.size == RM.Wrap32(|x|) && d.crc16 == crc16 && !d.failed && Reading(d, fin, x, data)
      invariant crc16 ==> d.headerCrc == Checksum(LE32(d.size) + d.br.r.data)
      invariant end ==> |data| == |x|
      invariant |data| <= |x|
      decreases |sizes| - i, if end then 0 else 1 + |x| - |data|
    {
      AtTheEnd(d, fin, x, data);
      var k := if i < |sizes| then sizes[i] else last;
      data, end := ReadMore(d, k, fin, x, data);
      AtTheEnd(d, fin, x, data);
      i := if i < |sizes| then i + 1 else i;
    }
    AtTheEnd(d, fin, x, data);
    verdict := d.Close();
  }

  /** Whatever is written, in whatever pieces, is read back, in whatever pieces, and found intact. */
  method RoundTrip(pieces: seq<seq<byte>>, crc16: bool, sizes: seq<nat>, last: nat)
    returns (data: seq<byte>, verdict: Verdict)
    requires CodesCarried(Flatten(pieces)) && SizeReached(Flatten(pieces)) && last >= 1
    ensures data == Flatten(pieces) && verdict == Intact
  {
    hide HT.Inv, CodesCarried, SizeReached, Compressed;
    var file := Compress(pieces, crc16);
    data, verdict := Decompress(file, crc16, sizes, last, Flatten(pieces));
  }
}
