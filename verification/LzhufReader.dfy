/** The decompressor: reads a compressed file and hands out the text in pieces of any size. */
module LzhufReader {
  import opened Bits
  import opened HT = HuffmanTree
  import HB = HuffmanRebuild
  import HC = HuffmanCode
  import PC = PositionCode
  import opened MF = MatchForest
  import opened Lzhuf
  import RM = ReaderModel
  import Tokens
  import BR = BitReader
  import opened Crc
  import opened FileFormat

  /** What a read reports besides data. */
  datatype Status = Fine | EndOfFile | Broken

  /** What closing reports. */
  datatype Verdict = Intact | ReadError | BadChecksum

  datatype Opened = Truncated | Opened(d: Reader)

  class Reader {
    const z: Tables
    const br: BR.Reader
    const crc16: bool
    const headerCrc: sum16
    const size: int
    var failed: bool
    var pos: int
    var r: nat
    var buf: seq<byte>

    ghost function Repr(): set<object> {
      {this, z, z.freq, z.prnt, z.son, z.textBuf, br, br.r, br.r.crcw}
    }

    ghost predicate Valid()
      reads Repr()
    {
      && z.Shaped() && br.Valid()
      && RM.Ok(Stream(), View())
      && (failed ==> br.err)
    }

    /** All bits of the stream behind the header. */
    ghost function Stream(): (bs: seq<bit>) { BytesBits(br.r.data) }

    ghost function View(): RM.State
      reads this, z.freq, z.prnt, z.son, z.textBuf, br, br.r
      requires br.Valid()
    {
      RM.State(z.Tree(), br.Pos(), z.textBuf[..], r, pos)
    }

    /** What is still to be handed out, and the state it will end in. */
    ghost function Rest(): (x: (RM.State, seq<byte>))
      reads Repr()
      requires Valid()
    {
      var (v, out) := RM.Run(Stream(), size, View());
      (v, buf + out)
    }

    constructor (data: seq<byte>, crc16: bool, headerCrc: sum16, size: int, crcw: CrcWriter)
      ensures this.crc16 == crc16 && this.headerCrc == headerCrc && this.size == size
      ensures br.r.data == data && br.r.crcw == crcw && fresh(Repr() - {crcw}) && !failed && buf == []
      ensures br.r.fetched == 0 && br.r.at == 0 && br.bits == 0 && !br.err && crcw.sum == old(crcw.sum)
      ensures Valid() && View() == RM.FreshReader(HB.FreshTree())
    {
      hide ToBits, BytesBits, HB.FreshTree, HT.Inv;
      this.crc16, this.headerCrc, this.size := crc16, headerCrc, size;
      z := new Tables();
      var source := new BR.ByteSource(data, crcw);
      br := new BR.Reader(source);
      failed, pos, r, buf := false, 0, N - ROOT, [];
      new;
      for i := 0 to N - F
        invariant forall k :: 0 <= k < i ==> z.textBuf[k] == 32
        invariant forall k :: i <= k < N + F - 1 ==> z.textBuf[k] == 0
        modifies z.textBuf
      {
        z.textBuf[i] := 32;
      }
      assert z.textBuf[..] == Tokens.FreshText();
      HB.FreshTreeOk();
      BR.HoldsStart(data);
    }

    /** Walk from the root to a leaf, one bit a level, and count the symbol. */
    method DecodeChar() returns (c: nat)
      requires z.Shaped() && br.Valid() && HT.Inv(z.Tree())
      modifies Repr()
      ensures z.Shaped() && br.Valid() && c < NUM_CHAR
      ensures (c, br.Pos()) == HC.DecodeChar(old(z.Tree()), Stream(), old(br.Pos()))
      ensures z.Tree() == HB.Update(old(z.Tree()), c)
      ensures z.textBuf[..] == old(z.textBuf[..])
      ensures r == old(r) && pos == old(pos) && buf == old(buf) && failed == old(failed)
      ensures Fed(old(br.r.fetched), old(br.r.crcw.sum))
    {
      hide HT.Balanced, BytesBits, ToBits, HB.Update, HC.DecodeChar, HC.Walk, Update;
      c := WalkDown();
      z.Update(c);
    }

    /** Walk from the root to a leaf, one bit a level. */
    method WalkDown() returns (c: nat)
      requires z.Shaped() && br.Valid() && HT.Inv(z.Tree())
      modifies br, br.r, br.r.crcw
      ensures br.Valid() && c < NUM_CHAR
      ensures (c, br.Pos()) == HC.DecodeChar(old(z.Tree()), Stream(), old(br.Pos()))
      ensures Fed(old(br.r.fetched), old(br.r.crcw.sum))
    {
      hide HT.Balanced, BytesBits, ToBits, HB.Update, Update, Running, Value, BR.Holds, BR.Filled, BR.Kept;
      ghost var t := z.Tree();
      ghost var f0, s0, c0 := br.r.fetched, br.r.crcw.sum, br.Pos();
      FedStart();
      HC.RootSon(t);
      var k: nat := z.son[ROOT];
      while k < T
        invariant br.Valid() && z.Tree() == t && k < T + NUM_CHAR && (k < T ==> k % 2 == 0 && k + 1 < ROOT)
        invariant HC.Walk(t, k, Stream(), br.Pos()) == HC.DecodeChar(t, Stream(), c0)
        invariant Fed(f0, s0)
        decreases if k < T then k + 1 else 0
      {
        HC.WalkOnce(t, k, Stream(), br.Pos());
        ghost var f1, s1 := br.r.fetched, br.r.crcw.sum;
        var b := br.ReadBits64(1);
        FedMore(f0, s0, f1, s1);
        k := z.son[k + b];
      }
      c := k - T;
    }

    /** The checksum has seen exactly what was fetched since. */
    ghost predicate Fed(f0: nat, s0: sum16)
      reads br.r, br.r.crcw
    {
      f0 <= br.r.fetched <= |br.r.data| && br.r.crcw.sum == Running(s0, br.r.data[f0..br.r.fetched])
    }

    lemma FedStart()
      requires br.r.Valid()
      ensures Fed(br.r.fetched, br.r.crcw.sum)
    {
      assert br.r.data[br.r.fetched..br.r.fetched] == [];
    }

    lemma FedMore(f0: nat, s0: sum16, f1: nat, s1: sum16)
      requires f0 <= f1 <= |br.r.data| && s1 == Running(s0, br.r.data[f0..f1]) && Fed(f1, s1)
      ensures Fed(f0, s0)
    {
      hide Update;
      RunningConcat(s0, br.r.data[f0..f1], br.r.data[f1..br.r.fetched]);
      assert br.r.data[f0..f1] + br.r.data[f1..br.r.fetched] == br.r.data[f0..br.r.fetched];
    }

    /** Read a match position: the table gives the upper bits, the rest follows verbatim. */
    method DecodePosition() returns (p: nat)
      requires z.Shaped() && br.Valid()
      modifies br, br.r, br.r.crcw
      ensures br.Valid() && p < 4096
      ensures (p, br.Pos()) == PC.DecodePosition(Stream(), old(br.Pos()))
      ensures Fed(old(br.r.fetched), old(br.r.crcw.sum))
    {
      hide BytesBits, ToBits, PC.DCode, PC.DLen, PC.TakeMore, Update, Value, BR.Holds, BR.Filled, BR.Kept;
      ghost var f0, s0, c0 := br.r.fetched, br.r.crcw.sum, br.Pos();
      FedStart();
      PC.Take8(Stream(), c0);
      var first := br.ReadBits64(8);
      var c := 64 * PC.DCode(first);
      var j := PC.DLen(first) - 2;
      var i: nat := first;
      ghost var goal := PC.TakeMore(Stream(), br.Pos(), i, j);
      while j > 0
        invariant br.Valid() && 0 <= j && Fed(f0, s0)
        invariant PC.TakeMore(Stream(), br.Pos(), i, j) == goal
      {
        PC.TakeMoreOnce(Stream(), br.Pos(), i, j);
        ghost var f1, s1 := br.r.fetched, br.r.crcw.sum;
        var b := br.ReadBits64(1);
        FedMore(f0, s0, f1, s1);
        i := 2 * i + b;
        j := j - 1;
      }
      PC.TakeMoreNone(Stream(), br.Pos(), i);
      p := c + i % 64;
    }

    /** Store one decoded byte in the ring and move on. */
    method Store(c: byte)
      requires z.Shaped() && br.Valid() && r < N
      modifies this, z.textBuf
      ensures br.Valid() && View() == RM.PutByte(old(View()), c) && buf == old(buf) && failed == old(failed)
    {
      hide RM.Steps32;
      ghost var u := z.textBuf[..];
      z.textBuf[r] := c;
      assert z.textBuf[..] == u[r := c];
      r := (r + 1) % N;
      pos := RM.Steps32(pos, 1);
    }

    /** Hand one byte to the caller while there is room, then keep it. */
    method Deliver(c: byte, k: nat, data: seq<byte>) returns (more: seq<byte>)
      requires |data| <= k && (buf != [] ==> |data| == k)
      modifies this
      ensures more + buf == data + old(buf) + [c] && data <= more
      ensures |more| <= k && (buf != [] ==> |more| == k)
      ensures r == old(r) && pos == old(pos) && failed == old(failed)
    {
      if |data| < k {
        more := data + [c];
        assert data + buf == data;
      } else {
        more := data;
        buf := buf + [c];
        assert data + old(buf) + [c] == data + (old(buf) + [c]);
      }
    }

    /** Copy n ring bytes from p + 1 back, each to the caller or to buf. */
    method CopyOut(p: nat, n: nat, k: nat, data: seq<byte>) returns (more: seq<byte>)
      requires z.Shaped() && br.Valid() && r < N && |data| <= k && (buf != [] ==> |data| == k)
      modifies this, z.textBuf
      ensures br.Valid() && r < N
      ensures var (u, out) := RM.PutCopy(old(View()), p, n);
              View() == u && more + buf == data + old(buf) + out
      ensures |more| <= k && (buf != [] ==> |more| == k) && data <= more && failed == old(failed)
    {
      hide RM.CopyRing, RM.Steps32;
      ghost var st := View();
      var i := (r - p - 1) % N;
      more := data;
      RM.CopyNone(st, p);
      assert data + old(buf) + [] == data + old(buf);
      for m := 0 to n
        invariant br.Valid() && r < N && failed == old(failed)
        invariant View() == RM.PutCopy(st, p, m).0 && more + buf == data + old(buf) + RM.PutCopy(st, p, m).1
        invariant |more| <= k && (buf != [] ==> |more| == k) && data <= more
      {
        RM.CopyOnce(st, p, m);
        var c := z.textBuf[(i + m) % N];
        ghost var o := RM.PutCopy(st, p, m).1;
        more := Deliver(c, k, more);
        Store(c);
        assert data + old(buf) + (o + [c]) == data + old(buf) + o + [c];
      }
    }

    /** Decode one symbol and deliver what it stands for. */
    method DecodeStep(k: nat, data: seq<byte>) returns (more: seq<byte>)
      requires Valid() && |data| < k && buf == [] && !failed
      modifies Repr()
      ensures Valid()
      ensures var (u, out) := RM.Step(Stream(), old(View())); View() == u && more + buf == data + out
      ensures |more| <= k && (buf != [] ==> |more| == k) && data <= more && failed == old(failed)
      ensures Fed(old(br.r.fetched), old(br.r.crcw.sum))
    {
      hide HT.Inv, BytesBits, ToBits, HC.DecodeChar, PC.DecodePosition, RM.PutCopy, RM.PutByte, HB.Update,
           Update, RM.Step;
      ghost var f0, s0, st := br.r.fetched, br.r.crcw.sum, View();
      assert data + buf == data;
      var c := DecodeChar();
      ghost var f1, s1 := br.r.fetched, br.r.crcw.sum;
      RM.StepOnce(Stream(), st);
      assert View() == st.(tree := z.Tree(), cur := br.Pos());
      if c < 256 {
        more := DeliverByte(c, k, data);
      } else {
        more := DecodeCopy(c - 255 + THRESHOLD, k, data);
        FedMore(f0, s0, f1, s1);
      }
    }

    /** Deliver a literal. */
    method DeliverByte(c: byte, k: nat, data: seq<byte>) returns (more: seq<byte>)
      requires Valid() && |data| <= k && (buf != [] ==> |data| == k)
      modifies this, z.textBuf
      ensures Valid() && View() == RM.PutByte(old(View()), c) && more + buf == data + old(buf) + [c]
      ensures |more| <= k && (buf != [] ==> |more| == k) && data <= more && failed == old(failed)
    {
      hide HT.Inv, BytesBits, ToBits;
      more := Deliver(c, k, data);
      Store(c);
    }

    /** Decode the position of a match of length n and deliver the match. */
    method DecodeCopy(n: nat, k: nat, data: seq<byte>) returns (more: seq<byte>)
      requires Valid() && |data| <= k && (buf != [] ==> |data| == k)
      modifies Repr()
      ensures Valid()
      ensures var (p, cur) := PC.DecodePosition(Stream(), old(View()).cur);
              var (u, out) := RM.PutCopy(old(View()).(cur := cur), p, n);
              View() == u && more + buf == data + old(buf) + out
      ensures |more| <= k && (buf != [] ==> |more| == k) && data <= more && failed == old(failed)
      ensures Fed(old(br.r.fetched), old(br.r.crcw.sum))
    {
      hide HT.Inv, BytesBits, ToBits, PC.DecodePosition, RM.PutCopy, Update;
      ghost var st := View();
      var p := DecodePosition();
      assert View() == st.(cur := br.Pos());
      more := CopyOut(p, n, k, data);
    }

    /** Hand out up to k bytes. */
    method Read(k: nat) returns (data: seq<byte>, status: Status)
      requires Valid()
      modifies Repr()
      ensures Valid() && Fed(old(br.r.fetched), old(br.r.crcw.sum))
      ensures old(br.err) ==> status == Broken && data == [] && failed && View() == old(View()) && buf == old(buf)
      ensures !old(br.err) && old(pos == size && buf == []) ==>
                status == EndOfFile && data == [] && View() == old(View()) && buf == old(buf)
      ensures !old(br.err) && !old(pos == size && buf == []) ==>
                && status == Fine && failed == old(failed)
                && data == old(Rest()).1[..if k < |old(Rest()).1| then k else |old(Rest()).1|]
                && Rest() == (old(Rest()).0, old(Rest()).1[|data|..])
    {
      hide HT.Inv, BytesBits, ToBits, RM.Step, RM.Run, Update;
      FedStart();
      if br.err {
        failed := true;
        return [], Broken;
      }
      if pos == size && buf == [] {
        return [], EndOfFile;
      }
      ghost var b, out := buf, RM.Run(Stream(), size, View()).1;
      var m := if k < |buf| then k else |buf|;
      data, buf := buf[..m], buf[m..];
      assert data + (buf + out) == b + out;
      data := Fill(k, data);
      status := Fine;
      assert (data + Rest().1)[..|data|] == data && (data + Rest().1)[|data|..] == Rest().1;
    }

    /** Decode until the caller's k bytes are there or nothing is left. */
    method Fill(k: nat, data: seq<byte>) returns (more: seq<byte>)
      requires Valid() && |data| <= k && (buf != [] ==> |data| == k) && !failed
      modifies Repr()
      ensures Valid() && Fed(old(br.r.fetched), old(br.r.crcw.sum)) && !failed
      ensures |more| <= k && more + Rest().1 == data + old(Rest()).1 && Rest().0 == old(Rest()).0
      ensures |more| < k ==> Rest().1 == []
    {
      hide HT.Inv, BytesBits, ToBits, RM.Step, RM.Run, Update;
      ghost var f0, s0, goal := br.r.fetched, br.r.crcw.sum, Rest();
      FedStart();
      more := data;
      while |more| < k && !br.err && pos < size
        invariant Valid() && |more| <= k && (buf != [] ==> |more| == k) && Fed(f0, s0) && !failed
        invariant Rest().0 == goal.0 && more + Rest().1 == data + goal.1
        decreases if br.err then 0 else 1, |Stream()| - br.Pos().pos
      {
        ghost var f1, s1 := br.r.fetched, br.r.crcw.sum;
        more := FillStep(k, more);
        FedMore(f0, s0, f1, s1);
      }
      RM.RunStops(Stream(), size, View());
    }

    /** One symbol further. */
    method FillStep(k: nat, data: seq<byte>) returns (more: seq<byte>)
      requires Valid() && |data| < k && buf == [] && !br.err && pos < size
      modifies Repr()
      ensures Valid() && Fed(old(br.r.fetched), old(br.r.crcw.sum)) && !failed
      ensures |more| <= k && (buf != [] ==> |more| == k)
      ensures more + Rest().1 == data + old(Rest()).1 && Rest().0 == old(Rest()).0
      ensures !br.err ==> br.Pos().pos > old(br.Pos().pos)
    {
      hide HT.Inv, BytesBits, ToBits, RM.Step, RM.Run, Update;
      ghost var st := View();
      RM.RunOnce(Stream(), size, st);
      ghost var out, rest := RM.Step(Stream(), st).1, RM.Run(Stream(), size, RM.Step(Stream(), st).0).1;
      more := DecodeStep(k, data);
      assert more + (buf + rest) == more + buf + rest;
      assert data + ([] + (out + rest)) == data + out + rest;
    }

    /** Check errors, checksum and size. */
    method Close() returns (v: Verdict)
      requires Valid()
      ensures v == ReadError <==> failed || br.err
      ensures v == Intact
              <==> !failed && !br.err && size == pos - |buf| && (crc16 ==> headerCrc == Running(br.r.crcw.sum, [0, 0]))
    {
      if failed || br.err {
        return ReadError;
      }
      if crc16 {
        var sum := br.r.crcw.Sum();
        if headerCrc != sum {
          return BadChecksum;
        }
      }
      if size != pos - |buf| {
        return BadChecksum;
      }
      return Intact;
    }
  }

  /** Read the header and set up a reader for the rest. */
  method NewReader(stream: seq<byte>, crc16: bool) returns (o: Opened)
    ensures o.Opened? <==> |stream| >= if crc16 then 6 else 4
    ensures o.Opened? ==>
              var d, h := o.d, if crc16 then 2 else 0;
              && fresh(d.Repr()) && d.Valid() && d.View() == RM.FreshReader(HB.FreshTree())
              && d.buf == [] && !d.failed && !d.br.err
              && d.br.r.data == stream[h + 4..] && d.br.r.fetched == 0
              && d.br.r.crcw.sum == Running(0, stream[h..h + 4])
              && d.size == FromLE32(stream[h..h + 4]) && d.crc16 == crc16
              && (crc16 ==> d.headerCrc == FromLE16(stream[..2]))
  {
    hide Update, HB.FreshTree, BytesBits, HT.Inv;
    var h, sum := 0, 0;
    if crc16 {
      if |stream| < 2 {
        return Truncated;
      }
      h, sum := 2, FromLE16(stream[..2]);
    }
    if |stream| < h + 4 {
      return Truncated;
    }
    var crcw := new CrcWriter();
    var _ := crcw.Write(stream[h..h + 4]);
    var d := new Reader(stream[h + 4..], crc16, sum, FromLE32(stream[h..h + 4]), crcw);
    return Opened(d);
  }
}
