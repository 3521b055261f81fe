/** The compressor: a writer that takes bytes and, when closed, yields the compressed file. */
module LzhufWriter {
  import opened Common
  import opened Bits
  import opened BitPacker
  import opened PositionCode
  import opened HT = HuffmanTree
  import HB = HuffmanRebuild
  import HC = HuffmanCode
  import opened MF = MatchForest
  import MS = MatchFinder
  import TR = TextRing
  import opened Tokens
  import opened Lzhuf
  import WM = WriterModel
  import Crc
  import opened FileFormat

  class Writer {
    const z: Tables
    const crc16: bool
    var buf: seq<byte>
    var putbuf: nat
    var putlen: nat
    var len: nat
    var r: nat
    var s: nat
    var lastMatchLength: int
    var preFilled: bool
    var fileSize: int
    /** The tokens emitted so far. */
    ghost var log: seq<Token>

    ghost function Repr(): set<object> {
      {this, z, z.freq, z.prnt, z.son, z.dad, z.lson, z.rson, z.textBuf}
    }

    ghost function View(): WM.State
      reads Repr()
    {
      WM.State(z.Tree(), z.Forest(), z.textBuf[..], z.matchLength, z.matchPosition,
               Packer(buf, putbuf, putlen), len, r, s, lastMatchLength, preFilled, fileSize, log)
    }

    /** A writer before the first byte. */
    constructor (crc16: bool)
      ensures this.crc16 == crc16 && fresh(Repr()) && z.Shaped()
      ensures View() == WM.FreshWriter(HB.FreshTree())
    {
      this.crc16 := crc16;
      z := new Tables();
      buf, putbuf, putlen, len, s := [], 0, 0, 0, 0;
      lastMatchLength, preFilled, fileSize, log := 0, false, 0, [];
      r := N - F;
      new;
      z.InitTree();
      for i := 0 to r
        invariant r == N - F
        invariant forall k :: 0 <= k < i ==> z.textBuf[k] == 32
        invariant forall k :: i <= k < N + F - 1 ==> z.textBuf[k] == 0
        modifies z.textBuf
      {
        z.textBuf[i] := 32;
      }
      assert z.textBuf[..] == FreshText();
      assert z.Forest() == MF.FreshForest();
    }

    /** Output the first l bits of the left-aligned code c. */
    method PutCode(l: nat, c: nat)
      modifies this
      ensures View() == old(View()).(pack := BitPacker.PutCode(old(View()).pack, l, c))
    {
      hide Or, Shr, Shl;
      putbuf := Or(putbuf, Shr(c, putlen));
      putlen := (putlen + l) % 256;
      if putlen < 8 {
        return;
      }
      buf := buf + [putbuf / 256 % 256];
      putlen := putlen - 8;
      if putlen >= 8 {
        buf := buf + [putbuf % 256];
        putlen := putlen - 8;
        putbuf := if l >= putlen then Shl(c, l - putlen) % WORD else 0;
      } else {
        putbuf := Shl(putbuf, 8) % WORD;
      }
    }

    /** The code of symbol c, collected from the leaf up, and its length. */
    method CodeOf(c: nat) returns (i: nat, j: nat)
      requires z.Shaped() && HT.Inv(z.Tree()) && c < NUM_CHAR
      ensures i == Align(HC.Code(z.Tree(), c)) && j == |HC.Code(z.Tree(), c)|
    {
      hide HT.Balanced;
      ghost var t := z.Tree();
      HC.CodeIsPath(t, c);
      i, j := 0, 0;
      var k := z.prnt[c + T];
      ghost var low: seq<bit> := [];
      while true
        invariant k < ROOT && HC.Path(t, k) + low == HC.Code(t, c)
        invariant i == Align(low) && j == |low|
        decreases T - k
      {
        HC.PathUp(t, k);
        i := i / 2;
        j := j + 1;
        if k % 2 != 0 {
          i := i + 0x8000;
        }
        ghost var b: bit := k % 2;
        assert ([b] + low)[1..] == low;
        assert HC.Path(t, z.prnt[k]) + ([b] + low) == HC.Path(t, k) + low;
        low := [b] + low;
        k := z.prnt[k];
        if k == ROOT {
          break;
        }
      }
      assert HC.Path(t, ROOT) + low == low;
    }

    /** Emit the code of symbol c and adapt the tree. */
    method EncodeChar(c: nat)
      requires z.Shaped() && HT.Inv(z.Tree()) && c < NUM_CHAR
      modifies this, z.freq, z.prnt, z.son
      ensures View() == WM.EncodeChar(old(View()), c)
    {
      hide HT.Inv, BitPacker.PutCode, HC.Code, HB.Update;
      var i, j := CodeOf(c);
      PutCode(j, i);
      z.Update(c);
    }

    /** Emit a match position. */
    method EncodePosition(c: nat)
      requires c < 4096
      modifies this
      ensures View() == WM.EncodePosition(old(View()), c)
    {
      hide BitPacker.PutCode, PCode, PLen;
      var i := c / 64;
      PutCode(PLen(i), 256 * PCode(i));
      PutCode(6, 1024 * (c % 64));
    }

    /** Emit one token for the front of the lookahead. */
    method Encode()
      requires z.Shaped() && WM.Base(View()) && (len == 0 || WM.MatchReady(View()))
      modifies Repr()
      ensures View() == WM.Encode(old(View()))
    {
      hide HT.Inv, MF.Forested, WM.EncodeChar, WM.EncodePosition;
      if len == 0 {
        return;
      }
      if z.matchLength > len {
        z.matchLength := len;
      }
      if z.matchLength <= THRESHOLD {
        z.matchLength := 1;
        EmitLiteral(z.textBuf[r]);
      } else {
        EmitCopy();
      }
      lastMatchLength := z.matchLength;
    }

    method EmitLiteral(b: byte)
      requires z.Shaped() && HT.Inv(z.Tree())
      modifies this, z.freq, z.prnt, z.son
      ensures View() == WM.EncodeChar(old(View()), b).(log := old(log) + [Literal(b)])
    {
      hide HT.Inv, HC.Code, HB.Update, BitPacker.PutCode;
      EncodeChar(b);
      log := log + [Literal(b)];
    }

    method EmitCopy()
      requires z.Shaped() && HT.Inv(z.Tree()) && THRESHOLD < z.matchLength <= F && 0 <= z.matchPosition < N
      modifies this, z.freq, z.prnt, z.son
      ensures View() == WM.EncodePosition(WM.EncodeChar(old(View()), 255 - THRESHOLD + z.matchLength), z.matchPosition)
                          .(log := old(log) + [Copy(z.matchPosition + 1, z.matchLength)])
    {
      hide HT.Inv, WM.EncodeChar, WM.EncodePosition;
      ghost var w := View();
      WM.EmitFrame(w, 255 - THRESHOLD + z.matchLength, z.matchPosition);
      EncodeChar(255 - THRESHOLD + z.matchLength);
      ghost var v := View();
      EncodePosition(z.matchPosition);
      assert View() == WM.EncodePosition(v, z.matchPosition);
      ghost var u := View();
      log := log + [Copy(z.matchPosition + 1, z.matchLength)];
      assert View() == u.(log := log);
    }

    /** Process one byte from the lookahead, taking in c first if there is one. */
    method Advance(c: Option<byte>)
      requires z.Shaped() && WM.Ok(View()) && (c.None? ==> len >= 1)
      modifies Repr()
      ensures View() == WM.Advance(old(View()), c)
    {
      hide HT.Inv, MF.Forested, WM.Consume, WM.InsertAt, MF.Delete, WM.Load, WM.Shift, WM.MatchReady;
      ghost var w := View();
      WM.ConsumeReady(w, c);
      if c.Some? {
        Load(c.value);
      }
      WM.LoadFrame(w, c);
      assert !MF.Registered(z.Forest(), r);
      Consume();
      Shift();
    }

    /** Drop the slot that leaves the window and move on by one. */
    method Shift()
      requires z.Shaped() && WM.Base(View()) && len >= 1
      modifies Repr()
      ensures View() == WM.Shift(old(View()))
    {
      hide HT.Inv, MF.Forested, MF.Delete;
      z.DeleteNode(s);
      s := (s + 1) % N;
      r := (r + 1) % N;
      len := len - 1;
    }

    /** Add a byte to the lookahead, and to the mirror if its slot has one. */
    method Load(b: byte)
      requires z.Shaped() && WM.Base(View())
      modifies this, z.textBuf
      ensures View() == WM.Load(old(View()), Some(b))
    {
      hide HT.Inv, MF.Forested;
      ghost var text := z.textBuf[..];
      z.textBuf[s] := b;
      if s < F - 1 {
        z.textBuf[s + N] := b;
      }
      assert z.textBuf[..] == TR.Put(text, s, b);
      len := len + 1;
    }

    /** Register the front of the lookahead and emit a token if one is due. */
    method Consume()
      requires z.Shaped() && WM.Base(View()) && !MF.Registered(z.Forest(), r)
      requires WM.MatchReady(WM.InsertAt(View(), r)) && WM.Base(WM.InsertAt(View(), r))
      modifies Repr()
      ensures View() == WM.Consume(old(View()))
    {
      hide HT.Inv, MF.Forested, WM.Encode, MS.Insert;
      z.InsertNode(r);
      lastMatchLength := lastMatchLength - 1;
      if lastMatchLength == 0 {
        Encode();
      }
    }

    /** Put one byte into a lookahead that is not full yet. */
    method Fill(b: byte)
      requires z.Shaped() && WM.Open(View()) && !preFilled
      modifies Repr()
      ensures View() == WM.WriteByte(old(View()), b)
    {
      hide HT.Inv, MF.Forested, MS.Insert, WM.WriteByte, WM.Open;
      ghost var w := View();
      WM.FillReady(w, b);
      WM.FillIs(w, b);
      ghost var text := z.textBuf[..];
      z.textBuf[r + len] := b;
      assert z.textBuf[..] == text[r + len := b];
      fileSize := WM.Int32(fileSize + 1);
      len := len + 1;
      z.InsertNode(r - len);
      lastMatchLength := 1;
      preFilled := len == F;
    }

    /** Accept the bytes of p. */
    method Write(p: seq<byte>) returns (n: nat)
      requires z.Shaped() && WM.Open(View())
      modifies Repr()
      ensures WM.Open(View()) && View() == WM.WriteAll(old(View()), p) && n == |p|
    {
      hide WM.Open, WM.WriteByte, WM.WriteAll;
      ghost var w := View();
      n := 0;
      WM.WriteAllNone(w, p);
      while !preFilled && n < |p|
        invariant n <= |p| && View() == WM.WriteAll(w, p[..n])
      {
        WM.WriteAllSnoc(w, p, n);
        Fill(p[n]);
        n := n + 1;
      }
      while n < |p|
        invariant n <= |p| && View() == WM.WriteAll(w, p[..n]) && (n < |p| ==> preFilled)
      {
        WM.WriteAllSnoc(w, p, n);
        Feed(p[n]);
        n := n + 1;
      }
      assert p[..n] == p;
    }

    /** Pass one byte through a full lookahead. */
    method Feed(b: byte)
      requires z.Shaped() && WM.Open(View()) && preFilled
      modifies Repr()
      ensures View() == WM.WriteByte(old(View()), b) && preFilled
    {
      hide WM.Open, WM.WriteByte, WM.Advance, WM.Ok;
      WM.WriteByteFull(View(), b);
      Advance(Some(b));
      fileSize := WM.Int32(fileSize + 1);
    }

    /** Finish the bit stream. */
    method EncodeEnd()
      modifies this
      ensures buf == PutEnd(old(View()).pack) && fileSize == old(fileSize)
    {
      if putlen == 0 {
        return;
      }
      buf := buf + [putbuf / 256 % 256];
    }

    /** Drain the lookahead and yield the file. */
    method Close() returns (out: seq<byte>)
      requires z.Shaped() && WM.Open(View()) && -0x8000_0000 <= fileSize < 0x8000_0000
      modifies Repr()
      ensures WM.Ok(old(View())) && out == File(crc16, old(fileSize), PutEnd(WM.Drain(old(View())).pack))
    {
      hide WM.Ok, WM.Base, WM.Advance;
      ghost var w := View();
      WM.OpenIsOk(w);
      while len > 0
        invariant WM.Ok(View()) && WM.Drain(View()) == WM.Drain(w) && fileSize == w.fileSize
        decreases len
      {
        WM.AdvanceKeeps(View(), None);
        Advance(None);
      }
      WM.OkIsBase(View());
      WM.EncodeNothing(View());
      Encode();
      EncodeEnd();
      var lengthBytes := LE32(fileSize);
      if crc16 {
        var sum := Crc.ComputeCrc(lengthBytes + buf);
        out := LE16(sum) + (lengthBytes + buf);
      } else {
        out := lengthBytes + buf;
      }
    }
  }
}
