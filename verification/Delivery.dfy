/**
 A message from the sender's proposal to the receiver's mailbox: compressed, framed, read and decompressed.
 */
module Delivery {
  import opened Bits
  import Framing
  import RT = LzhufRoundTrip
  import LzhufReader

  /** Compressed data carries at least its checksum and its size. */
  lemma LongEnough(x: seq<byte>)
    ensures |RT.Compressed(true, x)| >= 6
  {
  }

  /**
   What the receiver stores is what the sender composed, whatever follows on the line, and nothing of
   what follows is consumed.
   */
  method Deliver(title: seq<byte>, x: seq<byte>, following: seq<byte>)
    returns (stored: seq<byte>, verdict: LzhufReader.Verdict, left: seq<byte>)
    requires 0 !in title && |title| <= 252 && RT.CodesCarried(x) && RT.SizeReached(x)
    ensures stored == x && verdict == LzhufReader.Intact && left == following
  {
    hide RT.CodesCarried, RT.SizeReached, RT.Compressed, Framing.ReadFrame, Framing.Frame, Framing.DecBytes;
    assert RT.Flatten([x]) == x by { RT.FlattenOne(x); }
    var file := RT.Compress([x], true);
    LongEnough(x);
    var wire, ok := Framing.WriteCompressed(title, 0, file);
    var r := Framing.ReadCompressed(wire + following, |file|, 0);
    Framing.FrameReads(title, 0, file, following, |file|);
    Framing.ZeroLength();
    assert file[0..] == file;
    stored, verdict := RT.Decompress(r.data, true, [], 32768, x);
    left := r.rest;
  }
}
