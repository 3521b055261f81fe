/**
 A whole turn on the wire: the bytes of a block with its prompt, of the accepted messages and of whatever
 comes next are read back to exactly the lines and bodies the session model sends.
 */
module Turn {
  import opened Common
  import opened Bits
  import opened Mailbox
  import Session
  import opened Proposals
  import opened T = Text
  import opened Framing

  /** A message as it is offered and sent. */
  datatype Item = Item(prop: Proposal, title: seq<byte>, data: seq<byte>)

  ghost predicate ItemOk(m: Item) {
    && WellFormed(m.prop) && m.prop.compressedSize == |m.data| && Sendable((m.title, m.data))
    && forall c :: c in m.prop.mid ==> c as int < 128
  }

  /** The bytes of a text; the protocol's lines have no character beyond the first 256. */
  function ToBytes(s: string): (b: seq<byte>)
    ensures |b| == |s|
  {
    seq(|s|, i requires 0 <= i < |s| => ToByte(s[i]))
  }

  function ToByte(c: char): byte {
    if c as int < 256 then c as int else 0
  }

  predicate Narrow(s: string) {
    forall c :: c in s ==> c as int < 256
  }

  lemma BytesBack(b: seq<byte>)
    ensures ToBytes(AsText(b)) == b
  {
  }

  lemma TextBack(s: string, b: seq<byte>)
    requires Narrow(s)
    ensures AsText(ToBytes(s) + b) == s + AsText(b)
  {
    forall i | 0 <= i < |s| ensures AsText(ToBytes(s) + b)[i] == s[i] { assert s[i] in s; }
  }

  function PropsOf(ms: seq<Item>): (ps: seq<Proposal>)
    ensures |ps| == |ms|
  {
    seq(|ms|, i requires 0 <= i < |ms| => ms[i].prop)
  }

  function MidsOf(ps: seq<Proposal>): (r: seq<Mid>)
    ensures |r| == |ps|
  {
    seq(|ps|, i requires 0 <= i < |ps| => ps[i].mid)
  }

  /** Those whose answer is an acceptance, in order. */
  function Chosen<T>(xs: seq<T>, answers: seq<Answer>): (r: seq<T>)
    requires |xs| == |answers|
  {
    if xs == [] then []
    else (if answers[0].Accept? then [xs[0]] else []) + Chosen(xs[1..], answers[1..])
  }

  function Pairs(ms: seq<Item>): (r: seq<(seq<byte>, seq<byte>)>)
    ensures |r| == |ms|
  {
    seq(|ms|, i requires 0 <= i < |ms| => (ms[i].title, ms[i].data))
  }

  function SizesOf(ps: seq<Proposal>): (r: seq<int>)
    ensures |r| == |ps|
  {
    seq(|ps|, i requires 0 <= i < |ps| => ps[i].compressedSize)
  }

  /** What a station sends in a turn when the remote, with mailbox b, answers as it does. */
  function TurnBytes(b: Box, ms: seq<Item>): (s: seq<byte>)
    requires Sized(PropsOf(ms))
  {
    ToBytes(Wire(PropsOf(ms))) + Frames(Pairs(Chosen(ms, AnswersTo(b, PropsOf(ms)))))
  }

  /** What a turn was read as: the proposals, the data of the accepted messages, and the bytes behind them. */
  datatype TurnRead = TurnRead(props: seq<Proposal>, datas: seq<seq<byte>>, rest: seq<byte>)

  /** Read a block, answer it, and read the accepted messages. */
  function ReadTurn(b: Box, s: seq<byte>): (r: Option<TurnRead>) {
    match Receive(AsText(s), [], 0)
    case Block(props, rest) =>
      var sizes := SizesOf(Chosen(props, AnswersTo(b, props)));
      (match ReadBatch(ToBytes(rest), sizes)
       case None => None
       case Some((datas, left)) => Some(TurnRead(props, datas, left)))
    case _ => None
  }

  lemma NarrowDec(n: nat)
    ensures Narrow(Dec(n))
  {
  }

  lemma NarrowLine(m: Item)
    requires ItemOk(m)
    ensures Narrow(Line(m.prop))
  {
    hide Dec;
    NarrowDec(m.prop.size);
    NarrowDec(m.prop.compressedSize);
    NarrowDec(0);
  }

  lemma {:induction false} NarrowLines(ms: seq<Item>)
    requires Sized(PropsOf(ms)) && forall m :: m in ms ==> ItemOk(m)
    ensures Narrow(Lines(PropsOf(ms)))
    decreases |ms|
  {
    hide Line, ItemOk;
    var ps := PropsOf(ms);
    if ms == [] {
      assert Lines(ps) == [];
    } else {
      var n := |ms| - 1;
      assert PropsOf(ms[..n]) == ps[..n];
      NarrowLines(ms[..n]);
      NarrowLine(ms[n]);
    }
  }

  lemma NarrowWire(ms: seq<Item>)
    requires Sized(PropsOf(ms)) && forall m :: m in ms ==> ItemOk(m)
    ensures Narrow(Wire(PropsOf(ms)))
  {
    hide Lines, ItemOk, Total;
    NarrowLines(ms);
    NarrowHex(Checksum(Total(PropsOf(ms))));
  }

  lemma NarrowHex(v: nat)
    requires v < 256
    ensures Narrow(Hex2(v))
  {
  }

  lemma {:induction false} ChosenProps(ms: seq<Item>, answers: seq<Answer>)
    requires |ms| == |answers|
    ensures PropsOf(Chosen(ms, answers)) == Chosen(PropsOf(ms), answers)
    decreases |ms|
  {
    if ms == [] {
      assert PropsOf(ms) == [];
    } else {
      ChosenProps(ms[1..], answers[1..]);
      assert PropsOf(ms)[1..] == PropsOf(ms[1..]);
    }
  }

  lemma {:induction false} ChosenFrom(ms: seq<Item>, answers: seq<Answer>)
    requires |ms| == |answers|
    ensures forall m :: m in Chosen(ms, answers) ==> m in ms
    decreases |ms|
  {
    if ms == [] {
    } else {
      ChosenFrom(ms[1..], answers[1..]);
    }
  }

  lemma ChosenSizes(ms: seq<Item>)
    requires forall m :: m in ms ==> ItemOk(m)
    ensures SizesOf(PropsOf(ms)) == Sizes(Pairs(ms)) && forall p :: p in Pairs(ms) ==> Sendable(p)
  {
    forall i | 0 <= i < |ms| ensures SizesOf(PropsOf(ms))[i] == Sizes(Pairs(ms))[i] && Sendable(Pairs(ms)[i]) {
      assert ItemOk(ms[i]);
    }
  }

  function DatasOf(ms: seq<Item>): (r: seq<seq<byte>>) { Datas(Pairs(ms)) }

  /** A turn is read back: the proposals in order, the accepted messages in order, and nothing of what follows. */
  lemma TurnReadsBack(b: Box, ms: seq<Item>, following: seq<byte>)
    requires forall m :: m in ms ==> ItemOk(m)
    ensures Sized(PropsOf(ms))
    ensures var ps := PropsOf(ms);
            ReadTurn(b, TurnBytes(b, ms) + following) ==
            Some(TurnRead(ps, DatasOf(Chosen(ms, AnswersTo(b, ps))), following))
  {
    hide ItemOk, Wire, Receive, AnswersTo, Frames, ReadBatch, AsText, ToBytes;
    var ps := PropsOf(ms);
    AllWellFormed(ms);
    SizesOk(ps);
    var chosen := Chosen(ms, AnswersTo(b, ps));
    ChosenProps(ms, AnswersTo(b, ps));
    ChosenFrom(ms, AnswersTo(b, ps));
    ChosenSizes(chosen);
    var tail: seq<byte> := Frames(Pairs(chosen)) + following;
    Regroup(ToBytes(Wire(ps)), Frames(Pairs(chosen)), following);
    NarrowWire(ms);
    TextBack(Wire(ps), tail);
    BlockReadsBack(ps, AsText(tail));
    BytesBack(tail);
    BatchReads(Pairs(chosen), following);
  }

  lemma AllWellFormed(ms: seq<Item>)
    requires forall m :: m in ms ==> ItemOk(m)
    ensures forall p :: p in PropsOf(ms) ==> WellFormed(p)
  {
    forall i | 0 <= i < |ms| ensures WellFormed(PropsOf(ms)[i]) { assert ItemOk(ms[i]); }
  }

  // The same turn in the session model.

  function BodiesOf(mids: seq<Mid>): (ls: seq<Session.Line>)
    ensures |ls| == |mids|
  {
    seq(|mids|, i requires 0 <= i < |mids| => Session.Body(mids[i]))
  }

  /** The lines and bodies a turn was read as. */
  function AtomsOf(b: Box, props: seq<Proposal>): (ls: seq<Session.Line>) {
    Session.Props(MidsOf(props)) + [Session.Prompt] + BodiesOf(MidsOf(Chosen(props, AnswersTo(b, props))))
  }

  lemma {:induction false} ChosenAccepts(props: seq<Proposal>, answers: seq<Answer>)
    requires |props| == |answers|
    ensures MidsOf(Chosen(props, answers)) == Session.Accepts(Session.Zip(MidsOf(props), answers))
    decreases |props|
  {
    var todo := Session.Zip(MidsOf(props), answers);
    if props == [] {
      assert todo == [];
    } else {
      ChosenAccepts(props[1..], answers[1..]);
      assert todo[1..] == Session.Zip(MidsOf(props[1..]), answers[1..]);
    }
  }

  /** They are what the session model sends and fetches: the block, the prompt, and the bodies that are due. */
  lemma TurnAtoms(b: Box, ms: seq<Item>)
    requires forall m :: m in ms ==> ItemOk(m)
    ensures var mids := MidsOf(PropsOf(ms));
            AtomsOf(b, PropsOf(ms)) == Session.Props(mids) + [Session.Prompt]
                                       + BodiesOf(Session.Accepts(Session.Zip(mids, Session.Answers(b, mids))))
  {
    hide ItemOk, AnswersTo, Session.Answers, Session.Zip;
    var ps := PropsOf(ms);
    AllWellFormed(ms);
    SessionAnswers(b, ps);
    ChosenAccepts(ps, AnswersTo(b, ps));
  }

  /** The two lines that end an empty turn. */
  lemma EmptyTurnReads(following: seq<byte>)
    ensures Receive(AsText(ToBytes("FF\r") + following), [], 0) == NoMore(AsText(following))
    ensures Receive(AsText(ToBytes("FQ\r") + following), [], 0) == Quits(AsText(following))
  {
    hide AsText, ToBytes, Clean;
    TextBack("FF\r", following);
    TextBack("FQ\r", following);
    CleanPlain("FF");
    CleanPlain("FQ");
    assert "FF\r" + AsText(following) == "FF" + "\r" + AsText(following);
    assert "FQ\r" + AsText(following) == "FQ" + "\r" + AsText(following);
    T.CutFirst("FF", AsText(following));
    T.CutFirst("FQ", AsText(following));
  }
}
