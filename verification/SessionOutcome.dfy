/**
 What a session in which nothing fails achieves: it ends, both sides on the same quit command, and
 every message offered is delivered, found to have been received already, or deferred.
 */
module SessionOutcome {
  import opened Mailbox
  import opened Session
  import opened SessionInv
  import opened SessionSteps
  import opened SessionSafety
  import opened SessionEnd
  import opened SessionMeasure
  import opened SessionMail

  /** Some station can move. */
  ghost predicate CanMove(w: World) {
    exists alice, pick :: Act(MySide(w, alice), Incoming(w, alice), pick).Moved?
  }

  lemma SendsOn(s: Side, inc: seq<Line>) returns (pick: Mid)
    requires s.up && (s.pc.Choose? || s.pc.Writing? || s.pc.Reporting? || s.pc.Confirming?)
    ensures Act(s, inc, pick).Moved?
  {
    hide NextBlock, Mids, Without;
    pick := [];
    if s.pc.Reporting? && s.pc.rej != {} {
      pick :| pick in s.pc.rej;
    } else if s.pc.Confirming? && s.pc.acc != {} {
      pick :| pick in s.pc.acc;
    }
  }

  /** A waiting station with a line to read can move. */
  lemma WaiterMoves(x: Side, y: Side, xy: seq<Line>) returns (pick: Mid)
    requires y.up && xy != [] && Waiting(y.pc, if y.pc.InLoop? then y.pc.props else [], x.box.inbox)
    ensures Act(y, xy, pick).Moved?
  {
    hide NextBlock, Mids, Without, Accepts, Rejects, Answers, Zip;
    pick := [];
    if !y.pc.InLoop? && !y.pc.AwaitPeek? {
      pick := SendsOn(y, xy);
    }
  }

  /** One of the two can always move until both have stopped. */
  lemma NoDeadlock(x: Side, y: Side, xy: seq<Line>, yx: seq<Line>) returns (leader: bool, pick: Mid)
    requires Phase(x, y, xy, yx) && x.up && y.up && !(x.pc.Stopped? && y.pc.Stopped?)
    ensures if leader then Act(x, yx, pick).Moved? else Act(y, xy, pick).Moved?
  {
    hide NextBlock, Mids, Without, Accepts, Rejects, Zip, Lagging, Props;
    leader, pick := true, [];
    match x.pc
    case AwaitAnswer(block) =>
      if Offering(x, y, xy, yx, block) {
        leader := false;
        pick := WaiterMoves(x, y, xy);
      }
    case AwaitPeek(acc) =>
      leader := false;
      if acc == {} { pick := WaiterMoves(x, y, xy); }
    case Stopped =>
      leader := false;
      pick := WaiterMoves(x, y, xy);
    case _ => pick := SendsOn(x, yx);
  }

  // How the messages from x to y fare since the session began with y0; mail is all that x had to send since.

  /** A station that only sends defers everything; any other defers nothing. */
  ghost predicate PcFits(pc: Pc, sendOnly: bool) {
    match pc
    case Writing(todo, rej, acc) =>
      (forall p :: p in todo ==> (p.1.Defer? <==> sendOnly)) && (sendOnly ==> rej == {} && acc == {})
    case Reporting(rej, acc) => sendOnly ==> rej == {} && acc == {}
    case AwaitPeek(acc) => sendOnly ==> acc == {}
    case Confirming(acc) => sendOnly ==> acc == {}
    case _ => true
  }

  ghost predicate LineFits(l: Line, sendOnly: bool) {
    l.FS? ==> forall a :: a in l.answers ==> (a.Defer? <==> sendOnly)
  }

  ghost predicate LinesFit(ls: seq<Line>, sendOnly: bool) {
    forall l :: l in ls ==> LineFits(l, sendOnly)
  }

  /** The sender: a message leaves its outbox only when reported, and not at all if everything is deferred. */
  ghost predicate SenderFares(mail: set<Msg>, x: Side, sendOnly: bool) {
    && PcFits(x.pc, sendOnly)
    && (forall m :: m in x.box.outbox ==> m in mail)
    && (forall m :: m in mail ==> m in x.box.outbox || (!sendOnly && m.mid in x.box.sent))
    && (!sendOnly ==> x.box.deferred == {})
  }

  /** The receiver: it has what it had, and what it took in since. */
  ghost predicate ReceiverFares(y0: Side, y: Side) {
    && y.box.sendOnly == y0.box.sendOnly && y0.processed <= y.processed
    && y.box.inbox == y0.box.inbox + SetOf(y.processed[|y0.processed|..])
    && (y.box.sendOnly ==> y.processed == y0.processed && !y.pc.Fetching?)
  }

  lemma ZipFits(block: seq<Mid>, answers: seq<Answer>, sendOnly: bool)
    requires |answers| <= |block| && LineFits(FS(answers), sendOnly)
    ensures forall p :: p in Zip(block, answers) ==> (p.1.Defer? <==> sendOnly)
  {
  }

  lemma WriteFares(mail: set<Msg>, x: Side, sendOnly: bool)
    requires SenderFares(mail, x, sendOnly) && x.pc.Writing? && x.pc.todo != []
    ensures var pc := x.pc;
            SenderFares(mail, WriteAct(x, pc.todo[0].0, pc.todo[0].1, pc.todo[1..], pc.rej, pc.acc).side, sendOnly)
  {
    var todo := x.pc.todo;
    assert todo[0] in todo;
    assert forall p :: p in todo[1..] ==> p in todo;
  }

  lemma FirstFits(ls: seq<Line>, sendOnly: bool)
    requires ls != [] && LinesFit(ls, sendOnly)
    ensures LineFits(ls[0], sendOnly)
  {
  }

  lemma AnswerFares(mail: set<Msg>, x: Side, inc: seq<Line>, pick: Mid, sendOnly: bool)
    requires SenderFares(mail, x, sendOnly) && LinesFit(inc, sendOnly)
    requires x.pc.AwaitAnswer? && OutAct(x, inc, pick).Moved?
    ensures SenderFares(mail, OutAct(x, inc, pick).side, sendOnly)
  {
    hide NextBlock, WriteAct, Zip, Mids, Props, LinesFit, Sent;
    if inc[0].FS? && |inc[0].answers| <= |x.pc.block| {
      FirstFits(inc, sendOnly);
      ZipFits(x.pc.block, inc[0].answers, sendOnly);
    }
  }

  lemma OutFares(mail: set<Msg>, x: Side, inc: seq<Line>, pick: Mid, sendOnly: bool)
    requires SenderFares(mail, x, sendOnly) && LinesFit(inc, sendOnly) && OutAct(x, inc, pick).Moved?
    ensures SenderFares(mail, OutAct(x, inc, pick).side, sendOnly)
  {
    hide NextBlock, WriteAct, Zip, Mids, Props, LinesFit, Sent;
    match x.pc
    case AwaitAnswer(_) => AnswerFares(mail, x, inc, pick, sendOnly);
    case Writing(todo, _, _) => if todo != [] { WriteFares(mail, x, sendOnly); }
    case Reporting(rej, acc) => if rej != {} { SentFares(mail, x, pick, Reporting(rej - {pick}, acc), sendOnly); }
    case Confirming(acc) => if acc != {} { SentFares(mail, x, pick, Confirming(acc - {pick}), sendOnly); }
    case _ =>
  }

  lemma SentFares(mail: set<Msg>, x: Side, pick: Mid, next: Pc, sendOnly: bool)
    requires SenderFares(mail, x, sendOnly) && !sendOnly && !next.Writing?
    ensures SenderFares(mail, Sent(x, pick, next).side, sendOnly)
  {
    hide Mids;
  }

  lemma AnswersFit(b: Box, props: seq<Mid>)
    requires NoDup(props)
    ensures LineFits(FS(Answers(b, props)), b.sendOnly)
    ensures b.sendOnly ==> Accepts(Zip(props, Answers(b, props))) == []
  {
    var answers := Answers(b, props);
    var todo := Zip(props, answers);
    if b.sendOnly && Accepts(todo) != [] {
      AcceptsFrom(todo, Accepts(todo)[0]);
    }
  }

  lemma OneMoreTaken(y0: Side, y: Side, mid: Mid)
    requires y0.processed <= y.processed
    ensures var p := y.processed + [mid];
            y0.processed <= p && SetOf(p[|y0.processed|..]) == SetOf(y.processed[|y0.processed|..]) + {mid}
  {
    var p, k := y.processed + [mid], |y0.processed|;
    assert p[k..] == y.processed[k..] + [mid];
  }

  lemma InFares(y0: Side, y: Side, inc: seq<Line>)
    requires ReceiverFares(y0, y) && InAct(y, inc).Moved?
    requires y.pc.InLoop? && inc != [] && inc[0].Prompt? ==> NoDup(y.pc.props)
    ensures ReceiverFares(y0, InAct(y, inc).side) && LinesFit(InAct(y, inc).out, y.box.sendOnly)
  {
    hide SetOf, ReadLine;
    match y.pc
    case InLoop(props) => ReadFares(y0, y, inc[0]);
    case Fetching(due) => if due != [] && inc[0].Body? { OneMoreTaken(y0, y, inc[0].mid); }
    case _ =>
  }

  lemma ReadFares(y0: Side, y: Side, line: Line)
    requires ReceiverFares(y0, y) && y.pc.InLoop? && (line.Prompt? ==> NoDup(y.pc.props))
    ensures var m := ReadLine(y, y.pc.props, line); ReceiverFares(y0, m.side) && LinesFit(m.out, y.box.sendOnly)
  {
    hide Answers, Zip, Accepts, SetOf, LineFits;
    if line.Prompt? {
      AnswersFit(y.box, y.pc.props);
    } else if line.Body? || line.Err? || line.FS? {
      ErrFits(y.box.sendOnly);
    }
  }

  lemma ErrFits(sendOnly: bool)
    ensures LineFits(Err, sendOnly)
  {
  }

  lemma InSide(s: Side, inc: seq<Line>)
    requires InAct(s, inc).Moved?
    ensures var t := InAct(s, inc).side;
            t.box == s.box.(inbox := t.box.inbox) && (t.pc.Choose? || t.pc.InLoop? || t.pc.Fetching? || t.pc.Stopped?)
  {
    hide ReadLine;
    if s.pc.InLoop? { ReadBox(s, s.pc.props, inc[0]); }
  }

  /** A step keeps both accounts of the station that takes it. */
  lemma ActFares(mail: set<Msg>, s0: Side, s: Side, inc: seq<Line>, pick: Mid, peerSendOnly: bool)
    requires SenderFares(mail, s, peerSendOnly) && ReceiverFares(s0, s) && LinesFit(inc, peerSendOnly)
    requires Act(s, inc, pick).Moved?
    requires s.pc.InLoop? && inc != [] && inc[0].Prompt? ==> NoDup(s.pc.props)
    ensures var m := Act(s, inc, pick);
            SenderFares(mail, m.side, peerSendOnly) && ReceiverFares(s0, m.side) && LinesFit(m.out, s.box.sendOnly)
  {
    hide OutAct, InAct, SetOf;
    if s.pc.InLoop? || s.pc.Fetching? {
      InFares(s0, s, inc);
      InSide(s, inc);
    } else {
      OutFares(mail, s, inc, pick, peerSendOnly);
      OutBoxes(s, inc, pick);
    }
  }

  /** Both directions since w0; ma and mb are all that the stations had to send since. */
  ghost predicate Tracked(w0: World, ma: set<Msg>, mb: set<Msg>, w: World) {
    && SenderFares(ma, w.a, w.b.box.sendOnly) && ReceiverFares(w0.a, w.a) && LinesFit(w.ab, w.a.box.sendOnly)
    && SenderFares(mb, w.b, w.a.box.sendOnly) && ReceiverFares(w0.b, w.b) && LinesFit(w.ba, w.b.box.sendOnly)
  }

  lemma PromptNoDup(x: Side, y: Side, xy: seq<Line>, yx: seq<Line>)
    requires Kept(x, y, xy, yx) && y.up && y.pc.InLoop? && xy != [] && xy[0].Prompt?
    ensures NoDup(y.pc.props)
  {
    hide Phase, Offering;
    HeadOfTurn(x, y, xy, yx);
    PromptLast(x, y, xy, yx, x.pc.block);
  }

  lemma LeaderNotReading(w: World, alice: bool, la: set<Mid>, lb: set<Mid>)
    requires Calm(w, la, lb) && MySide(w, alice).pc.InLoop? && Incoming(w, alice) != [] && Incoming(w, alice)[0].Prompt?
    ensures NoDup(MySide(w, alice).pc.props)
  {
    hide LocalOk, Phase, Flow;
    if Kept(w.a, w.b, w.ab, w.ba) {
      HasTurn(w.a, w.b, w.ab, w.ba);
      if !alice { PromptNoDup(w.a, w.b, w.ab, w.ba); }
    }
    if Kept(w.b, w.a, w.ba, w.ab) {
      HasTurn(w.b, w.a, w.ba, w.ab);
      if alice { PromptNoDup(w.b, w.a, w.ba, w.ab); }
    }
  }

  lemma TrackedStep(w0: World, ma: set<Msg>, mb: set<Msg>, w: World, alice: bool, pick: Mid, la: set<Mid>, lb: set<Mid>)
    requires Calm(w, la, lb) && Tracked(w0, ma, mb, w) && Moves(w, alice, pick)
    ensures Tracked(w0, ma, mb, Step(w, Acts(alice, pick)))
  {
    hide Calm, Act, SenderFares, LineFits, Decides, SetOf;
    var s, s0, inc := MySide(w, alice), MySide(w0, alice), Incoming(w, alice);
    if s.pc.InLoop? && inc != [] && inc[0].Prompt? { LeaderNotReading(w, alice, la, lb); }
    ActFares(if alice then ma else mb, s0, s, inc, pick, MySide(w, !alice).box.sendOnly);
  }

  lemma AddFares(mail: set<Msg>, s0: Side, s: Side, msg: Msg, sendOnly: bool)
    requires SenderFares(mail, s, sendOnly) && ReceiverFares(s0, s)
    ensures SenderFares(mail + {msg}, Added(s, msg), sendOnly) && ReceiverFares(s0, Added(s, msg))
  {
    hide SetOf;
  }

  lemma TrackedAdd(w0: World, ma: set<Msg>, mb: set<Msg>, w: World, alice: bool, msg: Msg)
    requires Tracked(w0, ma, mb, w)
    ensures var e := AddOut(alice, msg);
            Tracked(w0, ma + PutIn(w, e, true), mb + PutIn(w, e, false), Step(w, e))
  {
    hide SenderFares, ReceiverFares, LinesFit, Mids;
    var s, mail := MySide(w, alice), if alice then ma else mb;
    assert ma + {} == ma && mb + {} == mb;
    if msg.mid !in Mids(s.box.outbox) {
      AddFares(mail, MySide(w0, alice), s, msg, MySide(w, !alice).box.sendOnly);
    }
  }

  lemma {:induction false} TrackedRun(w: World, es: seq<Event>)
    requires Calm(w, {}, {}) && Tracked(w, Mail(w, [], true), Mail(w, [], false), w) && AllMove(w, es)
    ensures Tracked(w, Mail(w, es, true), Mail(w, es, false), Run(w, es))
    decreases |es|
  {
    hide Calm, Moves, Step, Tracked, Measure, PutIn;
    if es == [] {
    } else {
      var n := |es| - 1;
      CalmRun(w, es[..n]);
      TrackedRun(w, es[..n]);
      var v, ma, mb := Run(w, es[..n]), Mail(w, es[..n], true), Mail(w, es[..n], false);
      if es[n].AddOut? {
        TrackedAdd(w, ma, mb, v, es[n].alice, es[n].msg);
      } else {
        NothingPut(v, es[n], true);
        NothingPut(v, es[n], false);
        assert ma + {} == ma && mb + {} == mb;
        TrackedStep(w, ma, mb, v, es[n].alice, es[n].pick, Late(w, es[..n], true), Late(w, es[..n], false));
      }
    }
  }

  lemma NothingPut(w: World, e: Event, alice: bool)
    requires !e.AddOut?
    ensures PutIn(w, e, alice) == {}
  {
  }

  /** A message the remote took in during the session. */
  ghost predicate Delivered(m: Msg, x: Side, y0: Side, y: Side) {
    m.mid !in y0.box.inbox && m.mid in y.processed && m.mid in y.box.inbox && m.mid in x.box.sent && m !in x.box.outbox
  }

  /** A message the remote had before. */
  ghost predicate Already(m: Msg, x: Side, y0: Side, y: Side) {
    m.mid in y0.box.inbox && m.mid in x.box.sent && m !in x.box.outbox
  }

  /** A message put off to another session. */
  ghost predicate PutOff(m: Msg, x: Side) {
    m in x.box.outbox && m.mid in x.box.deferred
  }

  /** The message met exactly one of the three ends; it was put off only if the remote takes nothing. */
  ghost predicate Served(m: Msg, x: Side, y0: Side, y: Side) {
    if y0.box.sendOnly then PutOff(m, x) && y.processed == y0.processed
    else !PutOff(m, x) && (Delivered(m, x, y0, y) <==> !Already(m, x, y0, y))
  }

  /** Every message for the remote has, but for those that came in late. */
  ghost predicate AllServed(mail: set<Msg>, late: set<Mid>, x: Side, y0: Side, y: Side) {
    forall m :: m in mail && m.fit && m.mid !in late ==> Served(m, x, y0, y)
  }

  lemma Serves(mail: set<Msg>, late: set<Mid>, x: Side, y0: Side, y: Side)
    requires SenderFares(mail, x, y.box.sendOnly) && ReceiverFares(y0, y)
    requires Offered(x.box) <= late && x.box.sent <= y.box.inbox
    ensures AllServed(mail, late, x, y0, y)
  {
    forall m | m in mail && m.fit && m.mid !in late ensures Served(m, x, y0, y) {
      assert m in x.box.outbox && m.mid !in x.box.deferred ==> m.mid in Offered(x.box);
    }
  }

  /** A session has just begun. */
  ghost predicate Begun(w: World) {
    exists u: World, aliceMaster :: Inv(u) && Over(u.a) && Over(u.b) && w == Step(u, Connect(aliceMaster))
  }

  lemma BeginsCalm(w: World)
    requires Begun(w)
    ensures Calm(w, {}, {}) && Tracked(w, Mail(w, [], true), Mail(w, [], false), w)
  {
    hide Inv, Offered, Tracked, Kept;
    var u: World, aliceMaster :| Inv(u) && Over(u.a) && Over(u.b) && w == Step(u, Connect(aliceMaster));
    ConnectKeeps(u, aliceMaster);
    Opening(w);
    BeginsTracked(u, aliceMaster);
  }

  lemma BeginsTracked(u: World, aliceMaster: bool)
    requires Over(u.a) && Over(u.b)
    ensures var w := Step(u, Connect(aliceMaster)); Tracked(w, Mail(w, [], true), Mail(w, [], false), w)
  {
    var w := Step(u, Connect(aliceMaster));
    assert w.a.processed[|w.a.processed|..] == [] && w.b.processed[|w.b.processed|..] == [];
  }

  lemma Opening(w: World)
    requires Inv(w) && w.ab == [] && w.ba == []
    ensures w.a.pc == Choose && w.b.pc == InLoop([]) ==> Kept(w.a, w.b, w.ab, w.ba)
    ensures w.b.pc == Choose && w.a.pc == InLoop([]) ==> Kept(w.b, w.a, w.ba, w.ab)
  {
    hide Distinct, Logged;
  }

  /** Both stations stopped, one on sending the quit command and the other on reading it. */
  ghost predicate Ended(w: World) {
    && w.a.pc.Stopped? && w.b.pc.Stopped?
    && ((w.a.quitSent && w.b.quitReceived) || (w.b.quitSent && w.a.quitReceived))
  }

  /**
   Take any session in which nothing fails, however the steps of the two stations interleave and whatever
   mail comes in meanwhile.  It stops after a number of steps bounded by the mail there is, and only when both
   have stopped on the same quit command; by then it has taken at most two turns more than twice the number
   that shipped something, and every message for the remote, there from the start or put in later, has been
   delivered, was there before, or is put off, unless it came in after its station last said that it had
   nothing more.
   */
  lemma SessionsEnd(w: World, es: seq<Event>)
    requires Begun(w) && AllMove(w, es)
    ensures var v := Run(w, es);
            && |es| <= 3000 * (|Offered(w.a.box)| + |Offered(w.b.box)|) + 2700 + 3001 * Adds(es)
            && v.tally.turns <= 2 * v.tally.ships + 2
            && (CanMove(v) || (Ended(v) && Finished(w, es, true) && Finished(w, es, false)))
  {
    hide Begun, AllMove, Calm, Tracked, Measure, Run, CanMove, Ended, Finished, Mail, Late, Offered;
    BeginsCalm(w);
    OpeningMeasure(w);
    CalmRun(w, es);
    TrackedRun(w, es);
    var v := Run(w, es);
    var la, lb := Late(w, es, true), Late(w, es, false);
    CalmTurns(v, la, lb);
    if !CanMove(v) {
      CalmEnd(v, la, lb);
      TrackedEnd(w, es);
    }
  }

  /** How the messages of a station have fared by the end of a run. */
  ghost predicate Finished(w: World, es: seq<Event>, alice: bool) {
    var x, y := MySide(Run(w, es), alice), MySide(Run(w, es), !alice);
    var late := Late(w, es, alice);
    Offered(x.box) <= late && AllServed(Mail(w, es, alice), late, x, MySide(w, !alice), y)
  }

  lemma FlowTurns(x: Side, y: Side, xy: seq<Line>, yx: seq<Line>, t: Tally, lx: set<Mid>, ly: set<Mid>)
    requires Phase(x, y, xy, yx) && Flow(x, y, yx, t, lx, ly)
    ensures t.turns <= 2 * t.ships + 2
  {
    hide Accepts, Offered;
    HasTurn(x, y, xy, yx);
  }

  lemma CalmTurns(w: World, la: set<Mid>, lb: set<Mid>)
    requires Calm(w, la, lb)
    ensures w.tally.turns <= 2 * w.tally.ships + 2
  {
    hide LocalOk, Phase, Flow;
    if Kept(w.a, w.b, w.ab, w.ba) && Flow(w.a, w.b, w.ba, w.tally, la, lb) {
      FlowTurns(w.a, w.b, w.ab, w.ba, w.tally, la, lb);
    } else {
      FlowTurns(w.b, w.a, w.ba, w.ab, w.tally, lb, la);
    }
  }

  /** When nothing can move any more, the session has ended and nothing is left to offer but what came in late. */
  lemma CalmEnd(w: World, la: set<Mid>, lb: set<Mid>)
    requires Calm(w, la, lb) && !CanMove(w)
    ensures Ended(w) && Offered(w.a.box) <= la && Offered(w.b.box) <= lb
    ensures w.a.box.sent <= w.b.box.inbox && w.b.box.sent <= w.a.box.inbox
  {
    hide LocalOk, CanMove, Offered;
    if !(w.a.pc.Stopped? && w.b.pc.Stopped?) {
      CalmMoves(w, la, lb);
    }
  }

  lemma CalmMoves(w: World, la: set<Mid>, lb: set<Mid>)
    requires Calm(w, la, lb) && !(w.a.pc.Stopped? && w.b.pc.Stopped?)
    ensures CanMove(w)
  {
    hide LocalOk, Phase, Flow, Act;
    if Kept(w.a, w.b, w.ab, w.ba) {
      var leader, pick := NoDeadlock(w.a, w.b, w.ab, w.ba);
      assert Act(MySide(w, leader), Incoming(w, leader), pick).Moved?;
    } else {
      var leader, pick := NoDeadlock(w.b, w.a, w.ba, w.ab);
      assert Act(MySide(w, !leader), Incoming(w, !leader), pick).Moved?;
    }
  }

  lemma OpeningMeasure(w: World)
    requires Begun(w)
    ensures Measure(w) <= 3000 * (|Offered(w.a.box)| + |Offered(w.b.box)|) + 2700
  {
    hide Inv, Offered;
    assert Offered(w.a.box) - {} == Offered(w.a.box) && Offered(w.b.box) - {} == Offered(w.b.box);
  }

  lemma TrackedEnd(w: World, es: seq<Event>)
    requires var v := Run(w, es);
             && Tracked(w, Mail(w, es, true), Mail(w, es, false), v)
             && Offered(v.a.box) <= Late(w, es, true) && Offered(v.b.box) <= Late(w, es, false)
             && v.a.box.sent <= v.b.box.inbox && v.b.box.sent <= v.a.box.inbox
    ensures Finished(w, es, true) && Finished(w, es, false)
  {
    hide SenderFares, ReceiverFares, Offered, LinesFit, AllServed, Mail, Late, Run;
    var v := Run(w, es);
    Serves(Mail(w, es, true), Late(w, es, true), v.a, w.b, v.b);
    Serves(Mail(w, es, false), Late(w, es, false), v.b, w.a, v.a);
  }
}
