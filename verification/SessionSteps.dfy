/**
 Every step of a station keeps the invariant of the session.
 */
module SessionSteps {
  import opened Mailbox
  import opened Session
  import opened SessionInv

  // A station's own bookkeeping.

  lemma RestNames(todo: seq<(Mid, Answer)>)
    requires todo != []
    ensures Names(todo) == {todo[0].0} + Names(todo[1..])
    ensures Rejects(todo) == Rejects(todo[1..]) + if todo[0].1.Reject? then {todo[0].0} else {}
    ensures NoDupNames(todo) ==> NoDupNames(todo[1..]) && todo[0].0 !in Names(todo[1..])
  {
    assert todo == [todo[0]] + todo[1..];
  }

  lemma ZipNames(block: seq<Mid>, answers: seq<Answer>)
    requires |answers| <= |block| && NoDup(block)
    ensures NoDupNames(Zip(block, answers)) && Names(Zip(block, answers)) <= SetOf(block)
  {
  }

  lemma AcceptsFrom(todo: seq<(Mid, Answer)>, m: Mid)
    ensures m in Accepts(todo) <==> (m, Accept) in todo
  {
    if todo != [] {
      AcceptsFrom(todo[1..], m);
      assert todo == [todo[0]] + todo[1..];
    }
  }

  /** At most one proposal of a MID is accepted ... */
  lemma {:induction false} AcceptOnce(props: seq<Mid>, todo: seq<(Mid, Answer)>, k: nat)
    requires k <= |todo| == |props|
    requires forall i :: 0 <= i < |todo| ==> todo[i].0 == props[i] && (todo[i].1.Accept? ==> props[i] !in props[..i])
    ensures NoDup(Accepts(todo[k..]))
    decreases |props| - k
  {
    if k >= |props| {
    } else {
      AcceptOnce(props, todo, k + 1);
      assert todo[k..][1..] == todo[k + 1..];
      AcceptsFrom(todo[k + 1..], props[k]);
      if (props[k], Accept) in todo[k + 1..] {
        var i :| k < i < |todo| && todo[i] == (props[k], Accept);
        assert props[k] in props[..i];
      }
    }
  }

  /** ... and only if the MID is new. */
  lemma AnswersAccept(b: Box, props: seq<Mid>)
    ensures var due := Accepts(Zip(props, Answers(b, props))); NoDup(due) && SetOf(due) !! b.inbox
  {
    var todo := Zip(props, Answers(b, props));
    AcceptOnce(props, todo, 0);
    assert todo[0..] == todo;
    forall m | m in Accepts(todo) ensures m !in b.inbox {
      AcceptsFrom(todo, m);
    }
  }

  lemma WriteLocal(s: Side)
    requires LocalOk(s) && s.pc.Writing? && s.pc.todo != []
    ensures var pc := s.pc; LocalOk(WriteAct(s, pc.todo[0].0, pc.todo[0].1, pc.todo[1..], pc.rej, pc.acc).side)
  {
    hide Distinct, Names, Rejects, NoDupNames;
    RestNames(s.pc.todo);
  }

  lemma SentLocal(s: Side, mid: Mid, next: Pc)
    requires LocalOk(s) && mid in Mids(s.box.outbox)
    requires Apart(next) && !next.Fetching? && Working(next) <= Mids(s.box.outbox) - {mid}
    ensures LocalOk(Sent(s, mid, next).side)
  {
    hide Without, Mids, Working, Apart;
    SentMids(s.box.outbox, mid);
  }

  lemma OutLocal(s: Side, inc: seq<Line>, pick: Mid)
    requires LocalOk(s) && OutAct(s, inc, pick).Moved?
    ensures LocalOk(OutAct(s, inc, pick).side)
  {
    hide NextBlock, WriteAct, Distinct, Sent, Mids, Names, NoDupNames, Offered, Zip, NoDup, SetOf;
    match s.pc
    case Choose => NextBlockFacts(s.box);
    case AwaitAnswer(block) =>
      if inc[0].FS? && |inc[0].answers| <= |block| {
        ZipNames(block, inc[0].answers);
        NamesOf(Zip(block, inc[0].answers));
      }
    case Writing(todo, _, _) => if todo != [] { WriteLocal(s); } else { NamesOf(todo); }
    case Reporting(rej, acc) => if rej != {} { SentLocal(s, pick, Reporting(rej - {pick}, acc)); }
    case Confirming(acc) => if acc != {} { SentLocal(s, pick, Confirming(acc - {pick})); }
    case _ =>
  }

  lemma NamesOf(todo: seq<(Mid, Answer)>)
    ensures Names(todo) !! {} !! {} && Names(todo) + {} + {} == Names(todo) && (todo == [] ==> Names(todo) == {})
  {
  }

  lemma InLocal(s: Side, inc: seq<Line>)
    requires LocalOk(s) && InAct(s, inc).Moved?
    requires s.pc.Fetching? && s.pc.due != [] && inc != [] && inc[0].Body? ==> inc[0].mid == s.pc.due[0]
    ensures LocalOk(InAct(s, inc).side)
  {
    hide Distinct, Mids, NoDup, SetOf, ReadLine;
    match s.pc
    case InLoop(props) => ReadLocal(s, props, inc[0]);
    case Fetching(due) =>
      if due != [] && inc[0].Body? { TakeOne(s, due); }
    case _ =>
  }

  lemma ReadLocal(s: Side, props: seq<Mid>, line: Line)
    requires LocalOk(s) && s.pc.InLoop?
    ensures LocalOk(ReadLine(s, props, line).side)
  {
    hide Answers, Zip, Distinct, Accepts, Mids, NoDup, SetOf;
    AnswersAccept(s.box, props);
  }

  lemma TakeOne(s: Side, due: seq<Mid>)
    requires due != [] && Logged(s) && NoDup(due) && SetOf(due) !! s.box.inbox
    ensures NoDup(s.processed + [due[0]]) && SetOf(s.processed + [due[0]]) <= s.box.inbox + {due[0]}
    ensures NoDup(due[1..]) && SetOf(due[1..]) !! s.box.inbox + {due[0]}
  {
    assert due == [due[0]] + due[1..];
    assert due[0] in SetOf(due);
    forall i | 0 <= i < |s.processed| ensures s.processed[i] != due[0] {
      assert s.processed[i] in SetOf(s.processed);
    }
  }

  // The station that has the turn.

  lemma ChoosePhase(x: Side, y: Side, xy: seq<Line>, yx: seq<Line>)
    requires x.up && x.pc.Choose? && Phase(x, y, xy, yx)
    ensures var m := OutAct(x, yx, []); Phase(m.side, y, xy + m.out, yx)
  {
    hide NextBlock, Accepts, Rejects;
    var block := NextBlock(x.box);
    assert block[0..] == block;
    assert block[..0] == [];
    assert xy + (Props(block) + [Prompt]) == Props(block) + [Prompt];
  }

  lemma AnswerPhase(x: Side, y: Side, xy: seq<Line>, yx: seq<Line>)
    requires x.up && x.pc.AwaitAnswer? && Phase(x, y, xy, yx) && OutAct(x, yx, []).Moved?
    ensures var m := OutAct(x, yx, []);
            Phase(m.side, y, xy + m.out, After(yx, m.taken))
  {
    hide Props, Lagging, Zip, Accepts, Rejects, Underway;
    var block := x.pc.block;
    assert xy + [] == xy;
    if !Offering(x, y, xy, yx, block) {
      var todo := Zip(block, yx[0].answers);
      assert Rejects(todo) + {} == Rejects(todo);
    }
  }

  lemma FirstAccept(todo: seq<(Mid, Answer)>)
    requires todo != []
    ensures Accepts(todo) == (if todo[0].1.Accept? then [todo[0].0] else []) + Accepts(todo[1..])
  {
  }

  lemma ShipOne(pc: Pc, inbox: set<Mid>, xy: seq<Line>, mid: Mid, more: seq<Mid>, acc: set<Mid>)
    requires Underway(pc, inbox, xy, true, [mid] + more, acc)
    ensures Underway(pc, inbox, xy + [Body(mid)], true, more, acc + {mid})
  {
    var k := |pc.due| - |more| - 1;
    var under, under' := pc.due[..k], pc.due[..k + 1];
    assert under' == under + [mid];
    assert Bodies(under') == Bodies(under) + [Body(mid)];
    assert SetOf(under') == SetOf(under) + {mid};
  }

  lemma WritingPhase(x: Side, y: Side, xy: seq<Line>, yx: seq<Line>)
    requires x.up && x.pc.Writing? && Phase(x, y, xy, yx)
    ensures var m := OutAct(x, yx, []); Phase(m.side, y, xy + m.out, yx)
  {
    hide Accepts, Rejects, Underway;
    var todo, rej, acc := x.pc.todo, x.pc.rej, x.pc.acc;
    assert xy + [] == xy;
    if todo == [] {
      assert Accepts(todo) == [] && Rejects(todo) == {} by { NothingLeft(); }
      assert {} + rej == rej;
    } else {
      RestNames(todo);
      FirstAccept(todo);
      var more, rs := Accepts(todo[1..]), Rejects(todo[1..]);
      if todo[0].1.Accept? {
        ShipOne(y.pc, y.box.inbox, xy, todo[0].0, more, acc);
      } else {
        assert [] + more == more;
        assert rs + {todo[0].0} + rej == rs + (rej + {todo[0].0});
        assert rs + {} + rej == rs + rej;
      }
    }
  }

  lemma NothingLeft()
    ensures Accepts([]) == [] && Rejects([]) == {}
  {
  }

  lemma ReportingPhase(x: Side, y: Side, xy: seq<Line>, yx: seq<Line>, pick: Mid)
    requires LocalOk(x) && x.up && x.pc.Reporting? && Phase(x, y, xy, yx) && OutAct(x, yx, pick).Moved?
    ensures var m := OutAct(x, yx, pick); Phase(m.side, y, xy + m.out, yx)
  {
    hide NextBlock, Underway, Accepts, Rejects, Mids, Distinct, Without;
    assert xy + [] == xy;
    assert [] + [FF] == [FF] && [] + [FQ] == [FQ];
  }

  lemma PeekPhase(x: Side, y: Side, xy: seq<Line>, yx: seq<Line>)
    requires x.up && x.pc.AwaitPeek? && Phase(x, y, xy, yx) && OutAct(x, yx, []).Moved?
    ensures var m := OutAct(x, yx, []); Phase(m.side, y, xy + m.out, yx)
  {
    hide Waiting, Bodies, SetOf;
    assert [] + [Err] == [Err];
  }

  /** What a sending station's step does to its mailbox. */
  ghost predicate BoxAfter(s: Side, pick: Mid, b: Box) {
    || b == s.box
    || (s.pc.Writing? && s.pc.todo != [] && b == SetDeferred(s.box, s.pc.todo[0].0))
    || (s.pc.Reporting? && pick in s.pc.rej && pick in Mids(s.box.outbox) && b == SetSent(s.box, pick))
    || (s.pc.Confirming? && pick in s.pc.acc && pick in Mids(s.box.outbox) && b == SetSent(s.box, pick))
  }

  /** What no step of a sending station does: take mail in, change its ways, start to fetch, or answer. */
  ghost predicate Sends(s: Side, m: Move) {
    && m.Moved? && m.side.processed == s.processed
    && m.side.box.inbox == s.box.inbox && m.side.box.sendOnly == s.box.sendOnly
    && (m.side.pc == s.pc || !m.side.pc.Fetching?)
    && forall l :: l in m.out ==> !l.FS?
  }

  lemma OutBoxes(s: Side, inc: seq<Line>, pick: Mid)
    requires OutAct(s, inc, pick).Moved?
    ensures BoxAfter(s, pick, OutAct(s, inc, pick).side.box) && Sends(s, OutAct(s, inc, pick))
  {
    hide ChooseAct, AnswerAct, ReportAct, PeekAct, ConfirmAct, WriteAct, SetSent, SetDeferred;
    match s.pc
    case Choose => ChooseBox(s);
    case AwaitAnswer(block) => AnswerBox(s, block, inc);
    case Writing(todo, rej, acc) => if todo != [] { WriteBox(s, todo[0].0, todo[0].1, todo[1..], rej, acc); }
    case Reporting(rej, acc) => ReportBox(s, rej, acc, pick);
    case AwaitPeek(acc) => PeekBox(s, acc, inc);
    case Confirming(acc) => ConfirmBox(s, acc, pick);
    case _ =>
  }

  lemma ChooseBox(s: Side)
    ensures ChooseAct(s).side.box == s.box && Sends(s, ChooseAct(s))
  {
    hide NextBlock;
  }

  lemma AnswerBox(s: Side, block: seq<Mid>, inc: seq<Line>)
    requires AnswerAct(s, block, inc).Moved?
    ensures AnswerAct(s, block, inc).side.box == s.box && Sends(s, AnswerAct(s, block, inc))
  {
    hide Zip;
  }

  lemma WriteBox(s: Side, mid: Mid, answer: Answer, rest: seq<(Mid, Answer)>, rej: set<Mid>, acc: set<Mid>)
    ensures var m := WriteAct(s, mid, answer, rest, rej, acc);
            (m.side.box == s.box || m.side.box == SetDeferred(s.box, mid)) && Sends(s, m)
  {
  }

  lemma SentBox(s: Side, mid: Mid, next: Pc)
    requires !next.Fetching?
    ensures var m := Sent(s, mid, next);
            && (m.side.box == s.box || (mid in Mids(s.box.outbox) && m.side.box == SetSent(s.box, mid)))
            && Sends(s, m)
  {
    hide Mids, Without;
  }

  lemma ReportBox(s: Side, rej: set<Mid>, acc: set<Mid>, pick: Mid)
    requires ReportAct(s, rej, acc, pick).Moved?
    ensures var m := ReportAct(s, rej, acc, pick); var b := m.side.box;
            && (b == s.box || (pick in rej && pick in Mids(s.box.outbox) && b == SetSent(s.box, pick)))
            && Sends(s, m)
  {
    hide NextBlock, Mids, Sent, SetSent;
    SentBox(s, pick, Reporting(rej - {pick}, acc));
  }

  lemma PeekBox(s: Side, acc: set<Mid>, inc: seq<Line>)
    requires PeekAct(s, acc, inc).Moved?
    ensures PeekAct(s, acc, inc).side.box == s.box && Sends(s, PeekAct(s, acc, inc))
  {
  }

  lemma ConfirmBox(s: Side, acc: set<Mid>, pick: Mid)
    requires ConfirmAct(s, acc, pick).Moved?
    ensures var m := ConfirmAct(s, acc, pick); var b := m.side.box;
            && (b == s.box || (pick in acc && pick in Mids(s.box.outbox) && b == SetSent(s.box, pick)))
            && Sends(s, m)
  {
    hide Mids, Sent, SetSent;
    SentBox(s, pick, Confirming(acc - {pick}));
  }

  /** What reading a line leaves alone. */
  lemma ReadBox(s: Side, props: seq<Mid>, line: Line)
    ensures var t := ReadLine(s, props, line).side;
            && t.box == s.box && t.processed == s.processed
            && (t.pc == s.pc || t.pc.Choose? || t.pc.InLoop? || t.pc.Fetching? || t.pc.Stopped?)
  {
    hide Answers, Zip, Accepts;
  }

  /** What is reported sent has arrived. */
  lemma SentArrived(x: Side, inc: seq<Line>, pick: Mid, inbox: set<Mid>)
    requires OutAct(x, inc, pick).Moved? && x.box.sent <= inbox
    requires x.pc.Reporting? ==> x.pc.rej <= inbox
    requires x.pc.Confirming? ==> x.pc.acc <= inbox
    ensures OutAct(x, inc, pick).side.box.sent <= inbox
  {
    hide OutAct, Mids, Without;
    OutBoxes(x, inc, pick);
  }

  lemma RejectedArrived(x: Side, y: Side, xy: seq<Line>, yx: seq<Line>)
    requires Phase(x, y, xy, yx) && x.pc.Reporting?
    ensures x.pc.rej <= y.box.inbox
  {
    hide Waiting, Underway;
  }

  /** The outcome of a move: whose turn it is then. */
  ghost predicate Kept(x: Side, y: Side, xy: seq<Line>, yx: seq<Line>) {
    LocalOk(x) && LocalOk(y) && x.box.sent <= y.box.inbox && y.box.sent <= x.box.inbox && Phase(x, y, xy, yx)
  }

  /** The station that has the turn moves. */
  lemma OutMoves(x: Side, y: Side, xy: seq<Line>, yx: seq<Line>, pick: Mid)
    requires Kept(x, y, xy, yx) && Act(x, yx, pick).Moved?
    ensures var m := Act(x, yx, pick); Kept(m.side, y, xy + m.out, After(yx, m.taken))
  {
    hide NextBlock, LocalOk, Shipping, Telling, Offering, Answered, Accepts, Zip, SetSent, SetDeferred;
    OutLocal(x, yx, pick);
    OutBoxes(x, yx, pick);
    if x.pc.Reporting? {
      RejectedArrived(x, y, xy, yx);
    }
    SentArrived(x, yx, pick, y.box.inbox);
    match x.pc
    case Choose => ChoosePhase(x, y, xy, yx);
    case AwaitAnswer(_) => AnswerPhase(x, y, xy, yx);
    case Writing(_, _, _) => WritingPhase(x, y, xy, yx);
    case Reporting(_, _) => ReportingPhase(x, y, xy, yx, pick);
    case AwaitPeek(_) => PeekPhase(x, y, xy, yx);
    case _ =>
  }

  // The station that follows.

  /** A station busy with its last turn goes on with it, or is ready to read. */
  lemma LagMoves(y: Side, inc: seq<Line>, pick: Mid, inbox: set<Mid>)
    requires LocalOk(y) && y.up && Lagging(y.pc, inbox) && OutAct(y, inc, pick).Moved?
    requires inc != [] ==> !inc[0].Body?
    ensures var m := OutAct(y, inc, pick);
            && !m.taken
            && !m.side.pc.Choose?
            && (m.side.up ==> m.out == [] && Waiting(m.side.pc, [], inbox))
            && (!m.side.up ==> m.out == [Err] && m.side.pc == y.pc)
  {
    hide NextBlock, Accepts, Rejects, Mids, Without, Distinct, Logged;
    if y.pc.Writing? && y.pc.todo != [] {
      RestNames(y.pc.todo);
      FirstAccept(y.pc.todo);
    }
  }

  lemma LagPhase(x: Side, y: Side, xy: seq<Line>, yx: seq<Line>, pick: Mid)
    requires LocalOk(y) && y.up && Phase(x, y, xy, yx) && Lagging(y.pc, x.box.inbox) && OutAct(y, xy, pick).Moved?
    ensures var m := OutAct(y, xy, pick); !m.taken && !m.side.pc.Choose? && Phase(x, m.side, xy, yx + m.out)
  {
    hide LocalOk, Phase, OutAct, Lagging, BoxAfter;
    LagAhead(x, y, xy, yx);
    LagMoves(y, xy, pick, x.box.inbox);
    OutBoxes(y, xy, pick);
    var m := OutAct(y, xy, pick);
    LagOn(x, y, m.side, xy, yx, m.out);
  }

  lemma LagAhead(x: Side, y: Side, xy: seq<Line>, yx: seq<Line>)
    requires Phase(x, y, xy, yx) && Lagging(y.pc, x.box.inbox)
    ensures !y.pc.InLoop? && !y.pc.Fetching? && !y.pc.Stopped? && (xy != [] ==> !xy[0].Body?)
  {
    hide Accepts, Rejects, Zip;
  }

  lemma LagOn(x: Side, y: Side, z: Side, xy: seq<Line>, yx: seq<Line>, out: seq<Line>)
    requires y.up && Phase(x, y, xy, yx) && !y.pc.InLoop? && !y.pc.Fetching? && !y.pc.Stopped?
    requires z.box.inbox == y.box.inbox && Lagging(y.pc, x.box.inbox)
    requires if z.up then out == [] && Waiting(z.pc, [], x.box.inbox) else out == [Err] && z.pc == y.pc
    ensures Phase(x, z, xy, yx + out)
  {
    hide Lagging, Accepts, Rejects, Zip, Props, Bodies, SetOf;
    assert yx + [] == yx;
    if z.up { NothingRead(z.pc, x.box.inbox); }
    if x.pc.AwaitAnswer? { assert x.pc.block[..0] == []; }
  }

  lemma NothingRead(pc: Pc, inbox: set<Mid>)
    requires Waiting(pc, [], inbox)
    ensures !pc.Stopped? && (pc.InLoop? ==> pc.props == [])
  {
  }

  /** Giving up keeps the picture, with an error line behind whatever was sent. */
  lemma FailPhase(x: Side, y: Side, xy: seq<Line>, yx: seq<Line>, tell: seq<Line>)
    requires x.up && Phase(x, y, xy, yx) && (tell == [] || tell == [Err])
    ensures Phase(x.(up := false), y, xy + tell, yx)
  {
    hide Lagging, Accepts, Rejects, Zip, Bodies, SetOf, Props;
    assert xy + [] == xy;
  }

  lemma FailFollower(x: Side, y: Side, xy: seq<Line>, yx: seq<Line>, tell: seq<Line>)
    requires y.up && Phase(x, y, xy, yx) && (tell == [] || tell == [Err])
    ensures Phase(x, y.(up := false), xy, yx + tell)
  {
    hide Lagging, Accepts, Rejects, Zip, Underway, Props, Offering, Answered;
    assert yx + [] == yx;
    if x.pc.AwaitAnswer? { FailAnswering(x, y, xy, yx, tell); }
  }

  lemma FailAnswering(x: Side, y: Side, xy: seq<Line>, yx: seq<Line>, tell: seq<Line>)
    requires y.up && x.pc.AwaitAnswer? && (tell == [] || tell == [Err])
    ensures var block, z := x.pc.block, y.(up := false);
            && (Offering(x, y, xy, yx, block) ==> Offering(x, z, xy, yx + tell, block))
            && (Answered(x, y, xy, yx, block) ==> Answered(x, z, xy, yx + tell, block))
  {
    hide Waiting, Accepts, Rejects, Zip, Underway, Props;
    assert yx + [] == yx;
    assert yx != [] ==> (yx + tell)[1..] == yx[1..] + tell && yx[1..] + [] == yx[1..];
  }

  lemma ReadProp(x: Side, y: Side, xy: seq<Line>, yx: seq<Line>, block: seq<Mid>)
    requires y.up && y.pc.InLoop? && Offering(x, y, xy, yx, block) && xy != [] && xy[0].Prop?
    ensures Offering(x, ReadLine(y, y.pc.props, xy[0]).side, xy[1..], yx, block)
  {
    hide Lagging;
    var k := |y.pc.props|;
    assert k < |block|;
    assert block[..k + 1] == block[..k] + [block[k]];
    var ps := Props(block[k..]);
    assert ps[0] == Prop(block[k]);
    assert ps[1..] == Props(block[k + 1..]);
    assert (ps + [Prompt])[1..] == ps[1..] + [Prompt];
    assert (ps + [Prompt] + [Err])[1..] == ps[1..] + [Prompt] + [Err];
  }

  /** What a station reading in its loop can find. */
  lemma HeadOfTurn(x: Side, y: Side, xy: seq<Line>, yx: seq<Line>)
    requires y.pc.InLoop? && Phase(x, y, xy, yx) && xy != []
    ensures xy[0].Prop? || xy[0].Prompt? ==> x.pc.AwaitAnswer? && Offering(x, y, xy, yx, x.pc.block)
    ensures xy[0].FF? || xy[0].FQ? ==>
              && (if xy[0].FF? then x.pc == AwaitPeek({}) else x.pc == Stopped && x.quitSent)
              && Holds(xy[1..], [], x.up) && Holds(yx, [], y.up)
  {
    hide Lagging, Accepts, Rejects, Zip;
  }

  lemma ReadPhase(x: Side, y: Side, xy: seq<Line>, yx: seq<Line>)
    requires y.up && y.pc.InLoop? && Phase(x, y, xy, yx) && xy != [] && !xy[0].Prompt?
    ensures var m := ReadLine(y, y.pc.props, xy[0]);
            if m.side.pc.Choose? then Phase(m.side, x, yx + m.out, After(xy, m.taken))
            else Phase(x, m.side, After(xy, m.taken), yx + m.out)
  {
    hide Offering, Answered, Shipping, Accepts, Rejects;
    assert yx + [] == yx;
    HeadOfTurn(x, y, xy, yx);
    match xy[0]
    case Prop(_) => ReadProp(x, y, xy, yx, x.pc.block);
    case FF =>
    case FQ =>
    case _ => FailFollower(x, y, xy, yx, [Err]);
  }

  lemma RejectedKnown(b: Box, props: seq<Mid>)
    ensures Rejects(Zip(props, Answers(b, props))) <= b.inbox
  {
  }

  /** At the prompt the whole block has been read ... */
  lemma PromptLast(x: Side, y: Side, xy: seq<Line>, yx: seq<Line>, block: seq<Mid>)
    requires y.up && y.pc.InLoop? && Offering(x, y, xy, yx, block) && xy != [] && xy[0].Prompt?
    ensures y.pc.props == block && Holds(xy[1..], [], x.up) && yx == []
  {
    hide Lagging;
    var k := |y.pc.props|;
    var ps := Props(block[k..]);
    assert k == |block|;
    assert block[..k] == block;
    assert ps == [];
  }

  lemma FirstBodies(due: seq<Mid>, inbox: set<Mid>, xy: seq<Line>, up: bool)
    requires Holds(xy, [], up)
    ensures Underway(Fetching(due), inbox, xy, up, due, {})
  {
    assert Bodies([]) == [] && SetOf([]) == {};
    assert due[..0] == [] && [] + due == due;
  }

  /** ... and the answers go back. */
  lemma PromptPhase(x: Side, y: Side, xy: seq<Line>, yx: seq<Line>)
    requires y.up && y.pc.InLoop? && Phase(x, y, xy, yx) && xy != [] && xy[0].Prompt?
    ensures var m := ReadLine(y, y.pc.props, xy[0]);
            !m.side.pc.Choose? && Phase(x, m.side, After(xy, m.taken), yx + m.out)
  {
    hide Offering, Accepts, Rejects, Answers, Zip, Underway;
    HeadOfTurn(x, y, xy, yx);
    var block := x.pc.block;
    PromptLast(x, y, xy, yx, block);
    var answers := Answers(y.box, block);
    RejectedKnown(y.box, block);
    assert yx + [FS(answers)] == [FS(answers)];
    FirstBodies(Accepts(Zip(block, answers)), y.box.inbox, xy[1..], x.up);
  }

  /** What a station fetching finds: the next message it waits for. */
  lemma HeadOfFetch(x: Side, y: Side, xy: seq<Line>, yx: seq<Line>)
    requires y.pc.Fetching? && y.pc.due != [] && Phase(x, y, xy, yx) && xy != [] && xy[0].Body?
    ensures xy[0].mid == y.pc.due[0] && (x.pc.Writing? || x.pc.Reporting? || x.pc.AwaitPeek?)
  {
    hide Lagging, Accepts, Rejects, Zip;
    if x.pc.AwaitAnswer? {
      FirstIn(y.pc.due, Accepts(Zip(x.pc.block, yx[0].answers)));
    }
  }

  lemma FirstIn(due: seq<Mid>, more: seq<Mid>)
    requires |more| <= |due|
    ensures var under := due[..|due| - |more|]; under != [] ==> due[0] in SetOf(under)
  {
  }

  lemma FetchOne(pc: Pc, inbox: set<Mid>, xy: seq<Line>, up: bool, more: seq<Mid>, acc: set<Mid>)
    requires Underway(pc, inbox, xy, up, more, acc) && pc.due != [] && xy != [] && xy[0] == Body(pc.due[0])
    ensures Underway(Fetching(pc.due[1..]), inbox + {pc.due[0]}, xy[1..], up, more, acc)
  {
    var due := pc.due;
    var under := due[..|due| - |more|];
    assert under != [];
    var rest := under[1..];
    assert due[1..][..|due| - 1 - |more|] == rest;
    assert Bodies(under)[1..] == Bodies(rest);
    assert (Bodies(under) + [Err])[1..] == Bodies(rest) + [Err];
    assert under == [due[0]] + rest;
    assert SetOf(under) == {due[0]} + SetOf(rest);
    assert due[1..] == rest + more;
  }

  lemma FetchPhase(x: Side, y: Side, xy: seq<Line>, yx: seq<Line>)
    requires y.up && y.pc.Fetching? && y.pc.due != [] && Phase(x, y, xy, yx) && InAct(y, xy).Moved?
    ensures var m := InAct(y, xy); !m.side.pc.Choose? && Phase(x, m.side, After(xy, m.taken), yx + m.out)
  {
    hide Lagging, Accepts, Rejects, Underway, Zip;
    assert yx + [] == yx;
    if xy[0].Body? {
      HeadOfFetch(x, y, xy, yx);
      var acc := x.pc.acc;
      var more := if x.pc.Writing? then Accepts(x.pc.todo) else [];
      if Underway(y.pc, y.box.inbox, xy, x.up, more, acc) {
        FetchOne(y.pc, y.box.inbox, xy, x.up, more, acc);
      }
    } else {
      FailFollower(x, y, xy, yx, [Err]);
    }
  }

  /** Everything is fetched: the turn passes, even if the sender has not noticed. */
  lemma TurnPasses(x: Side, y: Side, xy: seq<Line>, yx: seq<Line>)
    requires y.up && y.pc == Fetching([]) && Phase(x, y, xy, yx)
    ensures Phase(InAct(y, xy).side, x, yx, xy)
  {
    hide Accepts, Rejects, Zip, Underway, Props;
    var todo := if x.pc.Writing? then x.pc.todo
                else if x.pc.AwaitAnswer? && yx != [] && yx[0].FS? && |yx[0].answers| <= |x.pc.block|
                then Zip(x.pc.block, yx[0].answers) else [];
    var more := if todo == [] then [] else Accepts(todo);
    var acc := if x.pc.Writing? || x.pc.Reporting? || x.pc.AwaitPeek? then x.pc.acc else {};
    NothingLeft();
    if Underway(y.pc, y.box.inbox, xy, x.up, more, acc) { FetchedAll(y.box.inbox, xy, x.up, more, acc); }
  }

  lemma FetchedAll(inbox: set<Mid>, xy: seq<Line>, up: bool, more: seq<Mid>, acc: set<Mid>)
    requires Underway(Fetching([]), inbox, xy, up, more, acc)
    ensures more == [] && Holds(xy, [], up) && acc <= inbox
  {
    assert Bodies([]) == [] && SetOf([]) == {};
  }

  /** The station that follows moves; the turn passes to it exactly when it gets to choose. */
  lemma InMoves(x: Side, y: Side, xy: seq<Line>, yx: seq<Line>, pick: Mid)
    requires Kept(x, y, xy, yx) && Act(y, xy, pick).Moved?
    ensures var m := Act(y, xy, pick);
            if m.side.pc.Choose? then Kept(m.side, x, yx + m.out, After(xy, m.taken))
            else Kept(x, m.side, After(xy, m.taken), yx + m.out)
  {
    hide LocalOk, Phase, ReadLine, OutAct, SetSent, Lagging;
    assert yx + [] == yx;
    if y.pc.InLoop? {
      InLocal(y, xy);
      InBoxes(y, xy);
      if xy[0].Prompt? { PromptPhase(x, y, xy, yx); } else { ReadPhase(x, y, xy, yx); }
    } else if y.pc.Fetching? {
      if y.pc.due != [] && xy[0].Body? { HeadOfFetch(x, y, xy, yx); }
      InLocal(y, xy);
      InBoxes(y, xy);
      if y.pc.due == [] { TurnPasses(x, y, xy, yx); } else { FetchPhase(x, y, xy, yx); }
    } else {
      StoppedStays(y, xy, pick);
      FollowerLags(x, y, xy, yx);
      OutLocal(y, xy, pick);
      OutBoxes(y, xy, pick);
      LagSent(y, x.box.inbox);
      SentArrived(y, xy, pick, x.box.inbox);
      LagPhase(x, y, xy, yx, pick);
    }
  }

  lemma StoppedStays(y: Side, inc: seq<Line>, pick: Mid)
    ensures y.pc.Stopped? ==> OutAct(y, inc, pick).Blocked?
  {
  }

  lemma FollowerLags(x: Side, y: Side, xy: seq<Line>, yx: seq<Line>)
    requires Phase(x, y, xy, yx) && !y.pc.InLoop? && !y.pc.Fetching? && !y.pc.Stopped?
    ensures Lagging(y.pc, x.box.inbox)
  {
    hide Lagging, Accepts, Rejects, Zip;
  }

  lemma LagSent(y: Side, inbox: set<Mid>)
    requires Lagging(y.pc, inbox)
    ensures y.pc.Reporting? ==> y.pc.rej <= inbox
    ensures y.pc.Confirming? ==> y.pc.acc <= inbox
  {
  }

  lemma InBoxes(y: Side, inc: seq<Line>)
    requires InAct(y, inc).Moved?
    ensures var b := InAct(y, inc).side.box; y.box.inbox <= b.inbox && b.sent == y.box.sent
  {
    hide Answers, Zip, Accepts;
  }
}
