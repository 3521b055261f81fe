/**
 Sessions in which nothing fails: how many turns they take, that they come to an end, and how each
 message fares.
 */
module SessionEnd {
  import opened Mailbox
  import opened ProposalOrder
  import opened Session
  import opened SessionInv
  import opened SessionSteps

  /** x may still ship: an empty turn came last exactly if x has been told there is nothing for it. */
  ghost predicate Undecided(x: Side, y: Side, t: Tally, ly: set<Mid>) {
    && t.last != Quit && (x.noMsgs <==> t.last == Empty)
    && t.turns <= 2 * t.ships + (if t.last == Empty then 1 else 0)
    && (x.noMsgs ==> Offered(y.box) <= ly)
  }

  /** x ships something in this turn. */
  ghost predicate Ships(y: Side, t: Tally) {
    t.last == Shipped && t.turns <= 2 * t.ships && !y.noMsgs
  }

  /** The answers on the way to x. */
  ghost predicate ReplyOk(block: seq<Mid>, y: Side, yx: seq<Line>) {
    yx != [] && yx[0].FS? && |yx[0].answers| == |block| ==> Accepts(Zip(block, yx[0].answers)) != [] ==> !y.noMsgs
  }

  /**
   The flags and the count while x has the turn.  lx and ly are the messages put into the two outboxes since
   their station last said that it had nothing more.
   */
  ghost predicate Flow(x: Side, y: Side, yx: seq<Line>, t: Tally, lx: set<Mid>, ly: set<Mid>) {
    match x.pc
    case Choose => Undecided(x, y, t, ly)
    case AwaitAnswer(block) => |block| <= MAX_BLOCK && Undecided(x, y, t, ly) && ReplyOk(block, y, yx)
    case Writing(todo, rej, acc) => if acc == {} && Accepts(todo) == [] then Undecided(x, y, t, ly) else Ships(y, t)
    case Reporting(rej, acc) => if acc == {} then Undecided(x, y, t, ly) else Ships(y, t)
    case AwaitPeek(acc) =>
      if acc == {} then t.last == Empty && t.turns <= 2 * t.ships + 1 && Offered(x.box) <= lx else Ships(y, t)
    case Stopped => t.last == Quit && t.turns <= 2 * t.ships + 2 && Offered(x.box) <= lx && Offered(y.box) <= ly
    case _ => true
  }

  /** Saying that there is nothing more leaves nothing to be late. */
  ghost function Told(late: set<Mid>, turn: Turn): set<Mid> {
    if turn == Empty || turn == Quit then {} else late
  }

  /** The flags and the count after x, which has the turn, has made the move m. */
  ghost predicate LeaderFlows(x: Side, m: Move, y: Side, yx: seq<Line>, t: Tally, lx: set<Mid>, ly: set<Mid>)
    requires m.Moved?
  {
    var turn := Decides(x, m.side);
    m.side.up && Flow(m.side, y, yx, Counted(t, turn), Told(lx, turn), ly)
  }

  /** And after the other has made it, which may pass the turn. */
  ghost predicate FollowerFlows(
    x: Side, m: Move, xy: seq<Line>, yx: seq<Line>, t: Tally, lx: set<Mid>, ly: set<Mid>)
    requires m.Moved?
  {
    m.side.up && if m.side.pc.Choose? then Flow(m.side, x, xy, t, ly, lx) else Flow(x, m.side, yx, t, lx, ly)
  }

  lemma NoBlockNoOffers(b: Box)
    requires Distinct(b.outbox)
    ensures NextBlock(b) == [] <==> Offered(b) == {}
  {
    NextBlockFacts(b);
  }

  lemma ChooseFlow(x: Side, y: Side, yx: seq<Line>, t: Tally, lx: set<Mid>, ly: set<Mid>)
    requires x.up && x.pc.Choose? && yx == [] && Flow(x, y, yx, t, lx, ly)
    ensures var m := OutAct(x, yx, []); LeaderFlows(x, m, y, yx, t, lx, ly)
  {
    hide NextBlock, Offered;
  }

  lemma AnswerFlow(x: Side, y: Side, yx: seq<Line>, t: Tally, lx: set<Mid>, ly: set<Mid>)
    requires x.up && x.pc.AwaitAnswer? && Flow(x, y, yx, t, lx, ly)
    requires yx != [] && yx[0].FS? && |yx[0].answers| == |x.pc.block|
    ensures var m := OutAct(x, yx, []); LeaderFlows(x, m, y, yx[1..], t, lx, ly)
  {
    hide Zip, Accepts, Offered;
  }

  lemma WritingFlow(x: Side, y: Side, yx: seq<Line>, t: Tally, lx: set<Mid>, ly: set<Mid>)
    requires x.up && x.pc.Writing? && Flow(x, y, yx, t, lx, ly)
    ensures var m := OutAct(x, yx, []); LeaderFlows(x, m, y, yx, t, lx, ly)
  {
    hide Accepts, Offered;
    if x.pc.todo == [] { NothingLeft(); } else { FirstAccept(x.pc.todo); }
  }

  lemma ReportingFlow(x: Side, y: Side, yx: seq<Line>, pick: Mid, t: Tally, lx: set<Mid>, ly: set<Mid>)
    requires x.up && x.pc.Reporting? && LocalOk(x) && Flow(x, y, yx, t, lx, ly) && OutAct(x, yx, pick).Moved?
    ensures var m := OutAct(x, yx, pick); LeaderFlows(x, m, y, yx, t, lx, ly)
  {
    hide NextBlock, Offered, Mids, Distinct, Without, Logged;
    NoBlockNoOffers(x.box);
  }

  /** With both stations up, no error line is on the way. */
  lemma NoErrorLine(x: Side, y: Side, xy: seq<Line>, yx: seq<Line>)
    requires x.up && y.up && Phase(x, y, xy, yx)
    ensures xy != [] ==> !xy[0].Err?
    ensures yx != [] ==> x.pc.AwaitAnswer? && yx[0].FS? && |yx[0].answers| == |x.pc.block|
  {
    hide Lagging, Accepts, Rejects, Zip;
    if x.pc.AwaitAnswer? && Offering(x, y, xy, yx, x.pc.block) {
      assert xy[0] != Err;
    }
  }

  /** The station that has the turn moves. */
  lemma OutFlow(x: Side, y: Side, xy: seq<Line>, yx: seq<Line>, pick: Mid, t: Tally, lx: set<Mid>, ly: set<Mid>)
    requires Kept(x, y, xy, yx) && x.up && y.up && Flow(x, y, yx, t, lx, ly) && Act(x, yx, pick).Moved?
    ensures var m := Act(x, yx, pick);
            LeaderFlows(x, m, y, After(yx, m.taken), t, lx, ly)
  {
    hide LocalOk, Phase, NextBlock, Flow, WriteAct, Sent, Decides, Zip;
    NoErrorLine(x, y, xy, yx);
    HasTurn(x, y, xy, yx);
    match x.pc
    case Choose => ChooseFlow(x, y, yx, t, lx, ly);
    case AwaitAnswer(_) => AnswerFlow(x, y, yx, t, lx, ly);
    case Writing(todo, rej, acc) =>
      WritingFlow(x, y, yx, t, lx, ly);
      NotTaken(x, yx, pick);
    case Reporting(_, _) =>
      ReportingFlow(x, y, yx, pick, t, lx, ly);
      NotTaken(x, yx, pick);
    case _ =>
  }

  lemma NotTaken(s: Side, inc: seq<Line>, pick: Mid)
    requires OutAct(s, inc, pick).Moved? && !s.pc.AwaitAnswer?
    ensures !OutAct(s, inc, pick).taken
  {
    hide NextBlock, Mids, Without;
  }

  lemma HasTurn(x: Side, y: Side, xy: seq<Line>, yx: seq<Line>)
    requires Phase(x, y, xy, yx)
    ensures !x.pc.Confirming? && !x.pc.InLoop? && !x.pc.Fetching?
  {
  }

  lemma SubsetOffers(b: Box, mid: Mid)
    ensures Offered(SetSent(b, mid)) <= Offered(b) && Offered(SetDeferred(b, mid)) <= Offered(b)
  {
    OffersShrink(b, mid);
  }

  /** Only what the follower still offers, and whether it was told of nothing more, matters. */
  lemma SameFlow(x: Side, y: Side, y': Side, yx: seq<Line>, t: Tally, lx: set<Mid>, ly: set<Mid>)
    requires Flow(x, y, yx, t, lx, ly) && y'.noMsgs == y.noMsgs && Offered(y'.box) <= Offered(y.box)
    ensures Flow(x, y', yx, t, lx, ly)
  {
    hide Offered, Accepts, Zip;
  }

  lemma LagUp(x: Side, y: Side, xy: seq<Line>, yx: seq<Line>, pick: Mid)
    requires LocalOk(y) && x.up && y.up && Phase(x, y, xy, yx) && Lagging(y.pc, x.box.inbox)
    requires OutAct(y, xy, pick).Moved?
    ensures var m := OutAct(y, xy, pick);
            m.side.up && m.out == [] && m.side.noMsgs == y.noMsgs && Decides(y, m.side) == NoTurn
  {
    hide Phase, NextBlock, Accepts, Rejects, Mids, Without, Distinct, Logged;
    NoErrorLine(x, y, xy, yx);
    LagAhead(x, y, xy, yx);
    if y.pc.Writing? && y.pc.todo != [] { FirstAccept(y.pc.todo); }
  }

  lemma LagFlow(x: Side, y: Side, xy: seq<Line>, yx: seq<Line>, pick: Mid, t: Tally, lx: set<Mid>, ly: set<Mid>)
    requires Kept(x, y, xy, yx) && x.up && y.up && Flow(x, y, yx, t, lx, ly)
    requires Lagging(y.pc, x.box.inbox) && OutAct(y, xy, pick).Moved?
    ensures var m := OutAct(y, xy, pick);
            m.side.up && m.out == [] && Flow(x, m.side, yx, t, lx, ly) && Decides(y, m.side) == NoTurn
  {
    hide LocalOk, Phase, Offered, Flow;
    NoErrorLine(x, y, xy, yx);
    LagUp(x, y, xy, yx, pick);
    var m := OutAct(y, xy, pick);
    OutBoxes(y, xy, pick);
    SubsetOffers(y.box, if y.pc.Writing? && y.pc.todo != [] then y.pc.todo[0].0 else pick);
    SameFlow(x, y, m.side, yx, t, lx, ly);
  }

  lemma ReadFlow(x: Side, y: Side, xy: seq<Line>, yx: seq<Line>, t: Tally, lx: set<Mid>, ly: set<Mid>)
    requires x.up && y.up && Phase(x, y, xy, yx) && Flow(x, y, yx, t, lx, ly) && y.pc.InLoop? && xy != []
    ensures var m := ReadLine(y, y.pc.props, xy[0]);
            FollowerFlows(x, m, After(xy, m.taken), yx + m.out, t, lx, ly)
  {
    hide Answered, Shipping, Accepts, Answers, Zip, Offered;
    NoErrorLine(x, y, xy, yx);
    HeadOfTurn(x, y, xy, yx);
    NoBodyToRead(x, y, xy, yx);
    assert yx + [] == yx;
    if xy[0].Prompt? {
      PromptLast(x, y, xy, yx, x.pc.block);
      assert yx + [FS(Answers(y.box, y.pc.props))] == [FS(Answers(y.box, y.pc.props))];
    }
  }

  lemma NoBodyToRead(x: Side, y: Side, xy: seq<Line>, yx: seq<Line>)
    requires Phase(x, y, xy, yx) && y.pc.InLoop? && xy != []
    ensures !xy[0].Body? && !xy[0].FS?
  {
    hide Accepts, Rejects, Zip;
  }

  lemma FetchFlow(x: Side, y: Side, xy: seq<Line>, yx: seq<Line>, t: Tally, lx: set<Mid>, ly: set<Mid>)
    requires x.up && y.up && Phase(x, y, xy, yx) && Flow(x, y, yx, t, lx, ly) && y.pc.Fetching? && InAct(y, xy).Moved?
    ensures var m := InAct(y, xy);
            m.out == [] && FollowerFlows(x, m, After(xy, m.taken), yx, t, lx, ly)
  {
    hide Accepts, Offered, Zip, Rejects, Flow;
    NoErrorLine(x, y, xy, yx);
    if y.pc.due == [] {
      PassFlow(x, y, xy, yx, t, lx, ly);
    } else {
      HeadIsBody(x, y, xy, yx);
      OffersShrink(y.box, xy[0].mid);
      SameFlow(x, y, InAct(y, xy).side, yx, t, lx, ly);
    }
  }

  lemma HeadIsBody(x: Side, y: Side, xy: seq<Line>, yx: seq<Line>)
    requires x.up && Phase(x, y, xy, yx) && y.pc.Fetching? && xy != []
    ensures xy[0].Body?
  {
    hide Accepts, Rejects, Zip;
  }

  lemma PassFlow(x: Side, y: Side, xy: seq<Line>, yx: seq<Line>, t: Tally, lx: set<Mid>, ly: set<Mid>)
    requires Phase(x, y, xy, yx) && Flow(x, y, yx, t, lx, ly) && y.pc == Fetching([])
    ensures Flow(y.(pc := Choose), x, xy, t, ly, lx)
  {
    hide Accepts, Rejects, Zip, Offered;
  }

  /** The station that follows moves. */
  lemma InFlow(x: Side, y: Side, xy: seq<Line>, yx: seq<Line>, pick: Mid, t: Tally, lx: set<Mid>, ly: set<Mid>)
    requires Kept(x, y, xy, yx) && x.up && y.up && Flow(x, y, yx, t, lx, ly) && Act(y, xy, pick).Moved?
    ensures var m := Act(y, xy, pick);
            Decides(y, m.side) == NoTurn && FollowerFlows(x, m, After(xy, m.taken), yx + m.out, t, lx, ly)
  {
    hide LocalOk, Phase, Flow, ReadLine, OutAct, Lagging, SetSent;
    assert yx + [] == yx;
    if y.pc.InLoop? {
      ReadFlow(x, y, xy, yx, t, lx, ly);
    } else if y.pc.Fetching? {
      FetchFlow(x, y, xy, yx, t, lx, ly);
    } else {
      StoppedStays(y, xy, pick);
      FollowerLags(x, y, xy, yx);
      LagFlow(x, y, xy, yx, pick, t, lx, ly);
      LagPhase(x, y, xy, yx, pick);
    }
  }
}
