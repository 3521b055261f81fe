/**
 Every step of a session in which nothing fails brings it nearer to its end.
 */
module SessionMeasure {
  import opened Mailbox
  import opened ProposalOrder
  import opened Session
  import opened SessionInv
  import opened SessionSteps
  import opened SessionEnd

  ghost function WritingWeight(todo: nat, rej: nat, acc: nat, none: bool): nat {
    5 * todo + 2 * rej + 2 * acc + 10 + if none then 600 else 0
  }

  /** How much is left to do at a point of the program. */
  ghost function Weight(s: Side): nat {
    match s.pc
    case Choose => if Offered(s.box) == {} then 700 else 500
    case Writing(todo, rej, acc) => WritingWeight(|todo|, |rej|, |acc|, acc == {} && Accepts(todo) == [])
    case Reporting(rej, acc) => 2 * |rej| + 2 * |acc| + 9 + if acc == {} then 600 else 0
    case AwaitPeek(acc) => 2 * |acc| + 5
    case Confirming(acc) => 2 * |acc| + 4
    case Fetching(due) => 2 * |due| + 800
    case _ => 0
  }

  ghost function LineWeight(l: Line): nat {
    match l
    case Prompt => 2000
    case FS(answers) => if Accept in answers then 1100 else 700
    case FF => 800
    case Err => 0
    case _ => 1
  }

  ghost function ChannelWeight(ls: seq<Line>): nat {
    if ls == [] then 0 else LineWeight(ls[0]) + ChannelWeight(ls[1..])
  }

  /** Messages on offer that no answer is awaited or known for. */
  ghost function Undone(s: Side): set<Mid> {
    Offered(s.box) - Working(s.pc)
  }

  ghost function Cost(s: Side): nat {
    3000 * |Undone(s)| + Weight(s)
  }

  /** Empty turns still possible before something is shipped. */
  ghost function Quiet(t: Tally): nat {
    match t.last
    case Quit => 0
    case Empty => 1000
    case _ => 2000
  }

  ghost function Measure(w: World): nat {
    Cost(w.a) + Cost(w.b) + ChannelWeight(w.ab) + ChannelWeight(w.ba) + Quiet(w.tally)
  }

  lemma {:induction false} WeightConcat(a: seq<Line>, b: seq<Line>)
    ensures ChannelWeight(a + b) == ChannelWeight(a) + ChannelWeight(b)
    decreases |a|
  {
    if a == [] {
      assert a + b == b;
    } else {
      WeightConcat(a[1..], b);
      assert (a + b)[1..] == a[1..] + b;
    }
  }

  lemma {:induction false} PropsWeight(ms: seq<Mid>)
    ensures ChannelWeight(Props(ms)) == |ms|
    decreases |ms|
  {
    if ms == [] {
    } else {
      PropsWeight(ms[1..]);
      assert Props(ms)[1..] == Props(ms[1..]);
    }
  }

  lemma OneWeight(l: Line)
    ensures ChannelWeight([l]) == LineWeight(l) && ChannelWeight([]) == 0
  {
  }

  /** A step costs more than it leaves to do. */
  ghost predicate Pays(s: Side, inc: seq<Line>, m: Move, t: Tally)
    requires m.Moved? && (m.taken ==> inc != [])
  {
    Cost(m.side) + ChannelWeight(m.out) + Quiet(Counted(t, Decides(s, m.side)))
      < Cost(s) + (if m.taken then LineWeight(inc[0]) else 0) + Quiet(t)
  }

  lemma ChoosePays(x: Side, inc: seq<Line>, t: Tally)
    requires LocalOk(x) && x.pc.Choose?
    ensures Pays(x, inc, OutAct(x, inc, []), t)
  {
    hide NextBlock, Offered, Mids, Distinct, Props, SetOf, ChannelWeight, Cost, Quiet;
    NextBlockFacts(x.box);
    var block, o := NextBlock(x.box), Offered(x.box);
    ChooseCosts(x, block);
    OneWeight(Prompt);
    if block != [] {
      BlockWeight(block);
      BlockUndone(o, block);
    }
  }

  lemma ChooseCosts(x: Side, block: seq<Mid>)
    requires x.pc.Choose?
    ensures var o := Offered(x.box);
            && Cost(x) == 3000 * |o| + (if o == {} then 700 else 500)
            && Cost(x.(pc := AwaitAnswer(block))) == 3000 * |o - SetOf(block)|
            && Cost(x.(pc := Reporting({}, {}))) == 3000 * |o| + 609
  {
    hide Offered, SetOf;
    assert Offered(x.box) - {} == Offered(x.box);
  }

  lemma BlockWeight(block: seq<Mid>)
    ensures ChannelWeight(Props(block) + [Prompt]) == |block| + 2000
  {
    hide Props, ChannelWeight;
    PropsWeight(block);
    WeightConcat(Props(block), [Prompt]);
    OneWeight(Prompt);
  }

  lemma BlockUndone(o: set<Mid>, block: seq<Mid>)
    requires block != [] && SetOf(block) <= o
    ensures |o - SetOf(block)| < |o|
  {
    assert block[0] in SetOf(block);
    Shrinks(o, SetOf(block), block[0]);
  }

  lemma Shrinks(o: set<Mid>, d: set<Mid>, m: Mid)
    requires d <= o && m in d
    ensures |o - d| < |o|
  {
    assert o == (o - d) + d;
    assert m !in o - d;
    assert |(o - d) + d| == |o - d| + |d|;
  }

  lemma AcceptIn(block: seq<Mid>, answers: seq<Answer>)
    requires |answers| == |block|
    ensures Accept in answers <==> Accepts(Zip(block, answers)) != []
    ensures Names(Zip(block, answers)) == SetOf(block)
  {
    var todo := Zip(block, answers);
    if i :| 0 <= i < |answers| && answers[i] == Accept {
      assert todo[i] == (block[i], Accept);
      AcceptsFrom(todo, block[i]);
    }
    if Accepts(todo) != [] {
      AcceptsFrom(todo, Accepts(todo)[0]);
    }
    forall i | 0 <= i < |block| ensures block[i] in Names(todo) {
      assert todo[i].0 == block[i] && todo[i] in todo;
    }
  }

  lemma AnswerPays(x: Side, y: Side, inc: seq<Line>, t: Tally, lx: set<Mid>, ly: set<Mid>)
    requires x.pc.AwaitAnswer? && Flow(x, y, inc, t, lx, ly)
    requires inc != [] && inc[0].FS? && |inc[0].answers| == |x.pc.block|
    ensures Pays(x, inc, OutAct(x, inc, []), t)
  {
    hide Zip, Accepts, Offered, SetOf, Names, ReplyOk;
    AcceptIn(x.pc.block, inc[0].answers);
    var names := Names(Zip(x.pc.block, inc[0].answers));
    assert names + {} + {} == names;
    OneWeight(Prompt);
  }

  /** Taking a message off the offers and off the work leaves the same undone. */
  lemma SameUndone(b: Box, mid: Mid, d: set<Mid>, e: set<Mid>)
    requires d == e + {mid}
    ensures Offered(SetSent(b, mid)) - e == Offered(b) - d
    ensures Offered(SetDeferred(b, mid)) - e == Offered(b) - d
  {
    hide Offered;
    OffersShrink(b, mid);
  }

  /** A step that leaves the same undone and ends no turn need only be lighter. */
  lemma LighterPays(s: Side, inc: seq<Line>, m: Move, t: Tally)
    requires m.Moved? && !m.taken && Undone(m.side) == Undone(s) && Decides(s, m.side) == NoTurn
    requires Weight(m.side) + ChannelWeight(m.out) < Weight(s)
    ensures Pays(s, inc, m, t)
  {
    hide Undone, Weight, ChannelWeight, Decides;
  }

  lemma WritingUndone(x: Side)
    requires x.pc.Writing? && x.pc.todo != []
    ensures var pc := x.pc;
            Undone(WriteAct(x, pc.todo[0].0, pc.todo[0].1, pc.todo[1..], pc.rej, pc.acc).side) == Undone(x)
  {
    hide Offered, Names, SetDeferred;
    var todo, rej, acc := x.pc.todo, x.pc.rej, x.pc.acc;
    var mid, rest := todo[0].0, todo[1..];
    RestNames(todo);
    SameUndone(x.box, mid, Working(x.pc), Names(rest) + rej + acc);
    assert Names(rest) + (rej + {mid}) + acc == Names(todo) + rej + acc == Names(rest) + rej + (acc + {mid});
  }

  lemma SideWeight(s: Side)
    requires s.pc.Writing?
    ensures Weight(s) == WritingWeight(|s.pc.todo|, |s.pc.rej|, |s.pc.acc|, s.pc.acc == {} && Accepts(s.pc.todo) == [])
  {
  }

  lemma WritingLighter(x: Side)
    requires x.pc.Writing? && x.pc.todo != []
    ensures var pc := x.pc; var m := WriteAct(x, pc.todo[0].0, pc.todo[0].1, pc.todo[1..], pc.rej, pc.acc);
            Weight(m.side) + ChannelWeight(m.out) < Weight(x)
  {
    hide Accepts, ChannelWeight, WritingWeight, Weight;
    var todo, rej, acc := x.pc.todo, x.pc.rej, x.pc.acc;
    var mid := todo[0].0;
    SideWeight(x);
    SideWeight(WriteAct(x, mid, todo[0].1, todo[1..], rej, acc).side);
    FirstAccept(todo);
    OneWeight(Body(mid));
    OneMore(rej, mid);
    OneMore(acc, mid);
    match todo[0].1
    case Accept =>
      assert mid in acc + {mid};
      Fewer(|todo|, |rej|, |acc|, |rej|, |acc + {mid}|, false);
    case _ =>
      assert [] + Accepts(todo[1..]) == Accepts(todo[1..]);
      var none := acc == {} && Accepts(todo) == [];
      Fewer(|todo|, |rej|, |acc|, |rej + {mid}|, |acc|, none);
      Fewer(|todo|, |rej|, |acc|, |rej|, |acc|, none);
  }

  lemma Fewer(n: nat, r: nat, a: nat, r': nat, a': nat, none: bool)
    requires n > 0 && r' + a' <= r + a + 1
    ensures WritingWeight(n - 1, r', a', none) + 1 < WritingWeight(n, r, a, none)
  {
  }

  lemma OneMore(s: set<Mid>, m: Mid)
    ensures |s + {m}| <= |s| + 1
  {
    if m in s { assert s + {m} == s; }
  }

  lemma WritingPays(x: Side, inc: seq<Line>, t: Tally)
    requires x.pc.Writing? && x.pc.todo != []
    ensures Pays(x, inc, OutAct(x, inc, []), t)
  {
    hide Undone, Weight, ChannelWeight, Pays;
    WritingUndone(x);
    WritingLighter(x);
    LighterPays(x, inc, OutAct(x, inc, []), t);
  }

  lemma WrittenPays(x: Side, inc: seq<Line>, t: Tally)
    requires x.pc.Writing? && x.pc.todo == []
    ensures Pays(x, inc, OutAct(x, inc, []), t)
  {
    hide Accepts, Offered;
    NothingLeft();
    NamesOf(x.pc.todo);
    OneWeight(Prompt);
    assert {} + x.pc.rej + x.pc.acc == x.pc.rej + x.pc.acc;
  }

  lemma SentPays(x: Side, inc: seq<Line>, pick: Mid, t: Tally)
    requires LocalOk(x) && ((x.pc.Reporting? && x.pc.rej != {}) || (x.pc.Confirming? && x.pc.acc != {}))
    requires OutAct(x, inc, pick).Moved?
    ensures Pays(x, inc, OutAct(x, inc, pick), t)
  {
    hide NextBlock, Offered, Mids, Distinct, Without, Logged, SetSent, ChannelWeight, Pays;
    OneWeight(Prompt);
    if x.pc.Reporting? {
      var rej, acc := x.pc.rej, x.pc.acc;
      assert rej == (rej - {pick}) + {pick};
      SameUndone(x.box, pick, rej + acc, rej - {pick} + acc);
    } else {
      var acc := x.pc.acc;
      assert acc == (acc - {pick}) + {pick};
      SameUndone(x.box, pick, acc, acc - {pick});
    }
    LighterPays(x, inc, OutAct(x, inc, pick), t);
  }

  /** The end of a turn: an empty one is paid for by there being one fewer to come. */
  lemma TurnPays(x: Side, y: Side, inc: seq<Line>, t: Tally, ly: set<Mid>)
    requires LocalOk(x) && x.pc.Reporting? && x.pc.rej == {} && (x.pc.acc == {} ==> Undecided(x, y, t, ly))
    ensures Pays(x, inc, OutAct(x, inc, []), t)
  {
    hide NextBlock, Offered, Mids, Distinct, Logged;
    NoBlockNoOffers(x.box);
    OneWeight(FF);
    OneWeight(FQ);
    var acc := x.pc.acc;
    assert {} + acc == acc;
  }

  lemma PeekPays(x: Side, inc: seq<Line>, pick: Mid, t: Tally)
    requires (x.pc.AwaitPeek? && inc != [] && !inc[0].Body? && !inc[0].Err?) || x.pc == Confirming({})
    ensures Pays(x, inc, OutAct(x, inc, pick), t)
  {
    hide Offered, ChannelWeight, Pays;
    OneWeight(Prompt);
    LighterPays(x, inc, OutAct(x, inc, pick), t);
  }

  /** A step of a station that sends. */
  lemma OutPays(x: Side, y: Side, inc: seq<Line>, pick: Mid, t: Tally, lx: set<Mid>, ly: set<Mid>)
    requires LocalOk(x) && OutAct(x, inc, pick).Moved? && OutAct(x, inc, pick).side.up
    requires x.pc.AwaitAnswer? ==> Flow(x, y, inc, t, lx, ly) && inc[0].FS? && |inc[0].answers| == |x.pc.block|
    requires x.pc.Reporting? && x.pc.acc == {} ==> Undecided(x, y, t, ly)
    ensures Pays(x, inc, OutAct(x, inc, pick), t)
  {
    hide LocalOk, NextBlock, Pays, Flow, Undecided, WriteAct, Zip, Sent;
    match x.pc
    case Choose => ChoosePays(x, inc, t);
    case AwaitAnswer(_) => AnswerPays(x, y, inc, t, lx, ly);
    case Writing(todo, _, _) => if todo == [] { WrittenPays(x, inc, t); } else { WritingPays(x, inc, t); }
    case Reporting(rej, _) => if rej != {} { SentPays(x, inc, pick, t); } else { TurnPays(x, y, inc, t, ly); }
    case AwaitPeek(_) => PeekPays(x, inc, pick, t);
    case Confirming(acc) => if acc != {} { SentPays(x, inc, pick, t); } else { PeekPays(x, inc, pick, t); }
    case _ =>
  }

  /** A step of a station that receives. */
  lemma ReadPays(y: Side, line: Line, t: Tally)
    requires y.pc.InLoop? && |y.pc.props| <= MAX_BLOCK && ReadLine(y, y.pc.props, line).side.up
    requires line.Prompt? ==> y.pc.props != []
    ensures Pays(y, [line], ReadLine(y, y.pc.props, line), t)
  {
    hide Pays, ReadLine;
    if line.Prompt? { PromptPays(y, t); } else { LinePays(y, line, t); }
  }

  lemma LinePays(y: Side, line: Line, t: Tally)
    requires y.pc.InLoop? && !line.Prompt? && ReadLine(y, y.pc.props, line).side.up
    ensures Pays(y, [line], ReadLine(y, y.pc.props, line), t)
  {
    hide Offered, Answers, Zip, Accepts, ChannelWeight;
    OneWeight(Prompt);
  }

  lemma PromptPays(y: Side, t: Tally)
    requires y.pc.InLoop? && 0 < |y.pc.props| <= MAX_BLOCK
    ensures Pays(y, [Prompt], ReadLine(y, y.pc.props, Prompt), t)
  {
    hide Offered, Answers, Zip, Accepts, ChannelWeight;
    var answers := Answers(y.box, y.pc.props);
    OneWeight(FS(answers));
    AcceptIn(y.pc.props, answers);
  }

  lemma FetchPays(y: Side, inc: seq<Line>, t: Tally)
    requires y.pc.Fetching? && InAct(y, inc).Moved? && InAct(y, inc).side.up && y.up
    ensures Pays(y, inc, InAct(y, inc), t)
  {
    hide Offered, ChannelWeight;
    OneWeight(Prompt);
    if y.pc.due != [] { OffersShrink(y.box, inc[0].mid); }
  }

  /**
   A session in which nothing has failed; la and lb are the messages put into the outboxes since their
   station last said that it had nothing more.
   */
  ghost predicate Calm(w: World, la: set<Mid>, lb: set<Mid>) {
    && w.a.up && w.b.up
    && ((Kept(w.a, w.b, w.ab, w.ba) && Flow(w.a, w.b, w.ba, w.tally, la, lb)) ||
        (Kept(w.b, w.a, w.ba, w.ab) && Flow(w.b, w.a, w.ab, w.tally, lb, la)))
  }

  lemma LeaderPays(x: Side, y: Side, xy: seq<Line>, yx: seq<Line>, pick: Mid, t: Tally, lx: set<Mid>, ly: set<Mid>)
    requires Kept(x, y, xy, yx) && x.up && y.up && Flow(x, y, yx, t, lx, ly) && Act(x, yx, pick).Moved?
    ensures Pays(x, yx, Act(x, yx, pick), t)
  {
    hide LocalOk, Phase, OutAct, Pays, Undecided, Ships;
    OutFlow(x, y, xy, yx, pick, t, lx, ly);
    NoErrorLine(x, y, xy, yx);
    HasTurn(x, y, xy, yx);
    if x.pc.AwaitAnswer? { AnswerNeeded(x, yx, pick); }
    OutPays(x, y, yx, pick, t, lx, ly);
  }

  lemma AnswerNeeded(x: Side, inc: seq<Line>, pick: Mid)
    ensures x.pc.AwaitAnswer? && inc == [] ==> OutAct(x, inc, pick).Blocked?
  {
  }

  lemma FollowerReads(x: Side, y: Side, xy: seq<Line>, yx: seq<Line>, t: Tally, lx: set<Mid>, ly: set<Mid>)
    requires y.up && Phase(x, y, xy, yx) && Flow(x, y, yx, t, lx, ly) && y.pc.InLoop? && xy != []
    ensures |y.pc.props| <= MAX_BLOCK && (xy[0].Prompt? ==> y.pc.props != [])
  {
    hide Accepts, Rejects, Zip, Undecided;
    HeadOfTurn(x, y, xy, yx);
    if xy[0].Prompt? { PromptLast(x, y, xy, yx, x.pc.block); }
  }

  lemma FollowerPays(x: Side, y: Side, xy: seq<Line>, yx: seq<Line>, pick: Mid, t: Tally, lx: set<Mid>, ly: set<Mid>)
    requires Kept(x, y, xy, yx) && x.up && y.up && Flow(x, y, yx, t, lx, ly) && Act(y, xy, pick).Moved?
    ensures Pays(y, xy, Act(y, xy, pick), t)
  {
    hide LocalOk, Phase, OutAct, ReadLine, Flow, Accepts, Rejects, Cost, ChannelWeight, Quiet, Decides;
    InFlow(x, y, xy, yx, pick, t, lx, ly);
    if y.pc.InLoop? {
      FollowerReads(x, y, xy, yx, t, lx, ly);
      ReadPays(y, xy[0], t);
    } else if y.pc.Fetching? {
      FetchPays(y, xy, t);
    } else {
      StoppedStays(y, xy, pick);
      FollowerLags(x, y, xy, yx);
      OutPays(y, x, xy, pick, t, ly, lx);
    }
  }

  lemma SettleMeasure(w: World, alice: bool, m: Move)
    requires m.Moved? && (m.taken ==> Incoming(w, alice) != [])
    requires Pays(MySide(w, alice), Incoming(w, alice), m, w.tally)
    ensures Measure(Settle(w, alice, m.side, m.taken, m.out)) < Measure(w)
  {
    hide Cost, Quiet, LineWeight, Decides, Counted;
    WeightConcat(if alice then w.ab else w.ba, m.out);
  }

  /** One more step, one nearer to the end. */
  lemma CalmStep(w: World, alice: bool, pick: Mid, la: set<Mid>, lb: set<Mid>)
    requires Calm(w, la, lb) && Act(MySide(w, alice), Incoming(w, alice), pick).Moved?
    ensures var v := Step(w, Acts(alice, pick));
            var turn := Decides(MySide(w, alice), MySide(v, alice));
            && Calm(v, if alice then Told(la, turn) else la, if alice then lb else Told(lb, turn))
            && Measure(v) < Measure(w)
  {
    hide Kept, Flow, Act, Pays, Measure, Decides;
    var m := Act(MySide(w, alice), Incoming(w, alice), pick);
    if Kept(w.a, w.b, w.ab, w.ba) && Flow(w.a, w.b, w.ba, w.tally, la, lb) {
      LeaderOrFollower(w.a, w.b, w.ab, w.ba, pick, w.tally, alice, la, lb);
    } else {
      LeaderOrFollower(w.b, w.a, w.ba, w.ab, pick, w.tally, !alice, lb, la);
    }
    SettleMeasure(w, alice, m);
  }

  lemma LeaderOrFollower(
    x: Side, y: Side, xy: seq<Line>, yx: seq<Line>, pick: Mid, t: Tally, leader: bool, lx: set<Mid>, ly: set<Mid>)
    requires Kept(x, y, xy, yx) && x.up && y.up && Flow(x, y, yx, t, lx, ly)
    requires if leader then Act(x, yx, pick).Moved? else Act(y, xy, pick).Moved?
    ensures leader ==>
      var m := Act(x, yx, pick);
      && Pays(x, yx, m, t)
      && Kept(m.side, y, xy + m.out, After(yx, m.taken)) && LeaderFlows(x, m, y, After(yx, m.taken), t, lx, ly)
    ensures !leader ==>
      var m := Act(y, xy, pick);
      && Pays(y, xy, m, t) && Decides(y, m.side) == NoTurn
      && (if m.side.pc.Choose? then Kept(m.side, x, yx + m.out, After(xy, m.taken))
          else Kept(x, m.side, After(xy, m.taken), yx + m.out))
      && FollowerFlows(x, m, After(xy, m.taken), yx + m.out, t, lx, ly)
  {
    hide Kept, Flow, Act, Pays, Decides;
    if leader {
      OutMoves(x, y, xy, yx, pick);
      OutFlow(x, y, xy, yx, pick, t, lx, ly);
      LeaderPays(x, y, xy, yx, pick, t, lx, ly);
    } else {
      InMoves(x, y, xy, yx, pick);
      InFlow(x, y, xy, yx, pick, t, lx, ly);
      FollowerPays(x, y, xy, yx, pick, t, lx, ly);
    }
  }
}
