/**
 What holds in every state of every session: where the two stations can be relative to each other,
 and what is on the way between them.
 */
module SessionInv {
  import opened Mailbox
  import opened ProposalOrder
  import opened Session

  ghost predicate NoDup(ms: seq<Mid>) {
    forall i, j :: 0 <= i < j < |ms| ==> ms[i] != ms[j]
  }

  ghost function SetOf(ms: seq<Mid>): set<Mid> { set m | m in ms }

  ghost function Names(todo: seq<(Mid, Answer)>): set<Mid> { set p | p in todo :: p.0 }

  ghost function Rejects(todo: seq<(Mid, Answer)>): set<Mid> { set p | p in todo && p.1.Reject? :: p.0 }

  ghost predicate NoDupNames(todo: seq<(Mid, Answer)>) {
    forall i, j :: 0 <= i < j < |todo| ==> todo[i].0 != todo[j].0
  }

  /** The messages a station is dealing with in its turn. */
  ghost function Working(pc: Pc): set<Mid> {
    match pc
    case AwaitAnswer(block) => SetOf(block)
    case Writing(todo, rej, acc) => Names(todo) + rej + acc
    case Reporting(rej, acc) => rej + acc
    case AwaitPeek(acc) => acc
    case Confirming(acc) => acc
    case _ => {}
  }

  /** No message is dealt with twice. */
  ghost predicate Apart(pc: Pc) {
    match pc
    case AwaitAnswer(block) => NoDup(block)
    case Writing(todo, rej, acc) => NoDupNames(todo) && Names(todo) !! rej !! acc
    case Reporting(rej, acc) => rej !! acc
    case Fetching(due) => NoDup(due)
    case _ => true
  }

  /** What is fetched is new. */
  ghost predicate Fresh(pc: Pc, inbox: set<Mid>) {
    pc.Fetching? ==> SetOf(pc.due) !! inbox
  }

  /** Nothing was taken in twice, and nothing taken in is forgotten. */
  ghost predicate Logged(s: Side) {
    NoDup(s.processed) && SetOf(s.processed) <= s.box.inbox
  }

  /** The bookkeeping of one station. */
  ghost predicate LocalOk(s: Side) {
    && Distinct(s.box.outbox) && Logged(s) && Apart(s.pc) && Fresh(s.pc, s.box.inbox)
    && Working(s.pc) <= Mids(s.box.outbox)
  }

  /** A channel holds these lines, with the error line behind them if the sender gave up. */
  ghost predicate Holds(ch: seq<Line>, lines: seq<Line>, up: bool) {
    ch == lines || (!up && ch == lines + [Err])
  }

  function Bodies(ms: seq<Mid>): (ls: seq<Line>)
    ensures |ls| == |ms|
  {
    seq(|ms|, i requires 0 <= i < |ms| => Body(ms[i]))
  }

  /** Still busy with its own last turn, all of which the remote has taken in. */
  ghost predicate Lagging(pc: Pc, inbox: set<Mid>) {
    match pc
    case Writing(todo, rej, acc) => acc != {} && Accepts(todo) == [] && Rejects(todo) + rej + acc <= inbox
    case Reporting(rej, acc) => acc != {} && rej + acc <= inbox
    case AwaitPeek(acc) => acc <= inbox
    case Confirming(acc) => acc <= inbox
    case _ => false
  }

  /** About to read, with these proposals read already. */
  ghost predicate Waiting(pc: Pc, props: seq<Mid>, inbox: set<Mid>) {
    pc == InLoop(props) || (props == [] && Lagging(pc, inbox))
  }

  /** The lines from x while y is waiting. */
  ghost predicate Telling(x: Side, y: Side, xy: seq<Line>, yx: seq<Line>, lines: seq<Line>) {
    Holds(xy, lines, x.up) && Holds(yx, [], y.up) && Waiting(y.pc, [], x.box.inbox)
  }

  /** y fetches exactly what is on the way and what is still to be written. */
  ghost predicate Underway(pc: Pc, inbox: set<Mid>, xy: seq<Line>, up: bool, more: seq<Mid>, acc: set<Mid>) {
    && pc.Fetching? && |more| <= |pc.due|
    && var under := pc.due[..|pc.due| - |more|];
       pc.due == under + more && Holds(xy, Bodies(under), up) && SetOf(under) <= acc <= SetOf(under) + inbox
  }

  /** The sender has its answers. */
  ghost predicate Shipping(
    up: bool, y: Side, xy: seq<Line>, yx: seq<Line>, more: seq<Mid>, rej: set<Mid>, acc: set<Mid>)
  {
    && Holds(yx, [], y.up)
    && rej <= y.box.inbox
    && if acc == {} && more == [] then y.pc == InLoop([]) && Holds(xy, [], up)
       else Underway(y.pc, y.box.inbox, xy, up, more, acc)
  }

  ghost predicate Offering(x: Side, y: Side, xy: seq<Line>, yx: seq<Line>, block: seq<Mid>) {
    var k := if y.pc.InLoop? then |y.pc.props| else 0;
    && k <= |block| && Holds(yx, [], y.up) && Holds(xy, Props(block[k..]) + [Prompt], x.up)
    && Waiting(y.pc, block[..k], x.box.inbox)
  }

  ghost predicate Answered(x: Side, y: Side, xy: seq<Line>, yx: seq<Line>, block: seq<Mid>) {
    && yx != [] && yx[0].FS? && |yx[0].answers| == |block|
    && var todo := Zip(block, yx[0].answers);
       Shipping(x.up, y, xy, yx[1..], Accepts(todo), Rejects(todo), {})
  }

  /** x has the turn; y follows. */
  ghost predicate Phase(x: Side, y: Side, xy: seq<Line>, yx: seq<Line>) {
    match x.pc
    case Choose => Telling(x, y, xy, yx, [])
    case AwaitAnswer(block) => block != [] && (Offering(x, y, xy, yx, block) || Answered(x, y, xy, yx, block))
    case Writing(todo, rej, acc) => Shipping(x.up, y, xy, yx, Accepts(todo), Rejects(todo) + rej, acc)
    case Reporting(rej, acc) =>
      if acc != {} then Shipping(x.up, y, xy, yx, [], rej, acc) else rej <= y.box.inbox && Telling(x, y, xy, yx, [])
    case AwaitPeek(acc) =>
      if acc != {} then Shipping(x.up, y, xy, yx, [], {}, acc) else Telling(x, y, xy, yx, [FF])
    case Stopped =>
      && x.quitSent
      && if y.pc.Stopped? then y.quitReceived && Holds(xy, [], x.up) && Holds(yx, [], y.up)
         else Telling(x, y, xy, yx, [FQ])
    case _ => false
  }

  function After(ch: seq<Line>, taken: bool): seq<Line>
    requires taken ==> ch != []
  {
    if taken then ch[1..] else ch
  }

  lemma ArrangedOffers(b: Box)
    requires Distinct(b.outbox)
    ensures var all := Arrange(Outbound(b.outbox, b.deferred));
            && Distinct(all)
            && (forall m :: m in all <==> m in b.outbox && m.fit && m.mid !in b.deferred)
  {
    hide Arrange, Outbound;
    var out := Outbound(b.outbox, b.deferred);
    var all := Arrange(out);
    PermutationDistinct(out, all);
    forall m ensures m in all <==> m in out {
      assert m in all <==> m in multiset(all);
      assert m in out <==> m in multiset(out);
    }
  }

  /** A block holds different MIDs, all of them on offer. */
  lemma NextBlockFacts(b: Box)
    requires Distinct(b.outbox)
    ensures NoDup(NextBlock(b)) && SetOf(NextBlock(b)) <= Offered(b) <= Mids(b.outbox)
    ensures NextBlock(b) == [] <==> Offered(b) == {}
  {
    hide Arrange, Outbound;
    BlockEmpty(b);
    ArrangedOffers(b);
    var all, r := Arrange(Outbound(b.outbox, b.deferred)), NextBlock(b);
    assert forall i :: 0 <= i < |r| ==> r[i] == all[i].mid && all[i] in all;
    assert forall m :: m in all ==> m.mid in Offered(b);
  }

  lemma BlockEmpty(b: Box)
    requires Distinct(b.outbox)
    ensures NextBlock(b) == [] <==> Offered(b) == {}
  {
    hide Arrange, Outbound, Distinct;
    ArrangedOffers(b);
    var all, r := Arrange(Outbound(b.outbox, b.deferred)), NextBlock(b);
    if r != [] {
      assert all[0] in all && all[0].mid in Offered(b);
    }
    if Offered(b) != {} {
      var x :| x in Offered(b);
      var m :| m in b.outbox && m.fit && m.mid !in b.deferred && m.mid == x;
      assert m in all;
    }
  }
}
