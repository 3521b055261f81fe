/**
 The B2F session after the handshake: two stations taking turns over a pair of FIFO channels.
 Each station is a small program with a program counter; whatever can interleave is a step of its own.
 */
module Session {
  import opened Mailbox
  import opened ProposalOrder

  /** What travels on a channel: protocol lines, whole framed messages, and the error line. */
  datatype Line = Prop(mid: Mid) | Prompt | FS(answers: seq<Answer>) | FF | FQ | Body(mid: Mid) | Err

  /**
   Where a station is.  Outbound: Choose a block, AwaitAnswer, Writing what was accepted, Reporting what
   was rejected, AwaitPeek for the sign that the block arrived, Confirming what was sent.
   Inbound: InLoop reading proposals, Fetching what was accepted.
   */
  datatype Pc =
    | Choose
    | AwaitAnswer(block: seq<Mid>)
    | Writing(todo: seq<(Mid, Answer)>, rej: set<Mid>, acc: set<Mid>)
    | Reporting(rej: set<Mid>, acc: set<Mid>)
    | AwaitPeek(acc: set<Mid>)
    | Confirming(acc: set<Mid>)
    | InLoop(props: seq<Mid>)
    | Fetching(due: seq<Mid>)
    | Stopped

  /** A station; a session that ended in an error leaves it down.  processed lists all it ever took in. */
  datatype Side = Side(box: Box, pc: Pc, up: bool, noMsgs: bool, quitSent: bool, quitReceived: bool,
                       processed: seq<Mid>)

  /** The outcome of a step: the new state, whether a line was taken in, and the lines sent. */
  datatype Move = Blocked | Moved(side: Side, taken: bool, out: seq<Line>)

  /** The MIDs of the next block of proposals. */
  function NextBlock(b: Box): (r: seq<Mid>)
    ensures |r| <= MAX_BLOCK
  {
    var ms := Block(Outbound(b.outbox, b.deferred));
    seq(|ms|, i requires 0 <= i < |ms| => ms[i].mid)
  }

  function Props(ms: seq<Mid>): (ls: seq<Line>)
    ensures |ls| == |ms|
  {
    seq(|ms|, i requires 0 <= i < |ms| => Prop(ms[i]))
  }

  /** The answers to a block; a second proposal for the same MID is deferred. */
  function Answers(b: Box, props: seq<Mid>): (r: seq<Answer>)
    ensures |r| == |props|
  {
    seq(|props|, i requires 0 <= i < |props| => if props[i] in props[..i] then Defer else GetInboundAnswer(b, props[i]))
  }

  /** Proposals paired with their answers; a short answer leaves the rest unanswered. */
  function Zip(block: seq<Mid>, answers: seq<Answer>): (r: seq<(Mid, Answer)>)
    requires |answers| <= |block|
    ensures |r| == |answers|
  {
    seq(|answers|, i requires 0 <= i < |answers| => (block[i], answers[i]))
  }

  function Accepts(todo: seq<(Mid, Answer)>): (r: seq<Mid>)
    ensures |r| <= |todo|
  {
    if todo == [] then []
    else (if todo[0].1.Accept? then [todo[0].0] else []) + Accepts(todo[1..])
  }

  /** An error: the session is given up and the remote told. */
  function Fails(s: Side): (m: Move)
    ensures m.Moved? && !m.taken
  {
    Moved(s.(up := false), false, [Err])
  }

  /** Moving a message that is not in the outbox ends the program. */
  function Sent(s: Side, mid: Mid, next: Pc): (m: Move)
    ensures m.Moved? && !m.taken
  {
    if mid in Mids(s.box.outbox) then Moved(s.(box := SetSent(s.box, mid), pc := next), false, [])
    else Moved(s.(up := false), false, [])
  }

  /** Act on the answer to one proposal. */
  function WriteAct(s: Side, mid: Mid, answer: Answer, rest: seq<(Mid, Answer)>, rej: set<Mid>, acc: set<Mid>)
    : (m: Move)
    ensures m.Moved? && !m.taken
  {
    match answer
    case Defer => Moved(s.(box := SetDeferred(s.box, mid), pc := Writing(rest, rej, acc)), false, [])
    case Reject => Moved(s.(pc := Writing(rest, rej + {mid}, acc)), false, [])
    case Accept => Moved(s.(pc := Writing(rest, rej, acc + {mid})), false, [Body(mid)])
  }

  /** Propose a block, or go on as if everything had been answered. */
  function ChooseAct(s: Side): (m: Move)
    ensures m.Moved? && !m.taken
  {
    var block := NextBlock(s.box);
    if block != [] then Moved(s.(pc := AwaitAnswer(block)), false, Props(block) + [Prompt])
    else Moved(s.(pc := Reporting({}, {})), false, [])
  }

  /** Take the answer to a block. */
  function AnswerAct(s: Side, block: seq<Mid>, inc: seq<Line>): (m: Move)
    ensures m.Moved? ==> inc != []
  {
    if inc == [] then Blocked
    else if inc[0].FS? && |inc[0].answers| <= |block| then
      Moved(s.(pc := Writing(Zip(block, inc[0].answers), {}, {})), true, [])
    else Fails(s)
  }

  /** Report what was rejected, then end the turn or go on to the next block. */
  function ReportAct(s: Side, rej: set<Mid>, acc: set<Mid>, pick: Mid): (m: Move)
    ensures m.Moved? ==> !m.taken
  {
    if rej != {} then if pick in rej then Sent(s, pick, Reporting(rej - {pick}, acc)) else Blocked
    else if acc != {} then Moved(s.(pc := AwaitPeek(acc)), false, [])
    else if NextBlock(s.box) != [] then Moved(s.(pc := Choose), false, [])
    else if s.noMsgs then Moved(s.(pc := Stopped, quitSent := true), false, [FQ])
    else Moved(s.(pc := AwaitPeek({})), false, [FF])
  }

  /** Wait for the sign that the block arrived. */
  function PeekAct(s: Side, acc: set<Mid>, inc: seq<Line>): (m: Move)
    ensures m.Moved? ==> inc != [] && !m.taken
  {
    if inc == [] then Blocked
    else if inc[0].Body? || inc[0].Err? then Fails(s)
    else Moved(s.(pc := Confirming(acc)), false, [])
  }

  /** Report what was sent. */
  function ConfirmAct(s: Side, acc: set<Mid>, pick: Mid): (m: Move)
    ensures m.Moved? ==> !m.taken
  {
    if acc == {} then Moved(s.(pc := InLoop([])), false, [])
    else if pick in acc then Sent(s, pick, Confirming(acc - {pick}))
    else Blocked
  }

  /** The step of a station that sends. */
  function OutAct(s: Side, inc: seq<Line>, pick: Mid): (m: Move)
    ensures m.Moved? && m.taken ==> inc != []
  {
    match s.pc
    case Choose => ChooseAct(s)
    case AwaitAnswer(block) => AnswerAct(s, block, inc)
    case Writing(todo, rej, acc) =>
      if todo == [] then Moved(s.(pc := Reporting(rej, acc)), false, [])
      else WriteAct(s, todo[0].0, todo[0].1, todo[1..], rej, acc)
    case Reporting(rej, acc) => ReportAct(s, rej, acc, pick)
    case AwaitPeek(acc) => PeekAct(s, acc, inc)
    case Confirming(acc) => ConfirmAct(s, acc, pick)
    case _ => Blocked
  }

  /** Act on one line of the remote's turn. */
  function ReadLine(s: Side, props: seq<Mid>, line: Line): Move {
    match line
    case Prop(mid) => Moved(s.(pc := InLoop(props + [mid])), true, [])
    case FF => Moved(s.(pc := Choose, noMsgs := true), true, [])
    case FQ => Moved(s.(pc := Stopped, noMsgs := true, quitReceived := true), true, [])
    case Prompt =>
      if props == [] then Moved(s.(pc := Choose), true, [])
      else
        var answers := Answers(s.box, props);
        var due := Accepts(Zip(props, answers));
        if due == [] then Moved(s.(pc := InLoop([])), true, [FS(answers)])
        else Moved(s.(pc := Fetching(due), noMsgs := false), true, [FS(answers)])
    case _ => Fails(s)
  }

  /** The step of a station that receives. */
  function InAct(s: Side, inc: seq<Line>): (m: Move)
    ensures m.Moved? && m.taken ==> inc != []
  {
    match s.pc
    case InLoop(props) =>
      if inc == [] then Blocked
      else ReadLine(s, props, inc[0])
    case Fetching(due) =>
      if due == [] then Moved(s.(pc := Choose), false, [])
      else if inc == [] then Blocked
      else if inc[0].Body? then
        Moved(s.(box := ProcessInbound(s.box, inc[0].mid), pc := Fetching(due[1..]),
                 processed := s.processed + [inc[0].mid]), true, [])
      else Fails(s)
    case _ => Blocked
  }

  function Act(s: Side, inc: seq<Line>, pick: Mid): (m: Move)
    ensures m.Moved? && m.taken ==> inc != []
  {
    if !s.up then Blocked
    else if s.pc.InLoop? || s.pc.Fetching? then InAct(s, inc)
    else OutAct(s, inc, pick)
  }

  /** How the last decided turn went. */
  datatype Turn = NoTurn | Shipped | Empty | Quit

  /** The turns of a session so far, and those that shipped something. */
  datatype Tally = Tally(turns: nat, ships: nat, last: Turn)

  /** Two stations, what is on the way between them, and a count of the turns. */
  datatype World = World(a: Side, b: Side, ab: seq<Line>, ba: seq<Line>, tally: Tally)

  /** The turn a step decides, if any. */
  function Decides(s: Side, t: Side): Turn {
    if s.pc.AwaitAnswer? && t.pc.Writing? && Accepts(t.pc.todo) != [] then Shipped
    else if s.pc.Reporting? && t.pc == AwaitPeek({}) then Empty
    else if s.pc.Reporting? && t.pc.Stopped? then Quit
    else NoTurn
  }

  function Counted(t: Tally, turn: Turn): Tally {
    if turn == NoTurn then t else Tally(t.turns + 1, t.ships + if turn == Shipped then 1 else 0, turn)
  }

  /**
   What can happen: a station takes a step (pick chooses among the messages to report), a station fails
   for whatever reason and perhaps tells the remote, the two connect for a new session, or a message is
   put into an outbox.
   */
  datatype Event =
    | Acts(alice: bool, pick: Mid)
    | Fail(alice: bool, tell: bool)
    | Connect(aliceMaster: bool)
    | AddOut(alice: bool, msg: Msg)

  function MySide(w: World, alice: bool): Side { if alice then w.a else w.b }
  function Incoming(w: World, alice: bool): seq<Line> { if alice then w.ba else w.ab }

  predicate Over(s: Side) { !s.up || s.pc.Stopped? }

  /** A station at the start of a session: the master listens first. */
  function Joined(s: Side, master: bool): Side {
    Side(s.box.(deferred := {}), if master then InLoop([]) else Choose, true, false, false, false, s.processed)
  }

  function Settle(w: World, alice: bool, s: Side, taken: bool, out: seq<Line>): World
    requires taken ==> Incoming(w, alice) != []
  {
    var u := w.(tally := Counted(w.tally, Decides(MySide(w, alice), s)));
    if alice then u.(a := s, ab := w.ab + out, ba := if taken then w.ba[1..] else w.ba)
    else u.(b := s, ba := w.ba + out, ab := if taken then w.ab[1..] else w.ab)
  }

  /** An event; one that is not possible now changes nothing. */
  function Step(w: World, e: Event): World {
    match e
    case Acts(alice, pick) =>
      var m := Act(MySide(w, alice), Incoming(w, alice), pick);
      if m.Blocked? then w else Settle(w, alice, m.side, m.taken, m.out)
    case Fail(alice, tell) =>
      var s := MySide(w, alice);
      if Over(s) then w else Settle(w, alice, s.(up := false), false, if tell then [Err] else [])
    case Connect(aliceMaster) =>
      if !Over(w.a) || !Over(w.b) then w
      else World(Joined(w.a, aliceMaster), Joined(w.b, !aliceMaster), [], [], Tally(0, 0, NoTurn))
    case AddOut(alice, msg) =>
      var s := MySide(w, alice);
      if msg.mid in Mids(s.box.outbox) then w
      else
        var t := s.(box := s.box.(outbox := s.box.outbox + [msg]));
        if alice then w.(a := t) else w.(b := t)
  }

  function Run(w: World, es: seq<Event>): World {
    if es == [] then w else Step(Run(w, es[..|es| - 1]), es[|es| - 1])
  }
}
