/**
 A station of the session model as an object: its steps are calls on the mailbox handler and updates of
 its own fields, and they do what Session.Act says.
 */
module Station {
  import opened Mailbox
  import opened ProposalOrder
  import opened Session
  import DH = DirHandler

  function MidsOf(ms: seq<Msg>): (r: seq<Mid>)
    ensures |r| == |ms|
  {
    seq(|ms|, i requires 0 <= i < |ms| => ms[i].mid)
  }

  lemma FileListed(ms: seq<DH.Stored>, mid: Mid, fws: seq<DH.Address>)
    ensures DH.HasFile(ms, mid) <==> mid in Mids(DH.ToMsgs(ms, fws))
  {
    var r := DH.ToMsgs(ms, fws);
    if m :| m in ms && m.mid == mid {
      var i :| 0 <= i < |ms| && ms[i] == m;
      assert r[i] in r && r[i].mid == mid;
    }
    if mid in Mids(r) {
      var m :| m in r && m.mid == mid;
      var i :| 0 <= i < |r| && r[i] == m;
      assert ms[i] in ms && ms[i].mid == mid;
    }
  }

  class Station {
    const h: DH.Handler
    const fws: seq<DH.Address>
    var pc: Pc
    var up: bool
    var noMsgs: bool
    var quitSent: bool
    var quitReceived: bool
    var processed: seq<Mid>

    ghost function View(): Side
      reads this, h
    {
      Side(h.View(fws), pc, up, noMsgs, quitSent, quitReceived, processed)
    }

    /** A station at the start of a session: the handler is prepared, and the master listens first. */
    constructor (h: DH.Handler, fws: seq<DH.Address>, master: bool, processed: seq<Mid>)
      modifies h
      ensures this.h == h && this.fws == fws
      ensures View() == Joined(Side(old(h.View(fws)), Stopped, false, false, false, false, processed), master)
    {
      this.h, this.fws, this.processed := h, fws, processed;
      pc, up, noMsgs, quitSent, quitReceived := if master then InLoop([]) else Choose, true, false, false, false;
      new;
      h.Prepare();
    }

    /** The next block: what the handler hands out, sorted, the first five. */
    method Proposed() returns (r: seq<Mid>)
      ensures r == NextBlock(h.View(fws))
    {
      hide Block, Outbound;
      var ms := h.GetOutbound(fws);
      r := MidsOf(Block(Outbound(DH.ToMsgs(ms, fws), {})));
    }

    /** Ask the handler about every proposal, deferring repeated ones. */
    method AnswerAll(props: seq<Mid>) returns (r: seq<Answer>)
      ensures r == Answers(h.View(fws), props)
    {
      r := [];
      var seen: set<Mid> := {};
      for i := 0 to |props|
        invariant |r| == i && seen == set m | m in props[..i]
        invariant forall j :: 0 <= j < i ==> r[j] == Answers(h.View(fws), props)[j]
      {
        var a := Defer;
        if props[i] !in seen {
          a := h.Answer(props[i]);
          assert a == GetInboundAnswer(h.View(fws), props[i]);
        }
        assert props[..i + 1] == props[..i] + [props[i]];
        seen := seen + {props[i]};
        r := r + [a];
      }
    }

    /** Report a message sent; the program ends if it is not there. */
    method Report(mid: Mid, next: Pc)
      modifies this, h
      ensures Sent(old(View()), mid, next) == Moved(View(), false, [])
    {
      FileListed(h.outbox, mid, fws);
      var ok := h.MarkSent(mid);
      if ok {
        pc := next;
      } else {
        up := false;
      }
    }

    /** Act on the answer to one proposal. */
    method WriteOne(mid: Mid, answer: Answer, rest: seq<(Mid, Answer)>, rej: set<Mid>, acc: set<Mid>)
      returns (out: seq<Line>)
      modifies this, h
      ensures WriteAct(old(View()), mid, answer, rest, rej, acc) == Moved(View(), false, out)
    {
      out := [];
      match answer {
        case Defer =>
          h.MarkDeferred(mid);
          pc := Writing(rest, rej, acc);
        case Reject => pc := Writing(rest, rej + {mid}, acc);
        case Accept =>
          pc := Writing(rest, rej, acc + {mid});
          out := [Body(mid)];
      }
    }

    /** The end of a turn, everything rejected being reported. */
    method Turnover(acc: set<Mid>) returns (out: seq<Line>)
      requires pc == Reporting({}, acc)
      modifies this
      ensures OutAct(old(View()), [], []) == Moved(View(), false, out)
    {
      hide NextBlock;
      out := [];
      if acc != {} {
        pc := AwaitPeek(acc);
        return;
      }
      var more := Proposed();
      if more != [] {
        pc := Choose;
      } else if noMsgs {
        pc, quitSent, out := Stopped, true, [FQ];
      } else {
        pc, out := AwaitPeek({}), [FF];
      }
    }

    /** Give up and tell the remote. */
    method GiveUp() returns (out: seq<Line>)
      modifies this
      ensures Fails(old(View())) == Moved(View(), false, out)
    {
      up := false;
      out := [Err];
    }

    /** Start a turn: propose a block if there is anything to propose. */
    method Begin() returns (out: seq<Line>)
      requires pc.Choose?
      modifies this
      ensures OutAct(old(View()), [], []) == Moved(View(), false, out)
    {
      hide NextBlock;
      var block := Proposed();
      if block != [] {
        pc, out := AwaitAnswer(block), Props(block) + [Prompt];
      } else {
        pc, out := Reporting({}, {}), [];
      }
    }

    /** One line of the remote's turn. */
    method TakeLine(props: seq<Mid>, line: Line) returns (taken: bool, out: seq<Line>)
      modifies this
      ensures ReadLine(old(View()), props, line) == Moved(View(), taken, out)
    {
      hide Answers, Accepts, Zip;
      taken, out := true, [];
      match line {
        case Prop(mid) => pc := InLoop(props + [mid]);
        case FF => pc, noMsgs := Choose, true;
        case FQ => pc, noMsgs, quitReceived := Stopped, true, true;
        case Prompt =>
          if props == [] {
            pc := Choose;
          } else {
            var answers := AnswerAll(props);
            out := [FS(answers)];
            var due := Accepts(Zip(props, answers));
            if due == [] {
              pc := InLoop([]);
            } else {
              pc, noMsgs := Fetching(due), false;
            }
          }
        case _ =>
          out := GiveUp();
          taken := false;
      }
    }

    /** The next accepted message. */
    method Fetch(due: seq<Mid>, inc: seq<Line>) returns (moved: bool, taken: bool, out: seq<Line>)
      requires pc == Fetching(due)
      modifies this, h
      ensures Does(InAct(old(View()), inc), old(View()), View(), moved, taken, out)
    {
      moved, taken, out := true, false, [];
      if due == [] {
        pc := Choose;
      } else if inc == [] {
        moved := false;
      } else if inc[0].Body? {
        h.ProcessMessage(inc[0].mid);
        pc, processed, taken := Fetching(due[1..]), processed + [inc[0].mid], true;
      } else {
        out := GiveUp();
      }
    }

    /** A step of the station in the receiving role. */
    method Receive(inc: seq<Line>) returns (moved: bool, taken: bool, out: seq<Line>)
      requires pc.InLoop? || pc.Fetching?
      modifies this, h
      ensures Does(InAct(old(View()), inc), old(View()), View(), moved, taken, out)
    {
      hide ReadLine;
      if pc.Fetching? {
        moved, taken, out := Fetch(pc.due, inc);
      } else if inc == [] {
        moved, taken, out := false, false, [];
      } else {
        taken, out := TakeLine(pc.props, inc[0]);
        moved := true;
      }
    }

    /** Wait for the sign that the block arrived. */
    method Peek(acc: set<Mid>, inc: seq<Line>) returns (moved: bool, out: seq<Line>)
      requires pc == AwaitPeek(acc)
      modifies this
      ensures Does(OutAct(old(View()), inc, []), old(View()), View(), moved, false, out)
    {
      moved, out := inc != [], [];
      if moved {
        if inc[0].Body? || inc[0].Err? {
          out := GiveUp();
        } else {
          pc := Confirming(acc);
        }
      }
    }

    /** A step of the station in the sending role. */
    method Send(inc: seq<Line>, pick: Mid) returns (moved: bool, taken: bool, out: seq<Line>)
      requires !pc.InLoop? && !pc.Fetching?
      modifies this, h
      ensures Does(OutAct(old(View()), inc, pick), old(View()), View(), moved, taken, out)
    {
      hide NextBlock, WriteAct, Sent, Zip;
      moved, taken, out := true, false, [];
      match pc {
        case Choose =>
          SameWhatever(View(), inc, pick);
          out := Begin();
        case AwaitAnswer(block) =>
          if inc == [] {
            moved := false;
          } else if inc[0].FS? && |inc[0].answers| <= |block| {
            pc, taken := Writing(Zip(block, inc[0].answers), {}, {}), true;
          } else {
            out := GiveUp();
          }
        case Writing(todo, rej, acc) =>
          if todo == [] {
            pc := Reporting(rej, acc);
          } else {
            out := WriteOne(todo[0].0, todo[0].1, todo[1..], rej, acc);
          }
        case Reporting(rej, acc) =>
          if rej == {} {
            SameWhatever(View(), inc, pick);
            out := Turnover(acc);
          } else if pick in rej {
            Report(pick, Reporting(rej - {pick}, acc));
          } else {
            moved := false;
          }
        case AwaitPeek(acc) =>
          SameWhatever(View(), inc, pick);
          moved, out := Peek(acc, inc);
        case Confirming(acc) =>
          if acc == {} {
            pc := InLoop([]);
          } else if pick in acc {
            Report(pick, Confirming(acc - {pick}));
          } else {
            moved := false;
          }
        case _ => moved := false;
      }
    }

    /** A step of the station: exactly the step of the session model, on the mailbox as the handler keeps it. */
    method Step(inc: seq<Line>, pick: Mid) returns (moved: bool, taken: bool, out: seq<Line>)
      modifies this, h
      ensures Does(Act(old(View()), inc, pick), old(View()), View(), moved, taken, out)
    {
      hide OutAct, InAct;
      if !up {
        moved, taken, out := false, false, [];
      } else if pc.InLoop? || pc.Fetching? {
        moved, taken, out := Receive(inc);
      } else {
        moved, taken, out := Send(inc, pick);
      }
    }
  }

  /** The object moved as the model says, or stayed where the model is blocked. */
  ghost predicate Does(m: Move, before: Side, after: Side, moved: bool, taken: bool, out: seq<Line>) {
    if moved then m == Moved(after, taken, out) else m.Blocked? && after == before && !taken && out == []
  }

  /** Where a step looks at neither the channel nor the choice, or only at the channel. */
  lemma SameWhatever(s: Side, inc: seq<Line>, pick: Mid)
    ensures s.pc.Choose? || (s.pc.Reporting? && s.pc.rej == {}) ==> OutAct(s, inc, pick) == OutAct(s, [], [])
    ensures s.pc.AwaitPeek? ==> OutAct(s, inc, pick) == OutAct(s, inc, [])
  {
    hide NextBlock;
  }
}
