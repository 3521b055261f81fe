/**
 Safety of every run: any number of sessions between two stations, each of which may be cut short
 anywhere, with messages added at any time.
 */
module SessionSafety {
  import opened Mailbox
  import opened Session
  import opened SessionInv
  import opened SessionSteps

  /** The two stations are in step, or no session has been held yet. */
  ghost predicate Inv(w: World) {
    && LocalOk(w.a) && LocalOk(w.b)
    && w.a.box.sent <= w.b.box.inbox && w.b.box.sent <= w.a.box.inbox
    && (Phase(w.a, w.b, w.ab, w.ba) || Phase(w.b, w.a, w.ba, w.ab) || (w.a.pc.Stopped? && w.b.pc.Stopped?))
  }

  /** Two stations that have never met meet the invariant. */
  lemma StartOk(w: World)
    requires Distinct(w.a.box.outbox) && Distinct(w.b.box.outbox) && w.a.pc.Stopped? && w.b.pc.Stopped?
    requires w.a.box.sent == {} && w.b.box.sent == {} && w.a.processed == [] && w.b.processed == []
    ensures Inv(w)
  {
  }

  lemma ActKeeps(w: World, alice: bool, pick: Mid)
    requires Inv(w)
    ensures Inv(Step(w, Acts(alice, pick)))
  {
    hide LocalOk, Phase, OutAct, InAct;
    var m := Act(MySide(w, alice), Incoming(w, alice), pick);
    if m.Moved? {
      StoppedStays(MySide(w, alice), Incoming(w, alice), pick);
      if Phase(w.a, w.b, w.ab, w.ba) {
        if alice { OutMoves(w.a, w.b, w.ab, w.ba, pick); } else { InMoves(w.a, w.b, w.ab, w.ba, pick); }
      } else {
        if alice { InMoves(w.b, w.a, w.ba, w.ab, pick); } else { OutMoves(w.b, w.a, w.ba, w.ab, pick); }
      }
    }
  }

  lemma FailKeeps(w: World, alice: bool, tell: bool)
    requires Inv(w)
    ensures Inv(Step(w, Fail(alice, tell)))
  {
    hide Phase, Distinct, NoDup, SetOf, Working, Mids;
    var s, out := MySide(w, alice), if tell then [Err] else [];
    if !Over(s) {
      if Phase(w.a, w.b, w.ab, w.ba) {
        if alice { FailPhase(w.a, w.b, w.ab, w.ba, out); } else { FailFollower(w.a, w.b, w.ab, w.ba, out); }
      } else {
        if alice { FailFollower(w.b, w.a, w.ba, w.ab, out); } else { FailPhase(w.b, w.a, w.ba, w.ab, out); }
      }
    }
  }

  lemma JoinLocal(s: Side, master: bool)
    requires LocalOk(s)
    ensures LocalOk(Joined(s, master))
  {
  }

  lemma ConnectKeeps(w: World, aliceMaster: bool)
    requires Inv(w)
    ensures Inv(Step(w, Connect(aliceMaster)))
  {
    hide LocalOk;
    JoinLocal(w.a, aliceMaster);
    JoinLocal(w.b, !aliceMaster);
  }

  /** A station with one more message in its outbox. */
  function Added(s: Side, msg: Msg): Side {
    s.(box := s.box.(outbox := s.box.outbox + [msg]))
  }

  lemma AddLocal(s: Side, msg: Msg)
    requires LocalOk(s) && msg.mid !in Mids(s.box.outbox)
    ensures LocalOk(Added(s, msg)) && Mids(Added(s, msg).box.outbox) == Mids(s.box.outbox) + {msg.mid}
  {
    hide NoDup, SetOf, Working;
    var ms := s.box.outbox;
    assert forall i :: 0 <= i < |ms| ==> ms[i].mid in Mids(ms);
    forall x | x in Mids(ms) ensures x in Mids(ms + [msg]) {
      var m :| m in ms && m.mid == x;
      assert m in ms + [msg];
    }
    assert msg in ms + [msg];
  }

  /** New mail makes no difference to a session under way. */
  lemma AddPhase(x: Side, y: Side, xy: seq<Line>, yx: seq<Line>, msg: Msg)
    requires Phase(x, y, xy, yx)
    ensures Phase(Added(x, msg), y, xy, yx) && Phase(x, Added(y, msg), xy, yx)
  {
    hide Lagging, Accepts, Rejects, Zip, Underway, Props;
  }

  lemma AddKeeps(w: World, alice: bool, msg: Msg)
    requires Inv(w)
    ensures Inv(Step(w, AddOut(alice, msg)))
  {
    hide LocalOk, Phase;
    var s := MySide(w, alice);
    if msg.mid !in Mids(s.box.outbox) {
      AddLocal(s, msg);
      if Phase(w.a, w.b, w.ab, w.ba) { AddPhase(w.a, w.b, w.ab, w.ba, msg); }
      if Phase(w.b, w.a, w.ba, w.ab) { AddPhase(w.b, w.a, w.ba, w.ab, msg); }
    }
  }

  /** Every event keeps the invariant. */
  lemma StepKeeps(w: World, e: Event)
    requires Inv(w)
    ensures Inv(Step(w, e))
  {
    hide Inv, Step;
    match e
    case Acts(alice, pick) => ActKeeps(w, alice, pick);
    case Fail(alice, tell) => FailKeeps(w, alice, tell);
    case Connect(aliceMaster) => ConnectKeeps(w, aliceMaster);
    case AddOut(alice, msg) => AddKeeps(w, alice, msg);
  }

  /** No message disappears, none is forgotten, and what was taken in stays on record. */
  ghost predicate Grows(s: Side, t: Side) {
    && Mids(s.box.outbox) + s.box.sent <= Mids(t.box.outbox) + t.box.sent
    && s.box.sent <= t.box.sent && s.box.inbox <= t.box.inbox && s.processed <= t.processed
  }

  lemma ActGrows(s: Side, inc: seq<Line>, pick: Mid)
    requires Act(s, inc, pick).Moved?
    ensures Grows(s, Act(s, inc, pick).side)
  {
    hide OutAct, ReadLine, Mids, Without;
    if s.pc.InLoop? || s.pc.Fetching? {
      ReadGrows(s, inc);
    } else {
      OutBoxes(s, inc, pick);
      SentMids(s.box.outbox, pick);
    }
  }

  lemma ReadGrows(s: Side, inc: seq<Line>)
    requires InAct(s, inc).Moved?
    ensures var t := InAct(s, inc).side;
            && t.box == s.box.(inbox := t.box.inbox) && s.box.inbox <= t.box.inbox && s.processed <= t.processed
  {
    hide ReadLine;
    if s.pc.InLoop? { ReadBox(s, s.pc.props, inc[0]); }
  }

  lemma StepGrows(w: World, e: Event)
    ensures Grows(w.a, Step(w, e).a) && Grows(w.b, Step(w, e).b)
  {
    hide Act, Mids;
    match e
    case Acts(alice, pick) =>
      var m := Act(MySide(w, alice), Incoming(w, alice), pick);
      if m.Moved? { ActGrows(MySide(w, alice), Incoming(w, alice), pick); }
    case AddOut(alice, msg) => AddMids(MySide(w, alice).box.outbox, msg);
    case _ =>
  }

  lemma AddMids(ms: seq<Msg>, msg: Msg)
    ensures Mids(ms) <= Mids(ms + [msg])
  {
    forall x | x in Mids(ms) ensures x in Mids(ms + [msg]) {
      var m :| m in ms && m.mid == x;
      assert m in ms + [msg];
    }
  }

  lemma {:induction false} RunGrows(w: World, es: seq<Event>)
    ensures Grows(w.a, Run(w, es).a) && Grows(w.b, Run(w, es).b)
    decreases |es|
  {
    hide Step, Mids;
    if es == [] {
    } else {
      var n := |es| - 1;
      RunGrows(w, es[..n]);
      StepGrows(Run(w, es[..n]), es[n]);
    }
  }

  lemma {:induction false} RunKeeps(w: World, es: seq<Event>)
    requires Inv(w)
    ensures Inv(Run(w, es))
    decreases |es|
  {
    hide Inv, Step;
    if es == [] {
    } else {
      RunKeeps(w, es[..|es| - 1]);
      StepKeeps(Run(w, es[..|es| - 1]), es[|es| - 1]);
    }
  }

  /**
   In every run a message leaves an outbox only if the remote has it, so that none is lost on the way,
   and no message is ever taken in twice.
   */
  lemma DeliveredBeforeMarked(w: World, es: seq<Event>)
    requires Inv(w)
    ensures var v := Run(w, es);
            && Mids(w.a.box.outbox) <= Mids(v.a.box.outbox) + v.b.box.inbox
            && Mids(w.b.box.outbox) <= Mids(v.b.box.outbox) + v.a.box.inbox
            && v.a.box.sent <= v.b.box.inbox && v.b.box.sent <= v.a.box.inbox
            && NoDup(v.a.processed) && NoDup(v.b.processed)
  {
    hide Phase, Run, Mids;
    RunKeeps(w, es);
    RunGrows(w, es);
  }
}
