/**
 Mail put into an outbox while a session is under way: it lengthens the session by a bounded amount, and
 only what comes in after a station has said that it has nothing more can be left over.
 */
module SessionMail {
  import opened Mailbox
  import opened Session
  import opened SessionInv
  import opened SessionSteps
  import opened SessionSafety
  import opened SessionEnd
  import opened SessionMeasure

  /** A run of steps of the two stations, each of them possible, and of new mail. */
  ghost predicate AllMove(w: World, es: seq<Event>) {
    es == [] ||
    var n := |es| - 1;
    var v := Run(w, es[..n]);
    AllMove(w, es[..n]) && (es[n].AddOut? || (es[n].Acts? && Moves(v, es[n].alice, es[n].pick)))
  }

  ghost predicate Moves(w: World, alice: bool, pick: Mid) {
    Act(MySide(w, alice), Incoming(w, alice), pick).Moved?
  }

  ghost function Adds(es: seq<Event>): nat {
    if es == [] then 0 else Adds(es[..|es| - 1]) + if es[|es| - 1].AddOut? then 1 else 0
  }

  /** The message an event puts into an outbox; none if there is one of that MID. */
  ghost function PutIn(w: World, e: Event, alice: bool): set<Msg> {
    if e.AddOut? && e.alice == alice && e.msg.mid !in Mids(MySide(w, alice).box.outbox) then {e.msg} else {}
  }

  /** All messages a station has had in its outbox since the start of the run. */
  ghost function Mail(w: World, es: seq<Event>, alice: bool): set<Msg> {
    if es == [] then set m | m in MySide(w, alice).box.outbox
    else var n := |es| - 1; Mail(w, es[..n], alice) + PutIn(Run(w, es[..n]), es[n], alice)
  }

  /** The messages a station was given since it last said that it had nothing more. */
  ghost function Late(w: World, es: seq<Event>, alice: bool): set<Mid> {
    if es == [] then {}
    else
      var n := |es| - 1;
      LateAfter(Late(w, es[..n], alice), Run(w, es[..n]), es[n], alice)
  }

  ghost function LateAfter(late: set<Mid>, w: World, e: Event, alice: bool): set<Mid> {
    match e
    case AddOut(a, msg) =>
      if a == alice && msg.mid !in Mids(MySide(w, alice).box.outbox) then late + {msg.mid} else late
    case Acts(a, _) => if a == alice then Told(late, Decides(MySide(w, alice), MySide(Step(w, e), alice))) else late
    case _ => late
  }

  lemma AddOffers(s: Side, msg: Msg)
    ensures Offered(s.box) <= Offered(Added(s, msg).box) <= Offered(s.box) + {msg.mid}
  {
    var t := Added(s, msg);
    forall x | x in Offered(s.box) ensures x in Offered(t.box) {
      var m :| m in s.box.outbox && m.fit && m.mid !in s.box.deferred && m.mid == x;
      assert m in t.box.outbox;
    }
  }

  lemma AddFlow(x: Side, y: Side, yx: seq<Line>, msg: Msg, t: Tally, lx: set<Mid>, ly: set<Mid>)
    requires Flow(x, y, yx, t, lx, ly)
    ensures Flow(Added(x, msg), y, yx, t, lx + {msg.mid}, ly) && Flow(x, Added(y, msg), yx, t, lx, ly + {msg.mid})
  {
    hide Offered, Accepts, Zip;
    AddOffers(x, msg);
    AddOffers(y, msg);
  }

  lemma AddKept(x: Side, y: Side, xy: seq<Line>, yx: seq<Line>, msg: Msg)
    requires Kept(x, y, xy, yx)
    ensures msg.mid !in Mids(x.box.outbox) ==> Kept(Added(x, msg), y, xy, yx)
    ensures msg.mid !in Mids(y.box.outbox) ==> Kept(x, Added(y, msg), xy, yx)
  {
    hide LocalOk, Phase, Mids;
    AddPhase(x, y, xy, yx, msg);
    if msg.mid !in Mids(x.box.outbox) { AddLocal(x, msg); }
    if msg.mid !in Mids(y.box.outbox) { AddLocal(y, msg); }
  }

  lemma AddCost(s: Side, msg: Msg)
    ensures Cost(Added(s, msg)) <= Cost(s) + 3000
  {
    hide Offered, Working, Accepts;
    AddOffers(s, msg);
    var o, p := Undone(s), Undone(Added(s, msg));
    assert p <= o + {msg.mid};
    Larger(p, o + {msg.mid});
    OneMore(o, msg.mid);
    if s.pc.Choose? { assert Offered(s.box) != {} ==> Offered(Added(s, msg).box) != {}; }
  }

  lemma Larger(a: set<Mid>, b: set<Mid>)
    requires a <= b
    ensures |a| <= |b|
  {
    assert b == a + (b - a);
  }

  /** New mail keeps a session calm and sets it back by a bounded amount. */
  lemma CalmAdd(w: World, alice: bool, msg: Msg, la: set<Mid>, lb: set<Mid>)
    requires Calm(w, la, lb)
    ensures var e := AddOut(alice, msg); var v := Step(w, e);
            Calm(v, LateAfter(la, w, e, true), LateAfter(lb, w, e, false)) && Measure(v) <= Measure(w) + 3000
  {
    hide Kept, Flow, Cost, ChannelWeight, Quiet, Mids;
    if msg.mid !in Mids(MySide(w, alice).box.outbox) {
      AddCost(MySide(w, alice), msg);
      if Kept(w.a, w.b, w.ab, w.ba) && Flow(w.a, w.b, w.ba, w.tally, la, lb) {
        AddFlow(w.a, w.b, w.ba, msg, w.tally, la, lb);
        AddKept(w.a, w.b, w.ab, w.ba, msg);
      } else {
        AddFlow(w.b, w.a, w.ab, msg, w.tally, lb, la);
        AddKept(w.b, w.a, w.ba, w.ab, msg);
      }
    }
  }

  lemma CalmActs(w: World, alice: bool, pick: Mid, la: set<Mid>, lb: set<Mid>)
    requires Calm(w, la, lb) && Moves(w, alice, pick)
    ensures var e := Acts(alice, pick); var v := Step(w, e);
            Calm(v, LateAfter(la, w, e, true), LateAfter(lb, w, e, false)) && Measure(v) < Measure(w)
  {
    hide Calm, Measure, Act, Step, Decides;
    CalmStep(w, alice, pick, la, lb);
  }

  /** Such a run is no longer than its start and the new mail allow. */
  lemma {:induction false} CalmRun(w: World, es: seq<Event>)
    requires Calm(w, {}, {}) && AllMove(w, es)
    ensures Calm(Run(w, es), Late(w, es, true), Late(w, es, false))
    ensures |es| + Measure(Run(w, es)) <= Measure(w) + 3001 * Adds(es)
    decreases |es|
  {
    hide Calm, Measure, Moves, Step, LateAfter;
    if es == [] {
    } else {
      var n := |es| - 1;
      CalmRun(w, es[..n]);
      var v, la, lb := Run(w, es[..n]), Late(w, es[..n], true), Late(w, es[..n], false);
      if es[n].AddOut? {
        CalmAdd(v, es[n].alice, es[n].msg, la, lb);
      } else {
        CalmActs(v, es[n].alice, es[n].pick, la, lb);
      }
    }
  }
}
