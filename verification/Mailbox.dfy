/**
 The directory mailbox of a station, as sets and lists of messages.
 */
module Mailbox {
  type Mid = string

  /** An outbound message: its title, its compressed size, and whether it is valid and meant for the remote. */
  datatype Msg = Msg(mid: Mid, title: string, size: nat, fit: bool)

  datatype Answer = Accept | Reject | Defer

  datatype Box = Box(inbox: set<Mid>, outbox: seq<Msg>, sent: set<Mid>, deferred: set<Mid>, sendOnly: bool)

  function Mids(ms: seq<Msg>): (s: set<Mid>) {
    set m | m in ms :: m.mid
  }

  /** File names are unique in a directory. */
  predicate Distinct(ms: seq<Msg>) {
    forall i, j :: 0 <= i < j < |ms| ==> ms[i].mid != ms[j].mid
  }

  /** The messages proposed to the remote, in directory order. */
  function Outbound(ms: seq<Msg>, deferred: set<Mid>): (r: seq<Msg>)
    ensures forall m :: m in r <==> m in ms && m.fit && m.mid !in deferred
    ensures Distinct(ms) ==> Distinct(r)
  {
    if ms == [] then []
    else
      var r := Outbound(ms[..|ms| - 1], deferred);
      var m := ms[|ms| - 1];
      assert ms == ms[..|ms| - 1] + [m];
      if m.fit && m.mid !in deferred then r + [m] else r
  }

  /** The MIDs still to be proposed. */
  ghost function Offered(b: Box): (s: set<Mid>) {
    set m | m in b.outbox && m.fit && m.mid !in b.deferred :: m.mid
  }

  /** A directory without the file of mid. */
  function Without(ms: seq<Msg>, mid: Mid): (r: seq<Msg>)
    ensures forall m :: m in r <==> m in ms && m.mid != mid
    ensures Distinct(ms) ==> Distinct(r)
  {
    if ms == [] then []
    else
      var r := Without(ms[..|ms| - 1], mid);
      var m := ms[|ms| - 1];
      assert ms == ms[..|ms| - 1] + [m];
      if m.mid == mid then r else r + [m]
  }

  function GetInboundAnswer(b: Box, mid: Mid): Answer {
    if b.sendOnly then Defer else if mid in b.inbox then Reject else Accept
  }

  function ProcessInbound(b: Box, mid: Mid): Box {
    b.(inbox := b.inbox + {mid})
  }

  /** Move a message from the outbox to the sent directory. */
  function SetSent(b: Box, mid: Mid): Box {
    b.(outbox := Without(b.outbox, mid), sent := b.sent + {mid})
  }

  function SetDeferred(b: Box, mid: Mid): Box {
    b.(deferred := b.deferred + {mid})
  }

  lemma SentMids(ms: seq<Msg>, mid: Mid)
    ensures Mids(Without(ms, mid)) == Mids(ms) - {mid}
  {
    forall x | x in Mids(ms) - {mid} ensures x in Mids(Without(ms, mid)) {
      var m :| m in ms && m.mid == x;
      assert m in Without(ms, mid);
    }
  }

  /** Reporting a message sent or deferred takes it off the offers, and nothing else. */
  lemma OffersShrink(b: Box, mid: Mid)
    ensures Offered(SetSent(b, mid)) == Offered(b) - {mid}
    ensures Offered(SetDeferred(b, mid)) == Offered(b) - {mid}
    ensures Offered(ProcessInbound(b, mid)) == Offered(b)
  {
    var s, d := SetSent(b, mid), SetDeferred(b, mid);
    forall x ensures x in Offered(b) - {mid} ==> x in Offered(s) && x in Offered(d) {
      if x in Offered(b) - {mid} {
        var m :| m in b.outbox && m.fit && m.mid !in b.deferred && m.mid == x;
        assert m in s.outbox && m in d.outbox;
      }
    }
  }
}
