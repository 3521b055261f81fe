/**
 The directory mailbox as the object a session works with; Mailbox.Box is what one session sees of it.
 */
module DirHandler {
  import opened Mailbox

  type Address = string

  /** A message file in the outbox: valid if it passes validation, receivers as in its header. */
  datatype Stored = Stored(mid: Mid, title: string, size: nat, valid: bool, receivers: seq<Address>, p2pOnly: bool)

  /** Addresses are taken as folded to one case. */
  predicate IsOnlyReceiver(m: Stored, a: Address) {
    m.receivers == [a]
  }

  /**
   For a station that names addresses, mail for one of them alone; for the rest of the network, mail
   not kept for direct contacts.
   */
  predicate ForRemote(m: Stored, fws: seq<Address>) {
    if fws != [] then exists a :: a in fws && IsOnlyReceiver(m, a) else !m.p2pOnly
  }

  function ToMsg(m: Stored, fws: seq<Address>): Msg {
    Msg(m.mid, m.title, m.size, m.valid && ForRemote(m, fws))
  }

  function ToMsgs(ms: seq<Stored>, fws: seq<Address>): (r: seq<Msg>)
    ensures |r| == |ms|
  {
    seq(|ms|, i requires 0 <= i < |ms| => ToMsg(ms[i], fws))
  }

  predicate HasFile(ms: seq<Stored>, mid: Mid) {
    exists m :: m in ms && m.mid == mid
  }

  /** A directory without the file of mid. */
  function RemoveFile(ms: seq<Stored>, mid: Mid): (r: seq<Stored>) {
    if ms == [] then []
    else
      var m := ms[|ms| - 1];
      RemoveFile(ms[..|ms| - 1], mid) + if m.mid == mid then [] else [m]
  }

  lemma {:induction false} RemoveMatches(ms: seq<Stored>, mid: Mid, fws: seq<Address>)
    ensures ToMsgs(RemoveFile(ms, mid), fws) == Without(ToMsgs(ms, fws), mid)
    decreases |ms|
  {
    hide ToMsgs, ToMsg, Without, RemoveFile;
    if ms == [] {
      NoMsgs(fws);
      NoFiles(mid);
    } else {
      var n := |ms| - 1;
      var m := ms[n];
      RemoveMatches(ms[..n], mid, fws);
      OneMsg(ms[..n], m, fws);
      OneMsg(RemoveFile(ms[..n], mid), m, fws);
      OneFile(ms[..n], m, mid);
      WithoutOne(ToMsgs(ms[..n], fws), ToMsg(m, fws), mid);
      assert ms[..n] + [m] == ms;
    }
  }

  lemma NoFiles(mid: Mid)
    ensures RemoveFile([], mid) == [] && Without([], mid) == []
  {
  }

  lemma OneFile(ms: seq<Stored>, m: Stored, mid: Mid)
    ensures RemoveFile(ms + [m], mid) == if m.mid == mid then RemoveFile(ms, mid) else RemoveFile(ms, mid) + [m]
  {
    assert (ms + [m])[..|ms|] == ms;
  }

  lemma WithoutOne(ms: seq<Msg>, m: Msg, mid: Mid)
    ensures Without(ms + [m], mid) == if m.mid == mid then Without(ms, mid) else Without(ms, mid) + [m]
  {
    assert (ms + [m])[..|ms|] == ms;
  }

  lemma OneMsg(ms: seq<Stored>, m: Stored, fws: seq<Address>)
    ensures ToMsgs(ms + [m], fws) == ToMsgs(ms, fws) + [ToMsg(m, fws)] && ToMsg(m, fws).mid == m.mid
  {
  }

  lemma NoMsgs(fws: seq<Address>)
    ensures ToMsgs([], fws) == [] && forall d :: Outbound([], d) == []
  {
  }

  lemma OneMore(ms: seq<Msg>, m: Msg, d: set<Mid>)
    ensures Outbound(ms + [m], d) == Outbound(ms, d) + if m.fit && m.mid !in d then [m] else []
  {
    assert (ms + [m])[..|ms|] == ms;
  }

  lemma ToOne(ms: seq<Stored>, i: nat, fws: seq<Address>)
    requires i < |ms|
    ensures ToMsgs(ms, fws)[i] == ToMsg(ms[i], fws)
  {
  }

  lemma ToMore(ms: seq<Stored>, m: Stored, fws: seq<Address>)
    ensures ToMsgs(ms + [m], fws) == ToMsgs(ms, fws) + [ToMsg(m, fws)]
  {
  }

  /** Look for the receiver among the addresses. */
  method Delivers(m: Stored, fws: seq<Address>) returns (deliver: bool)
    ensures deliver == ForRemote(m, fws)
    ensures deliver <==> if fws == [] then !m.p2pOnly else |m.receivers| == 1 && m.receivers[0] in fws
  {
    if |fws| > 0 {
      for j := 0 to |fws|
        invariant forall a :: a in fws[..j] ==> !IsOnlyReceiver(m, a)
      {
        if IsOnlyReceiver(m, fws[j]) {
          return true;
        }
      }
      return false;
    }
    return !m.p2pOnly;
  }

  class Handler {
    var inbox: set<Mid>
    var outbox: seq<Stored>
    var sent: set<Mid>
    var deferred: set<Mid>
    const sendOnly: bool

    /** The mailbox as a session with a remote that names fws sees it. */
    ghost function View(fws: seq<Address>): Box
      reads this
    {
      Box(inbox, ToMsgs(outbox, fws), sent, deferred, sendOnly)
    }

    /** Wrap the directories as they are. */
    constructor (inbox: set<Mid>, outbox: seq<Stored>, sent: set<Mid>, sendOnly: bool)
      ensures forall fws :: View(fws) == Box(inbox, ToMsgs(outbox, fws), sent, {}, sendOnly)
    {
      this.sendOnly := sendOnly;
      this.inbox, this.outbox, this.sent, deferred := inbox, outbox, sent, {};
    }

    /** A new session forgets what was deferred, as Session.Joined does. */
    method Prepare()
      modifies this`deferred
      ensures forall fws :: View(fws) == old(View(fws)).(deferred := {})
    {
      deferred := {};
    }

    method ProcessMessage(mid: Mid)
      modifies this`inbox
      ensures forall fws :: View(fws) == ProcessInbound(old(View(fws)), mid)
    {
      inbox := inbox + {mid};
    }

    method Answer(mid: Mid) returns (a: Answer)
      ensures forall fws :: a == GetInboundAnswer(View(fws), mid)
    {
      if sendOnly {
        return Defer;
      }
      if mid in inbox {
        return Reject;
      }
      return Accept;
    }

    /** Move a message to the sent directory; it is an error if it is not in the outbox. */
    method MarkSent(mid: Mid) returns (ok: bool)
      modifies this`outbox, this`sent
      ensures ok <==> HasFile(old(outbox), mid)
      ensures forall fws :: View(fws) == if ok then SetSent(old(View(fws)), mid) else old(View(fws))
    {
      hide ToMsgs, Without;
      forall fws ensures ToMsgs(RemoveFile(outbox, mid), fws) == Without(ToMsgs(outbox, fws), mid) {
        RemoveMatches(outbox, mid, fws);
      }
      ok := HasFile(outbox, mid);
      if ok {
        outbox, sent := RemoveFile(outbox, mid), sent + {mid};
      }
    }

    method MarkDeferred(mid: Mid)
      modifies this`deferred
      ensures forall fws :: View(fws) == SetDeferred(old(View(fws)), mid)
    {
      deferred := deferred + {mid};
    }

    /** The messages for a remote, in directory order; those that are valid are what is proposed. */
    method GetOutbound(fws: seq<Address>) returns (ms: seq<Stored>)
      ensures Outbound(ToMsgs(ms, fws), {}) == Outbound(View(fws).outbox, deferred)
      ensures forall m :: m in ms ==> m in outbox && m.mid !in deferred && ForRemote(m, fws)
    {
      hide ForRemote, Outbound, ToMsgs;
      ms := [];
      NoMsgs(fws);
      assert ToMsgs(outbox, fws)[..0] == [];
      ghost var all := ToMsgs(outbox, fws);
      for i := 0 to |outbox|
        invariant Outbound(ToMsgs(ms, fws), {}) == Outbound(all[..i], deferred)
        invariant forall m :: m in ms ==> m in outbox && m.mid !in deferred && ForRemote(m, fws)
      {
        var m := outbox[i];
        assert all[..i + 1] == all[..i] + [all[i]];
        OneMore(all[..i], all[i], deferred);
        ToOne(outbox, i, fws);
        if m.mid !in deferred {
          var deliver := Delivers(m, fws);
          if deliver {
            ToMore(ms, m, fws);
            OneMore(ToMsgs(ms, fws), ToMsg(m, fws), {});
            ms := ms + [m];
          }
        }
      }
      assert all[..|outbox|] == all;
    }
  }
}
