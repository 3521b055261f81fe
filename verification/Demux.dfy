/**
 The frame demultiplexer: one loop hands each frame to the clients that want it, while clients
 register, cancel and read.  Registering, enqueueing and closing take a lock, and a registration keeps it
 until the loop takes the registration in.
 */
module Demux {
  import opened Bits
  import opened Common

  type Callsign = seq<byte>
  type Kind = byte

  datatype Frame = Frame(port: byte, kind: Kind, from: Callsign, to: Callsign)

  /** No kinds means any kind; an empty call sign means any station. */
  datatype Filter = Filter(kinds: seq<Kind>, port: Option<byte>, call: Callsign, to: Callsign)

  predicate Wants(x: Filter, f: Frame) {
    && (x.port.Some? ==> x.port.value == f.port)
    && (x.call != [] ==> x.call == f.from || x.call == f.to)
    && (x.to != [] ==> x.to == f.to)
    && (x.kinds != [] ==> f.kind in x.kinds)
  }

  method Want(x: Filter, f: Frame) returns (r: bool)
    ensures r == Wants(x, f)
    ensures r <==> && (x.port == None || x.port == Some(f.port))
                   && x.call in [[], f.from, f.to] && x.to in [[], f.to] && (x.kinds == [] || f.kind in x.kinds)
  {
    if x.port.Some? && x.port.value != f.port {
      return false;
    } else if x.call != [] && !(x.call == f.from || x.call == f.to) {
      return false;
    } else if x.to != [] && x.to != f.to {
      return false;
    }
    if |x.kinds| == 0 {
      return true;
    }
    for i := 0 to |x.kinds|
      invariant f.kind !in x.kinds[..i]
    {
      if f.kind == x.kinds[i] {
        return true;
      }
    }
    return false;
  }

  /**
   A client: its filter, whether one frame is all it asks for, the size of its channel, the number of
   frames the loop had taken when it registered, the frames sent to it, how many of them it has read,
   whether it is waiting for one, whether it has cancelled, and how often its channel has been closed.
   */
  datatype Client = Client(filter: Filter, once: bool, cap: nat, since: nat, got: seq<Frame>, read: nat,
                           waiting: bool, done: bool, closes: nat)

  /** Where the loop is: waiting, or about to look at client number i for frame f, or gone. */
  datatype Loop = Idle | Matching(f: Frame, i: nat) | Exited

  datatype Request = Request(filter: Filter, once: bool, bufSize: nat)

  /**
   The clients the loop knows, as numbers into the list of all it ever took in; the frames it has taken; and
   the registration that holds the lock, if one does.
   */
  datatype State = State(
    closed: bool, inq: seq<Frame>, pending: Option<Request>, loop: Loop, clients: seq<nat>, all: seq<Client>,
    taken: seq<Frame>, panicked: bool)

  const START := State(false, [], None, Idle, [], [], [], false)

  datatype Event =
    | Enqueue(f: Frame)
    | Close
    | Register(req: Request)
    | TakeIn
    | Take
    | Match(viaDone: bool)
    | Read(id: nat)
    | Await(id: nat)
    | Cancel(id: nat)

  /** Close a client's channel; a second time is a panic. */
  function CloseResp(s: State, id: nat): State
    requires id < |s.all|
  {
    var c := s.all[id];
    s.(all := s.all[id := c.(closes := c.closes + 1)], panicked := s.panicked || c.closes > 0)
  }

  function CloseAll(s: State, ids: seq<nat>): State
    requires forall k :: 0 <= k < |ids| ==> ids[k] < |s.all|
    ensures |CloseAll(s, ids).all| == |s.all|
  {
    if ids == [] then s else CloseResp(CloseAll(s, ids[..|ids| - 1]), ids[|ids| - 1])
  }

  /**
   Send on a client's channel; on a closed one that is a panic.  Without a buffer the waiting client has it at
   once.
   */
  function Send(s: State, id: nat, f: Frame): State
    requires id < |s.all|
  {
    var c := s.all[id];
    var got := c.got + [f];
    var d := if c.cap == 0 then c.(got := got, read := |got|, waiting := false) else c.(got := got);
    s.(all := s.all[id := d], panicked := s.panicked || c.closes > 0)
  }

  predicate HasRoom(c: Client) {
    if c.cap == 0 then c.waiting else |c.got| - c.read < c.cap
  }

  /** Drop the client at position i from the loop's list. */
  function Remove(clients: seq<nat>, i: nat): seq<nat>
    requires i < |clients|
  {
    clients[..i] + clients[i + 1..]
  }

  /** The loop looks at client i. */
  function MatchStep(s: State, f: Frame, i: nat, viaDone: bool): State
    requires i < |s.clients| && s.clients[i] < |s.all|
  {
    var id := s.clients[i];
    var c := s.all[id];
    if !Wants(c.filter, f) then s.(loop := Matching(f, i + 1))
    else if viaDone then
      if c.done then CloseResp(s, id).(clients := Remove(s.clients, i)) else s
    else if !HasRoom(c) then s
    else if c.once then CloseResp(Send(s, id, f), id).(clients := Remove(s.clients, i))
    else Send(s, id, f).(loop := Matching(f, i + 1))
  }

  /** The loop takes in a registration. */
  function Join(s: State, req: Request): State {
    var cap := if req.once then 1 else req.bufSize;
    s.(pending := None, clients := s.clients + [|s.all|],
       all := s.all + [Client(req.filter, req.once, cap, |s.taken|, [], 0, false, false, 0)])
  }

  ghost predicate Known(s: State) {
    forall k :: 0 <= k < |s.clients| ==> s.clients[k] < |s.all|
  }

  /** An event; one that cannot happen now changes nothing. */
  function Step(s: State, e: Event): State
    requires Known(s)
  {
    match e
    case Enqueue(f) => if s.pending.Some? || s.closed || |s.inq| > 0 then s else s.(inq := [f])
    case Close => if s.pending.Some? then s else s.(closed := true)
    case Register(req) => if s.pending.Some? || s.closed then s else s.(pending := Some(req))
    case TakeIn => if s.pending.None? || !s.loop.Idle? then s else Join(s, s.pending.value)
    case Take =>
      if !s.loop.Idle? then s
      else if s.inq != [] then s.(loop := Matching(s.inq[0], 0), taken := s.taken + [s.inq[0]], inq := s.inq[1..])
      else if s.closed then CloseAll(s, s.clients).(clients := [], loop := Exited)
      else s
    case Match(viaDone) =>
      if !s.loop.Matching? then s
      else if s.loop.i >= |s.clients| then s.(loop := Idle)
      else MatchStep(s, s.loop.f, s.loop.i, viaDone)
    case Read(id) =>
      if id < |s.all| && s.all[id].read < |s.all[id].got|
      then s.(all := s.all[id := s.all[id].(read := s.all[id].read + 1)]) else s
    case Await(id) =>
      if id < |s.all| then s.(all := s.all[id := s.all[id].(waiting := true)]) else s
    case Cancel(id) =>
      if id < |s.all| && !s.all[id].once then s.(all := s.all[id := s.all[id].(done := true)]) else s
  }

  /** The wanted frames of a list. */
  function Wanted(x: Filter, fs: seq<Frame>): (r: seq<Frame>) {
    if fs == [] then []
    else Wanted(x, fs[..|fs| - 1]) + if Wants(x, fs[|fs| - 1]) then [fs[|fs| - 1]] else []
  }

  /** The frames the loop has dealt with for the client at position k of its list. */
  ghost function Seen(s: State, k: nat): nat {
    if s.loop.Matching? && k >= s.loop.i && s.taken != [] then |s.taken| - 1 else |s.taken|
  }

  ghost predicate ClientOk(c: Client, taken: seq<Frame>) {
    && c.since <= |taken| && c.got <= Wanted(c.filter, taken[c.since..])
    && c.read <= |c.got| && (c.once ==> c.cap == 1 && |c.got| <= 1)
  }

  /** A client the loop knows has an open channel and has been sent all it wants of what the loop has dealt with. */
  ghost predicate Active(s: State, k: nat)
    requires k < |s.clients| && s.clients[k] < |s.all|
  {
    var c := s.all[s.clients[k]];
    && c.closes == 0 && c.since <= Seen(s, k)
    && c.got == Wanted(c.filter, s.taken[c.since..Seen(s, k)])
    && (c.once ==> c.got == [])
  }

  ghost predicate Inv(s: State) {
    && !s.panicked && Known(s) && |s.inq| <= 1 && (s.pending.Some? ==> !s.closed)
    && (forall k :: 0 <= k < |s.clients| ==> Active(s, k))
    && (forall j, k :: 0 <= j < k < |s.clients| ==> s.clients[j] != s.clients[k])
    && (forall id :: 0 <= id < |s.all| ==> ClientOk(s.all[id], s.taken))
    && (forall id :: 0 <= id < |s.all| && id !in s.clients ==> s.all[id].closes == 1)
    && (s.loop.Matching? ==> s.taken != [] && s.taken[|s.taken| - 1] == s.loop.f && s.loop.i <= |s.clients|)
    && (s.loop.Exited? ==> s.closed && s.clients == [])
  }

  lemma WantedSnoc(x: Filter, fs: seq<Frame>, f: Frame)
    ensures Wanted(x, fs + [f]) == Wanted(x, fs) + if Wants(x, f) then [f] else []
  {
    assert (fs + [f])[..|fs|] == fs;
  }

  /** The wanted frames, in order and as often as they came. */
  lemma {:induction false} WantedConcat(x: Filter, fs: seq<Frame>, gs: seq<Frame>)
    ensures Wanted(x, fs + gs) == Wanted(x, fs) + Wanted(x, gs)
    decreases |gs|
  {
    hide Wants;
    if gs == [] {
      assert fs + gs == fs;
    } else {
      var n := |gs| - 1;
      WantedConcat(x, fs, gs[..n]);
      assert (fs + gs)[..|fs + gs| - 1] == fs + gs[..n];
    }
  }

  /** A frame is wanted if it meets every criterion the filter names. */
  lemma WantedOne(x: Filter, f: Frame)
    ensures Wanted(x, [f]) ==
            if && (x.port == None || x.port == Some(f.port)) && x.call in [[], f.from, f.to]
               && x.to in [[], f.to] && (x.kinds == [] || f.kind in x.kinds)
            then [f] else []
  {
    assert [f][..0] == [];
    assert Wanted(x, []) == [];
  }

  /** A client's account is not upset by a further frame. */
  lemma OneMoreFrame(c: Client, taken: seq<Frame>, f: Frame)
    requires ClientOk(c, taken)
    ensures ClientOk(c, taken + [f])
  {
    hide Wanted, Wants;
    assert (taken + [f])[c.since..] == taken[c.since..] + [f];
    WantedSnoc(c.filter, taken[c.since..], f);
  }

  lemma TakeKeeps(s: State)
    requires Inv(s) && s.loop.Idle? && s.inq != []
    ensures Inv(Step(s, Take))
  {
    hide Wanted, ClientOk;
    var f := s.inq[0];
    var t := Step(s, Take);
    forall id | 0 <= id < |s.all| ensures ClientOk(t.all[id], t.taken) { OneMoreFrame(s.all[id], s.taken, f); }
    forall k | 0 <= k < |s.clients| ensures Active(t, k) {
      assert Active(s, k);
      var c := s.all[s.clients[k]];
      assert t.taken[c.since..|s.taken|] == s.taken[c.since..|s.taken|];
    }
  }

  lemma {:induction false} CloseAllCloses(s: State, ids: seq<nat>)
    requires forall k :: 0 <= k < |ids| ==> ids[k] < |s.all| && s.all[ids[k]].closes == 0
    requires forall j, k :: 0 <= j < k < |ids| ==> ids[j] != ids[k]
    ensures var t := CloseAll(s, ids);
            && t.panicked == s.panicked && t == s.(all := t.all, panicked := t.panicked)
            && forall id :: 0 <= id < |s.all| ==> t.all[id] == if id in ids then s.all[id].(closes := 1) else s.all[id]
    decreases |ids|
  {
    if ids == [] {
    } else {
      var n := |ids| - 1;
      CloseAllCloses(s, ids[..n]);
      assert ids == ids[..n] + [ids[n]];
    }
  }

  lemma ExitKeeps(s: State)
    requires Inv(s) && s.loop.Idle? && s.inq == [] && s.closed
    ensures Inv(Step(s, Take)) && Step(s, Take).loop.Exited?
  {
    hide Wanted;
    forall k | 0 <= k < |s.clients| ensures s.all[s.clients[k]].closes == 0 { assert Active(s, k); }
    CloseAllCloses(s, s.clients);
  }

  lemma JoinKeeps(s: State)
    requires Inv(s) && s.pending.Some? && s.loop.Idle?
    ensures Inv(Join(s, s.pending.value))
  {
    hide Wants;
    var t := Join(s, s.pending.value);
    var n := |s.clients|;
    assert s.taken[|s.taken|..] == [];
    forall k | 0 <= k < |t.clients| ensures Active(t, k) {
      if k < n { assert Active(s, k); } else { assert t.taken[|s.taken|..|s.taken|] == []; }
    }
  }

  /** A client changes in ways that do not concern the loop. */
  lemma ReaderKeeps(s: State, id: nat, c: Client)
    requires Inv(s) && id < |s.all| && c.read <= |c.got|
    requires c == s.all[id].(read := c.read, waiting := c.waiting, done := c.done)
    ensures Inv(s.(all := s.all[id := c]))
  {
    hide Wanted;
    var t := s.(all := s.all[id := c]);
    forall k | 0 <= k < |s.clients| ensures Active(t, k) { assert Active(s, k); }
  }

  /** What a client should have once the loop has dealt with the last frame. */
  lemma UpToDate(c: Client, taken: seq<Frame>)
    requires taken != [] && c.since <= |taken| - 1 && c.got == Wanted(c.filter, taken[c.since..|taken| - 1])
    ensures var f := taken[|taken| - 1];
            Wanted(c.filter, taken[c.since..]) == c.got + if Wants(c.filter, f) then [f] else []
    ensures taken[c.since..] == taken[c.since..|taken|]
  {
    hide Wanted, Wants;
    var n := |taken| - 1;
    assert taken[c.since..] == taken[c.since..n] + [taken[n]];
    WantedSnoc(c.filter, taken[c.since..n], taken[n]);
  }

  /** The loop moves on from client i, which has what it should have. */
  lemma MoveOn(s: State, t: State)
    requires Inv(s) && s.loop.Matching? && s.loop.i < |s.clients|
    requires var i := s.loop.i; var id := s.clients[i];
             && |t.all| == |s.all| && t == s.(loop := Matching(s.loop.f, i + 1), all := s.all[id := t.all[id]])
             && t.all[id].closes == 0 && t.all[id].since == s.all[id].since && !t.all[id].once
             && t.all[id].got == Wanted(t.all[id].filter, s.taken[t.all[id].since..])
             && t.all[id].read <= |t.all[id].got|
    ensures Inv(t)
  {
    hide Wanted;
    var i := s.loop.i;
    var id := s.clients[i];
    assert Active(s, i);
    assert s.taken[t.all[id].since..] == s.taken[t.all[id].since..|s.taken|];
    forall k | 0 <= k < |t.clients| ensures Active(t, k) { assert Active(s, k); }
  }

  /** The loop drops client i, having closed its channel. */
  lemma DropKeeps(s: State, t: State)
    requires Inv(s) && s.loop.Matching? && s.loop.i < |s.clients|
    requires var i := s.loop.i; var id := s.clients[i];
             && |t.all| == |s.all| && t == s.(clients := Remove(s.clients, i), all := s.all[id := t.all[id]])
             && t.all[id].closes == 1 && ClientOk(t.all[id], s.taken)
    ensures Inv(t)
  {
    hide Wanted, ClientOk;
    var i := s.loop.i;
    var id := s.clients[i];
    var cs := t.clients;
    assert forall k :: 0 <= k < |cs| ==> cs[k] == s.clients[if k < i then k else k + 1];
    forall k | 0 <= k < |cs| ensures Active(t, k) { assert Active(s, if k < i then k else k + 1); }
    forall x | x in s.clients && x != id ensures x in cs {
      var k :| 0 <= k < |s.clients| && s.clients[k] == x;
      assert cs[if k < i then k else k - 1] == x;
    }
  }

  lemma SkipKeeps(s: State)
    requires Inv(s) && s.loop.Matching? && s.loop.i < |s.clients| && !Wants(s.all[s.clients[s.loop.i]].filter, s.loop.f)
    ensures Inv(s.(loop := Matching(s.loop.f, s.loop.i + 1)))
  {
    hide Wanted, Wants;
    var t := s.(loop := Matching(s.loop.f, s.loop.i + 1));
    assert Active(s, s.loop.i);
    UpToDate(s.all[s.clients[s.loop.i]], s.taken);
    forall k | 0 <= k < |t.clients| ensures Active(t, k) { assert Active(s, k); }
  }

  lemma MatchKeeps(s: State, viaDone: bool)
    requires Inv(s) && s.loop.Matching? && s.loop.i < |s.clients|
    ensures Inv(MatchStep(s, s.loop.f, s.loop.i, viaDone))
  {
    hide Wanted, Wants, Remove;
    var i, f := s.loop.i, s.loop.f;
    var id := s.clients[i];
    var c := s.all[id];
    assert Active(s, i);
    UpToDate(c, s.taken);
    var t := MatchStep(s, f, i, viaDone);
    if !Wants(c.filter, f) {
      SkipKeeps(s);
    } else if viaDone {
      if c.done { DropKeeps(s, t); }
    } else if HasRoom(c) {
      if c.once {
        assert [] + [f] == [f];
        DropKeeps(s, t);
      } else {
        MoveOn(s, t);
      }
    }
  }

  lemma IdleKeeps(s: State)
    requires Inv(s) && s.loop.Matching? && s.loop.i >= |s.clients|
    ensures Inv(s.(loop := Idle))
  {
    hide Wanted;
    var t := s.(loop := Idle);
    forall k | 0 <= k < |t.clients| ensures Active(t, k) { assert Active(s, k); }
  }

  /** What is at the door does not concern the clients. */
  lemma DoorKeeps(s: State, inq: seq<Frame>, closed: bool, pending: Option<Request>)
    requires Inv(s) && (s.closed ==> closed) && |inq| <= 1 && (pending.Some? ==> !closed)
    ensures Inv(s.(inq := inq, closed := closed, pending := pending))
  {
    hide Wanted;
    var t := s.(inq := inq, closed := closed, pending := pending);
    forall k | 0 <= k < |t.clients| ensures Active(t, k) { assert Active(s, k); }
  }

  /** Every event keeps the invariant. */
  lemma StepKeeps(s: State, e: Event)
    requires Inv(s)
    ensures Known(s) && Inv(Step(s, e))
  {
    hide Active, ClientOk, MatchStep, CloseAll, Join;
    match e
    case Enqueue(f) => DoorKeeps(s, [f], s.closed, s.pending);
    case Close => if s.pending.None? { DoorKeeps(s, s.inq, true, None); }
    case Register(req) => if !s.closed { DoorKeeps(s, s.inq, false, Some(req)); }
    case TakeIn => if s.pending.Some? && s.loop.Idle? { JoinKeeps(s); }
    case Take => if s.loop.Idle? { if s.inq != [] { TakeKeeps(s); } else if s.closed { ExitKeeps(s); } }
    case Match(viaDone) =>
      if s.loop.Matching? { if s.loop.i < |s.clients| { MatchKeeps(s, viaDone); } else { IdleKeeps(s); } }
    case Read(id) =>
      if id < |s.all| && s.all[id].read < |s.all[id].got| {
        ReaderKeeps(s, id, s.all[id].(read := s.all[id].read + 1));
      }
    case Await(id) => if id < |s.all| { ReaderOk(s, id); ReaderKeeps(s, id, s.all[id].(waiting := true)); }
    case Cancel(id) => if id < |s.all| { ReaderOk(s, id); ReaderKeeps(s, id, s.all[id].(done := true)); }
  }

  lemma ReaderOk(s: State, id: nat)
    requires Inv(s) && id < |s.all|
    ensures s.all[id].read <= |s.all[id].got|
  {
    assert ClientOk(s.all[id], s.taken);
  }

  ghost function RunFrom(s: State, es: seq<Event>): (t: State)
    requires Inv(s)
    ensures Inv(t)
    decreases |es|
  {
    if es == [] then s
    else
      var t := RunFrom(s, es[..|es| - 1]);
      StepKeeps(t, es[|es| - 1]);
      Step(t, es[|es| - 1])
  }

  ghost function Run(es: seq<Event>): (s: State)
    ensures Inv(s)
  {
    RunFrom(START, es)
  }

  /** A frame offered now gets in. */
  predicate Open(s: State) {
    s.pending.None? && !s.closed && s.inq == []
  }

  /** The frames that got in, in order. */
  ghost function Admitted(es: seq<Event>): (fs: seq<Frame>)
    decreases |es|
  {
    if es == [] then []
    else
      var s, e := Run(es[..|es| - 1]), es[|es| - 1];
      Admitted(es[..|es| - 1]) + if e.Enqueue? && Open(s) then [e.f] else []
  }

  lemma {:induction false} TakenInOrder(es: seq<Event>)
    ensures Run(es).taken + Run(es).inq == Admitted(es)
    decreases |es|
  {
    hide Active, CloseAll, MatchStep;
    if es == [] {
    } else {
      var n := |es| - 1;
      TakenInOrder(es[..n]);
      var s := Run(es[..n]);
      LoopFrames(s, es[n]);
    }
  }

  lemma LoopFrames(s: State, e: Event)
    requires Known(s)
    ensures var t := Step(s, e);
            t.taken + t.inq == s.taken + s.inq + if e.Enqueue? && Open(s) then [e.f] else []
  {
    assert s.taken + s.inq + [] == s.taken + s.inq;
    if e.Take? && s.loop.Idle? && s.inq != [] {
      assert s.inq == [s.inq[0]] + s.inq[1..];
    } else if e.Take? && s.loop.Idle? && s.closed {
      CloseAllFrames(s, s.clients);
    }
  }

  lemma {:induction false} CloseAllFrames(s: State, ids: seq<nat>)
    requires forall k :: 0 <= k < |ids| ==> ids[k] < |s.all|
    ensures CloseAll(s, ids).taken == s.taken && CloseAll(s, ids).inq == s.inq
    decreases |ids|
  {
    if ids == [] {
    } else {
      CloseAllFrames(s, ids[..|ids| - 1]);
    }
  }

  /**
   In every run: no channel is closed twice or written after it was closed; every client is sent, in order
   and without repetition, a prefix of the frames it wants among those taken after it registered, and all
   of them while the loop knows it and rests; a client that asked for one frame gets at most one; and when
   the loop has gone, every channel is closed.
   */
  lemma ClientsServed(es: seq<Event>, id: nat)
    requires id < |Run(es).all|
    ensures var s := Run(es); var c := s.all[id];
            && !s.panicked && c.closes <= 1
            && c.since <= |s.taken| && c.got <= Wanted(c.filter, s.taken[c.since..])
            && (s.loop.Idle? && c.closes == 0 ==> c.got == Wanted(c.filter, s.taken[c.since..]))
            && (c.once ==> |c.got| <= 1)
            && (s.loop.Exited? ==> c.closes == 1)
  {
    hide Run, Wanted;
    var s := Run(es);
    var c := s.all[id];
    assert ClientOk(c, s.taken);
    if id in s.clients {
      var k :| 0 <= k < |s.clients| && s.clients[k] == id;
      assert Active(s, k);
      assert s.taken[c.since..] == s.taken[c.since..|s.taken|];
    }
  }

  /** A client that asked for one frame never holds up the loop: it gets the frame and is gone. */
  lemma OnceNeverBlocks(s: State)
    requires Inv(s) && s.loop.Matching? && s.loop.i < |s.clients|
    requires var c := s.all[s.clients[s.loop.i]]; c.once && Wants(c.filter, s.loop.f)
    ensures var id := s.clients[s.loop.i]; var t := Step(s, Match(false));
            t.all[id].got == [s.loop.f] && t.all[id].closes == 1 && id !in t.clients
  {
    hide Wanted, Wants;
    var i := s.loop.i;
    assert Active(s, i);
    assert ClientOk(s.all[s.clients[i]], s.taken);
    var cs := Remove(s.clients, i);
    assert forall k :: 0 <= k < |cs| ==> cs[k] == s.clients[if k < i then k else k + 1];
    assert [] + [s.loop.f] == [s.loop.f];
  }

  // Progress of the loop.

  /** The loop waits for a client that is neither reading nor cancelling. */
  ghost predicate Stuck(s: State)
    requires Known(s)
  {
    && s.loop.Matching? && s.loop.i < |s.clients|
    && var c := s.all[s.clients[s.loop.i]]; Wants(c.filter, s.loop.f) && !HasRoom(c) && !c.done
  }

  predicate OfLoop(e: Event) {
    e.Take? || e.Match? || e.TakeIn?
  }

  /**
   The loop can move exactly if it is matching and not stuck, or idle with a frame or a registration to take
   or a closing to do.
   */
  lemma LoopMoves(s: State)
    requires Inv(s)
    ensures (exists e :: OfLoop(e) && Step(s, e) != s) <==>
            match s.loop
            case Idle => s.inq != [] || s.pending.Some? || s.closed
            case Matching(_, _) => !Stuck(s)
            case Exited => false
    ensures Stuck(s) ==> !s.all[s.clients[s.loop.i]].once
  {
    hide Wanted, Wants, CloseAll;
    if s.loop.Idle? {
      if s.pending.Some? { assert OfLoop(TakeIn) && Step(s, TakeIn) != s; }
      if s.inq != [] || s.closed { assert OfLoop(Take) && Step(s, Take) != s; }
    } else if s.loop.Matching? {
      if s.loop.i < |s.clients| {
        MatchMoves(s);
      } else {
        assert OfLoop(Match(true)) && Step(s, Match(true)) != s;
      }
    }
  }

  lemma MatchMoves(s: State)
    requires Inv(s) && s.loop.Matching? && s.loop.i < |s.clients|
    ensures Step(s, Match(true)) != s || Step(s, Match(false)) != s <==> !Stuck(s)
    ensures !Stuck(s) ==> exists e :: OfLoop(e) && Step(s, e) != s
    ensures Stuck(s) ==> !s.all[s.clients[s.loop.i]].once
  {
    hide Wanted, Wants;
    var c := s.all[s.clients[s.loop.i]];
    assert Active(s, s.loop.i);
    assert ClientOk(c, s.taken);
    if !Stuck(s) {
      var e := Match(c.done);
      assert |Remove(s.clients, s.loop.i)| < |s.clients|;
      assert OfLoop(e) && Step(s, e) != s;
    }
  }

  /** What the loop has still to do while nothing more can come in. */
  ghost function Work(s: State): int {
    |s.inq| * (|s.clients| + 3) + (if s.pending.Some? then 2 else 0) +
    match s.loop case Idle => 1 case Matching(_, i) => |s.clients| - i + 2 case Exited => 0
  }

  /** Nothing more can come in: the demultiplexer is closed, or a registration holds the lock. */
  ghost predicate Shut(s: State) {
    s.closed || s.pending.Some?
  }

  lemma MatchWorks(s: State, viaDone: bool)
    requires Inv(s) && s.loop.Matching?
    ensures var t := Step(s, Match(viaDone)); Work(t) <= Work(s) && (t != s ==> Work(t) < Work(s))
  {
    hide Wanted, Wants, Active, ClientOk;
  }

  lemma JoinWorks(s: State)
    requires Inv(s) && s.pending.Some? && s.loop.Idle?
    ensures var t := Join(s, s.pending.value); t.closed == s.closed && Work(t) < Work(s)
  {
    hide Active, ClientOk;
  }

  /** Every step of the loop leaves less to do, and nothing else adds to it. */
  lemma StepWorks(s: State, e: Event)
    requires Inv(s) && Shut(s)
    ensures var t := Step(s, e);
            && t.closed == s.closed && Work(t) <= Work(s) && (OfLoop(e) && t != s ==> Work(t) < Work(s))
  {
    hide Wanted, Wants, Active, ClientOk, MatchStep, Join;
    if e.Take? && s.loop.Idle? && s.inq == [] {
      CloseAllFrames(s, s.clients);
      CloseAllDoor(s, s.clients);
    } else if e.TakeIn? && s.pending.Some? && s.loop.Idle? {
      JoinWorks(s);
    } else if e.Match? && s.loop.Matching? {
      MatchWorks(s, e.viaDone);
      MatchDoor(s, e.viaDone);
    }
  }

  lemma MatchDoor(s: State, viaDone: bool)
    requires Known(s) && s.loop.Matching?
    ensures var t := Step(s, Match(viaDone)); t.closed == s.closed && t.inq == s.inq && t.pending == s.pending
  {
    hide Wants;
  }

  lemma {:induction false} CloseAllDoor(s: State, ids: seq<nat>)
    requires forall k :: 0 <= k < |ids| ==> ids[k] < |s.all|
    ensures CloseAll(s, ids).closed == s.closed && CloseAll(s, ids).pending == s.pending
    decreases |ids|
  {
    if ids == [] {
    } else {
      CloseAllDoor(s, ids[..|ids| - 1]);
    }
  }

  /** The steps of a run in which the loop moves. */
  ghost function LoopSteps(s: State, es: seq<Event>): nat
    requires Inv(s)
    decreases |es|
  {
    if es == [] then 0
    else
      var n := |es| - 1;
      var t := RunFrom(s, es[..n]);
      LoopSteps(s, es[..n]) + if OfLoop(es[n]) && Step(t, es[n]) != t then 1 else 0
  }

  /** Nothing more can come in throughout a run. */
  ghost predicate StaysShut(s: State, es: seq<Event>)
    requires Inv(s)
    decreases |es|
  {
    es == [] || (StaysShut(s, es[..|es| - 1]) && Shut(RunFrom(s, es[..|es| - 1])))
  }

  lemma {:induction false} LoopBound(s: State, es: seq<Event>)
    requires Inv(s) && StaysShut(s, es)
    ensures var t := RunFrom(s, es); t.closed == s.closed && LoopSteps(s, es) + Work(t) <= Work(s)
    decreases |es|
  {
    hide Step, Work, Inv, Shut;
    if es == [] {
    } else {
      var n := |es| - 1;
      LoopBound(s, es[..n]);
      StepWorks(RunFrom(s, es[..n]), es[n]);
    }
  }

  lemma {:induction false} ClosedShuts(s: State, es: seq<Event>)
    requires Inv(s) && s.closed
    ensures StaysShut(s, es) && RunFrom(s, es).closed
    decreases |es|
  {
    hide Step, Inv;
    if es == [] {
    } else {
      var n := |es| - 1;
      ClosedShuts(s, es[..n]);
      StepWorks(RunFrom(s, es[..n]), es[n]);
    }
  }

  lemma WorkBound(s: State)
    requires Inv(s)
    ensures 0 <= Work(s) <= 2 * |s.clients| + 7
  {
    hide Active, ClientOk;
  }

  /**
   After closing, whatever the clients do, the loop makes at most a bounded number of further steps; and as
   long as it is not gone, with every channel closed, it can make one unless it is stuck with a client that
   asked for more than one frame and neither reads nor cancels.
   */
  lemma ClosingEnds(s: State, es: seq<Event>)
    requires Inv(s) && s.closed
    ensures var t := RunFrom(s, es);
            && LoopSteps(s, es) <= 2 * |s.clients| + 7
            && (t.loop.Exited? || Stuck(t) || exists e :: OfLoop(e) && Step(t, e) != t)
            && (t.loop.Exited? ==> forall id :: 0 <= id < |t.all| ==> t.all[id].closes == 1)
            && (Stuck(t) ==> !t.all[t.clients[t.loop.i]].once)
  {
    hide Active, ClientOk, Step, RunFrom;
    ClosedShuts(s, es);
    LoopBound(s, es);
    var t := RunFrom(s, es);
    LoopMoves(t);
    WorkBound(s);
    WorkBound(t);
  }

  /**
   While a registration holds the lock, so that nothing can be enqueued or closed, the loop makes at most a
   bounded number of steps; and it can make one, which in the end takes the registration in, unless it is
   stuck.
   */
  lemma LockReleased(s: State, es: seq<Event>)
    requires Inv(s) && StaysShut(s, es) && RunFrom(s, es).pending.Some?
    ensures var t := RunFrom(s, es);
            && LoopSteps(s, es) <= 2 * |s.clients| + 7
            && !t.closed && Step(t, Close) == t && (forall f :: Step(t, Enqueue(f)) == t)
            && (Stuck(t) || exists e :: OfLoop(e) && Step(t, e) != t)
  {
    hide Active, ClientOk, RunFrom;
    LoopBound(s, es);
    var t := RunFrom(s, es);
    LoopMoves(t);
    WorkBound(s);
    WorkBound(t);
  }

  // When closing can happen.

  /** The client at position k would hold up the loop with frame f. */
  ghost predicate Blocks(s: State, f: Frame, k: nat)
    requires Known(s) && k < |s.clients|
  {
    var c := s.all[s.clients[k]];
    Wants(c.filter, f) && !HasRoom(c) && !c.done
  }

  /** A call to close has to wait for a client to read or cancel. */
  ghost predicate CloseWaits(s: State)
    requires Known(s)
  {
    && s.pending.Some? && s.loop.Matching?
    && exists k :: s.loop.i <= k < |s.clients| && Blocks(s, s.loop.f, k)
  }

  ghost predicate AllLoop(es: seq<Event>) {
    forall e :: e in es ==> OfLoop(e)
  }

  /** A step of the loop leaves the clients behind the one it looks at as they are, perhaps one place further on. */
  lemma MatchOthers(s: State, viaDone: bool, k: nat)
    requires Inv(s) && s.loop.Matching? && s.loop.i < k < |s.clients|
    ensures var t := Step(s, Match(viaDone)); var id := s.clients[k];
            && t.loop.Matching? && t.loop.f == s.loop.f && Known(t) && t.all[id] == s.all[id]
            && ((t.clients == s.clients && t.loop.i <= k) ||
                (|t.clients| == |s.clients| - 1 && t.loop.i <= k - 1 && t.clients[k - 1] == id))
  {
    hide Wanted, Wants, Active, ClientOk, HasRoom;
    assert s.clients[k] != s.clients[s.loop.i];
    var cs := Remove(s.clients, s.loop.i);
    assert cs[k - 1] == s.clients[k];
    assert forall j :: 0 <= j < |cs| ==> cs[j] == s.clients[if j < s.loop.i then j else j + 1];
  }

  lemma BlockedStays(s: State, viaDone: bool)
    requires Known(s) && s.loop.Matching? && s.loop.i < |s.clients| && Blocks(s, s.loop.f, s.loop.i)
    ensures Step(s, Match(viaDone)) == s
  {
    hide Wants;
  }

  lemma MatchWaits(s: State, viaDone: bool)
    requires Inv(s) && CloseWaits(s)
    ensures Known(Step(s, Match(viaDone))) && CloseWaits(Step(s, Match(viaDone)))
  {
    hide Wants, Active, ClientOk, HasRoom, Step;
    var i, f := s.loop.i, s.loop.f;
    var k :| i <= k < |s.clients| && Blocks(s, f, k);
    if k == i {
      BlockedStays(s, viaDone);
    } else {
      MatchDoor(s, viaDone);
      MatchOthers(s, viaDone, k);
      var t := Step(s, Match(viaDone));
      assert Blocks(t, f, if t.clients == s.clients then k else k - 1);
    }
  }

  lemma {:induction false} LoopWaits(s: State, es: seq<Event>)
    requires Inv(s) && CloseWaits(s) && AllLoop(es)
    ensures CloseWaits(RunFrom(s, es))
    decreases |es|
  {
    hide Step, CloseWaits, Inv;
    if es == [] {
    } else {
      var n := |es| - 1;
      LoopWaits(s, es[..n]);
      LoopWaitsOn(RunFrom(s, es[..n]), es[n]);
    }
  }

  lemma LoopWaitsOn(s: State, e: Event)
    requires Inv(s) && CloseWaits(s) && OfLoop(e)
    ensures CloseWaits(Step(s, e))
  {
    hide Blocks;
    if e.Match? { MatchWaits(s, e.viaDone); }
  }

  /** With no client in the way the loop takes the registration in. */
  lemma {:induction false} Unlocks(s: State) returns (es: seq<Event>)
    requires Inv(s) && s.pending.Some? && !CloseWaits(s)
    ensures AllLoop(es) && RunFrom(s, es).pending.None? && !RunFrom(s, es).closed
    decreases Work(s)
  {
    hide Active, ClientOk, MatchStep, Join;
    WorkBound(s);
    if s.loop.Idle? {
      es := [TakeIn];
      RunOne(s, TakeIn);
      JoinDoor(s);
    } else {
      var e := if s.loop.i < |s.clients| then Match(s.all[s.clients[s.loop.i]].done) else Match(true);
      var t := Step(s, e);
      StepKeeps(s, e);
      Passes(s);
      StepWorks(s, e);
      MatchDoor(s, e.viaDone);
      var rest := Unlocks(t);
      es := [e] + rest;
      RunFirst(s, e, rest);
    }
  }

  lemma JoinDoor(s: State)
    requires s.pending.Some?
    ensures Join(s, s.pending.value).pending.None? && Join(s, s.pending.value).closed == s.closed
  {
  }

  /** The loop gets past a client that is not in the way, and meets no other that was not there. */
  lemma Passes(s: State)
    requires Inv(s) && s.pending.Some? && s.loop.Matching? && !CloseWaits(s)
    ensures var e := if s.loop.i < |s.clients| then Match(s.all[s.clients[s.loop.i]].done) else Match(true);
            Step(s, e) != s && Known(Step(s, e)) && !CloseWaits(Step(s, e))
  {
    hide Wanted, Wants, ClientOk;
    var i, f := s.loop.i, s.loop.f;
    if i < |s.clients| {
      var c := s.all[s.clients[i]];
      var t := Step(s, Match(c.done));
      StepKeeps(s, Match(c.done));
      assert Active(s, i);
      assert !Blocks(s, f, i);
      assert |Remove(s.clients, i)| < |s.clients|;
      forall k | i <= k < |t.clients| && t.loop == Matching(f, i) ensures !Blocks(t, f, k) {
        assert !Blocks(s, f, k + 1);
        assert t.clients[k] == s.clients[k + 1];
      }
      forall k | i + 1 <= k < |t.clients| && t.loop == Matching(f, i + 1) ensures !Blocks(t, f, k) {
        assert !Blocks(s, f, k);
      }
    }
  }

  lemma RunOne(s: State, e: Event)
    requires Inv(s)
    ensures Inv(Step(s, e)) && RunFrom(s, [e]) == Step(s, e)
  {
    hide Step, Inv;
    StepKeeps(s, e);
    assert [e][..0] == [];
    assert RunFrom(s, []) == s;
  }

  lemma {:induction false} RunFirst(s: State, e: Event, es: seq<Event>)
    requires Inv(s)
    ensures Inv(Step(s, e)) && RunFrom(s, [e] + es) == RunFrom(Step(s, e), es)
    decreases |es|
  {
    hide Step, Inv;
    StepKeeps(s, e);
    if es == [] {
      assert [e] + es == [e];
      RunOne(s, e);
    } else {
      var n := |es| - 1;
      RunFirst(s, e, es[..n]);
      assert ([e] + es)[..n + 1] == [e] + es[..n];
    }
  }

  /**
   Close waits for the lock only.  In every state it can happen, after nothing but steps of the loop, exactly
   if no registration is pending while a client still to be looked at wants the frame, has no room for it
   and has not cancelled.
   */
  lemma CloseWhen(s: State)
    requires Inv(s)
    ensures (exists es :: AllLoop(es) && Step(RunFrom(s, es), Close).closed) <==> !CloseWaits(s)
  {
    hide Step, RunFrom, Active, ClientOk, Blocks;
    if CloseWaits(s) {
      forall es | AllLoop(es) ensures !Step(RunFrom(s, es), Close).closed {
        LoopWaits(s, es);
        CloseNeedsLock(RunFrom(s, es));
      }
    } else {
      var es := [];
      if s.pending.Some? {
        es := Unlocks(s);
      } else {
        NoRun(s);
      }
      CloseNeedsLock(RunFrom(s, es));
      assert AllLoop(es) && Step(RunFrom(s, es), Close).closed;
    }
  }

  lemma NoRun(s: State)
    requires Inv(s)
    ensures RunFrom(s, []) == s
  {
  }

  lemma CloseNeedsLock(s: State)
    requires Inv(s)
    ensures Step(s, Close).closed <==> s.pending.None?
  {
    hide Active, ClientOk;
  }
}
