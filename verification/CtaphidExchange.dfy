/** A whole exchange over the transport: a request sent in frames, taken, perhaps cancelled, answered and read back. */
module CtaphidExchange {
  import opened Bytes
  import opened Wire
  import opened UsbQueue
  import opened UsbBus
  import opened CtaphidProtocol
  import opened CtaphidTransport
  import opened CtaphidIsolation
  import opened CtaphidSchedules
  import opened CtaphidDelivery
  import CtaphidTx
  import CtaphidAnswers
  import CtaphidProbe
  import R = CtaphidRuns

  /** A report that goes out with nothing in between. */
  const CLEAR: Slot := Slot([], [], [], true)

  function Clear(n: nat): (slots: seq<Slot>)
    ensures |slots| == n
  {
    seq(n, _ => CLEAR)
  }

  function Reports(log: seq<Sent>): (rs: seq<Report>)
    ensures |rs| == |log| && forall i :: 0 <= i < |log| ==> rs[i] == log[i].report
  {
    seq(|log|, i requires 0 <= i < |log| => log[i].report)
  }

  /** Authorised by this connection, and carried by it. */
  predicate OnConnection(log: seq<Sent>, connection: nat) {
    forall i :: 0 <= i < |log| ==> log[i].authorised == connection == log[i].carried
  }

  // ---- the steps of an exchange

  /** The first `k` frames of a CBOR request arrive one by one. */
  function Arriving(cid: u32, data: seq<byte>, k: nat, now: u32): seq<Step>
    requires |data| <= MAX_PAYLOAD && k <= CtaphidTx.FrameCount(|data|)
  {
    if k == 0 then []
    else Arriving(cid, data, k - 1, now) + Cycle(CtaphidTx.Frame(cid, CBOR, data, k - 1), now, NoDraw, [])
  }

  function CancelReport(cid: u32): Report {
    CtaphidTx.InitFrame(cid, CANCEL, [])
  }

  /** A request arrives, a task takes it, the host may cancel it, and the task gives its answer. */
  function Exchange(cid: u32, data: seq<byte>, answer: seq<byte>, cancel: bool, cap: nat, owner: nat, now: u32): seq<Step>
    requires |data| <= MAX_PAYLOAD && |answer| <= MAX_PAYLOAD
  {
    Arriving(cid, data, CtaphidTx.FrameCount(|data|), now)
    + [TakeMsg(cap, owner, [])]
    + (if cancel then Cycle(CancelReport(cid), now, NoDraw, []) else [])
    + [SendMsg(cid, CBOR, answer, owner, [], Clear(CtaphidTx.FrameCount(|answer|)))]
  }

  // ---- what each of them does

  /** A report that is not answered, delivered with nothing in between. */
  lemma UnansweredCycle(s: Sys, r: Report, now: u32)
    requires SysInv(s) && Listening(s)
    requires !Feed(s.core, r, now, NoDraw).1.Reply?
    requires s.claim.Some? ==> Holds(Feed(s.core, r, now, NoDraw).0, s.claim.value.cid, s.claim.value.operation)
    ensures var (core, a) := Feed(s.core, r, now, NoDraw);
            Final(s, Cycle(r, now, NoDraw, [])) ==
              s.(core := core, heard := s.heard + {s.seen},
                 messageConnection := if a.Deliver? then s.seen else s.messageConnection)
  {
    CycleAccepts(s, r, now, NoDraw, []);
    hide Feed, SendMessage, Finish, Final, Cycle, Inv, Isolated, PlaceOk, NotOrphaned;
    assert Meanwhile(s.world, []) == s.world;
  }

  /** After `k` frames, of which the last is not the message's last. */
  predicate Midst(s: Sys, t: Sys, cid: u32, data: seq<byte>, k: nat, now: u32)
    requires 0 < k && cid in s.core.gens
  {
    && t == s.(core := t.core, heard := s.heard + {s.seen})
    && R.Receiving(t.core, cid, CBOR, data, k - 1, now) && t.core.gens[cid] == Bump(s.core.gens[cid])
  }

  /** The request has arrived and waits. */
  predicate Arrived(s: Sys, t: Sys, cid: u32, data: seq<byte>)
    requires cid in s.core.gens
  {
    && t == s.(core := t.core, heard := s.heard + {s.seen}, messageConnection := s.seen)
    && t.core.ready == Some(Message(cid, CBOR, data, Bump(s.core.gens[cid])))
    && t.core.phase == Processing(cid, CBOR, false, None)
    && Holds(t.core, cid, Bump(s.core.gens[cid]))
  }

  predicate Waits(s: Sys, cid: u32) {
    Listening(s) && s.claim.None? && s.core.phase.Idle? && cid in s.core.gens
  }

  lemma DeliveredIsReady(s: State, r: Report, now: u32, m: Message)
    requires Inv(s) && Feed(s, r, now, NoDraw).1 == Deliver(m) && m.command == CBOR
    ensures var s' := Feed(s, r, now, NoDraw).0;
            s'.ready == Some(m) && s'.phase == Processing(m.cid, CBOR, false, None) && Holds(s', m.cid, m.generation)
  {
    FeedOutcome(s, r, now, NoDraw);
    if Expire(s, now).phase.Idle? {
      CtaphidAnswers.TransactionBegins(s, r, now, NoDraw);
    } else {
      CtaphidAnswers.TransactionGoesOn(s, r, now, NoDraw);
    }
    hide Feed, CtaphidAnswers.EndsTransaction, CtaphidAnswers.IsNextFragment, CtaphidAnswers.Acceptable;
  }

  lemma FirstArrives(s: Sys, cid: u32, data: seq<byte>, now: u32)
    requires SysInv(s) && Waits(s, cid) && 0 < |data| <= MAX_PAYLOAD
    ensures var t := Final(s, Cycle(CtaphidTx.Frame(cid, CBOR, data, 0), now, NoDraw, []));
            if CtaphidTx.FrameCount(|data|) == 1 then Arrived(s, t, cid, data) else Midst(s, t, cid, data, 1, now)
  {
    var r := CtaphidTx.Frame(cid, CBOR, data, 0);
    CtaphidTx.CarriedAll(|data|, 0);
    R.FirstFrameArrives(s.core, cid, CBOR, data, now, NoDraw);
    var (core, a) := Feed(s.core, r, now, NoDraw);
    if a.Deliver? {
      DeliveredIsReady(s.core, r, now, a.message);
    }
    hide Feed, Final, Cycle, SysInv;
    UnansweredCycle(s, r, now);
  }

  lemma NextArrives(s: Sys, t: Sys, cid: u32, data: seq<byte>, k: nat, now: u32)
    requires SysInv(s) && SysInv(t) && Waits(s, cid) && 0 < |data| <= MAX_PAYLOAD
    requires 0 < k < CtaphidTx.FrameCount(|data|) && Midst(s, t, cid, data, k, now)
    ensures var u := Final(t, Cycle(CtaphidTx.Frame(cid, CBOR, data, k), now, NoDraw, []));
            if k + 1 == CtaphidTx.FrameCount(|data|) then Arrived(s, u, cid, data) else Midst(s, u, cid, data, k + 1, now)
  {
    var r := CtaphidTx.Frame(cid, CBOR, data, k);
    CtaphidTx.CarriedAll(|data|, k);
    CtaphidTx.CarriedAll(|data|, k - 1);
    InTime(now);
    R.NextFrameArrives(t.core, cid, CBOR, data, k - 1, now, now, NoDraw);
    var (core, a) := Feed(t.core, r, now, NoDraw);
    if a.Deliver? {
      DeliveredIsReady(t.core, r, now, a.message);
    }
    hide Feed, Final, Cycle, SysInv;
    UnansweredCycle(t, r, now);
    assert s.heard + {s.seen} + {s.seen} == s.heard + {s.seen};
  }

  lemma InTime(now: u32)
    ensures !Expired(now, now, MESSAGE_TIMEOUT_MS)
  {
  }

  lemma {:induction false} FramesArrive(s: Sys, cid: u32, data: seq<byte>, k: nat, now: u32)
    requires SysInv(s) && Waits(s, cid) && 0 < |data| <= MAX_PAYLOAD && 0 < k <= CtaphidTx.FrameCount(|data|)
    ensures var t := Final(s, Arriving(cid, data, k, now));
            && SysInv(t)
            && if k == CtaphidTx.FrameCount(|data|) then Arrived(s, t, cid, data) else Midst(s, t, cid, data, k, now)
  {
    hide Final, Cycle, SysInv, Midst, Arrived, Waits, CtaphidTx.Frame;
    var last := Cycle(CtaphidTx.Frame(cid, CBOR, data, k - 1), now, NoDraw, []);
    if k == 1 {
      FirstArrives(s, cid, data, now);
      assert Arriving(cid, data, 0, now) == [];
      assert Arriving(cid, data, 1, now) == [] + last == last;
    } else {
      FramesArrive(s, cid, data, k - 1, now);
      FinalOfBoth(s, Arriving(cid, data, k - 1, now), last);
      NextArrives(s, Final(s, Arriving(cid, data, k - 1, now)), cid, data, k - 1, now);
    }
    FinalIsTraced(s, Arriving(cid, data, k, now));
  }

  lemma TakeRuns(s: Sys, cap: nat, owner: nat)
    requires SysInv(s) && Listening(s) && s.claim.None? && s.core.ready.Some? && |s.core.ready.value.payload| <= cap
    ensures var m := s.core.ready.value;
            Next(s, TakeMsg(cap, owner, [])) ==
              s.(core := s.core.(ready := None), messageConnection := 0,
                 claim := Some(Claim(m.cid, m.generation, s.seen, m.command, owner)))
  {
    hide Inv, PlaceOk, Isolated, NotOrphaned;
    assert Meanwhile(s.world, []) == s.world;
  }

  lemma {:induction false} EmitsClear(w: World, frames: seq<Report>, connection: nat, n: nat, basis: set<nat>)
    requires BusInv(w.bus) && Live(w, connection) && |frames| <= n
    ensures Emit(w, frames, connection, Clear(n), basis).0 == w
    decreases n
  {
    if frames != [] {
      assert Clear(n)[1..] == Clear(n - 1);
      assert Clear(n)[0] == CLEAR;
      assert Meanwhile(w, []) == w;
      EmitsClear(w, frames[1..], connection, n - 1, basis);
    }
  }

  lemma ClearPasses(slots: seq<Slot>, n: nat)
    requires n < |slots| && forall i :: 0 <= i < |slots| ==> slots[i] == CLEAR
    ensures Passes(slots, n)
  {
  }

  /** A task that holds an uncancelled, or cancelled, request answers it. */
  lemma AnswerRuns(s: Sys, answer: seq<byte>, d: seq<byte>)
    requires SysInv(s) && Listening(s) && s.claim.Some? && |answer| <= MAX_PAYLOAD && |d| <= MAX_PAYLOAD
    requires s.core.phase.Processing? && IsAnswer(s, CBOR, answer, d) && CtaphidTx.FrameCount(|d|) <= CtaphidTx.FrameCount(|answer|)
    ensures var c := s.claim.value;
            var s' := Next(s, SendMsg(c.cid, CBOR, answer, c.owner, [], Clear(CtaphidTx.FrameCount(|answer|))));
            && s' == s.(core := Abandon(s.core), claim := None, wire := s'.wire)
            && s.wire <= s'.wire && Reports(News(s, s')) == CtaphidTx.Frames(c.cid, CBOR, d)
            && OnConnection(News(s, s'), s.seen)
  {
    hide Emit, Inv, Isolated, PlaceOk, NotOrphaned, Passes, SendMessage;
    var c, slots := s.claim.value, Clear(CtaphidTx.FrameCount(|answer|));
    var frames := CtaphidTx.Frames(c.cid, CBOR, d);
    assert Meanwhile(s.world, []) == s.world;
    ClaimedChannel(s);
    assert Owned(s, c.cid, c.owner, []).0;
    RespondSends(s, c.cid, CBOR, answer, c.owner, [], slots, d);
    var s' := Next(s, SendMsg(c.cid, CBOR, answer, c.owner, [], slots));
    forall n: nat
      ensures n < |News(s, s')| ==> n < |frames|
      ensures n < |News(s, s')| ==> News(s, s')[n].report == frames[n]
    {
      BurstAt(News(s, s'), frames, [], slots, n);
    }
    var sent := |News(s, s')|;
    BurstAt(News(s, s'), frames, [], slots, |frames|);
    BurstAt(News(s, s'), frames, [], slots, sent);
    if sent < |frames| {
      ClearPasses(slots, sent);
    }
    AnswerLeavesWorld(s, answer, d);
  }

  lemma AnswerLeavesWorld(s: Sys, answer: seq<byte>, d: seq<byte>)
    requires SysInv(s) && Listening(s) && s.claim.Some? && |answer| <= MAX_PAYLOAD && |d| <= MAX_PAYLOAD
    requires s.core.phase.Processing? && IsAnswer(s, CBOR, answer, d) && CtaphidTx.FrameCount(|d|) <= CtaphidTx.FrameCount(|answer|)
    ensures var c := s.claim.value;
            var s' := Next(s, SendMsg(c.cid, CBOR, answer, c.owner, [], Clear(CtaphidTx.FrameCount(|answer|))));
            s'.world == s.world && s.wire <= s'.wire && OnConnection(News(s, s'), s.seen)
  {
    hide Emit, Inv, Isolated, PlaceOk, NotOrphaned;
    var c, n := s.claim.value, CtaphidTx.FrameCount(|answer|);
    assert Meanwhile(s.world, []) == s.world;
    EmitsClear(s.world, CtaphidTx.Frames(c.cid, CBOR, d), c.connection, n, s.heard);
    var log := SendMessage(s.world, c.cid, CBOR, d, c.connection, Clear(n), s.heard).1;
    SendIsAuthorised(s.world, c.cid, CBOR, d, c.connection, Clear(n), s.heard);
    SendIsCalm(s.world, c.cid, CBOR, d, c.connection, Clear(n), s.heard);
    assert (s.wire + log)[|s.wire|..] == log;
  }

  lemma CancelRuns(s: Sys, now: u32)
    requires SysInv(s) && Listening(s) && s.claim.Some?
    ensures Final(s, Cycle(CancelReport(s.claim.value.cid), now, NoDraw, [])) ==
              s.(core := s.core.(phase := s.core.phase.(cancelled := true)))
  {
    var cid := s.claim.value.cid;
    CtaphidTx.InitFrameFields(cid, CANCEL, []);
    CtaphidAnswers.CancelTakesEffect(s.core, CancelReport(cid), now, NoDraw);
    ClaimedChannel(s);
    hide Feed, Final, Cycle, Inv, Isolated, PlaceOk, NotOrphaned;
    UnansweredCycle(s, CancelReport(cid), now);
    assert s.heard + {s.seen} == s.heard;
  }

  /** A step is a run of one. */
  lemma FinalOfOne(s: Sys, step: Step)
    requires SysInv(s)
    ensures SysInv(Next(s, step)) && Final(s, [step]) == Next(s, step)
  {
    hide Next, SysInv;
    CoreIsGood(s);
    FinalOfFirst(s, [step]);
    assert [step][1..] == [];
    FinalOfNone(Next(s, step));
  }

  /** From where the request waits to where its answer is on the wire. */
  lemma Served(s: Sys, cid: u32, data: seq<byte>, answer: seq<byte>, cancel: bool, cap: nat, owner: nat, now: u32)
    requires SysInv(s) && Listening(s) && s.claim.None? && |data| <= cap && |answer| <= MAX_PAYLOAD
    requires s.core.ready.Some? && s.core.ready.value.cid == cid && s.core.ready.value.payload == data
    requires s.core.phase == Processing(cid, CBOR, false, None)
    ensures var steps := [TakeMsg(cap, owner, [])] + (if cancel then Cycle(CancelReport(cid), now, NoDraw, []) else [])
                         + [SendMsg(cid, CBOR, answer, owner, [], Clear(CtaphidTx.FrameCount(|answer|)))];
            var last := Final(s, steps);
            && SysInv(last) && last == s.(core := last.core, messageConnection := 0, wire := last.wire)
            && last.core == Abandon(s.core) && s.wire <= last.wire
            && Reports(News(s, last)) == CtaphidTx.Frames(cid, CBOR, if cancel then [0x2d] else answer)
            && OnConnection(News(s, last), s.seen)
  {
    hide Final, Cycle, Inv, PlaceOk, NotOrphaned, Next, SysInv, Clear, Isolated;
    var take := TakeMsg(cap, owner, []);
    var middle := if cancel then Cycle(CancelReport(cid), now, NoDraw, []) else [];
    var send := SendMsg(cid, CBOR, answer, owner, [], Clear(CtaphidTx.FrameCount(|answer|)));
    assert Inv(s.core) && Holds(s.core, cid, s.core.ready.value.generation) by { ReadyIsHeld(s); }
    TakeRuns(s, cap, owner);
    FinalOfOne(s, take);
    var t := Next(s, take);
    FinalOfBoth(s, [take], middle);
    if cancel {
      CancelRuns(t, now);
    } else {
      FinalOfNone(t);
    }
    FinalIsTraced(t, middle);
    var u := Final(t, middle);
    FinalOfBoth(s, [take] + middle, [send]);
    FinalOfOne(u, send);
    AnswerRuns(u, answer, if cancel then [0x2d] else answer);
  }

  lemma ReadyIsHeld(s: Sys)
    requires SysInv(s) && s.core.ready.Some?
    ensures Inv(s.core) && Holds(s.core, s.core.ready.value.cid, s.core.ready.value.generation)
  {
  }

  /**
    The exchange. On an idle receiver that listens, every CBOR request of 1 to 2048 bytes sent in its frames is
    handed to the task that asks for it, and the answer of that task goes out in its frames on the connection the
    request came on; if the host cancelled in between, the one byte that says so goes out instead. The host
    reads exactly that back, and the receiver is ready for the next exchange.
  */
  lemma ExchangeWorks(s: Sys, cid: u32, data: seq<byte>, answer: seq<byte>, cancel: bool, cap: nat, owner: nat, now: u32)
    requires SysInv(s) && Waits(s, cid) && 0 < |data| <= MAX_PAYLOAD && |data| <= cap && |answer| <= MAX_PAYLOAD
    ensures var last := Final(s, Exchange(cid, data, answer, cancel, cap, owner, now));
            && SysInv(last) && Waits(last, cid) && s.wire <= last.wire && last.seen == s.seen
            && Reports(News(s, last)) == CtaphidTx.Frames(cid, CBOR, if cancel then [0x2d] else answer)
            && OnConnection(News(s, last), s.seen)
            && forall later, c, p :: CtaphidTx.Carries(Reports(News(s, last)) + later, cid, c, p) <==>
                                       c == CBOR && p == if cancel then [0x2d] else answer
  {
    hide Final, Cycle, Inv, PlaceOk, NotOrphaned, Next, SysInv, Clear, Isolated, CtaphidTx.Carries, CtaphidTx.Frames;
    hide CtaphidTx.FrameCount;
    var frames := CtaphidTx.FrameCount(|data|);
    FramesArrive(s, cid, data, frames, now);
    var t := Final(s, Arriving(cid, data, frames, now));
    var rest := [TakeMsg(cap, owner, [])] + (if cancel then Cycle(CancelReport(cid), now, NoDraw, []) else [])
                + [SendMsg(cid, CBOR, answer, owner, [], Clear(CtaphidTx.FrameCount(|answer|)))];
    Served(t, cid, data, answer, cancel, cap, owner, now);
    FinalOfBoth(s, Arriving(cid, data, frames, now), rest);
    assert Exchange(cid, data, answer, cancel, cap, owner, now) == Arriving(cid, data, frames, now) + rest;
    var last := Final(s, Exchange(cid, data, answer, cancel, cap, owner, now));
    forall later, c, p
      ensures CtaphidTx.Carries(Reports(News(s, last)) + later, cid, c, p) <==>
                c == CBOR && p == if cancel then [0x2d] else answer
    {
      CtaphidProbe.FramedMessageIsCarriedAlone(cid, CBOR, if cancel then [0x2d] else answer, later, c, p);
    }
  }

  /** The host's nonce, its channel, the protocol version, the firmware's version and what the key can do. */
  const GRANT: seq<byte> := [0, 0, 0, 0, 0, 0, 0, 0, 0, 0, 0, 1, 2, 0, 1, 0, 0x0c]

  lemma GrantIsReply()
    ensures InitReply(BROADCAST_CID, 1, Nonce(ALLOCATE)).data == GRANT && |GRANT| == 17
  {
  }

  lemma OneClear(w: World, frame: Report, connection: nat, basis: set<nat>)
    requires BusInv(w.bus) && Live(w, connection)
    ensures var (w', log) := Emit(w, [frame], connection, [CLEAR], basis);
            w' == w && |log| == 1 && log[0].report == frame
  {
    hide Emit, Passes;
    assert Clear(1) == [CLEAR];
    EmitsClear(w, [frame], connection, 1, basis);
    EmitsExactly(w, [frame], connection, [CLEAR], basis, 0);
    EmitsExactly(w, [frame], connection, [CLEAR], basis, 1);
    ClearPasses([CLEAR], 0);
  }

  /** The host asks for a channel, and the answer goes out. */
  lemma Greeting()
    ensures SysInv(Start(CONNECTED))
    ensures var s := Final(Start(CONNECTED), Cycle(ALLOCATE, 0, DrawOne, [CLEAR]));
            SysInv(s) && Waits(s, 1) && Reports(s.wire) == [CtaphidTx.InitFrame(BROADCAST_CID, INIT, GRANT)]
  {
    hide Final, Cycle, SysInv, Feed, Emit, CtaphidTx.InitFrame, CLEAR, GRANT, InitReply, ALLOCATE;
    StartIsGood(CONNECTED);
    AllocateRuns([CLEAR]);
    GrantIsReply();
    FinalIsTraced(Start(CONNECTED), Cycle(ALLOCATE, 0, DrawOne, [CLEAR]));
    OneClear(World(CONNECTED, false, 0), CtaphidTx.InitFrame(BROADCAST_CID, INIT, GRANT), 0, {0});
  }

  lemma WireGrows(s: Sys, last: Sys)
    requires s.wire <= last.wire
    ensures Reports(last.wire) == Reports(s.wire) + Reports(News(s, last))
  {
    assert last.wire == s.wire + News(s, last);
  }

  /**
    From start-up: the host is granted a channel, sends any request, and finds on the wire the grant and the frames
    of whatever a task answered, or of the one byte if it cancelled.
  */
  lemma HostIsServed(data: seq<byte>, answer: seq<byte>, cancel: bool, cap: nat, owner: nat, now: u32)
    requires 0 < |data| <= MAX_PAYLOAD && |data| <= cap && |answer| <= MAX_PAYLOAD
    ensures var steps := Cycle(ALLOCATE, 0, DrawOne, [CLEAR]) + Exchange(1, data, answer, cancel, cap, owner, now);
            && BusInv(CONNECTED)
            && Reports(Reach(CONNECTED, steps)[|steps|].wire) ==
                 [CtaphidTx.InitFrame(BROADCAST_CID, INIT, GRANT)]
                 + CtaphidTx.Frames(1, CBOR, if cancel then [0x2d] else answer)
  {
    hide Final, Cycle, SysInv, Exchange, CtaphidTx.Frames, CtaphidTx.InitFrame, Waits, CtaphidTx.Carries, Reports, News;
    hide ALLOCATE, CLEAR, GRANT, OnConnection, Trace;
    Greeting();
    var greeting, exchange := Cycle(ALLOCATE, 0, DrawOne, [CLEAR]), Exchange(1, data, answer, cancel, cap, owner, now);
    var s := Final(Start(CONNECTED), greeting);
    ExchangeWorks(s, 1, data, answer, cancel, cap, owner, now);
    FinalOfBoth(Start(CONNECTED), greeting, exchange);
    FinalIsTraced(Start(CONNECTED), greeting + exchange);
    WireGrows(s, Final(s, exchange));
  }
}
