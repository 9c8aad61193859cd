/** Particular runs of the transport: calm ones, and runs from start-up to the states that matter. */
module CtaphidSchedules {
  import opened Bytes
  import opened Wire
  import opened UsbQueue
  import opened UsbBus
  import opened CtaphidProtocol
  import opened CtaphidTransport
  import opened CtaphidIsolation
  import CtaphidTx

  // ---- runs in which no connection event falls into a window

  predicate CalmSlots(slots: seq<Slot>) {
    forall i :: 0 <= i < |slots| ==> Undisturbed(slots[i].window)
  }

  predicate CalmStep(step: Step) {
    match step
    case DeliverReport(_, _, _, slots) => CalmSlots(slots)
    case SendMsg(_, _, _, _, _, slots) => CalmSlots(slots)
    case SendKeepalive(_, _, _, _, _, _, slots) => CalmSlots(slots)
    case _ => true
  }

  predicate AllCalm(wire: seq<Sent>) {
    forall i :: 0 <= i < |wire| ==> wire[i].calm
  }

  lemma {:induction false} EmitIsCalm(w: World, frames: seq<Report>, connection: nat, slots: seq<Slot>, basis: set<nat>)
    requires CalmSlots(slots)
    ensures AllCalm(Emit(w, frames, connection, slots, basis).1)
    decreases |frames|
  {
    if frames != [] && slots != [] {
      var submitted := Meanwhile(Meanwhile(Meanwhile(w, slots[0].before), slots[0].checking), slots[0].window);
      EmitIsCalm(submitted, frames[1..], connection, slots[1..], basis);
    }
  }

  lemma SendIsCalm(w: World, cid: u32, command: byte, data: seq<byte>, connection: nat, slots: seq<Slot>, basis: set<nat>)
    requires CalmSlots(slots)
    ensures AllCalm(SendMessage(w, cid, command, data, connection, slots, basis).1)
  {
    if cid != 0 && command >= 0x80 && |data| <= MAX_PAYLOAD {
      EmitIsCalm(w, CtaphidTx.Frames(cid, command, data), connection, slots, basis);
    }
  }

  lemma AcceptIsCalm(s: Sys, item: Item, now: u32, draws: Draws, gaps: seq<seq<WorldEvent>>, slots: seq<Slot>)
    requires Inv(s.core) && AllCalm(s.wire) && CalmSlots(slots)
    ensures AllCalm(Accept(s, item, now, draws, gaps, slots).wire)
  {
    hide Feed, Meanwhile, SendMessage, ClaimMatches;
    var a := Feed(s.core, item.report, now, draws).1;
    if a.Reply? {
      forall w, basis
        ensures AllCalm(SendMessage(w, a.cid, a.command, a.data, item.generation, slots, basis).1)
      {
        SendIsCalm(w, a.cid, a.command, a.data, item.generation, slots, basis);
      }
    }
  }

  lemma BeatIsCalm(s: Sys, cid: u32, status: byte, owner: nat, now: u32, sentMs: u32,
                   gaps: seq<seq<WorldEvent>>, slots: seq<Slot>)
    requires Inv(s.core) && AllCalm(s.wire) && CalmSlots(slots)
    ensures AllCalm(Beat(s, cid, status, owner, now, sentMs, gaps, slots).wire)
  {
    hide Meanwhile, SendMessage, CalmSlots, Holds, Inv;
    var w := Owned(s, cid, owner, gaps).1;
    if s.claim.Some? {
      SendIsCalm(w, cid, KEEPALIVE, [status], s.claim.value.connection, slots, s.heard);
    }
  }

  lemma RespondIsCalm(s: Sys, cid: u32, command: byte, data: seq<byte>, owner: nat,
                      gaps: seq<seq<WorldEvent>>, slots: seq<Slot>)
    requires AllCalm(s.wire) && CalmSlots(slots)
    ensures AllCalm(Respond(s, cid, command, data, owner, gaps, slots).wire)
  {
    hide Meanwhile, SendMessage, CalmSlots, Holds;
    var w := Owned(s, cid, owner, gaps).1;
    if s.claim.Some? {
      SendIsCalm(w, cid, command, [ERR_KEEPALIVE_CANCEL], s.claim.value.connection, slots, s.heard);
      SendIsCalm(w, cid, command, data, s.claim.value.connection, slots, s.heard);
    }
  }

  /** A calm step puts only calm reports on the wire. */
  lemma NextIsCalm(s: Sys, step: Step)
    requires Inv(s.core) && AllCalm(s.wire) && CalmStep(step)
    ensures AllCalm(Next(s, step).wire)
  {
    hide Inv, Meanwhile, SendMessage, Accept, Owned, CalmSlots;
    match step
    case DeliverReport(now, draws, gaps, slots) =>
      if s.place.Holding? {
        forall t: Sys | Inv(t.core) && t.wire == s.wire
          ensures AllCalm(Accept(t, s.place.item, now, draws, gaps, slots).wire)
        {
          AcceptIsCalm(t, s.place.item, now, draws, gaps, slots);
        }
        assert Inv(BOOT) by { BootIsGood(); }
      }
    case SendMsg(cid, command, data, owner, gaps, slots) =>
      RespondIsCalm(s, cid, command, data, owner, gaps, slots);
    case SendKeepalive(cid, status, owner, now, sentMs, gaps, slots) =>
      BeatIsCalm(s, cid, status, owner, now, sentMs, gaps, slots);
    case _ =>
  }

  lemma BootIsGood()
    ensures Inv(BOOT)
  {
  }

  lemma {:induction false} TraceIsCalm(s: Sys, steps: seq<Step>, k: nat)
    requires SysInv(s) && AllCalm(s.wire) && k <= |steps| && forall j :: 0 <= j < k ==> CalmStep(steps[j])
    ensures AllCalm(Trace(s, steps)[k].wire)
    decreases |steps|
  {
    if k > 0 {
      NextKeeps(s, steps[0]);
      NextIsCalm(s, steps[0]);
      TraceIsCalm(Next(s, steps[0]), steps[1..], k - 1);
    }
  }

  /**
    Over every run in which no connection begins or ends between a last check and handing over a report, each
    report on the wire went out on the one connection that everything the receiver had consumed arrived on.
  */
  lemma CalmRunsStayHome(bus: Bus, steps: seq<Step>, k: nat, i: nat)
    requires BusInv(bus) && k <= |steps| && i < |Reach(bus, steps)[k].wire|
    requires forall j :: 0 <= j < k ==> CalmStep(steps[j])
    ensures var sent := Reach(bus, steps)[k].wire[i];
            sent.basis == {sent.carried} && sent.carried == sent.authorised
  {
    StartIsGood(bus);
    TraceIsCalm(Start(bus), steps, k);
    ConnectionIsolation(bus, steps, k, i);
  }

  // ---- one report after another

  /** The state a run ends in. */
  function Final(s: Sys, steps: seq<Step>): Sys
    requires SysInv(s)
    decreases |steps|
  {
    if steps == [] then s
    else
      NextKeeps(s, steps[0]);
      Final(Next(s, steps[0]), steps[1..])
  }

  lemma {:induction false} FinalIsTraced(s: Sys, steps: seq<Step>)
    requires SysInv(s)
    ensures SysInv(Final(s, steps)) && Final(s, steps) == Trace(s, steps)[|steps|]
    decreases |steps|
  {
    if steps != [] {
      NextKeeps(s, steps[0]);
      FinalIsTraced(Next(s, steps[0]), steps[1..]);
    }
  }

  lemma {:induction false} FinalOfBoth(s: Sys, a: seq<Step>, b: seq<Step>)
    requires SysInv(s)
    ensures SysInv(Final(s, a)) && Final(s, a + b) == Final(Final(s, a), b)
    decreases |a|
  {
    hide Next, SysInv;
    if a == [] {
      assert a + b == b;
    } else {
      CoreIsGood(s);
      NextKeeps(s, a[0]);
      FinalOfBoth(Next(s, a[0]), a[1..], b);
      assert (a + b)[1..] == a[1..] + b;
    }
  }

  /** The transport task waits for a report of a connection it has already noticed. */
  predicate Listening(s: Sys) {
    && s.place.AtTop? && !s.world.resetRequested
    && s.world.bus.ready && s.world.bus.queue == [] && s.seen == s.world.bus.generation
  }

  /** A report arrives and is delivered with nothing in between. */
  function Cycle(r: Report, now: u32, draws: Draws, slots: seq<Slot>): seq<Step> {
    [Outside([OnBus(ReportIn(r))]), CheckReset, ReadGeneration, Sync, Pop, Confirm, DeliverReport(now, draws, [], slots)]
  }

  lemma CycleAccepts(s: Sys, r: Report, now: u32, draws: Draws, slots: seq<Slot>)
    requires SysInv(s) && Listening(s)
    ensures Final(s, Cycle(r, now, draws, slots)) == Accept(s, Item(r, s.seen), now, draws, [], slots)
  {
    hide Accept, SysInv, Final, Next, Listening, Inv;
    CoreIsGood(s);
    var item := Item(r, s.seen);
    ReportArrives(s, r);
    var s1 := s.(world := s.world.(bus := s.world.bus.(queue := [item])));
    ReportIsFetched(s, item);
    ReportIsDelivered(s, item, now, draws, slots);
    FinalFrom([s, s1, s1.(place := Checked), s1.(place := Read(s.seen)), s1.(place := Synced(s.epoch)),
                  s.(place := Popped(item, s.epoch)), s.(place := Holding(item, s.epoch)),
                  Accept(s, item, now, draws, [], slots)], Cycle(r, now, draws, slots), 0);
  }

  lemma CoreIsGood(s: Sys)
    requires SysInv(s)
    ensures Inv(s.core)
  {
  }

  lemma ReportArrives(s: Sys, r: Report)
    requires SysInv(s) && Listening(s)
    ensures Next(s, Outside([OnBus(ReportIn(r))])) == s.(world := s.world.(bus := s.world.bus.(queue := [Item(r, s.seen)])))
  {
    var arrival := [OnBus(ReportIn(r))];
    assert arrival[1..] == [] && [] + [Item(r, s.seen)] == [Item(r, s.seen)];
    var w := Happens(s.world, arrival[0]);
    assert Meanwhile(s.world, arrival) == Meanwhile(w, []) == w;
  }

  lemma ReportIsFetched(s: Sys, item: Item)
    requires SysInv(s) && Listening(s) && item.generation == s.seen
    ensures var s1 := s.(world := s.world.(bus := s.world.bus.(queue := [item])));
            && Next(s1, CheckReset) == s1.(place := Checked)
            && Next(s1.(place := Checked), ReadGeneration) == s1.(place := Read(s.seen))
            && Next(s1.(place := Read(s.seen)), Sync) == s1.(place := Synced(s.epoch))
            && Next(s1.(place := Synced(s.epoch)), Pop) == s.(place := Popped(item, s.epoch))
            && Next(s.(place := Popped(item, s.epoch)), Confirm) == s.(place := Holding(item, s.epoch))
  {
    hide Inv, Meanwhile;
    assert [item][1..] == [];
  }

  lemma ReportIsDelivered(s: Sys, item: Item, now: u32, draws: Draws, slots: seq<Slot>)
    requires SysInv(s) && Listening(s) && item.generation == s.seen
    ensures Next(s.(place := Holding(item, s.epoch)), DeliverReport(now, draws, [], slots)) == Accept(s, item, now, draws, [], slots)
  {
    hide Accept, Inv;
  }

  lemma {:induction false} FinalFrom(ss: seq<Sys>, steps: seq<Step>, k: nat)
    requires |ss| == |steps| + 1 && k <= |steps| && SysInv(ss[k])
    requires forall i :: 0 <= i < |steps| ==> Inv(ss[i].core) && Next(ss[i], steps[i]) == ss[i + 1]
    ensures Final(ss[k], steps[k..]) == ss[|steps|]
    decreases |steps| - k
  {
    hide Next, SysInv;
    if k < |steps| {
      assert steps[k..][0] == steps[k] && steps[k..][1..] == steps[k + 1..];
      assert Next(ss[k], steps[k]) == ss[k + 1];
      FinalOfFirst(ss[k], steps[k..]);
      FinalFrom(ss, steps, k + 1);
    }
  }

  lemma FinalOfFirst(s: Sys, steps: seq<Step>)
    requires SysInv(s) && steps != []
    ensures SysInv(Next(s, steps[0])) && Final(s, steps) == Final(Next(s, steps[0]), steps[1..])
  {
    NextKeeps(s, steps[0]);
  }

  lemma FinalOfNone(s: Sys)
    requires SysInv(s)
    ensures Final(s, []) == s
  {
  }

  // ---- runs from start-up

  const CONNECTED: Bus := Bus(true, true, 0, [])
  const ALLOCATE: Report := [0xff, 0xff, 0xff, 0xff, INIT, 0, 8] + Zeros(57)
  const RESYNC: Report := [0, 0, 0, 1, INIT, 0, 8] + Zeros(57)
  const EMPTY_PING: Report := [0, 0, 0, 1, PING] + Zeros(59)

  /** Idle on a connection, with one channel allocated on it. */
  function Sitting(generation: u32, bus: Bus, wire: seq<Sent>): Sys {
    Start(CONNECTED).(core := State(map[1 := generation], {}, Idle, None), heard := {0},
                      world := World(bus, false, 0), wire := wire)
  }

  lemma Fields()
    ensures Cid(ALLOCATE) == BROADCAST_CID && Command(ALLOCATE) == INIT && DeclaredLen(ALLOCATE) == 8
    ensures Cid(RESYNC) == 1 && Command(RESYNC) == INIT && DeclaredLen(RESYNC) == 8
    ensures Cid(EMPTY_PING) == 1 && Command(EMPTY_PING) == PING && DeclaredLen(EMPTY_PING) == 0 && FirstChunk(EMPTY_PING) == []
  {
  }

  lemma AllocateFeeds()
    ensures Feed(BOOT, ALLOCATE, 0, DrawOne) ==
              (State(map[1 := 0], {}, Idle, None), InitReply(BROADCAST_CID, 1, Nonce(ALLOCATE)))
  {
    Fields();
    assert Draw(map[], DrawOne, 0) == Allocated(1);
    assert map[][1 := 0] == map[1 := 0];
  }

  /** A reply with nothing in between, to a channel nobody has claimed. */
  lemma ReplyIsSent(s: Sys, r: Report, now: u32, draws: Draws, slots: seq<Slot>)
    requires SysInv(s) && Listening(s) && s.claim.None? && Feed(s.core, r, now, draws).1.Reply?
    ensures var (core, a) := Feed(s.core, r, now, draws);
            var heard := s.heard + {s.seen};
            var (w, log) := SendMessage(s.world, a.cid, a.command, a.data, s.seen, slots, heard);
            Final(s, Cycle(r, now, draws, slots)) ==
              s.(core := if a.generation != 0 then Finish(core, a.cid, a.generation) else core,
                 heard := heard, world := w, wire := s.wire + log)
  {
    CycleAccepts(s, r, now, draws, slots);
    hide Feed, SendMessage, SysInv, Finish, Final;
    assert Meanwhile(s.world, []) == s.world;
  }

  /** A channel is allocated, and the answer goes out as the slot says. */
  lemma AllocateRuns(slots: seq<Slot>)
    requires |slots| <= 1
    ensures SysInv(Start(CONNECTED))
    ensures var data := InitReply(BROADCAST_CID, 1, Nonce(ALLOCATE)).data;
            var (w, log) := Emit(World(CONNECTED, false, 0), [CtaphidTx.InitFrame(BROADCAST_CID, INIT, data)], 0, slots, {0});
            Final(Start(CONNECTED), Cycle(ALLOCATE, 0, DrawOne, slots)) == Sitting(0, CONNECTED, []).(world := w, wire := log)
  {
    StartIsGood(CONNECTED);
    AllocateFeeds();
    var data := InitReply(BROADCAST_CID, 1, Nonce(ALLOCATE)).data;
    assert |data| == 17;
    assert CtaphidTx.Frames(BROADCAST_CID, INIT, data) == [CtaphidTx.InitFrame(BROADCAST_CID, INIT, data)];
    ReplyIsSent(Start(CONNECTED), ALLOCATE, 0, DrawOne, slots);
    hide Feed, Emit, Cycle, Final, SysInv;
    assert {} + {0} == {0} && forall log: seq<Sent> :: [] + log == log;
  }

  /**
    From start-up to a report on the wrong connection: a host asks for a channel, the answer passes its last
    check, the host reconnects, and the answer goes out on the next connection but one.
  */
  lemma ReportCrossesConnections()
    ensures var slot := Slot([], [], [OnBus(Detached), OnBus(Attached)], true);
            var steps := Cycle(ALLOCATE, 0, DrawOne, [slot]);
            && BusInv(CONNECTED)
            && var wire := Reach(CONNECTED, steps)[|steps|].wire;
               |wire| == 1 && wire[0].authorised == 0 && wire[0].basis == {0} && wire[0].carried == 2 && !wire[0].calm
  {
    var slot := Slot([], [], [OnBus(Detached), OnBus(Attached)], true);
    AllocateRuns([slot]);
    FinalIsTraced(Start(CONNECTED), Cycle(ALLOCATE, 0, DrawOne, [slot]));
    var w := World(CONNECTED, false, 0);
    var data := InitReply(BROADCAST_CID, 1, Nonce(ALLOCATE)).data;
    var frame := CtaphidTx.InitFrame(BROADCAST_CID, INIT, data);
    CrossingEmits(w, frame);
  }

  lemma CrossingEmits(w: World, frame: Report)
    requires w == World(CONNECTED, false, 0)
    ensures Emit(w, [frame], 0, [Slot([], [], [OnBus(Detached), OnBus(Attached)], true)], {0}).1 ==
              [Sent(frame, 0, 2, {0}, false)]
  {
    var es := [OnBus(Detached), OnBus(Attached)];
    assert es[1..] == [OnBus(Attached)] && es[1..][1..] == [];
    assert Meanwhile(w, es) == Happens(Happens(w, es[0]), es[1]);
    assert [frame][1..] == [];
    assert !Undisturbed(es);
  }

  // ---- a PING whose generation wraps

  /** A generation runs round to zero when its channel resynchronises often enough. */
  function Resyncs(n: nat): (steps: seq<Step>) {
    if n == 0 then [] else Resyncs(n - 1) + Cycle(RESYNC, 0, DrawOne, [])
  }

  lemma SittingIsGood(generation: u32)
    ensures SysInv(Sitting(generation, CONNECTED, []))
  {
    assert |map[1 := generation].Keys| == 1;
  }

  lemma ResyncRuns(generation: u32)
    ensures SysInv(Sitting(generation, CONNECTED, []))
    ensures Final(Sitting(generation, CONNECTED, []), Cycle(RESYNC, 0, DrawOne, [])) == Sitting(Bump(generation), CONNECTED, [])
  {
    SittingIsGood(generation);
    var s := Sitting(generation, CONNECTED, []);
    Fields();
    assert Feed(s.core, RESYNC, 0, DrawOne) ==
           (State(map[1 := Bump(generation)], {}, Idle, None), InitReply(1, 1, Nonce(RESYNC))) by {
      assert map[1 := generation][1 := Bump(generation)] == map[1 := Bump(generation)];
      assert {} - {1} == {};
    }
    ReplyIsSent(s, RESYNC, 0, DrawOne, []);
    hide Feed, Cycle, Final, SysInv;
    assert {0} + {0} == {0};
  }

  lemma {:induction false} ResyncsRun(n: nat)
    ensures SysInv(Sitting(0, CONNECTED, []))
    ensures Final(Sitting(0, CONNECTED, []), Resyncs(n)) == Sitting(n % U32_SPAN, CONNECTED, [])
  {
    hide Final, Cycle, Sitting, SysInv;
    SittingIsGood(0);
    if n == 0 {
      FinalOfNone(Sitting(0, CONNECTED, []));
    } else {
      ResyncsRun(n - 1);
      FinalOfBoth(Sitting(0, CONNECTED, []), Resyncs(n - 1), Cycle(RESYNC, 0, DrawOne, []));
      ResyncRuns((n - 1) % U32_SPAN);
      assert Bump((n - 1) % U32_SPAN) == n % U32_SPAN;
    }
  }

  /** A run from start-up to a PING that nobody will finish: no message, no claim, no reset, no new connection. */
  lemma WrappedPingIsReached()
    ensures var steps := Cycle(ALLOCATE, 0, DrawOne, []) + Resyncs(0xffff_ffff) + Cycle(EMPTY_PING, 0, DrawOne, []);
            && BusInv(CONNECTED)
            && var last := Reach(CONNECTED, steps)[|steps|];
               && last.core.phase == Processing(1, PING, false, None) && last.core.ready.None?
               && last.claim.None? && !last.world.resetRequested && last.world.bus.generation == last.seen
  {
    hide Final, Cycle, Resyncs, SysInv;
    var a, b, c := Cycle(ALLOCATE, 0, DrawOne, []), Resyncs(0xffff_ffff), Cycle(EMPTY_PING, 0, DrawOne, []);
    AllocateRuns([]);
    ResyncsRun(0xffff_ffff);
    FinalOfBoth(Start(CONNECTED), a, b);
    FinalOfBoth(Start(CONNECTED), a + b, c);
    FinalIsTraced(Start(CONNECTED), a + b + c);
    PingRuns();
  }

  lemma PingRuns()
    ensures SysInv(Sitting(0xffff_ffff, CONNECTED, []))
    ensures Final(Sitting(0xffff_ffff, CONNECTED, []), Cycle(EMPTY_PING, 0, DrawOne, [])) ==
              Sitting(0, CONNECTED, []).(core := State(map[1 := 0], {}, Processing(1, PING, false, None), None))
  {
    SittingIsGood(0xffff_ffff);
    var s := Sitting(0xffff_ffff, CONNECTED, []);
    Fields();
    assert Feed(s.core, EMPTY_PING, 0, DrawOne) ==
           (State(map[1 := 0], {}, Processing(1, PING, false, None), None), Reply(1, PING, [], 0)) by {
      assert map[1 := 0xffff_ffff][1 := 0] == map[1 := 0];
      assert {} - {1} == {};
    }
    ReplyIsSent(s, EMPTY_PING, 0, DrawOne, []);
    hide Feed, Cycle, Final, SysInv;
    assert {0} + {0} == {0};
  }
}
