/**
  Safety of the transport over every interleaving: no connection ever receives an answer to
  another connection's request, and no transaction is left without someone to finish it.
*/
module CtaphidIsolation {
  import opened Bytes
  import opened Wire
  import opened UsbQueue
  import opened UsbBus
  import opened CtaphidProtocol
  import opened CtaphidTransport

  // ---- the invariant

  /** The receiver as a reset leaves it. */
  predicate Pristine(s: Sys) {
    s.core == BOOT && s.claim.None? && s.messageConnection == 0 && s.heard == {}
  }

  /** Everything the receiver has consumed since its last reset came over the connection `seen`. */
  predicate OneConnection(s: Sys) {
    && s.seen <= s.world.bus.generation
    && s.heard <= {s.seen}
    && (!s.core.phase.Idle? ==> s.heard == {s.seen})
    && (s.heard != {} && s.world.bus.generation == s.seen ==> s.world.bus.ready)
  }

  predicate Handover(s: Sys) {
    && (s.core.ready.Some? ==> s.messageConnection == s.seen && s.claim.None?)
    && (s.claim.Some? ==> var c := s.claim.value;
          c.connection == s.seen && c.command == CBOR && s.core.ready.None? && Holds(s.core, c.cid, c.operation)
          && s.core.phase.command == CBOR)
  }

  /** A later epoch than the transport task remembers means that the receiver is already reset. */
  predicate EpochOk(s: Sys, epoch: nat) {
    epoch <= s.epoch && (epoch != s.epoch ==> Pristine(s))
  }

  predicate ItemOk(s: Sys, item: Item) {
    && item.generation <= s.world.bus.generation
    && (item.generation == s.world.bus.generation ==> s.world.bus.ready)
  }

  predicate PlaceOk(s: Sys) {
    match s.place
    case Read(g) => g <= s.world.bus.generation
    case Synced(e) => EpochOk(s, e)
    case Popped(item, e) => EpochOk(s, e) && ItemOk(s, item)
    case Holding(item, e) => EpochOk(s, e) && ItemOk(s, item)
    case _ => true
  }

  /** A PING whose generation wrapped to zero is never finished by the transport task. */
  predicate WrappedPing(core: State) {
    core.phase.Processing? && core.phase.command == PING && core.phase.cid in core.gens && core.gens[core.phase.cid] == 0
  }

  /** A transaction in progress has its message queued, a task that claimed it, or a reset coming. */
  predicate NotOrphaned(s: Sys) {
    s.core.phase.Processing? ==>
      || s.core.ready.Some? || s.claim.Some?
      || s.world.resetRequested || s.world.bus.generation != s.seen
      || WrappedPing(s.core)
  }

  predicate Isolated(wire: seq<Sent>) {
    forall i :: 0 <= i < |wire| ==>
      && wire[i].basis == {wire[i].authorised} && wire[i].authorised <= wire[i].carried
      && (wire[i].carried == wire[i].authorised <==> wire[i].calm)
  }

  predicate SysInv(s: Sys) {
    && BusInv(s.world.bus) && Inv(s.core)
    && OneConnection(s) && Handover(s) && PlaceOk(s) && NotOrphaned(s) && Isolated(s.wire)
  }

  // ---- the building blocks of the steps

  lemma WorldMoves(s: Sys, w: World)
    requires SysInv(s) && LaterWorld(s.world, w)
    ensures SysInv(s.(world := w))
  {
  }

  lemma PlaceMoves(s: Sys, place: Place)
    requires SysInv(s) && PlaceOk(s.(place := place))
    ensures SysInv(s.(place := place))
  {
  }

  lemma ResetKeeps(s: Sys, seen: nat)
    requires SysInv(s) && seen <= s.world.bus.generation
    ensures SysInv(ResetCore(s).(seen := seen)) && Pristine(ResetCore(s).(seen := seen))
  {
    assert Inv(BOOT);
  }

  lemma ServeKeeps(s: Sys)
    requires SysInv(s)
    ensures SysInv(ServeReset(s)) && Pristine(ServeReset(s))
  {
    assert Inv(BOOT);
  }

  /** When the transport task remembers an older epoch the receiver is pristine, so no second reset is due. */
  lemma EpochMismatchMeansReset(s: Sys)
    requires SysInv(s) && s.place.Holding? && s.place.epoch != s.epoch
    ensures s.core == BOOT && s.claim.None? && s.heard == {}
    ensures ResetCore(s).(epoch := s.epoch) == s
  {
  }

  lemma ReseeKeeps(s: Sys, current: nat, raced: bool)
    requires SysInv(s) && current <= s.world.bus.generation && (raced ==> Pristine(s))
    ensures var s' := Resee(s, current, raced);
            SysInv(s') && s'.seen == current && s'.world == s.world && s'.place == s.place
  {
    if current != s.seen && !raced {
      ResetKeeps(s, current);
    }
  }

  // ---- one report

  function Fed(s: Sys, core: State, claim: Option<Claim>, w: World, action: Action): Sys {
    s.(core := if action.Reply? && action.generation != 0 then Finish(core, action.cid, action.generation) else core,
       heard := {s.seen}, claim := claim, world := w,
       messageConnection := if action.Deliver? then s.seen else s.messageConnection)
  }

  /** Feeding the receiver, with the claim dropped exactly when it no longer stands. */
  lemma FedKeeps(s: Sys, core: State, claim: Option<Claim>, w: World, action: Action)
    requires SysInv(s) && s.place.AtTop? && LaterWorld(s.world, w)
    requires s.seen == s.world.bus.generation ==> s.world.bus.ready
    requires Inv(core) && Outcome(s.core, core, action)
    requires claim.Some? ==> claim == s.claim && Holds(core, claim.value.cid, claim.value.operation)
    requires s.claim.Some? && claim.None? ==>
               w.resetRequested || w.bus.generation != s.seen || !Holds(core, s.claim.value.cid, s.claim.value.operation)
    ensures SysInv(Fed(s, core, claim, w, action))
  {
    hide Inv;
    var s' := Fed(s, core, claim, w, action);
    assert Inv(s'.core) by {
      FinishKeepsInv(core, if action.Reply? then action.cid else 0, if action.Reply? then action.generation else 0);
    }
    assert OneConnection(s');
    assert Handover(s') && NotOrphaned(s');
  }

  lemma FinishKeepsInv(core: State, cid: u32, generation: u32)
    requires Inv(core)
    ensures Inv(Finish(core, cid, generation))
  {
  }

  lemma AcceptKeeps(s: Sys, item: Item, now: u32, draws: Draws, gaps: seq<seq<WorldEvent>>, slots: seq<Slot>)
    requires SysInv(s) && s.place.AtTop? && ItemOk(s, item) && item.generation == s.seen
    ensures SysInv(Accept(s, item, now, draws, gaps, slots))
  {
    var (core, action) := Feed(s.core, item.report, now, draws);
    FeedOutcome(s.core, item.report, now, draws);
    var flagRead := Meanwhile(s.world, Gap(gaps, 2));
    MeanwhileIsLater(s.world, Gap(gaps, 2));
    var generationRead := Meanwhile(flagRead, Gap(gaps, 3));
    MeanwhileIsLater(flagRead, Gap(gaps, 3));
    var readyRead := Meanwhile(generationRead, Gap(gaps, 4));
    MeanwhileIsLater(generationRead, Gap(gaps, 4));
    hide Feed, Inv, Meanwhile, Outcome;
    var stands := s.claim.Some? && ClaimMatches(s, core, s.claim.value.cid, flagRead, generationRead, readyRead);
    FedKeeps(s, core, if stands then s.claim else None, readyRead, action);
    hide Finish, Handover, NotOrphaned, Holds;
    assert s.heard + {item.generation} == {s.seen};
    if action.Reply? {
      var fed := Fed(s, core, if stands then s.claim else None, readyRead, action);
      var (w, log) := SendMessage(readyRead, action.cid, action.command, action.data, item.generation, slots, fed.heard);
      SendIsAuthorised(readyRead, action.cid, action.command, action.data, item.generation, slots, fed.heard);
      LogKeeps(fed, w, log);
    }
  }

  /** Transmitting under the token of the connection in force. */
  lemma LogKeeps(s: Sys, w: World, log: seq<Sent>)
    requires SysInv(s) && LaterWorld(s.world, w) && s.heard == {s.seen} && Authorised(log, s.seen, s.heard)
    ensures SysInv(s.(world := w, wire := s.wire + log))
  {
    WorldMoves(s, w);
  }

  lemma DeliverKeeps(s: Sys, now: u32, draws: Draws, gaps: seq<seq<WorldEvent>>, slots: seq<Slot>)
    requires SysInv(s) && s.place.Holding?
    ensures SysInv(DeliverHeld(s, now, draws, gaps, slots))
  {
    hide Inv, Meanwhile, Accept, Pristine, Handover, NotOrphaned, Isolated;
    var item := s.place.item;
    var generationRead := Meanwhile(s.world, Gap(gaps, 0));
    MeanwhileIsLater(s.world, Gap(gaps, 0));
    var current := generationRead.bus.generation;
    var w := Meanwhile(generationRead, Gap(gaps, 1));
    MeanwhileIsLater(generationRead, Gap(gaps, 1));
    WorldMoves(s, w);
    var s1 := s.(world := w, place := AtTop);
    PlaceMoves(s.(world := w), AtTop);
    ServeKeeps(s1);
    var requested := w.resetRequested;
    var raced := s.epoch != s.place.epoch || requested;
    var s2 := if requested then ServeReset(s1) else s1;
    assert raced ==> Pristine(s2) by {
      if !requested && raced { PristineMoves(s, s1); }
    }
    ReseeKeeps(s2, current, raced);
    if !raced && current == item.generation {
      AcceptKeeps(Resee(s2, current, raced), item, now, draws, gaps, slots);
    }
  }

  lemma PristineMoves(s: Sys, s': Sys)
    requires Pristine(s) && s' == s.(world := s'.world, place := s'.place)
    ensures Pristine(s')
  {
  }

  // ---- the application's steps

  lemma ClaimMessageKeeps(s: Sys, cap: nat, owner: nat, gaps: seq<seq<WorldEvent>>)
    requires SysInv(s)
    ensures SysInv(ClaimMessage(s, cap, owner, gaps))
  {
    hide Meanwhile;
    var flagRead := Meanwhile(s.world, Gap(gaps, 0));
    MeanwhileIsLater(s.world, Gap(gaps, 0));
    var readyRead := Meanwhile(flagRead, Gap(gaps, 1));
    MeanwhileIsLater(flagRead, Gap(gaps, 1));
    var generationRead := Meanwhile(readyRead, Gap(gaps, 2));
    MeanwhileIsLater(readyRead, Gap(gaps, 2));
    var again := Meanwhile(generationRead, Gap(gaps, 3));
    MeanwhileIsLater(generationRead, Gap(gaps, 3));
    WorldMoves(s, again);
    var s' := s.(world := again);
    ResetKeeps(s', s'.seen);
  }

  lemma OwnedLater(s: Sys, cid: u32, owner: nat, gaps: seq<seq<WorldEvent>>)
    requires SysInv(s)
    ensures var (mine, w) := Owned(s, cid, owner, gaps);
            && LaterWorld(s.world, w)
            && (mine ==> s.claim.Some? && s.claim.value.cid == cid && s.claim.value.connection == s.seen && s.heard == {s.seen})
  {
    hide Meanwhile, Inv;
    var flagRead := Meanwhile(s.world, Gap(gaps, 0));
    MeanwhileIsLater(s.world, Gap(gaps, 0));
    var generationRead := Meanwhile(flagRead, Gap(gaps, 1));
    MeanwhileIsLater(flagRead, Gap(gaps, 1));
    MeanwhileIsLater(generationRead, Gap(gaps, 2));
  }

  /** Sending the response ends the transaction and the claim, whether or not it went out. */
  lemma RespondKeeps(s: Sys, cid: u32, command: byte, data: seq<byte>, owner: nat,
                     gaps: seq<seq<WorldEvent>>, slots: seq<Slot>)
    requires SysInv(s)
    ensures SysInv(Respond(s, cid, command, data, owner, gaps, slots))
  {
    hide Owned, Isolated, Emit, SendMessage, Authorised, LaterWorld, BusInv;
    var (mine, w) := Owned(s, cid, owner, gaps);
    OwnedLater(s, cid, owner, gaps);
    WorldMoves(s, w);
    if mine {
      var claim := s.claim.value;
      var response := if command == CBOR && IsCancelled(s.core, cid, claim.operation) then [ERR_KEEPALIVE_CANCEL] else data;
      SendIsAuthorised(w, cid, command, response, claim.connection, slots, s.heard);
      var (w', log) := SendMessage(w, cid, command, response, claim.connection, slots, s.heard);
      LogKeeps(s.(world := w), w', log);
      ClosedKeeps(s.(world := w', wire := s.wire + log));
    }
  }

  lemma ClosedKeeps(s: Sys)
    requires SysInv(s) && s.claim.Some?
    ensures SysInv(s.(core := Finish(s.core, s.claim.value.cid, s.claim.value.operation), claim := None))
  {
    FinishKeepsInv(s.core, s.claim.value.cid, s.claim.value.operation);
  }

  lemma BeatKeeps(s: Sys, cid: u32, status: byte, owner: nat, now: u32, sentMs: u32,
                  gaps: seq<seq<WorldEvent>>, slots: seq<Slot>)
    requires SysInv(s)
    ensures SysInv(Beat(s, cid, status, owner, now, sentMs, gaps, slots))
  {
    hide Owned, Isolated, Emit, SendMessage, Authorised, LaterWorld, BusInv;
    var (mine, w) := Owned(s, cid, owner, gaps);
    OwnedLater(s, cid, owner, gaps);
    WorldMoves(s, w);
    if mine {
      SendIsAuthorised(w, cid, KEEPALIVE, [status], s.claim.value.connection, slots, s.heard);
      var (w', log) := SendMessage(w, cid, KEEPALIVE, [status], s.claim.value.connection, slots, s.heard);
      LogKeeps(s.(world := w), w', log);
      MarkKeeps(s.(world := w', wire := s.wire + log), NoteKeepalive(s.core, cid, status, sentMs));
    }
  }

  /** A change to the cancel or keepalive marks only. */
  lemma MarkKeeps(s: Sys, core: State)
    requires SysInv(s) && s.claim.Some? && s.core.phase.Processing?
    requires core.phase.Processing?
    requires core == s.core.(phase := s.core.phase.(cancelled := core.phase.cancelled, keepalive := core.phase.keepalive))
    ensures SysInv(s.(core := core))
  {
  }

  lemma UncancelKeeps(s: Sys, cid: u32, owner: nat, gaps: seq<seq<WorldEvent>>)
    requires SysInv(s)
    ensures SysInv(Next(s, Uncancel(cid, owner, gaps)))
  {
    hide Owned, Isolated, LaterWorld, BusInv;
    var (mine, w) := Owned(s, cid, owner, gaps);
    OwnedLater(s, cid, owner, gaps);
    WorldMoves(s, w);
    if mine {
      MarkKeeps(s.(world := w), ClearCancel(s.core, cid, s.claim.value.operation));
    }
  }

  /** What a keepalive may change, and that it needs a standing claim for it. */
  lemma BeatChanges(s: Sys, cid: u32, status: byte, owner: nat, now: u32, sentMs: u32,
                    gaps: seq<seq<WorldEvent>>, slots: seq<Slot>)
    requires SysInv(s)
    ensures var s' := Beat(s, cid, status, owner, now, sentMs, gaps, slots);
            && s' == s.(world := s'.world, wire := s'.wire, core := s'.core) && s.wire <= s'.wire
            && (s'.wire != s.wire || s'.core != s.core ==>
                  && Owned(s, cid, owner, gaps).0 && s.claim.value.command == CBOR
                  && !IsCancelled(s.core, cid, s.claim.value.operation))
            && (s'.core != s.core ==>
                  && s'.core == s.core.(phase := s.core.phase.(keepalive := Some(Keepalive(status, sentMs))))
                  && |s'.wire| == |s.wire| + 1)
  {
    hide Meanwhile, SendMessage, Inv, Isolated, PlaceOk, NotOrphaned;
  }

  /** Clearing a cancel sends nothing, needs a standing claim and changes the one mark. */
  lemma UncancelChanges(s: Sys, cid: u32, owner: nat, gaps: seq<seq<WorldEvent>>)
    requires SysInv(s)
    ensures var s' := Next(s, Uncancel(cid, owner, gaps));
            && s' == s.(world := s'.world, core := s'.core)
            && (s'.core != s.core ==>
                  && Owned(s, cid, owner, gaps).0
                  && s'.core == s.core.(phase := s.core.phase.(cancelled := false)))
            && (Owned(s, cid, owner, gaps).0 ==> !s'.core.phase.cancelled)
  {
    hide Meanwhile, Inv, Isolated, PlaceOk, NotOrphaned;
  }

  // ---- every step, every run

  lemma NextKeeps(s: Sys, step: Step)
    requires SysInv(s)
    ensures SysInv(Next(s, step))
  {
    match step
    case Outside(es) =>
      MeanwhileIsLater(s.world, es);
      WorldMoves(s, Meanwhile(s.world, es));
    case DeliverReport(now, draws, gaps, slots) =>
      if s.place.Holding? { DeliverKeeps(s, now, draws, gaps, slots); }
    case TakeMsg(cap, owner, gaps) => ClaimMessageKeeps(s, cap, owner, gaps);
    case SendMsg(cid, command, data, owner, gaps, slots) => RespondKeeps(s, cid, command, data, owner, gaps, slots);
    case SendKeepalive(cid, status, owner, now, sentMs, gaps, slots) =>
      BeatKeeps(s, cid, status, owner, now, sentMs, gaps, slots);
    case Uncancel(cid, owner, gaps) => UncancelKeeps(s, cid, owner, gaps);
    case _ => TaskStepKeeps(s, step);
  }

  lemma PopKeeps(s: Sys)
    requires SysInv(s) && s.place.Synced?
    ensures SysInv(Next(s, Pop))
  {
    var bus := s.world.bus;
    if bus.queue != [] {
      var w := s.world.(bus := bus.(queue := bus.queue[1..]));
      WorldMoves(s, w);
      PlaceMoves(s.(world := w), Popped(bus.queue[0], s.place.epoch));
    }
  }

  /** The short steps of the transport task, and a reset served by its caller. */
  lemma TaskStepKeeps(s: Sys, step: Step)
    requires SysInv(s)
    requires step.LockTimeout? || step.CheckReset? || step.RunReset? || step.ReadGeneration? || step.Sync?
             || step.Pop? || step.Confirm? || step.Tidy? || step.ResetAll?
    ensures SysInv(Next(s, step))
  {
    match step
    case RunReset =>
      ServeKeeps(s);
      PlaceMoves(s, Checked);
      PlaceMoves(ServeReset(s), Checked);
    case Sync =>
      if s.place.Read? {
        ResetKeeps(s, s.place.generation);
        var s' := if s.place.generation != s.seen then ResetCore(s).(seen := s.place.generation) else s;
        PlaceMoves(s', Synced(s'.epoch));
      }
    case Pop =>
      if s.place.Synced? { PopKeeps(s); }
    case Tidy(now) => ExpireKeepsInv(s.core, now);
    case ResetAll =>
      if s.world.resetters > 0 {
        var w := s.world.(resetters := s.world.resetters - 1);
        WorldMoves(s, w);
        ServeKeeps(s.(world := w));
      }
    case _ =>
  }

  /** The states a run passes through. */
  function Trace(s: Sys, steps: seq<Step>): (r: seq<Sys>)
    requires SysInv(s)
    ensures |r| == |steps| + 1
    decreases |steps|
  {
    if steps == [] then [s]
    else
      NextKeeps(s, steps[0]);
      [s] + Trace(Next(s, steps[0]), steps[1..])
  }

  lemma {:induction false} TraceKeeps(s: Sys, steps: seq<Step>, k: nat)
    requires SysInv(s) && k <= |steps|
    ensures SysInv(Trace(s, steps)[k])
    decreases |steps|
  {
    if k > 0 {
      NextKeeps(s, steps[0]);
      TraceKeeps(Next(s, steps[0]), steps[1..], k - 1);
    }
  }

  lemma StartIsGood(bus: Bus)
    requires BusInv(bus)
    ensures SysInv(Start(bus))
  {
  }

  /** The states reached from start-up on a bus in any condition. */
  function Reach(bus: Bus, steps: seq<Step>): (r: seq<Sys>)
    requires BusInv(bus)
    ensures |r| == |steps| + 1
  {
    StartIsGood(bus);
    Trace(Start(bus), steps)
  }

  /**
    Connection isolation. In every run, a report on the wire was authorised by the token of one
    connection, and every report the receiver had consumed since its last reset, so in particular
    the whole request being answered, arrived on that same connection. That connection carried it
    exactly when no connection began or ended between the last check and handing it over.
  */
  lemma ConnectionIsolation(bus: Bus, steps: seq<Step>, k: nat, i: nat)
    requires BusInv(bus) && k <= |steps| && i < |Reach(bus, steps)[k].wire|
    ensures var sent := Reach(bus, steps)[k].wire[i];
            && sent.basis == {sent.authorised} && sent.authorised <= sent.carried
            && (sent.basis == {sent.carried} <==> sent.calm)
  {
    StartIsGood(bus);
    TraceKeeps(Start(bus), steps, k);
  }

  /**
    No orphaned transaction. Whenever the mutex is free, a transaction being processed has its
    message queued or claimed, unless a reset is pending, the connection has gone, or it is a
    PING whose generation wrapped to zero.
  */
  lemma NoOrphan(bus: Bus, steps: seq<Step>, k: nat)
    requires BusInv(bus) && k <= |steps|
    ensures NotOrphaned(Reach(bus, steps)[k])
  {
    StartIsGood(bus);
    TraceKeeps(Start(bus), steps, k);
  }

  // ---- ends of transactions

  /** A response ends the transaction and the claim even when nothing reached the wire. */
  lemma RespondEnds(s: Sys, cid: u32, command: byte, data: seq<byte>, owner: nat,
                    gaps: seq<seq<WorldEvent>>, slots: seq<Slot>)
    requires SysInv(s) && cid != 0 && command >= 0x80 && |data| <= MAX_PAYLOAD
    requires Owned(s, cid, owner, gaps).0 && s.claim.value.command == command
    ensures var s' := Respond(s, cid, command, data, owner, gaps, slots);
            s'.core == Abandon(s.core) && s'.claim.None? && s.wire <= s'.wire
  {
    hide SendMessage;
    OwnedLater(s, cid, owner, gaps);
  }

  /** A PING that this report begins or completes gets a generation that is not zero. */
  predicate PingCounts(core: State, report: Report) {
    Cid(report) in core.gens && core.gens[Cid(report)] != if IsInitial(report) then 0xffff_ffff else 0
  }

  /** A PING leaves the receiver idle exactly when its generation is not zero, as the channel shows beforehand. */
  lemma PingEndsUnlessWrapped(s: Sys, item: Item, now: u32, draws: Draws, gaps: seq<seq<WorldEvent>>, slots: seq<Slot>)
    requires SysInv(s) && s.place.AtTop?
    requires var a := Feed(s.core, item.report, now, draws).1; a.Reply? && a.command == PING
    ensures Accept(s, item, now, draws, gaps, slots).core.phase.Idle? <==> PingCounts(s.core, item.report)
  {
    FeedOutcome(s.core, item.report, now, draws);
    PingGeneration(s.core, item.report, now, draws);
    hide Feed, Meanwhile, SendMessage;
  }

  lemma PingGeneration(s: State, r: Report, now: u32, draws: Draws)
    requires Inv(s)
    requires var a := Feed(s, r, now, draws).1; a.Reply? && a.command == PING
    ensures Feed(s, r, now, draws).1.generation != 0 <==> PingCounts(s, r)
  {
    DrawIsUsable(Expire(s, now).gens, draws, 0);
  }

  // ---- the window between checking the connection and handing over a report

  /**
    The connection is checked just before a report is handed to the controller. The report goes
    out on the connection that authorised it exactly when none ends between the two.
  */
  lemma {:induction false} WindowDecides(w: World, frames: seq<Report>, connection: nat, slots: seq<Slot>,
                                         basis: set<nat>, i: nat)
    requires i < |Emit(w, frames, connection, slots, basis).1|
    ensures i < |slots|
    ensures Emit(w, frames, connection, slots, basis).1[i].carried == connection <==> Undisturbed(slots[i].window)
    decreases |frames|
  {
    var checked := Meanwhile(Meanwhile(w, slots[0].before), slots[0].checking);
    if i == 0 {
      MeanwhileMoves(checked, slots[0].window);
    } else {
      WindowDecides(Meanwhile(checked, slots[0].window), frames[1..], connection, slots[1..], basis, i - 1);
    }
  }
}
