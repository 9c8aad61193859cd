/**
  The transport around the receiver: one transport task, application tasks, bus events and
  asynchronous reset requests. A section that holds the core mutex is one step, but the bus and
  the reset flag are not protected by that mutex: between any two reads of them inside a step,
  any events may happen, and each step carries those events as parameters.
*/
module CtaphidTransport {
  import opened Bytes
  import opened Wire
  import opened UsbQueue
  import opened UsbBus
  import opened CtaphidProtocol
  import CtaphidTx

  // ---- what changes under no lock of the transport

  /** `resetters` counts the callers that have raised the flag and wait for the mutex. */
  datatype World = World(bus: Bus, resetRequested: bool, resetters: nat)

  datatype WorldEvent = OnBus(event: BusEvent) | AskReset | GiveUp

  function Happens(w: World, e: WorldEvent): World {
    match e
    case OnBus(b) => w.(bus := Occur(w.bus, b))
    case AskReset => w.(resetRequested := true, resetters := w.resetters + 1)
    case GiveUp => if w.resetters > 0 then w.(resetters := w.resetters - 1) else w
  }

  function Meanwhile(w: World, es: seq<WorldEvent>): World
    decreases |es|
  {
    if es == [] then w else Meanwhile(Happens(w, es[0]), es[1..])
  }

  function Gap(gaps: seq<seq<WorldEvent>>, i: nat): seq<WorldEvent> {
    if i < |gaps| then gaps[i] else []
  }

  predicate LaterWorld(w: World, w': World) {
    BusInv(w'.bus) && Later(w.bus, w'.bus) && (w.resetRequested ==> w'.resetRequested)
  }

  lemma {:induction false} MeanwhileIsLater(w: World, es: seq<WorldEvent>)
    requires BusInv(w.bus)
    ensures LaterWorld(w, Meanwhile(w, es))
    decreases |es|
  {
    if es != [] {
      if es[0].OnBus? {
        AfterIsLater(w.bus, [es[0].event]);
        assert [es[0].event][1..] == [];
        assert After(w.bus, [es[0].event]) == Occur(w.bus, es[0].event);
      }
      MeanwhileIsLater(Happens(w, es[0]), es[1..]);
    }
  }

  // ---- transmission

  /** No connection begins or ends. */
  predicate Undisturbed(es: seq<WorldEvent>) {
    forall i :: 0 <= i < |es| ==> es[i].OnBus? ==> !NewConnection(es[i].event)
  }

  /** The generation stands exactly as long as no connection begins or ends. */
  lemma {:induction false} MeanwhileMoves(w: World, es: seq<WorldEvent>)
    ensures w.bus.generation <= Meanwhile(w, es).bus.generation
    ensures Meanwhile(w, es).bus.generation == w.bus.generation <==> Undisturbed(es)
    decreases |es|
  {
    if es != [] {
      MeanwhileMoves(Happens(w, es[0]), es[1..]);
      UndisturbedRest(es);
    }
  }

  lemma UndisturbedRest(es: seq<WorldEvent>)
    requires es != []
    ensures Undisturbed(es) <==> (es[0].OnBus? ==> !NewConnection(es[0].event)) && Undisturbed(es[1..])
  {
    assert forall i :: 0 <= i < |es| - 1 ==> es[1..][i] == es[i + 1];
    if Undisturbed(es[1..]) && (es[0].OnBus? ==> !NewConnection(es[0].event)) {
      forall i | 0 <= i < |es| && es[i].OnBus?
        ensures !NewConnection(es[i].event)
      {
        assert i > 0 ==> es[i] == es[1..][i - 1];
      }
    }
  }

  /**
    A report on the wire: the connection whose token authorised it, the connection that carried
    it, the connections of every report the receiver had consumed since its last reset, and
    whether no connection began or ended between the last check and handing the report over.
  */
  datatype Sent = Sent(report: Report, authorised: nat, carried: nat, basis: set<nat>, calm: bool)

  /** The events around one report, and whether the controller accepted it in time. */
  datatype Slot = Slot(before: seq<WorldEvent>, checking: seq<WorldEvent>, window: seq<WorldEvent>, accepted: bool)

  function Emit(w: World, frames: seq<Report>, connection: nat, slots: seq<Slot>, basis: set<nat>): (World, seq<Sent>)
    decreases |frames|
  {
    if frames == [] || slots == [] then (w, [])
    else
      var flagRead := Meanwhile(w, slots[0].before);
      if flagRead.resetRequested then (flagRead, [])
      else
        var checked := Meanwhile(flagRead, slots[0].checking);
        if !checked.bus.ready || checked.bus.generation != connection then (checked, [])
        else
          var submitted := Meanwhile(checked, slots[0].window);
          if !slots[0].accepted then (submitted, [])
          else
            var (w', log) := Emit(submitted, frames[1..], connection, slots[1..], basis);
            var sent := Sent(frames[0], connection, submitted.bus.generation, basis, Undisturbed(slots[0].window));
            (w', [sent] + log)
  }

  function SendMessage(w: World, cid: u32, command: byte, data: seq<byte>, connection: nat,
                       slots: seq<Slot>, basis: set<nat>): (World, seq<Sent>)
  {
    if cid == 0 || command < 0x80 || |data| > MAX_PAYLOAD then (w, [])
    else Emit(w, CtaphidTx.Frames(cid, command, data), connection, slots, basis)
  }

  predicate Authorised(log: seq<Sent>, connection: nat, basis: set<nat>) {
    forall i :: 0 <= i < |log| ==>
      && log[i].authorised == connection <= log[i].carried && log[i].basis == basis
      && (log[i].carried == connection <==> log[i].calm)
  }

  lemma {:induction false} EmitIsAuthorised(w: World, frames: seq<Report>, connection: nat, slots: seq<Slot>, basis: set<nat>)
    requires BusInv(w.bus)
    ensures var (w', log) := Emit(w, frames, connection, slots, basis);
            LaterWorld(w, w') && Authorised(log, connection, basis) && |log| <= |frames|
    decreases |frames|
  {
    if frames != [] && slots != [] {
      var flagRead := Meanwhile(w, slots[0].before);
      MeanwhileIsLater(w, slots[0].before);
      var checked := Meanwhile(flagRead, slots[0].checking);
      MeanwhileIsLater(flagRead, slots[0].checking);
      var submitted := Meanwhile(checked, slots[0].window);
      MeanwhileIsLater(checked, slots[0].window);
      MeanwhileMoves(checked, slots[0].window);
      EmitIsAuthorised(submitted, frames[1..], connection, slots[1..], basis);
    }
  }

  lemma SendIsAuthorised(w: World, cid: u32, command: byte, data: seq<byte>, connection: nat, slots: seq<Slot>, basis: set<nat>)
    requires BusInv(w.bus)
    ensures var (w', log) := SendMessage(w, cid, command, data, connection, slots, basis);
            LaterWorld(w, w') && Authorised(log, connection, basis)
  {
    if cid != 0 && command >= 0x80 && |data| <= MAX_PAYLOAD {
      EmitIsAuthorised(w, CtaphidTx.Frames(cid, command, data), connection, slots, basis);
    }
  }

  // ---- the transport's own state, protected by the core mutex

  datatype Claim = Claim(cid: u32, operation: u32, connection: nat, command: byte, owner: nat)

  /** Where the transport task is in its loop, with the locals it still needs. */
  datatype Place =
    | AtTop
    | NeedReset
    | Checked
    | Read(generation: nat)
    | Synced(epoch: nat)
    | Popped(item: Item, epoch: nat)
    | Holding(item: Item, epoch: nat)
    | Tidying

  datatype Sys = Sys(
    world: World, core: State, claim: Option<Claim>, messageConnection: nat,
    seen: nat, epoch: nat, place: Place, heard: set<nat>, wire: seq<Sent>)

  function Start(bus: Bus): Sys {
    Sys(World(bus, false, 0), BOOT, None, 0, bus.generation, 0, AtTop, {}, [])
  }

  function ResetCore(s: Sys): Sys {
    s.(core := BOOT, claim := None, messageConnection := 0, epoch := s.epoch + 1, heard := {})
  }

  /** Clears the reset flag, resets the receiver and drops the reports still queued. */
  function ServeReset(s: Sys): Sys {
    ResetCore(s).(world := s.world.(resetRequested := false, bus := s.world.bus.(queue := [])))
  }

  /** The claim stands, with the flag, the generation and the readiness read one after another. */
  predicate ClaimMatches(s: Sys, core: State, cid: u32, flagRead: World, generationRead: World, readyRead: World) {
    && !flagRead.resetRequested
    && s.claim.Some? && s.claim.value.cid == cid
    && s.seen == s.claim.value.connection == generationRead.bus.generation
    && readyRead.bus.ready
    && Holds(core, cid, s.claim.value.operation)
  }

  datatype Step =
    | Outside(events: seq<WorldEvent>)
    | LockTimeout
    | CheckReset
    | RunReset
    | ReadGeneration
    | Sync
    | Pop
    | Confirm
    | Tidy(now: u32)
    | DeliverReport(now: u32, draws: Draws, gaps: seq<seq<WorldEvent>>, slots: seq<Slot>)
    | ResetAll
    | TakeMsg(cap: nat, owner: nat, gaps: seq<seq<WorldEvent>>)
    | SendMsg(cid: u32, command: byte, data: seq<byte>, owner: nat, gaps: seq<seq<WorldEvent>>, slots: seq<Slot>)
    | SendKeepalive(cid: u32, status: byte, owner: nat, now: u32, sentMs: u32, gaps: seq<seq<WorldEvent>>, slots: seq<Slot>)
    | Uncancel(cid: u32, owner: nat, gaps: seq<seq<WorldEvent>>)

  // ---- the steps of the transport task

  /** One report, under the mutex, unless a reset or a new connection came in between. */
  function DeliverHeld(s: Sys, now: u32, draws: Draws, gaps: seq<seq<WorldEvent>>, slots: seq<Slot>): Sys
    requires Inv(s.core) && s.place.Holding?
  {
    var item := s.place.item;
    var generationRead := Meanwhile(s.world, Gap(gaps, 0));
    var current := generationRead.bus.generation;
    var s1 := s.(world := Meanwhile(generationRead, Gap(gaps, 1)), place := AtTop);
    var requested := s1.world.resetRequested;
    var raced := s.epoch != s.place.epoch || requested;
    var s2 := if requested then ServeReset(s1) else s1;
    if current != item.generation || raced then Resee(s2, current, raced)
    else Accept(Resee(s2, current, raced), item, now, draws, gaps, slots)
  }

  /** Notes the connection in force; a change resets the receiver unless a reset just ran. */
  function Resee(s: Sys, current: nat, raced: bool): Sys {
    if current == s.seen then s
    else if raced then s.(seen := current)
    else ResetCore(s).(seen := current)
  }

  function Accept(s: Sys, item: Item, now: u32, draws: Draws, gaps: seq<seq<WorldEvent>>, slots: seq<Slot>): Sys
    requires Inv(s.core)
  {
    var (core, action) := Feed(s.core, item.report, now, draws);
    var flagRead := Meanwhile(s.world, Gap(gaps, 2));
    var generationRead := Meanwhile(flagRead, Gap(gaps, 3));
    var readyRead := Meanwhile(generationRead, Gap(gaps, 4));
    var stands := s.claim.Some? && ClaimMatches(s, core, s.claim.value.cid, flagRead, generationRead, readyRead);
    var fed := s.(core := core, heard := s.heard + {item.generation}, world := readyRead,
                  claim := if stands then s.claim else None);
    match action
    case Reply(cid, command, data, generation) =>
      var (w, log) := SendMessage(readyRead, cid, command, data, item.generation, slots, fed.heard);
      fed.(world := w, wire := s.wire + log, core := if generation != 0 then Finish(core, cid, generation) else core)
    case Deliver(m) => fed.(messageConnection := item.generation)
    case _ => fed
  }

  // ---- the steps of the application

  function ClaimMessage(s: Sys, cap: nat, owner: nat, gaps: seq<seq<WorldEvent>>): Sys {
    var flagRead := Meanwhile(s.world, Gap(gaps, 0));
    var readyRead := Meanwhile(flagRead, Gap(gaps, 1));
    var generationRead := Meanwhile(readyRead, Gap(gaps, 2));
    var again := Meanwhile(generationRead, Gap(gaps, 3));
    var s' := s.(world := again);
    if flagRead.resetRequested || s.claim.Some? then s'
    else if !readyRead.bus.ready || generationRead.bus.generation != s.seen then s'
    else if s.core.ready.Some? && again.bus.generation != s.messageConnection then ResetCore(s')
    else
      match Take(s.core, cap)
      case (core, Took(m)) =>
        s'.(core := core, messageConnection := 0,
            claim := Some(Claim(m.cid, m.generation, s.messageConnection, m.command, owner)))
      case _ => s'
  }

  /** Whether task `owner` still holds the claim on `cid`, and the world once that is known. */
  function Owned(s: Sys, cid: u32, owner: nat, gaps: seq<seq<WorldEvent>>): (bool, World) {
    var flagRead := Meanwhile(s.world, Gap(gaps, 0));
    var generationRead := Meanwhile(flagRead, Gap(gaps, 1));
    var readyRead := Meanwhile(generationRead, Gap(gaps, 2));
    (ClaimMatches(s, s.core, cid, flagRead, generationRead, readyRead) && s.claim.value.owner == owner, readyRead)
  }

  function Respond(s: Sys, cid: u32, command: byte, data: seq<byte>, owner: nat,
                   gaps: seq<seq<WorldEvent>>, slots: seq<Slot>): Sys
  {
    var (mine, w) := Owned(s, cid, owner, gaps);
    if cid == 0 || command < 0x80 || |data| > MAX_PAYLOAD then s
    else if !mine || s.claim.value.command != command then s.(world := w)
    else
      var claim := s.claim.value;
      var response := if command == CBOR && IsCancelled(s.core, cid, claim.operation) then [ERR_KEEPALIVE_CANCEL] else data;
      var (w', log) := SendMessage(w, cid, command, response, claim.connection, slots, s.heard);
      s.(world := w', wire := s.wire + log, core := Finish(s.core, cid, claim.operation), claim := None)
  }

  function Beat(s: Sys, cid: u32, status: byte, owner: nat, now: u32, sentMs: u32,
                gaps: seq<seq<WorldEvent>>, slots: seq<Slot>): Sys
  {
    var (mine, w) := Owned(s, cid, owner, gaps);
    if status != KEEPALIVE_PROCESSING && status != KEEPALIVE_UP_NEEDED then s
    else if !mine || s.claim.value.command != CBOR || IsCancelled(s.core, cid, s.claim.value.operation) then s.(world := w)
    else
      var last := s.core.phase.keepalive;
      if last.Some? && last.value.status == status && !Expired(now, last.value.sentMs, KEEPALIVE_MS) then s.(world := w)
      else
        var (w', log) := SendMessage(w, cid, KEEPALIVE, [status], s.claim.value.connection, slots, s.heard);
        s.(world := w', wire := s.wire + log,
           core := if |log| == 1 then NoteKeepalive(s.core, cid, status, sentMs) else s.core)
  }

  function Next(s: Sys, step: Step): Sys
    requires Inv(s.core)
  {
    match step
    case Outside(es) => s.(world := Meanwhile(s.world, es))
    case LockTimeout =>
      if s.place.NeedReset? || s.place.Read? || s.place.Tidying? || s.place.Holding? then s.(place := AtTop) else s
    case CheckReset =>
      if s.place.AtTop? then s.(place := if s.world.resetRequested then NeedReset else Checked) else s
    case RunReset =>
      if !s.place.NeedReset? then s
      else if s.world.resetRequested then ServeReset(s).(place := Checked)
      else s.(place := Checked)
    case ReadGeneration =>
      if s.place.Checked? then s.(place := Read(s.world.bus.generation)) else s
    case Sync =>
      if !s.place.Read? then s
      else
        var s' := if s.place.generation != s.seen then ResetCore(s).(seen := s.place.generation) else s;
        s'.(place := Synced(s'.epoch))
    case Pop =>
      var bus := s.world.bus;
      if !s.place.Synced? then s
      else if bus.queue != [] then
        s.(world := s.world.(bus := bus.(queue := bus.queue[1..])), place := Popped(bus.queue[0], s.place.epoch))
      else s.(place := if bus.ready then Tidying else AtTop)
    case Confirm =>
      if !s.place.Popped? then s
      else if s.world.bus.ready && s.world.bus.generation == s.place.item.generation
      then s.(place := Holding(s.place.item, s.place.epoch))
      else s.(place := AtTop)
    case Tidy(now) => if s.place.Tidying? then s.(core := Expire(s.core, now), place := AtTop) else s
    case DeliverReport(now, draws, gaps, slots) => if s.place.Holding? then DeliverHeld(s, now, draws, gaps, slots) else s
    case ResetAll =>
      if s.world.resetters == 0 then s
      else ServeReset(s.(world := s.world.(resetters := s.world.resetters - 1)))
    case TakeMsg(cap, owner, gaps) => ClaimMessage(s, cap, owner, gaps)
    case SendMsg(cid, command, data, owner, gaps, slots) => Respond(s, cid, command, data, owner, gaps, slots)
    case SendKeepalive(cid, status, owner, now, sentMs, gaps, slots) => Beat(s, cid, status, owner, now, sentMs, gaps, slots)
    case Uncancel(cid, owner, gaps) =>
      var (mine, w) := Owned(s, cid, owner, gaps);
      if mine then s.(world := w, core := ClearCancel(s.core, cid, s.claim.value.operation)) else s.(world := w)
  }
}
