/**
  What the transport does for the application, told by what a caller can observe beforehand and by the events that
  fall into a step: when a request is handed over, what an answer and a keepalive put on the wire, and that
  nothing else is ever put there.
*/
module CtaphidDelivery {
  import opened Bytes
  import opened Wire
  import opened UsbQueue
  import opened UsbBus
  import opened CtaphidProtocol
  import opened CtaphidTransport
  import opened CtaphidIsolation
  import CtaphidTx

  // ---- connections through events

  predicate NoAsk(es: seq<WorldEvent>) {
    forall i :: 0 <= i < |es| ==> !es[i].AskReset?
  }

  /** Neither a reset is asked for nor does a connection begin or end. */
  predicate Calm(es: seq<WorldEvent>) {
    NoAsk(es) && Undisturbed(es)
  }

  lemma {:induction false} MeanwhileAsks(w: World, es: seq<WorldEvent>)
    ensures Meanwhile(w, es).resetRequested <==> w.resetRequested || !NoAsk(es)
    decreases |es|
  {
    if es != [] {
      MeanwhileAsks(Happens(w, es[0]), es[1..]);
      assert forall i :: 0 <= i < |es| - 1 ==> es[1..][i] == es[i + 1];
      assert forall i :: 0 < i < |es| ==> es[i] == es[1..][i - 1];
    }
  }

  /** The connection is the one in force, and no reset is waiting. */
  predicate Live(w: World, connection: nat) {
    !w.resetRequested && w.bus.ready && w.bus.generation == connection
  }

  /** It has ended, or a reset is waiting. */
  predicate Dead(w: World, connection: nat) {
    w.resetRequested || w.bus.generation > connection
  }

  lemma LiveThrough(w: World, connection: nat, es: seq<WorldEvent>)
    requires BusInv(w.bus)
    ensures BusInv(Meanwhile(w, es).bus)
    ensures Live(w, connection) && Calm(es) ==> Live(Meanwhile(w, es), connection)
    ensures Live(w, connection) && !Calm(es) ==> Dead(Meanwhile(w, es), connection)
    ensures Dead(w, connection) ==> Dead(Meanwhile(w, es), connection)
  {
    MeanwhileIsLater(w, es);
    MeanwhileMoves(w, es);
    MeanwhileAsks(w, es);
  }

  // ---- a burst of reports

  /** The events and the controller let report `n` out, and every one before it. */
  predicate Passes(slots: seq<Slot>, n: nat) {
    && n < |slots|
    && (forall i :: 0 <= i <= n ==> slots[i].accepted && Calm(slots[i].before) && Undisturbed(slots[i].checking))
    && (forall i :: 0 <= i < n ==> NoAsk(slots[i].checking) && Calm(slots[i].window))
  }

  lemma {:induction false} DeadEmitsNothing(w: World, frames: seq<Report>, connection: nat, slots: seq<Slot>, basis: set<nat>)
    requires BusInv(w.bus) && Dead(w, connection)
    ensures Emit(w, frames, connection, slots, basis).1 == []
  {
    if frames != [] && slots != [] {
      LiveThrough(w, connection, slots[0].before);
      MeanwhileIsLater(Meanwhile(w, slots[0].before), slots[0].checking);
    }
  }

  lemma PassesRest(slots: seq<Slot>, n: nat)
    requires n > 0
    ensures Passes(slots, n) <==>
              && slots != [] && slots[0].accepted && Calm(slots[0].before) && Calm(slots[0].checking)
              && Calm(slots[0].window) && Passes(slots[1..], n - 1)
  {
    if slots != [] {
      assert forall i :: 0 <= i < |slots| - 1 ==> slots[1..][i] == slots[i + 1];
      assert forall i :: 0 < i < |slots| ==> slots[i] == slots[1..][i - 1];
    }
  }

  /** Report `n` goes out exactly when it and all before it pass. */
  lemma {:induction false} EmitsExactly(w: World, frames: seq<Report>, connection: nat, slots: seq<Slot>, basis: set<nat>, n: nat)
    requires BusInv(w.bus) && Live(w, connection)
    ensures var log := Emit(w, frames, connection, slots, basis).1;
            && (n < |log| <==> n < |frames| && Passes(slots, n))
            && (n < |log| ==> log[n].report == frames[n])
    decreases n
  {
    hide Meanwhile, Calm, Live, Dead;
    if frames == [] || slots == [] {
      return;
    }
    var flagRead := Meanwhile(w, slots[0].before);
    LiveThrough(w, connection, slots[0].before);
    var checked := Meanwhile(flagRead, slots[0].checking);
    LiveThrough(flagRead, connection, slots[0].checking);
    var submitted := Meanwhile(checked, slots[0].window);
    LiveThrough(checked, connection, slots[0].window);
    EmitsOrNot(w, frames, connection, slots, basis);
    if n > 0 {
      PassesRest(slots, n);
      if Live(submitted, connection) {
        EmitsExactly(submitted, frames[1..], connection, slots[1..], basis, n - 1);
      } else {
        DeadEmitsNothing(submitted, frames[1..], connection, slots[1..], basis);
      }
    }
  }

  /** The first report goes out exactly when it passes; the rest follows from where it left the world. */
  lemma EmitsOrNot(w: World, frames: seq<Report>, connection: nat, slots: seq<Slot>, basis: set<nat>)
    requires BusInv(w.bus) && Live(w, connection) && frames != [] && slots != []
    ensures var checked := Meanwhile(Meanwhile(w, slots[0].before), slots[0].checking);
            var submitted := Meanwhile(checked, slots[0].window);
            var log := Emit(w, frames, connection, slots, basis).1;
            && (log != [] <==> Passes(slots, 0))
            && (log != [] ==> log[0].report == frames[0]
                              && log[1..] == Emit(submitted, frames[1..], connection, slots[1..], basis).1
                              && (Live(submitted, connection) || Dead(submitted, connection))
                              && (Live(submitted, connection) <==> Calm(slots[0].checking) && Calm(slots[0].window)))
  {
    var flagRead := Meanwhile(w, slots[0].before);
    LiveThrough(w, connection, slots[0].before);
    var checked := Meanwhile(flagRead, slots[0].checking);
    LiveThrough(flagRead, connection, slots[0].checking);
    MeanwhileIsLater(flagRead, slots[0].checking);
    MeanwhileMoves(flagRead, slots[0].checking);
    LiveThrough(checked, connection, slots[0].window);
  }

  // ---- claims

  /** The three reads of a step that needs a claim, one after another. */
  function Reads(s: Sys, gaps: seq<seq<WorldEvent>>): World {
    Meanwhile(Meanwhile(Meanwhile(s.world, Gap(gaps, 0)), Gap(gaps, 1)), Gap(gaps, 2))
  }

  /**
    A task's claim stands if and only if it is its own and on this channel, the connection it came on is in force
    and no reset is asked for, and the events between the reads leave it so.
  */
  lemma OwnedExactlyWhen(s: Sys, cid: u32, owner: nat, gaps: seq<seq<WorldEvent>>)
    requires SysInv(s)
    ensures var (mine, w) := Owned(s, cid, owner, gaps);
            && w == Reads(s, gaps) && BusInv(w.bus)
            && (mine <==> s.claim.Some? && s.claim.value.cid == cid && s.claim.value.owner == owner
                          && !s.world.resetRequested && s.world.bus.generation == s.claim.value.connection
                          && Calm(Gap(gaps, 0)) && Undisturbed(Gap(gaps, 1)) && w.bus.ready)
            && (mine ==> Holds(s.core, cid, s.claim.value.operation) && s.claim.value.command == CBOR)
            && (mine && NoAsk(Gap(gaps, 1)) && Calm(Gap(gaps, 2)) ==> Live(w, s.claim.value.connection))
            && (mine && !(NoAsk(Gap(gaps, 1)) && Calm(Gap(gaps, 2))) ==> Dead(w, s.claim.value.connection))
  {
    hide Meanwhile, Inv, Isolated, PlaceOk, NotOrphaned;
    var flagRead := Meanwhile(s.world, Gap(gaps, 0));
    MeanwhileAsks(s.world, Gap(gaps, 0));
    MeanwhileMoves(s.world, Gap(gaps, 0));
    MeanwhileIsLater(s.world, Gap(gaps, 0));
    var generationRead := Meanwhile(flagRead, Gap(gaps, 1));
    MeanwhileAsks(flagRead, Gap(gaps, 1));
    MeanwhileMoves(flagRead, Gap(gaps, 1));
    MeanwhileIsLater(flagRead, Gap(gaps, 1));
    MeanwhileAsks(generationRead, Gap(gaps, 2));
    MeanwhileMoves(generationRead, Gap(gaps, 2));
    MeanwhileIsLater(generationRead, Gap(gaps, 2));
  }

  /** What was put on the wire since. */
  function News(before: Sys, after: Sys): seq<Sent>
    requires |before.wire| <= |after.wire|
  {
    after.wire[|before.wire|..]
  }

  /** A burst that goes out under a claim: the frames of one message in order, each exactly if it passes. */
  ghost predicate Bursts(log: seq<Sent>, frames: seq<Report>, gaps: seq<seq<WorldEvent>>, slots: seq<Slot>) {
    forall n: nat :: InBurst(log, frames, gaps, slots, n)
  }

  predicate InBurst(log: seq<Sent>, frames: seq<Report>, gaps: seq<seq<WorldEvent>>, slots: seq<Slot>, n: nat) {
    && (n < |log| <==> n < |frames| && NoAsk(Gap(gaps, 1)) && Calm(Gap(gaps, 2)) && Passes(slots, n))
    && (n < |log| ==> log[n].report == frames[n])
  }

  lemma BurstAt(log: seq<Sent>, frames: seq<Report>, gaps: seq<seq<WorldEvent>>, slots: seq<Slot>, n: nat)
    requires Bursts(log, frames, gaps, slots)
    ensures n < |log| <==> n < |frames| && NoAsk(Gap(gaps, 1)) && Calm(Gap(gaps, 2)) && Passes(slots, n)
    ensures n < |log| ==> log[n].report == frames[n]
  {
    assert InBurst(log, frames, gaps, slots, n);
  }

  lemma SendBursts(s: Sys, cid: u32, command: byte, data: seq<byte>, owner: nat, gaps: seq<seq<WorldEvent>>, slots: seq<Slot>)
    requires SysInv(s) && Owned(s, cid, owner, gaps).0 && cid != 0 && command >= 0x80 && |data| <= MAX_PAYLOAD
    ensures Bursts(SendMessage(Owned(s, cid, owner, gaps).1, cid, command, data, s.claim.value.connection, slots, s.heard).1,
                   CtaphidTx.Frames(cid, command, data), gaps, slots)
  {
    hide Owned, Emit, Bursts, Calm, NoAsk, Inv, Reads;
    OwnedExactlyWhen(s, cid, owner, gaps);
    EmitBursts(Owned(s, cid, owner, gaps).1, CtaphidTx.Frames(cid, command, data), s.claim.value.connection, gaps, slots, s.heard);
  }

  lemma EmitBursts(w: World, frames: seq<Report>, connection: nat, gaps: seq<seq<WorldEvent>>, slots: seq<Slot>, basis: set<nat>)
    requires BusInv(w.bus)
    requires if NoAsk(Gap(gaps, 1)) && Calm(Gap(gaps, 2)) then Live(w, connection) else Dead(w, connection)
    ensures Bursts(Emit(w, frames, connection, slots, basis).1, frames, gaps, slots)
  {
    hide Emit, Passes, Calm, NoAsk;
    forall n: nat
      ensures InBurst(Emit(w, frames, connection, slots, basis).1, frames, gaps, slots, n)
    {
      if NoAsk(Gap(gaps, 1)) && Calm(Gap(gaps, 2)) {
        EmitsExactly(w, frames, connection, slots, basis, n);
      } else {
        DeadEmitsNothing(w, frames, connection, slots, basis);
      }
    }
  }

  // ---- answering

  /** What answers a request: the data given for it, unless a CBOR request was cancelled, which one byte says. */
  predicate IsAnswer(s: Sys, command: byte, data: seq<byte>, d: seq<byte>)
    requires s.core.phase.Processing?
  {
    && (command != 0x90 || !s.core.phase.cancelled ==> d == data)
    && (command == 0x90 && s.core.phase.cancelled ==> d == [0x2d])
  }

  /**
    Under a standing claim the answer goes out frame by frame, as far as events and controller let it, and the
    transaction and the claim are over. Without one nothing happens.
  */
  lemma RespondSends(s: Sys, cid: u32, command: byte, data: seq<byte>, owner: nat, gaps: seq<seq<WorldEvent>>,
                     slots: seq<Slot>, d: seq<byte>)
    requires SysInv(s) && cid != 0 && command >= 0x80 && |data| <= MAX_PAYLOAD && |d| <= MAX_PAYLOAD
    requires s.core.phase.Processing? ==> IsAnswer(s, command, data, d)
    ensures var s' := Next(s, SendMsg(cid, command, data, owner, gaps, slots));
            if Owned(s, cid, owner, gaps).0 && s.claim.value.command == command then
              && s.wire <= s'.wire && Bursts(News(s, s'), CtaphidTx.Frames(cid, command, d), gaps, slots)
              && s'.core.phase.Idle? && s'.core.ready.None? && s'.core.gens == s.core.gens && s'.core.tombs == s.core.tombs
              && s'.claim.None?
            else s' == s.(world := s'.world)
  {
    hide Emit, Passes, Calm, NoAsk, Inv, Meanwhile, Bursts, SendMessage;
    OwnedExactlyWhen(s, cid, owner, gaps);
    if Owned(s, cid, owner, gaps).0 && s.claim.value.command == command {
      SendBursts(s, cid, command, d, owner, gaps, slots);
      var log := SendMessage(Owned(s, cid, owner, gaps).1, cid, command, d, s.claim.value.connection, slots, s.heard).1;
      assert (s.wire + log)[|s.wire|..] == log;
    }
  }

  // ---- keepalives

  /** A keepalive is due: none was sent for this transaction, or with another status, or long enough ago. */
  predicate Due(core: State, status: byte, now: u32)
    requires core.phase.Processing?
  {
    var last := core.phase.keepalive;
    last.None? || last.value.status != status || (now - last.value.sentMs) % 0x1_0000_0000 >= 100
  }

  /**
    One keepalive report with the status goes out exactly under a standing claim that is not cancelled, for one of
    the two statuses, when it is due and passes; it is marked as sent then and only then.
  */
  lemma BeatSends(s: Sys, cid: u32, status: byte, owner: nat, now: u32, sentMs: u32, gaps: seq<seq<WorldEvent>>, slots: seq<Slot>)
    requires SysInv(s)
    ensures var s' := Next(s, SendKeepalive(cid, status, owner, now, sentMs, gaps, slots));
            if status in {1, 2} && Owned(s, cid, owner, gaps).0 && !s.core.phase.cancelled && Due(s.core, status, now)
               && NoAsk(Gap(gaps, 1)) && Calm(Gap(gaps, 2)) && Passes(slots, 0)
            then
              && |s'.wire| == |s.wire| + 1 && s.wire <= s'.wire
              && s'.wire[|s.wire|].report == CtaphidTx.InitFrame(cid, 0xbb, [status])
              && s'.core == s.core.(phase := s.core.phase.(keepalive := Some(Keepalive(status, sentMs))))
            else s'.wire == s.wire && s'.core == s.core
  {
    hide Emit, Passes, Calm, NoAsk, Meanwhile, SendMessage, Owned, Inv, Isolated, PlaceOk, NotOrphaned;
    OwnedExactlyWhen(s, cid, owner, gaps);
    if Owned(s, cid, owner, gaps).0 {
      ClaimedChannel(s);
      SendBursts(s, cid, KEEPALIVE, [status], owner, gaps, slots);
      var log := SendMessage(Owned(s, cid, owner, gaps).1, cid, KEEPALIVE, [status], s.claim.value.connection, slots, s.heard).1;
      BurstAt(log, CtaphidTx.Frames(cid, KEEPALIVE, [status]), gaps, slots, 0);
      BurstAt(log, CtaphidTx.Frames(cid, KEEPALIVE, [status]), gaps, slots, 1);
      assert CtaphidTx.Frames(cid, KEEPALIVE, [status])[0] == CtaphidTx.InitFrame(cid, KEEPALIVE, [status]);
    }
  }

  lemma ClaimedChannel(s: Sys)
    requires SysInv(s) && s.claim.Some?
    ensures s.claim.value.cid != 0 && s.core.phase.Processing? && s.core.phase.cid == s.claim.value.cid
  {
  }

  // ---- handing over a request

  /**
    A request is handed over exactly when it waits and fits, nobody holds one, no reset is asked for, the
    connection it came on is in force and no event between the reads ends that. Then it belongs to the task that
    took it, with the connection and the token it came with.
  */
  lemma TakenExactlyWhen(s: Sys, cap: nat, owner: nat, gaps: seq<seq<WorldEvent>>)
    requires SysInv(s)
    ensures var s' := Next(s, TakeMsg(cap, owner, gaps));
            && (s'.claim != s.claim <==>
                  && s.claim.None? && s.core.ready.Some? && |s.core.ready.value.payload| <= cap
                  && !s.world.resetRequested && s.world.bus.generation == s.seen
                  && Calm(Gap(gaps, 0)) && Undisturbed(Gap(gaps, 1)) && Undisturbed(Gap(gaps, 2)) && Undisturbed(Gap(gaps, 3)))
            && (s'.claim != s.claim ==>
                  var m := s.core.ready.value;
                  && s'.claim == Some(Claim(m.cid, m.generation, s.seen, m.command, owner))
                  && s'.core == s.core.(ready := None) && s'.heard == s.heard && s'.wire == s.wire
                  && Holds(s'.core, m.cid, m.generation))
  {
    hide Meanwhile, Inv, Isolated, PlaceOk, NotOrphaned;
    var flagRead := Meanwhile(s.world, Gap(gaps, 0));
    MeanwhileAsks(s.world, Gap(gaps, 0));
    MeanwhileMoves(s.world, Gap(gaps, 0));
    MeanwhileIsLater(s.world, Gap(gaps, 0));
    var readyRead := Meanwhile(flagRead, Gap(gaps, 1));
    MeanwhileMoves(flagRead, Gap(gaps, 1));
    MeanwhileIsLater(flagRead, Gap(gaps, 1));
    var generationRead := Meanwhile(readyRead, Gap(gaps, 2));
    MeanwhileMoves(readyRead, Gap(gaps, 2));
    MeanwhileIsLater(readyRead, Gap(gaps, 2));
    MeanwhileMoves(generationRead, Gap(gaps, 3));
    if s.core.ready.Some? {
      WaitingIsProcessed(s);
    }
  }

  lemma WaitingIsProcessed(s: Sys)
    requires SysInv(s) && s.core.ready.Some?
    ensures Holds(s.core, s.core.ready.value.cid, s.core.ready.value.generation) && s.heard == {s.seen}
  {
  }
}
