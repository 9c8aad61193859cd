/**
  Every run of the transport is a run of the receiver's protocol: what holds of the one over all operations holds
  of the other over all interleavings.
*/
module CtaphidLift {
  import opened Bytes
  import opened Wire
  import opened UsbQueue
  import opened UsbBus
  import opened CtaphidProtocol
  import opened CtaphidTransport
  import opened CtaphidIsolation
  import opened CtaphidDelivery
  import opened CtaphidCancels
  import CtaphidTx
  import R = CtaphidRuns
  import T = CtaphidTimeouts
  import K = CtaphidTokens

  type Ops = seq<R.Op>

  // ---- what each step does to the receiver

  function When(b: bool, op: R.Op): Ops {
    if b then [op] else []
  }

  /** Feeding a report, and finishing a reply that ends its own transaction. */
  function AcceptOps(core: State, report: Report, now: u32, draws: Draws): Ops
    requires Inv(core)
  {
    var a := Feed(core, report, now, draws).1;
    [R.Packet(report, now, draws)]
    + if a.Reply? && a.generation != 0 then [R.FinishResponse(a.cid, a.generation)] else []
  }

  function DeliverOps(s: Sys, now: u32, draws: Draws, gaps: seq<seq<WorldEvent>>): Ops
    requires Inv(s.core) && s.place.Holding?
  {
    var generationRead := Meanwhile(s.world, Gap(gaps, 0));
    var current := generationRead.bus.generation;
    var requested := Meanwhile(generationRead, Gap(gaps, 1)).resetRequested;
    var raced := s.epoch != s.place.epoch || requested;
    var resync := current != s.seen && !raced;
    When(requested || resync, R.Reset)
    + if current != s.place.item.generation || raced then []
      else
        assert Inv(BOOT);
        AcceptOps(if resync then BOOT else s.core, s.place.item.report, now, draws)
  }

  function TakeOps(s: Sys, cap: nat, gaps: seq<seq<WorldEvent>>): Ops {
    var flagRead := Meanwhile(s.world, Gap(gaps, 0));
    var readyRead := Meanwhile(flagRead, Gap(gaps, 1));
    var generationRead := Meanwhile(readyRead, Gap(gaps, 2));
    if flagRead.resetRequested || s.claim.Some? || !readyRead.bus.ready || generationRead.bus.generation != s.seen then []
    else if s.core.ready.Some? && Meanwhile(generationRead, Gap(gaps, 3)).bus.generation != s.messageConnection then [R.Reset]
    else [R.TakeMessage(cap)]
  }

  function OpsOf(s: Sys, step: Step): Ops
    requires Inv(s.core)
  {
    match step
    case RunReset => When(s.place.NeedReset? && s.world.resetRequested, R.Reset)
    case Sync => When(s.place.Read? && s.place.generation != s.seen, R.Reset)
    case Tidy(now) => When(s.place.Tidying?, R.Tick(now))
    case ResetAll => When(s.world.resetters > 0, R.Reset)
    case DeliverReport(now, draws, gaps, _) => if s.place.Holding? then DeliverOps(s, now, draws, gaps) else []
    case TakeMsg(cap, _, gaps) => TakeOps(s, cap, gaps)
    case SendMsg(cid, command, data, owner, gaps, _) =>
      if cid != 0 && command >= 0x80 && |data| <= MAX_PAYLOAD
         && Owned(s, cid, owner, gaps).0 && s.claim.value.command == command
      then [R.FinishResponse(cid, s.claim.value.operation)] else []
    case SendKeepalive(cid, status, owner, now, sentMs, gaps, slots) =>
      When(|Next(s, step).wire| > |s.wire|, R.KeepaliveSent(cid, status, sentMs))
    case Uncancel(cid, owner, gaps) =>
      if Owned(s, cid, owner, gaps).0 then [R.Uncancel(cid, s.claim.value.operation)] else []
    case _ => []
  }

  lemma RunOne(s: State, op: R.Op)
    requires Inv(s)
    ensures R.Run(s, [op]).0 == R.Step(s, op).0
  {
    assert [op][1..] == [];
    T.RunOfFirst(s, [op]);
    T.RunOfNone(R.Step(s, op).0);
  }

  lemma RunWhen(s: State, b: bool, op: R.Op)
    requires Inv(s)
    ensures R.Run(s, When(b, op)).0 == if b then R.Step(s, op).0 else s
  {
    RunOne(s, op);
    T.RunOfNone(s);
  }

  lemma AcceptIsRun(s: Sys, item: Item, now: u32, draws: Draws, gaps: seq<seq<WorldEvent>>, slots: seq<Slot>)
    requires Inv(s.core)
    ensures R.Run(s.core, AcceptOps(s.core, item.report, now, draws)).0 == Accept(s, item, now, draws, gaps, slots).core
  {
    hide Meanwhile, SendMessage, ClaimMatches, Inv, R.Run, Finish, Feed;
    var packet := R.Packet(item.report, now, draws);
    var (core, a) := Feed(s.core, item.report, now, draws);
    FeedKeepsInv(s.core, item.report, now, draws);
    RunOne(s.core, packet);
    var finish := a.Reply? && a.generation != 0;
    var rest := if finish then [R.FinishResponse(a.cid, a.generation)] else [];
    T.RunOfBoth(s.core, [packet], rest);
    if finish {
      RunOne(core, R.FinishResponse(a.cid, a.generation));
    } else {
      T.RunOfNone(core);
    }
  }

  lemma DeliverIsRun(s: Sys, now: u32, draws: Draws, gaps: seq<seq<WorldEvent>>, slots: seq<Slot>)
    requires SysInv(s) && s.place.Holding?
    ensures R.Run(s.core, DeliverOps(s, now, draws, gaps)).0 == DeliverHeld(s, now, draws, gaps, slots).core
  {
    hide Meanwhile, Accept, Inv, R.Run, R.Step, AcceptOps;
    assert Inv(s.core) && Inv(BOOT) by { GoodCores(s); }
    var item := s.place.item;
    var generationRead := Meanwhile(s.world, Gap(gaps, 0));
    var current := generationRead.bus.generation;
    var s1 := s.(world := Meanwhile(generationRead, Gap(gaps, 1)), place := AtTop);
    var requested := s1.world.resetRequested;
    var raced := s.epoch != s.place.epoch || requested;
    var resync := current != s.seen && !raced;
    RunWhen(s.core, requested || resync, R.Reset);
    ResetBoots(s.core);
    var middle := if requested || resync then BOOT else s.core;
    if current != item.generation || raced {
      assert When(requested || resync, R.Reset) + [] == When(requested || resync, R.Reset);
    } else {
      var s2 := Resee(s1, current, raced);
      assert s2.core == middle;
      AcceptIsRun(s2, item, now, draws, gaps, slots);
      T.RunOfBoth(s.core, When(resync, R.Reset), AcceptOps(middle, item.report, now, draws));
    }
  }

  lemma ResetBoots(s: State)
    requires Inv(s)
    ensures R.Step(s, R.Reset).0 == BOOT
  {
  }

  lemma GoodCores(s: Sys)
    requires SysInv(s)
    ensures Inv(s.core) && Inv(BOOT)
  {
  }

  lemma TakeIsRun(s: Sys, cap: nat, owner: nat, gaps: seq<seq<WorldEvent>>)
    requires SysInv(s)
    ensures R.Run(s.core, TakeOps(s, cap, gaps)).0 == ClaimMessage(s, cap, owner, gaps).core
  {
    hide Meanwhile, R.Run;
    RunOne(s.core, R.TakeMessage(cap));
    RunOne(s.core, R.Reset);
    T.RunOfNone(s.core);
  }

  lemma BeatIsRun(s: Sys, cid: u32, status: byte, owner: nat, now: u32, sentMs: u32, gaps: seq<seq<WorldEvent>>, slots: seq<Slot>)
    requires SysInv(s)
    ensures var step := SendKeepalive(cid, status, owner, now, sentMs, gaps, slots);
            R.Run(s.core, OpsOf(s, step)).0 == Next(s, step).core
  {
    hide Owned, Inv, Meanwhile, Emit, Beat, Passes, Calm, NoAsk, R.Run, Isolated, PlaceOk, NotOrphaned;
    assert Inv(s.core) && Inv(BOOT) by { GoodCores(s); }
    OwnedExactlyWhen(s, cid, owner, gaps);
    BeatSends(s, cid, status, owner, now, sentMs, gaps, slots);
    RunWhen(s.core, |Next(s, SendKeepalive(cid, status, owner, now, sentMs, gaps, slots)).wire| > |s.wire|,
            R.KeepaliveSent(cid, status, sentMs));
  }

  /** What a step of the transport does to the receiver is what these operations of the protocol do. */
  lemma NextIsRun(s: Sys, step: Step)
    requires SysInv(s)
    ensures Inv(s.core) && R.Run(s.core, OpsOf(s, step)).0 == Next(s, step).core
  {
    hide SysInv, Inv, Meanwhile, DeliverHeld, DeliverOps, TakeOps, ClaimMessage, Owned, SendMessage, R.Run, Beat;
    GoodCores(s);
    T.RunOfNone(s.core);
    match step
    case DeliverReport(now, draws, gaps, slots) =>
      if s.place.Holding? { DeliverIsRun(s, now, draws, gaps, slots); }
    case TakeMsg(cap, owner, gaps) => TakeIsRun(s, cap, owner, gaps);
    case SendMsg(cid, command, data, owner, gaps, slots) =>
      if Owned(s, cid, owner, gaps).0 {
        OwnedExactlyWhen(s, cid, owner, gaps);
        RunOne(s.core, R.FinishResponse(cid, s.claim.value.operation));
      }
    case SendKeepalive(cid, status, owner, now, sentMs, gaps, slots) =>
      BeatIsRun(s, cid, status, owner, now, sentMs, gaps, slots);
    case Uncancel(cid, owner, gaps) =>
      if Owned(s, cid, owner, gaps).0 {
        OwnedExactlyWhen(s, cid, owner, gaps);
        RunOne(s.core, R.Uncancel(cid, s.claim.value.operation));
      }
    case Tidy(now) => RunOne(s.core, R.Tick(now));
    case _ => RunOne(s.core, R.Reset);
  }

  // ---- whole runs

  /** What a run of the transport does to the receiver. */
  function History(s: Sys, steps: seq<Step>): Ops
    requires SysInv(s)
    decreases |steps|
  {
    if steps == [] then []
    else
      NextKeeps(s, steps[0]);
      OpsOf(s, steps[0]) + History(Next(s, steps[0]), steps[1..])
  }

  lemma {:induction false} TraceIsRun(s: Sys, steps: seq<Step>, k: nat)
    requires SysInv(s) && k <= |steps|
    ensures Inv(s.core) && R.Run(s.core, History(s, steps[..k])).0 == Trace(s, steps)[k].core
    decreases |steps|
  {
    hide Next, SysInv, OpsOf, R.Run, Inv;
    GoodCores(s);
    if k == 0 {
      T.RunOfNone(s.core);
    } else {
      NextKeeps(s, steps[0]);
      NextIsRun(s, steps[0]);
      var s' := Next(s, steps[0]);
      TraceIsRun(s', steps[1..], k - 1);
      assert steps[..k][1..] == steps[1..][..k - 1];
      T.RunOfBoth(s.core, OpsOf(s, steps[0]), History(s', steps[1..][..k - 1]));
    }
  }

  /** Over every interleaving from start-up, the receiver is where the run of its operations leads. */
  lemma ReachIsRun(bus: Bus, steps: seq<Step>, k: nat)
    requires BusInv(bus) && k <= |steps|
    ensures SysInv(Start(bus)) && Inv(BOOT)
    ensures R.Run(BOOT, History(Start(bus), steps[..k])).0 == Reach(bus, steps)[k].core
  {
    StartIsGood(bus);
    TraceIsRun(Start(bus), steps, k);
  }

  /** A cancel that has come for the request with this token, and stands. */
  ghost predicate WasCancelled(ops: Ops, cid: u32, token: u32)
    requires Inv(BOOT)
  {
    exists i: nat :: CancelStands(BOOT, ops, i, |ops|, cid, token)
  }

  /**
    Over every interleaving from start-up: a task that answers the request it holds puts exactly the data it gives
    on the wire, unless an empty CANCEL came on that channel while the request was pending and nobody cleared
    it, and then the one byte 0x2d.
  */
  lemma AnswersOverRuns(bus: Bus, steps: seq<Step>, k: nat, cid: u32, data: seq<byte>, owner: nat,
                        gaps: seq<seq<WorldEvent>>, slots: seq<Slot>)
    requires BusInv(bus) && k <= |steps| && cid != 0 && |data| <= MAX_PAYLOAD
    requires Owned(Reach(bus, steps)[k], cid, owner, gaps).0
    ensures SysInv(Start(bus)) && SysInv(Reach(bus, steps)[k]) && Inv(BOOT)
    ensures var s := Reach(bus, steps)[k];
            var s' := Next(s, SendMsg(cid, CBOR, data, owner, gaps, slots));
            var cancelled := WasCancelled(History(Start(bus), steps[..k]), cid, s.claim.value.operation);
            s.wire <= s'.wire
            && Bursts(News(s, s'), CtaphidTx.Frames(cid, CBOR, if cancelled then [0x2d] else data), gaps, slots)
  {
    hide Owned, Bursts, Next, R.Run, Isolated, PlaceOk, NotOrphaned, OneConnection, BusInv, History;
    StartIsGood(bus);
    TraceKeeps(Start(bus), steps, k);
    ReachIsRun(bus, steps, k);
    var s, ops := Reach(bus, steps)[k], History(Start(bus), steps[..k]);
    OwnedExactlyWhen(s, cid, owner, gaps);
    var token := s.claim.value.operation;
    assert ops[..|ops|] == ops;
    CancelledExactlyWhen(BOOT, ops, |ops|, cid, token);
    var d := if WasCancelled(ops, cid, token) then [0x2d] else data;
    assert IsAnswer(s, CBOR, data, d);
    RespondSends(s, cid, CBOR, data, owner, gaps, slots, d);
  }

  // ---- requests are handed over at most once

  /** The requests that tasks took in a run, in order. */
  function Claimed(s: Sys, steps: seq<Step>): seq<Message>
    requires SysInv(s)
    decreases |steps|
  {
    if steps == [] then []
    else
      NextKeeps(s, steps[0]);
      var s' := Next(s, steps[0]);
      (if s.claim.None? && s'.claim.Some? && s.core.ready.Some? then [s.core.ready.value] else []) + Claimed(s', steps[1..])
  }

  lemma {:induction false} HandedOfBoth(a: seq<R.Event>, b: seq<R.Event>)
    ensures K.HandedOver(a + b) == K.HandedOver(a) + K.HandedOver(b)
    decreases |a|
  {
    if a == [] {
      assert a + b == b;
    } else {
      HandedOfBoth(a[1..], b);
      assert (a + b)[1..] == a[1..] + b;
    }
  }

  lemma {:induction false} NothingHanded(s: State, ops: Ops)
    requires Inv(s) && forall i :: 0 <= i < |ops| ==> !ops[i].TakeMessage?
    ensures K.HandedOver(R.Run(s, ops).1) == []
    decreases |ops|
  {
    if ops != [] {
      T.RunOfFirst(s, ops);
      var (s', e) := R.Step(s, ops[0]);
      NothingHanded(s', ops[1..]);
      assert ([e] + R.Run(s', ops[1..]).1)[1..] == R.Run(s', ops[1..]).1;
    }
  }

  lemma OnlyTakesTake(s: Sys, step: Step)
    requires Inv(s.core) && !step.TakeMsg?
    ensures forall i :: 0 <= i < |OpsOf(s, step)| ==> !OpsOf(s, step)[i].TakeMessage?
  {
    hide Next, Owned, Inv, Meanwhile, Feed;
  }

  /** A claim comes into being only when a task takes a request. */
  lemma OnlyTakesClaim(s: Sys, step: Step)
    requires SysInv(s) && !step.TakeMsg?
    ensures Next(s, step).claim == s.claim || Next(s, step).claim.None?
  {
    hide Owned, SendMessage, Feed, Meanwhile, ClaimMatches, Finish;
  }

  /** The operations of a step hand over a request exactly when the step creates a claim. */
  lemma NextHands(s: Sys, step: Step)
    requires SysInv(s)
    ensures Inv(s.core)
    ensures K.HandedOver(R.Run(s.core, OpsOf(s, step)).1) ==
              if s.claim.None? && Next(s, step).claim.Some? && s.core.ready.Some? then [s.core.ready.value] else []
  {
    hide SysInv, Inv, Meanwhile, R.Run, Next, OpsOf, R.Step;
    GoodCores(s);
    if step.TakeMsg? {
      TakeHands(s, step.cap, step.owner, step.gaps);
    } else {
      OnlyTakesTake(s, step);
      NothingHanded(s.core, OpsOf(s, step));
      OnlyTakesClaim(s, step);
    }
  }

  lemma TakeHands(s: Sys, cap: nat, owner: nat, gaps: seq<seq<WorldEvent>>)
    requires SysInv(s)
    ensures var s' := Next(s, TakeMsg(cap, owner, gaps));
            K.HandedOver(R.Run(s.core, OpsOf(s, TakeMsg(cap, owner, gaps))).1) ==
              if s.claim.None? && s'.claim.Some? && s.core.ready.Some? then [s.core.ready.value] else []
  {
    hide Meanwhile, R.Run, BusInv, Isolated, PlaceOk, NotOrphaned;
    var ops := TakeOps(s, cap, gaps);
    if ops == [R.TakeMessage(cap)] {
      T.RunOfFirst(s.core, ops);
      var (s', e) := R.Step(s.core, R.TakeMessage(cap));
      T.RunOfNone(s');
      assert ops[1..] == [] && [e] + [] == [e] && [e][1..] == [];
    } else {
      NothingHanded(s.core, ops);
    }
  }

  lemma {:induction false} ClaimedIsHanded(s: Sys, steps: seq<Step>)
    requires SysInv(s)
    ensures Inv(s.core) && Claimed(s, steps) == K.HandedOver(R.Run(s.core, History(s, steps)).1)
    decreases |steps|
  {
    hide Next, SysInv, OpsOf, R.Run, Inv;
    GoodCores(s);
    if steps == [] {
      T.RunOfNone(s.core);
    } else {
      NextKeeps(s, steps[0]);
      NextIsRun(s, steps[0]);
      NextHands(s, steps[0]);
      var s' := Next(s, steps[0]);
      ClaimedIsHanded(s', steps[1..]);
      T.RunOfBoth(s.core, OpsOf(s, steps[0]), History(s', steps[1..]));
      HandedOfBoth(R.Run(s.core, OpsOf(s, steps[0])).1, R.Run(s'.core, History(s', steps[1..])).1);
    }
  }

  /**
    Over every interleaving from start-up, the requests that tasks take are requests the receiver completed, in the
    order in which it completed them and none of them twice.
  */
  lemma ClaimedOnce(bus: Bus, steps: seq<Step>)
    requires BusInv(bus)
    ensures SysInv(Start(bus)) && Inv(BOOT)
    ensures K.Subsequence(Claimed(Start(bus), steps), K.Delivered(R.Run(BOOT, History(Start(bus), steps)).1))
  {
    hide History, R.Run, SysInv, Claimed;
    StartIsGood(bus);
    GoodCores(Start(bus));
    var ops := History(Start(bus), steps);
    ClaimedIsHanded(Start(bus), steps);
    K.HandoverOnce(BOOT, ops);
    assert [] + K.Delivered(R.Run(BOOT, ops).1) == K.Delivered(R.Run(BOOT, ops).1);
  }
}
