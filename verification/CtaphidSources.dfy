/** Where everything on the wire comes from, over every run. */
module CtaphidSources {
  import opened Bytes
  import opened Wire
  import opened UsbQueue
  import opened UsbBus
  import opened CtaphidProtocol
  import opened CtaphidTransport
  import opened CtaphidIsolation
  import opened CtaphidDelivery
  import CtaphidTx

  /** Frame `n` of a message. */
  predicate IsFrame(r: Report, cid: u32, command: byte, data: seq<byte>, n: nat) {
    |data| <= MAX_PAYLOAD && n < CtaphidTx.FrameCount(|data|) && r == CtaphidTx.Frame(cid, command, data, n)
  }

  /** Frame `n` of the receiver's own reply to the report that is being delivered, after a reset or not. */
  ghost predicate IsReply(s: Sys, r: Report, n: nat)
    requires s.place.Holding?
  {
    exists core: State, now, draws ::
      && (core == s.core || core == BOOT) && Inv(core)
      && var a := Feed(core, s.place.item.report, now, draws).1;
         a.Reply? && IsFrame(r, a.cid, a.command, a.data, n)
  }

  /** The `n`-th report a step puts on the wire is one of these three. */
  ghost predicate Speaks(s: Sys, step: Step, r: Report, n: nat) {
    match step
    case SendMsg(cid, command, data, owner, gaps, _) =>
      && Owned(s, cid, owner, gaps).0 && s.claim.value.command == command && s.core.phase.Processing?
      && exists d :: IsAnswer(s, command, data, d) && IsFrame(r, cid, command, d, n)
    case SendKeepalive(cid, status, owner, _, _, gaps, _) =>
      && Owned(s, cid, owner, gaps).0 && s.core.phase.Processing? && !s.core.phase.cancelled
      && status in {1, 2} && n == 0 && IsFrame(r, cid, 0xbb, [status], 0)
    case DeliverReport(_, _, _, _) => s.place.Holding? && IsReply(s, r, n)
    case _ => false
  }

  lemma {:induction false} EmitsInOrder(w: World, frames: seq<Report>, connection: nat, slots: seq<Slot>, basis: set<nat>, n: nat)
    ensures var log := Emit(w, frames, connection, slots, basis).1;
            n < |log| ==> n < |frames| && log[n].report == frames[n]
    decreases n
  {
    if n > 0 && frames != [] && slots != [] {
      var submitted := Meanwhile(Meanwhile(Meanwhile(w, slots[0].before), slots[0].checking), slots[0].window);
      EmitsInOrder(submitted, frames[1..], connection, slots[1..], basis, n - 1);
    }
  }

  lemma SendsInOrder(w: World, cid: u32, command: byte, data: seq<byte>, connection: nat, slots: seq<Slot>, basis: set<nat>, n: nat)
    ensures var log := SendMessage(w, cid, command, data, connection, slots, basis).1;
            n < |log| ==> IsFrame(log[n].report, cid, command, data, n)
  {
    if cid != 0 && command >= 0x80 && |data| <= MAX_PAYLOAD {
      EmitsInOrder(w, CtaphidTx.Frames(cid, command, data), connection, slots, basis, n);
    }
  }

  lemma AcceptSpeaks(s: Sys, item: Item, now: u32, draws: Draws, gaps: seq<seq<WorldEvent>>, slots: seq<Slot>, n: nat)
    requires Inv(s.core)
    ensures var s' := Accept(s, item, now, draws, gaps, slots);
            var a := Feed(s.core, item.report, now, draws).1;
            && s.wire <= s'.wire
            && (n < |News(s, s')| ==> a.Reply? && IsFrame(News(s, s')[n].report, a.cid, a.command, a.data, n))
  {
    hide Feed, SendMessage, ClaimMatches, Finish, Inv, IsFrame;
    var a := Feed(s.core, item.report, now, draws).1;
    if a.Reply? {
      var readyRead := Meanwhile(Meanwhile(Meanwhile(s.world, Gap(gaps, 2)), Gap(gaps, 3)), Gap(gaps, 4));
      var heard := s.heard + {item.generation};
      SendsInOrder(readyRead, a.cid, a.command, a.data, item.generation, slots, heard, n);
    }
  }

  lemma DeliverySpeaks(s: Sys, now: u32, draws: Draws, gaps: seq<seq<WorldEvent>>, slots: seq<Slot>, n: nat)
    requires SysInv(s) && s.place.Holding?
    ensures var s' := DeliverHeld(s, now, draws, gaps, slots);
            && s.wire <= s'.wire && (n < |News(s, s')| ==> IsReply(s, News(s, s')[n].report, n))
  {
    hide Feed, Accept, Meanwhile, Inv, IsFrame, SysInv;
    assert Inv(s.core) by { CoreIsGood(s); }
    assert Inv(BOOT) by { BootIsGood(); }
    forall t: Sys | (t.core == s.core || t.core == BOOT) && t.wire == s.wire
      ensures var s' := Accept(t, s.place.item, now, draws, gaps, slots);
              && s.wire <= s'.wire && (n < |News(s, s')| ==> IsReply(s, News(s, s')[n].report, n))
    {
      AcceptSpeaks(t, s.place.item, now, draws, gaps, slots, n);
    }
  }

  lemma CoreIsGood(s: Sys)
    requires SysInv(s)
    ensures Inv(s.core)
  {
  }

  lemma BootIsGood()
    ensures Inv(BOOT)
  {
  }

  lemma RespondSpeaks(s: Sys, cid: u32, command: byte, data: seq<byte>, owner: nat, gaps: seq<seq<WorldEvent>>, slots: seq<Slot>, n: nat)
    requires SysInv(s)
    ensures var step := SendMsg(cid, command, data, owner, gaps, slots);
            var s' := Next(s, step);
            && s.wire <= s'.wire && (n < |News(s, s')| ==> Speaks(s, step, News(s, s')[n].report, n))
  {
    hide Owned, Bursts, Inv, Meanwhile, Emit, SysInv, Respond;
    CoreIsGood(s);
    if cid != 0 && command >= 0x80 && |data| <= MAX_PAYLOAD {
      OwnedExactlyWhen(s, cid, owner, gaps);
      var d := if s.core.phase.Processing? && command == 0x90 && s.core.phase.cancelled then [0x2d] else data;
      RespondSends(s, cid, command, data, owner, gaps, slots, d);
      var step := SendMsg(cid, command, data, owner, gaps, slots);
      var s' := Next(s, step);
      if Owned(s, cid, owner, gaps).0 && s.claim.value.command == command {
        BurstAt(News(s, s'), CtaphidTx.Frames(cid, command, d), gaps, slots, n);
        assert IsAnswer(s, command, data, d);
      }
    } else {
      NothingToSay(s, cid, command, data, owner, gaps, slots);
    }
  }

  lemma NothingToSay(s: Sys, cid: u32, command: byte, data: seq<byte>, owner: nat, gaps: seq<seq<WorldEvent>>, slots: seq<Slot>)
    requires cid == 0 || command < 0x80 || |data| > MAX_PAYLOAD
    ensures Respond(s, cid, command, data, owner, gaps, slots) == s
  {
  }

  lemma BeatSpeaks(s: Sys, cid: u32, status: byte, owner: nat, now: u32, sentMs: u32, gaps: seq<seq<WorldEvent>>, slots: seq<Slot>, n: nat)
    requires SysInv(s)
    ensures var step := SendKeepalive(cid, status, owner, now, sentMs, gaps, slots);
            var s' := Next(s, step);
            && s.wire <= s'.wire && (n < |News(s, s')| ==> Speaks(s, step, News(s, s')[n].report, n))
  {
    hide Owned, Inv, Meanwhile, Emit, SysInv, Beat, Passes, Calm;
    OwnedExactlyWhen(s, cid, owner, gaps);
    BeatSends(s, cid, status, owner, now, sentMs, gaps, slots);
  }

  /** A step leaves what is on the wire, and everything it adds is an answer, a keepalive or the receiver's reply. */
  lemma NextSpeaks(s: Sys, step: Step, n: nat)
    requires SysInv(s)
    ensures Inv(s.core)
    ensures var s' := Next(s, step);
            && s.wire <= s'.wire && (n < |News(s, s')| ==> Speaks(s, step, News(s, s')[n].report, n))
  {
    hide SysInv, DeliverHeld, Respond, Beat, Owned, IsReply, Inv, Meanwhile, ClaimMatches;
    CoreIsGood(s);
    match step
    case DeliverReport(now, draws, gaps, slots) => if s.place.Holding? { DeliverySpeaks(s, now, draws, gaps, slots, n); }
    case SendMsg(cid, command, data, owner, gaps, slots) => RespondSpeaks(s, cid, command, data, owner, gaps, slots, n);
    case SendKeepalive(cid, status, owner, now, sentMs, gaps, slots) =>
      BeatSpeaks(s, cid, status, owner, now, sentMs, gaps, slots, n);
    case _ =>
  }

  lemma {:induction false} TraceSpeaks(s: Sys, steps: seq<Step>, k: nat, i: nat)
    requires SysInv(s) && k <= |steps| && |s.wire| <= i < |Trace(s, steps)[k].wire|
    ensures exists j: nat :: j < k && SpokenAt(s, steps, j, k, i)
    decreases |steps|
  {
    hide Next, SysInv, Speaks;
    CoreIsGood(s);
    NextKeeps(s, steps[0]);
    var s' := Next(s, steps[0]);
    TracedWire(s', steps[1..], k - 1);
    NextSpeaks(s, steps[0], i - |s.wire|);
    if i < |s'.wire| {
      assert SpokenAt(s, steps, 0, k, i);
    } else {
      TraceSpeaks(s', steps[1..], k - 1, i);
      var j: nat :| j < k - 1 && SpokenAt(s', steps[1..], j, k - 1, i);
      assert SpokenAt(s, steps, j + 1, k, i);
    }
  }

  /** Report `i` of the wire after `k` steps is one that step `j` put there. */
  ghost predicate SpokenAt(s: Sys, steps: seq<Step>, j: nat, k: nat, i: nat)
    requires SysInv(s) && j < k <= |steps| && i < |Trace(s, steps)[k].wire|
  {
    var before := Trace(s, steps)[j];
    |before.wire| <= i && Speaks(before, steps[j], Trace(s, steps)[k].wire[i].report, i - |before.wire|)
  }

  lemma {:induction false} TracedWire(s: Sys, steps: seq<Step>, k: nat)
    requires SysInv(s) && k <= |steps|
    ensures s.wire <= Trace(s, steps)[k].wire
    decreases |steps|
  {
    hide Next, SysInv, Speaks;
    if k > 0 {
      NextKeeps(s, steps[0]);
      NextSpeaks(s, steps[0], 0);
      TracedWire(Next(s, steps[0]), steps[1..], k - 1);
    }
  }

  /**
    Over every run, each report on the wire is a frame, at its place, of the data some task gave as the answer to
    the request it held, or of the one byte that says the request was cancelled; or a keepalive of the task
    that holds the request; or of the receiver's own reply to the report it was given.
  */
  lemma EveryReportHasASource(bus: Bus, steps: seq<Step>, k: nat, i: nat)
    requires BusInv(bus) && k <= |steps| && i < |Reach(bus, steps)[k].wire|
    ensures exists j: nat :: j < k && |Reach(bus, steps)[j].wire| <= i
                             && Speaks(Reach(bus, steps)[j], steps[j], Reach(bus, steps)[k].wire[i].report,
                                       i - |Reach(bus, steps)[j].wire|)
  {
    StartIsGood(bus);
    TraceSpeaks(Start(bus), steps, k, i);
    var j: nat :| j < k && SpokenAt(Start(bus), steps, j, k, i);
    assert Reach(bus, steps)[j] == Trace(Start(bus), steps)[j];
  }
}
