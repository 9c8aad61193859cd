/** What the transport task's loop does with resets, new connections, stalled messages and the reports it holds. */
module CtaphidLoop {
  import opened Bytes
  import opened Wire
  import opened UsbQueue
  import opened UsbBus
  import opened CtaphidProtocol
  import opened CtaphidTransport
  import opened CtaphidIsolation
  import opened CtaphidSchedules
  import opened CtaphidDelivery

  // ---- resets and connections

  /** Nothing of any request or channel is left, and no report waits. */
  predicate Blank(s: Sys) {
    s.core.gens == map[] && s.core.tombs == {} && s.core.phase.Idle? && s.core.ready.None? && s.claim.None? && s.heard == {}
  }

  /** A reset that was asked for is served before anything else is done. */
  lemma ResetIsServed(s: Sys)
    requires SysInv(s) && s.place.AtTop? && s.world.resetRequested
    ensures var last := Final(s, [CheckReset, RunReset]);
            && Blank(last) && last.wire == s.wire && last.epoch == s.epoch + 1 && last.place == Checked
            && !last.world.resetRequested && last.world.bus == s.world.bus.(queue := [])
  {
    FinalOfTwo(s, CheckReset, RunReset);
  }

  lemma FinalOfTwo(s: Sys, a: Step, b: Step)
    requires SysInv(s)
    ensures SysInv(Next(s, a)) && Final(s, [a, b]) == Next(Next(s, a), b)
  {
    hide Next, SysInv;
    CoreIsGood(s);
    FinalOfFirst(s, [a, b]);
    assert [a, b][1..] == [b] && [b][1..] == [];
    CoreIsGood(Next(s, a));
    FinalOfFirst(Next(s, a), [b]);
    FinalOfNone(Next(Next(s, a), b));
  }

  /** A caller that waits for the mutex serves the reset itself. */
  lemma ResetAllServes(s: Sys)
    requires SysInv(s) && s.world.resetters > 0
    ensures var s' := Next(s, ResetAll);
            && Blank(s') && s'.wire == s.wire && s'.epoch == s.epoch + 1 && s'.place == s.place
            && !s'.world.resetRequested && s'.world.bus == s.world.bus.(queue := []) && s'.world.resetters == s.world.resetters - 1
  {
  }

  /** A connection the task has not seen resets the receiver; the one it has seen leaves everything alone. */
  lemma ConnectionIsNoticed(s: Sys)
    requires SysInv(s) && s.place.AtTop? && !s.world.resetRequested
    ensures var last := Final(s, [CheckReset, ReadGeneration, Sync]);
            && last.seen == s.world.bus.generation && last.world == s.world && last.wire == s.wire
            && last.place == Synced(last.epoch)
            && (s.seen != s.world.bus.generation ==> Blank(last))
            && (s.seen == s.world.bus.generation ==> last == s.(place := last.place))
  {
    hide Inv, Isolated, NotOrphaned, Handover;
    FinalOfThree(s, CheckReset, ReadGeneration, Sync);
  }

  lemma FinalOfThree(s: Sys, a: Step, b: Step, c: Step)
    requires SysInv(s)
    ensures SysInv(Next(s, a)) && SysInv(Next(Next(s, a), b)) && Final(s, [a, b, c]) == Next(Next(Next(s, a), b), c)
  {
    hide Next, SysInv;
    CoreIsGood(s);
    FinalOfFirst(s, [a, b, c]);
    assert [a, b, c][1..] == [b, c];
    CoreIsGood(Next(s, a));
    NextKeeps(Next(s, a), b);
    FinalOfTwo(Next(s, a), b, c);
  }

  /** With nothing to read, the task drops a message that has stalled and does nothing else. */
  lemma StalledIsTidied(s: Sys, now: u32)
    requires SysInv(s) && Listening(s)
    ensures Final(s, [CheckReset, ReadGeneration, Sync, Pop, Tidy(now)]) == s.(core := Expire(s.core, now))
  {
    hide Inv, Isolated, NotOrphaned, Handover, Expire, Final;
    assert [CheckReset, ReadGeneration, Sync, Pop, Tidy(now)] == [CheckReset, ReadGeneration, Sync] + [Pop, Tidy(now)];
    FinalOfBoth(s, [CheckReset, ReadGeneration, Sync], [Pop, Tidy(now)]);
    FinalOfThree(s, CheckReset, ReadGeneration, Sync);
    FinalOfTwo(Final(s, [CheckReset, ReadGeneration, Sync]), Pop, Tidy(now));
  }

  // ---- fetching reports

  /** The task is at the top of its loop, on a connection it has noticed. */
  predicate Attending(s: Sys) {
    s.place.AtTop? && !s.world.resetRequested && s.world.bus.ready && s.seen == s.world.bus.generation
  }

  /** One turn of the loop that finds a report. */
  function Turn(now: u32, draws: Draws, slots: seq<Slot>): seq<Step> {
    [CheckReset, ReadGeneration, Sync, Pop, Confirm, DeliverReport(now, draws, [], slots)]
  }

  /** The report that has waited longest is taken from the queue and fed; the others go on waiting. */
  lemma OldestIsFed(s: Sys, now: u32, draws: Draws, slots: seq<Slot>)
    requires SysInv(s) && Attending(s) && s.world.bus.queue != []
    ensures var queue := s.world.bus.queue;
            Final(s, Turn(now, draws, slots)) ==
              Accept(s.(world := s.world.(bus := s.world.bus.(queue := queue[1..]))), queue[0], now, draws, [], slots)
  {
    hide Inv, Isolated, NotOrphaned, Handover, Accept, Final;
    var queue := s.world.bus.queue;
    var first, second := [CheckReset, ReadGeneration, Sync], [Pop, Confirm, DeliverReport(now, draws, [], slots)];
    assert Turn(now, draws, slots) == first + second;
    FinalOfBoth(s, first, second);
    FinalOfThree(s, CheckReset, ReadGeneration, Sync);
    var t := Final(s, first);
    FinalOfThree(t, Pop, Confirm, DeliverReport(now, draws, [], slots));
    HeldIsFed(s, s.(world := s.world.(bus := s.world.bus.(queue := queue[1..])), place := Holding(queue[0], s.epoch)), now, draws, slots);
  }

  lemma HeldIsFed(s: Sys, t: Sys, now: u32, draws: Draws, slots: seq<Slot>)
    requires SysInv(s) && Attending(s) && s.world.bus.queue != []
    requires var queue := s.world.bus.queue;
             t == s.(world := s.world.(bus := s.world.bus.(queue := queue[1..])), place := Holding(queue[0], s.epoch))
    ensures Inv(t.core)
    ensures Next(t, DeliverReport(now, draws, [], slots)) == Accept(t.(place := AtTop), s.world.bus.queue[0], now, draws, [], slots)
  {
    hide Inv, Isolated, NotOrphaned, Handover, Accept;
    assert Meanwhile(t.world, []) == t.world;
  }

  /** With the connection gone there is nothing to fetch or tidy: the task starts over. */
  lemma GoneIsSkipped(s: Sys)
    requires SysInv(s) && s.place.AtTop? && !s.world.resetRequested && !s.world.bus.ready && s.seen == s.world.bus.generation
    ensures Final(s, [CheckReset, ReadGeneration, Sync, Pop]) == s
  {
    hide Inv, Isolated, NotOrphaned, Handover, Final;
    assert [CheckReset, ReadGeneration, Sync, Pop] == [CheckReset, ReadGeneration, Sync] + [Pop];
    FinalOfBoth(s, [CheckReset, ReadGeneration, Sync], [Pop]);
    FinalOfThree(s, CheckReset, ReadGeneration, Sync);
    var t := Final(s, [CheckReset, ReadGeneration, Sync]);
    FinalOfFirst(t, [Pop]);
    assert [Pop][1..] == [];
    FinalOfNone(Next(t, Pop));
  }

  /** A wait for the mutex that fails changes no more than where the task is. */
  lemma LockTimeoutIsHarmless(s: Sys)
    requires Inv(s.core)
    ensures var s' := Next(s, LockTimeout);
            s' == s.(place := s'.place) && (s'.place == s.place || s'.place.AtTop?)
  {
  }

  // ---- the report that is held

  /** The report may be fed: its connection is in force, and no reset is asked for or has run since it was fetched. */
  predicate MayFeed(s: Sys, gaps: seq<seq<WorldEvent>>)
    requires s.place.Holding?
  {
    && s.world.bus.generation == s.place.item.generation && !s.world.resetRequested
    && Calm(Gap(gaps, 0)) && NoAsk(Gap(gaps, 1)) && s.epoch == s.place.epoch
  }

  /** A report that may be fed is fed, on its connection, to the receiver as it is or reset; any other is dropped. */
  lemma DeliveredExactlyWhen(s: Sys, now: u32, draws: Draws, gaps: seq<seq<WorldEvent>>, slots: seq<Slot>)
    requires SysInv(s) && s.place.Holding?
    ensures var s' := Next(s, DeliverReport(now, draws, gaps, slots));
            && s'.place.AtTop?
            && (MayFeed(s, gaps) ==>
                  && s'.seen == s.place.item.generation && s'.heard == {s'.seen}
                  && exists t: Sys ::
                       && Inv(t.core) && t.seen == s.place.item.generation && t.wire == s.wire
                       && t.world == Meanwhile(Meanwhile(s.world, Gap(gaps, 0)), Gap(gaps, 1))
                       && (if s.seen == t.seen then t.core == s.core && t.claim == s.claim else t.core == BOOT && t.claim.None?)
                       && s' == Accept(t, s.place.item, now, draws, gaps, slots))
            && (!MayFeed(s, gaps) ==> (s'.core == s.core || Blank(s')) && s'.wire == s.wire)
  {
    hide Inv, Meanwhile, Accept, Isolated, NotOrphaned, Handover, Listening;
    assert Inv(s.core) && Inv(BOOT) by { GoodCores(s); }
    var generationRead := Meanwhile(s.world, Gap(gaps, 0));
    MeanwhileMoves(s.world, Gap(gaps, 0));
    MeanwhileAsks(s.world, Gap(gaps, 0));
    MeanwhileAsks(generationRead, Gap(gaps, 1));
    if MayFeed(s, gaps) {
      var s1 := s.(world := Meanwhile(generationRead, Gap(gaps, 1)), place := AtTop);
      var t := Resee(s1, s.place.item.generation, false);
      assert t.heard + {t.seen} == {t.seen};
      AcceptHears(t, s.place.item, now, draws, gaps, slots);
    }
  }

  lemma GoodCores(s: Sys)
    requires SysInv(s)
    ensures Inv(s.core) && Inv(BOOT)
  {
  }

  lemma AcceptHears(s: Sys, item: Item, now: u32, draws: Draws, gaps: seq<seq<WorldEvent>>, slots: seq<Slot>)
    requires Inv(s.core)
    ensures var s' := Accept(s, item, now, draws, gaps, slots);
            s'.heard == s.heard + {item.generation} && s'.seen == s.seen && s'.place == s.place
  {
    hide Feed, SendMessage, Meanwhile, ClaimMatches, Finish;
  }

  /** A claim survives a report exactly if its request is still being processed on a connection still in force. */
  lemma ClaimSurvives(s: Sys, item: Item, now: u32, draws: Draws, gaps: seq<seq<WorldEvent>>, slots: seq<Slot>)
    requires SysInv(s) && s.claim.Some?
    ensures var s' := Accept(s, item, now, draws, gaps, slots);
            var c := s.claim.value;
            && (s'.claim == s.claim || s'.claim.None?)
            && (s'.claim.Some? <==>
                  && Holds(Feed(s.core, item.report, now, draws).0, c.cid, c.operation)
                  && !s.world.resetRequested && s.world.bus.generation == c.connection
                  && Calm(Gap(gaps, 2)) && Undisturbed(Gap(gaps, 3))
                  && Meanwhile(Meanwhile(Meanwhile(s.world, Gap(gaps, 2)), Gap(gaps, 3)), Gap(gaps, 4)).bus.ready)
  {
    var flagRead := Meanwhile(s.world, Gap(gaps, 2));
    MeanwhileAsks(s.world, Gap(gaps, 2));
    MeanwhileMoves(s.world, Gap(gaps, 2));
    MeanwhileMoves(flagRead, Gap(gaps, 3));
    hide Feed, SendMessage, Meanwhile, Finish, Inv, Isolated, NotOrphaned, PlaceOk, Holds;
  }

  /** What else comes of asking for a request: the one that waits is dropped with the connection it came on, or nothing. */
  lemma NotTakenMeans(s: Sys, cap: nat, owner: nat, gaps: seq<seq<WorldEvent>>)
    requires SysInv(s)
    ensures var s' := Next(s, TakeMsg(cap, owner, gaps));
            s'.claim == s.claim ==>
              if s.claim.None? && s.core.ready.Some? && !s.world.resetRequested && s.world.bus.generation == s.seen
                 && Calm(Gap(gaps, 0)) && Undisturbed(Gap(gaps, 1)) && Undisturbed(Gap(gaps, 2)) && !Undisturbed(Gap(gaps, 3))
              then Blank(s') else s' == s.(world := s'.world)
  {
    hide Meanwhile, Inv, Isolated, PlaceOk, NotOrphaned;
    var flagRead := Meanwhile(s.world, Gap(gaps, 0));
    MeanwhileAsks(s.world, Gap(gaps, 0));
    MeanwhileMoves(s.world, Gap(gaps, 0));
    MeanwhileIsLater(s.world, Gap(gaps, 0));
    var readyRead := Meanwhile(flagRead, Gap(gaps, 1));
    MeanwhileMoves(flagRead, Gap(gaps, 1));
    MeanwhileIsLater(flagRead, Gap(gaps, 1));
    var generationRead := Meanwhile(readyRead, Gap(gaps, 2));
    MeanwhileMoves(readyRead, Gap(gaps, 2));
    MeanwhileMoves(generationRead, Gap(gaps, 3));
    if s.core.ready.Some? {
      WaitingIsProcessed(s);
    }
  }
}
