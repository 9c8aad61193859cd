/** Exactly-once handoff of requests, and tokens that outlived their transaction. */
module CtaphidTokens {
  import opened Bytes
  import opened Wire
  import opened CtaphidProtocol
  import opened CtaphidRuns

  // ---- every message is handed over at most once, in order

  function Delivered(es: seq<Event>): seq<Message> {
    if es == [] then []
    else (if es[0].Acted? && es[0].action.Deliver? then [es[0].action.message] else []) + Delivered(es[1..])
  }

  function HandedOver(es: seq<Event>): seq<Message> {
    if es == [] then []
    else (if es[0].Handed? && es[0].taken.Took? then [es[0].taken.message] else []) + HandedOver(es[1..])
  }

  /** `xs` is `ys` with some elements left out. */
  predicate Subsequence<T(==)>(xs: seq<T>, ys: seq<T>) {
    xs == [] || (ys != [] && (Subsequence(xs, ys[1..]) || (xs[0] == ys[0] && Subsequence(xs[1..], ys[1..]))))
  }

  function Waiting(s: State): seq<Message> {
    match s.ready
    case None => []
    case Some(m) => [m]
  }

  /** One step's effect on the message that waits for the application. */
  lemma WaitingStep(s: State, op: Op)
    requires Inv(s)
    ensures var (s', e) := Step(s, op);
            if e.Acted? && e.action.Deliver? then Waiting(s) == [] && Waiting(s') == [e.action.message]
            else if e.Handed? && e.taken.Took? then Waiting(s) == [e.taken.message] && Waiting(s') == []
            else Waiting(s') == Waiting(s) || Waiting(s') == []
  {
  }

  /**
    Over any run, what the application takes is what the transport completed, in that order and
    with nothing twice; a message the receiver dropped in between is simply missing.
  */
  lemma {:induction false} HandoverOnce(s: State, ops: seq<Op>)
    requires Inv(s)
    ensures Subsequence(HandedOver(Run(s, ops).1), Waiting(s) + Delivered(Run(s, ops).1))
    decreases |ops|
  {
    if ops != [] {
      var (s', e) := Step(s, ops[0]);
      WaitingStep(s, ops[0]);
      HandoverOnce(s', ops[1..]);
      HandoverCons(Waiting(s), Waiting(s'), e, Run(s', ops[1..]).1);
    }
  }

  lemma HandoverCons(before: seq<Message>, after: seq<Message>, e: Event, es: seq<Event>)
    requires Subsequence(HandedOver(es), after + Delivered(es))
    requires if e.Acted? && e.action.Deliver? then before == [] && after == [e.action.message]
             else if e.Handed? && e.taken.Took? then before == [e.taken.message] && after == []
             else after == before || (|before| == 1 && after == [])
    ensures Subsequence(HandedOver([e] + es), before + Delivered([e] + es))
  {
    assert ([e] + es)[1..] == es;
    var d, h := Delivered(es), HandedOver(es);
    assert after == [] ==> after + d == d;
    assert before == [] ==> before + Delivered([e] + es) == Delivered([e] + es);
    if |before| == 1 {
      assert (before + d)[1..] == d;
    }
    assert [] + h == h && [] + d == d;
    if e.Handed? && e.taken.Took? {
      assert ([e.taken.message] + h)[1..] == h;
    }
  }

  /** A message that was taken is gone: the next attempt finds nothing. */
  lemma TakeEmpties(s: State, cap: nat, again: nat)
    requires Inv(s) && Take(s, cap).1.Took?
    ensures Take(Take(s, cap).0, again).1 == Empty
    ensures Holds(s, Take(s, cap).1.message.cid, Take(s, cap).1.message.generation)
  {
  }

  // ---- generations as tokens

  predicate Renews(s: State, op: Op, cid: u32)
    requires Inv(s) && cid in s.gens
  {
    var s' := Step(s, op).0;
    cid in s'.gens && s'.gens[cid] != s.gens[cid]
  }

  /** How many of the operations open a new transaction on `cid` or resynchronise it. */
  function Renewals(s: State, ops: seq<Op>, cid: u32): nat
    requires Inv(s) && cid in s.gens && NoReset(ops)
    decreases |ops|
  {
    if ops == [] then 0
    else
      ChannelStays(s, ops[0], cid);
      (if Renews(s, ops[0], cid) then 1 else 0) + Renewals(Step(s, ops[0]).0, ops[1..], cid)
  }

  predicate NoReset(ops: seq<Op>) {
    forall i :: 0 <= i < |ops| ==> !ops[i].Reset?
  }

  /** A channel, once allocated, lives until a reset, and its generation only counts up. */
  lemma ChannelStays(s: State, op: Op, cid: u32)
    requires Inv(s) && cid in s.gens && !op.Reset?
    ensures var s' := Step(s, op).0;
            cid in s'.gens && (s'.gens[cid] == s.gens[cid] || s'.gens[cid] == Bump(s.gens[cid]))
  {
    if op.Packet? {
      var live := Expire(s, op.at);
      if IsInitial(op.report) && Command(op.report) == INIT {
        InitKeepsChannel(live, op.report, op.draws, cid);
      } else if IsInitial(op.report) {
        RequestKeepsChannel(live, op.report, op.at, cid);
      }
      hide FeedInit, FeedRequest;
    }
  }

  lemma InitKeepsChannel(s: State, r: Report, draws: Draws, cid: u32)
    requires cid in s.gens
    ensures var s' := FeedInit(s, r, draws).0;
            cid in s'.gens && (s'.gens[cid] == s.gens[cid] || s'.gens[cid] == Bump(s.gens[cid]))
  {
    DrawIsUsable(s.gens, draws, 0);
  }

  lemma RequestKeepsChannel(s: State, r: Report, now: u32, cid: u32)
    requires cid in s.gens
    ensures var s' := FeedRequest(s, r, now).0;
            cid in s'.gens && (s'.gens[cid] == s.gens[cid] || s'.gens[cid] == Bump(s.gens[cid]))
  {
  }

  lemma {:induction false} GenerationCounts(s: State, ops: seq<Op>, cid: u32)
    requires Inv(s) && cid in s.gens && NoReset(ops)
    ensures var last := Run(s, ops).0;
            cid in last.gens && last.gens[cid] == (s.gens[cid] + Renewals(s, ops, cid)) % U32_SPAN
    decreases |ops|
  {
    hide Step;
    if ops != [] {
      ChannelStays(s, ops[0], cid);
      GenerationCounts(Step(s, ops[0]).0, ops[1..], cid);
    }
  }

  /**
    A token is the generation a transaction had. Once the channel has renewed, fewer than 2^32
    times, the old token finishes nothing, clears no cancel and reads as cancelled.
  */
  lemma StaleTokenIsInert(s: State, ops: seq<Op>, cid: u32)
    requires Inv(s) && cid in s.gens && NoReset(ops)
    requires 0 < Renewals(s, ops, cid) < U32_SPAN
    ensures Inert(Run(s, ops).0, cid, s.gens[cid])
  {
    hide *;
    GenerationCounts(s, ops, cid);
    Moved(s.gens[cid], Renewals(s, ops, cid));
    OldGenerationIsInert(Run(s, ops).0, cid, s.gens[cid]);
  }

  /** The token finishes nothing, clears no cancel, and reads as cancelled. */
  predicate Inert(s: State, cid: u32, token: u32) {
    && Finish(s, cid, token) == s
    && ClearCancel(s, cid, token) == s
    && IsCancelled(s, cid, token)
  }

  lemma OldGenerationIsInert(s: State, cid: u32, token: u32)
    requires cid in s.gens && s.gens[cid] != token
    ensures Inert(s, cid, token)
  {
  }

  lemma Moved(g: u32, n: nat)
    requires 0 < n < U32_SPAN
    ensures (g + n) % U32_SPAN != g
  {
  }

  /** After exactly 2^32 renewals an old token names whatever its channel is processing, and ends it. */
  lemma TokenWraps(s: State, ops: seq<Op>, cid: u32)
    requires Inv(s) && cid in s.gens && NoReset(ops)
    requires Renewals(s, ops, cid) == U32_SPAN
    ensures var last, token := Run(s, ops).0, s.gens[cid];
            last.phase.Processing? && last.phase.cid == cid ==>
              && Finish(last, cid, token) == Abandon(last)
              && ClearCancel(last, cid, token) == last.(phase := last.phase.(cancelled := false))
              && (IsCancelled(last, cid, token) <==> last.phase.cancelled)
  {
    hide Step, Run, Renewals;
    GenerationCounts(s, ops, cid);
  }

  /** What renews a channel: its own resync while no other channel is busy, or a request that is accepted. */
  predicate IsRenewal(s: State, op: Op, cid: u32) {
    && op.Packet? && Cid(op.report) == cid
    && var live := Expire(s, op.at);
    || (Command(op.report) == INIT && DeclaredLen(op.report) == 8 && (live.phase.Idle? || Owns(live, cid)))
    || (Command(op.report) == PING && DeclaredLen(op.report) <= MAX_PAYLOAD && live.phase.Idle?)
    || (Command(op.report) == CBOR && 0 < DeclaredLen(op.report) <= MAX_PAYLOAD && live.phase.Idle?)
  }

  /** These renewals are the only ones. */
  lemma RenewalsAre(s: State, op: Op, cid: u32)
    requires Inv(s) && cid in s.gens
    ensures Renews(s, op, cid) <==> IsRenewal(s, op, cid)
  {
    if op.Packet? {
      var live := Expire(s, op.at);
      if IsInitial(op.report) && Command(op.report) == INIT {
        InitRenews(live, op.report, op.draws, cid);
      } else if IsInitial(op.report) && Command(op.report) != CANCEL {
        RequestRenews(live, op.report, op.at, cid);
      }
      hide FeedInit, FeedRequest;
    }
  }

  lemma InitRenews(s: State, r: Report, draws: Draws, cid: u32)
    requires Inv(s) && cid in s.gens
    ensures var s' := FeedInit(s, r, draws).0;
            cid in s'.gens && (s'.gens[cid] != s.gens[cid] <==>
                                 Cid(r) == cid && DeclaredLen(r) == 8 && (s.phase.Idle? || Owns(s, cid)))
  {
    DrawIsUsable(s.gens, draws, 0);
    Moved(s.gens[cid], 1);
  }

  lemma RequestRenews(s: State, r: Report, now: u32, cid: u32)
    requires Inv(s) && cid in s.gens
    ensures var s' := FeedRequest(s, r, now).0;
            cid in s'.gens && (s'.gens[cid] != s.gens[cid] <==>
                                 && Cid(r) == cid && s.phase.Idle? && DeclaredLen(r) <= MAX_PAYLOAD
                                 && (Command(r) == PING || (Command(r) == CBOR && DeclaredLen(r) > 0)))
  {
    Moved(s.gens[cid], 1);
  }
}
