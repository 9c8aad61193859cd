/** Abandoned partial messages: when they are dropped and what the host is told. */
module CtaphidTimeouts {
  import opened Bytes
  import opened Wire
  import opened CtaphidProtocol
  import opened CtaphidRuns

  // ---- the 32-bit clock against real time

  function Clock(t: nat): u32 {
    t % U32_SPAN
  }

  /** The age test reads real elapsed time modulo 2^32. */
  lemma ExpiredIsModular(t0: nat, t1: nat, timeout: u32)
    requires t0 <= t1
    ensures Expired(Clock(t1), Clock(t0), timeout) <==> (t1 - t0) % U32_SPAN >= timeout
  {
    assert (Clock(t1) - Clock(t0)) % U32_SPAN == (t1 - t0) % U32_SPAN by {
      var q := t1 / U32_SPAN - t0 / U32_SPAN;
      assert t1 - t0 == q * U32_SPAN + (Clock(t1) - Clock(t0));
    }
  }

  /** A call drops a partial message exactly when the time since its last packet, modulo 2^32, is 500 ms or more. */
  lemma DropsExactlyWhen(s: State, t0: nat, now: nat)
    requires s.phase.Rx? && s.phase.lastMs == Clock(t0) && t0 <= now
    ensures Expire(s, Clock(now)) ==
              if (now - t0) % U32_SPAN >= MESSAGE_TIMEOUT_MS
              then s.(phase := Idle, tombs := s.tombs + {s.phase.cid}) else s
  {
    ExpiredIsModular(t0, now, MESSAGE_TIMEOUT_MS);
  }

  // ---- how far apart calls may be

  /** Operation `i` happens at real time `ts[i]` and is a tick or a report of another channel. */
  predicate Stalled(ops: seq<Op>, ts: seq<nat>, cid: u32) {
    && |ops| == |ts|
    && forall i :: 0 <= i < |ops| ==> Timed(ops[i]) && Noise(cid, ops[i]) && ops[i].at == Clock(ts[i])
  }

  /** The times do not go back, and no two calls in a row are further apart than `pace`. */
  predicate Paced(previous: nat, ts: seq<nat>, pace: nat)
    decreases |ts|
  {
    ts == [] || (previous <= ts[0] <= previous + pace && Paced(ts[0], ts[1..], pace))
  }

  /**
    The last packet of channel `cid` came at `t0` and its message is not complete; the last of the calls that
    follow `previous` is the first one 500 ms or more later.
  */
  predicate Stalls(s: State, cid: u32, t0: nat, previous: nat, ops: seq<Op>, ts: seq<nat>, pace: nat) {
    && Inv(s) && s.phase.Rx? && s.phase.cid == cid && s.phase.lastMs == Clock(t0)
    && t0 <= previous && previous - t0 < MESSAGE_TIMEOUT_MS
    && |ts| > 0 && Stalled(ops, ts, cid) && Paced(previous, ts, pace)
    && (forall i :: 0 <= i < |ts| - 1 ==> ts[i] - t0 < MESSAGE_TIMEOUT_MS)
    && ts[|ts| - 1] - t0 >= MESSAGE_TIMEOUT_MS
  }

  /** The message is kept until the last call, and dropped there with a timeout left to report. */
  predicate DropsAtLast(s: State, cid: u32, ops: seq<Op>)
    requires Inv(s) && ops != [] && Timed(ops[|ops| - 1])
  {
    var kept := Run(s, ops[..|ops| - 1]).0;
    var live := Expire(kept, ops[|ops| - 1].at);
    kept.phase == s.phase && live.phase.Idle? && cid in live.tombs
  }

  lemma {:induction false} StalledMessageDrops(s: State, cid: u32, t0: nat, previous: nat, ops: seq<Op>, ts: seq<nat>, pace: nat)
    requires pace <= U32_SPAN - MESSAGE_TIMEOUT_MS && Stalls(s, cid, t0, previous, ops, ts, pace)
    ensures DropsAtLast(s, cid, ops)
    decreases |ops|
  {
    DropsExactlyWhen(s, t0, ts[0]);
    if |ops| > 1 {
      ExpiredIsModular(t0, ts[0], MESSAGE_TIMEOUT_MS);
      NoiseIsHarmless(s, ops[0], cid);
      assert ops[1..][..|ops| - 2] == ops[..|ops| - 1][1..];
      StalledMessageDrops(Step(s, ops[0]).0, cid, t0, ts[0], ops[1..], ts[1..], pace);
    }
  }

  /** Calls no further apart than this catch every stalled message. */
  ghost predicate PaceCatches(pace: nat) {
    forall s, cid, t0, previous, ops, ts | Stalls(s, cid, t0, previous, ops, ts, pace) :: DropsAtLast(s, cid, ops)
  }

  /** A host asks for a channel and begins a PING of 100 bytes on it. */
  function Midway(): State {
    State(map[1 := 1], {}, Rx(1, PING, 100, Zeros(57), 0), None)
  }

  const BEGIN: seq<Op> := [
    Packet([0xff, 0xff, 0xff, 0xff, INIT, 0, 8] + Zeros(57), 0, DrawOne),
    Packet([0, 0, 0, 1, PING, 0, 100] + Zeros(57), 0, NoDraw)]

  lemma MidwayIsReached()
    ensures Inv(BOOT) && Inv(Midway()) && Run(BOOT, BEGIN).0 == Midway()
  {
    BeginAllocates();
    BeginPings();
    hide Step, Midway;
    var s := State(map[1 := 0], {}, Idle, None);
    RunOfTwo(BOOT, BEGIN[0], BEGIN[1]);
  }

  lemma BeginAllocates()
    ensures Inv(BOOT) && Step(BOOT, BEGIN[0]).0 == State(map[1 := 0], {}, Idle, None)
  {
    assert Draw(map[], DrawOne, 0) == Allocated(1);
    assert map[][1 := 0] == map[1 := 0];
  }

  lemma BeginPings()
    ensures var s := State(map[1 := 0], {}, Idle, None);
            Inv(s) && Inv(Midway()) && Step(s, BEGIN[1]).0 == Midway()
  {
    var s := State(map[1 := 0], {}, Idle, None);
    assert |s.gens.Keys| == 1 && |Midway().gens.Keys| == 1;
    assert FirstChunk(BEGIN[1].report) == Zeros(57);
    assert map[1 := 0][1 := 1] == map[1 := 1] && {} - {1} == {};
  }

  lemma {:induction false} RunOfTwo(s: State, a: Op, b: Op)
    requires Inv(s)
    ensures var second := Step(Step(s, a).0, b);
            Run(s, [a, b]).0 == second.0 && Run(s, [a, b]).1 == [Step(s, a).1] + [second.1]
  {
    hide Step, Inv, Run;
    var s1 := Step(s, a).0;
    assert [a, b][1..] == [b] && [b][1..] == [];
    RunOfFirst(s, [a, b]);
    RunOfFirst(s1, [b]);
    RunOfNone(Step(s1, b).0);
  }

  lemma {:induction false} RunOfFirst(s: State, ops: seq<Op>)
    requires Inv(s) && ops != []
    ensures var rest := Run(Step(s, ops[0]).0, ops[1..]);
            Run(s, ops).0 == rest.0 && Run(s, ops).1 == [Step(s, ops[0]).1] + rest.1
  {
    hide Step, Inv;
  }

  lemma {:induction false} RunOfNone(s: State)
    requires Inv(s)
    ensures Run(s, []) == (s, [])
  {
  }

  /**
    A longer gap hides a stalled message: whatever it is, between 2^32 - 500 and 2^32 ms, the call before it
    finds the message still in time, and so does the call after it, 2^32 ms after the last packet.
  */
  lemma LongGapHidesStall(s: State, t0: nat, gap: nat)
    requires s.phase.Rx? && s.phase.lastMs == Clock(t0)
    requires U32_SPAN - MESSAGE_TIMEOUT_MS < gap <= U32_SPAN
    ensures var before, now := t0 + U32_SPAN - gap, t0 + U32_SPAN;
            && now - before == gap && before - t0 < MESSAGE_TIMEOUT_MS <= now - t0
            && Expire(s, Clock(before)) == s && Expire(s, Clock(now)) == s
  {
    DropsExactlyWhen(s, t0, t0 + U32_SPAN - gap);
    DropsExactlyWhen(s, t0, t0 + U32_SPAN);
  }

  /** Calls catch every stalled message if and only if they are at most 2^32 - 500 ms apart. */
  lemma PaceCatchesExactly(pace: nat)
    ensures PaceCatches(pace) <==> pace <= U32_SPAN - MESSAGE_TIMEOUT_MS
  {
    if pace <= U32_SPAN - MESSAGE_TIMEOUT_MS {
      forall s, cid, t0, previous, ops, ts | Stalls(s, cid, t0, previous, ops, ts, pace)
        ensures DropsAtLast(s, cid, ops)
      {
        StalledMessageDrops(s, cid, t0, previous, ops, ts, pace);
      }
    } else {
      MidwayIsReached();
      var gap := U32_SPAN - MESSAGE_TIMEOUT_MS + 1;
      LongGapHidesStall(Midway(), 0, gap);
      var ops, ts := [Tick(Clock(U32_SPAN))], [U32_SPAN];
      assert ts[1..] == [];
      assert Stalls(Midway(), 1, 0, U32_SPAN - gap, ops, ts, pace);
      assert ops[..0] == [];
      assert !DropsAtLast(Midway(), 1, ops);
    }
  }

  // ---- the timeout is reported at most once

  function Bit(b: bool): nat {
    if b then 1 else 0
  }

  predicate ReportsTimeout(cid: u32, e: Event) {
    e == Acted(Fail(cid, ERR_MSG_TIMEOUT))
  }

  /** The operation finds channel `cid` stalled and drops its message. */
  predicate Drops(s: State, op: Op, cid: u32) {
    Timed(op) && s.phase.Rx? && s.phase.cid == cid && Expired(op.at, s.phase.lastMs, MESSAGE_TIMEOUT_MS)
  }

  /**
    The reports of channel `cid` that end a pending timeout: every continuation, every request,
    and an INIT only when it is well formed and no other channel holds the transport.
  */
  predicate Settles(live: State, r: Report, cid: u32) {
    && Cid(r) == cid
    && (IsInitial(r) ==> Command(r) != CANCEL)
    && (IsInitial(r) && Command(r) == INIT ==> DeclaredLen(r) == 8 && live.phase.Idle?)
  }

  lemma InitTimeout(live: State, r: Report, draws: Draws, cid: u32)
    requires Inv(live) && IsInitial(r) && Command(r) == INIT
    ensures var (s', a) := FeedInit(live, r, draws);
            && (cid in s'.tombs <==> cid in live.tombs && !Settles(live, r, cid))
            && a != Fail(cid, ERR_MSG_TIMEOUT)
  {
    DrawIsUsable(live.gens, draws, 0);
  }

  lemma RequestTimeout(live: State, r: Report, now: u32, cid: u32)
    requires Inv(live) && IsInitial(r) && Command(r) != INIT && Command(r) != CANCEL
    ensures var (s', a) := FeedRequest(live, r, now);
            && (cid in s'.tombs <==> cid in live.tombs && !Settles(live, r, cid))
            && a != Fail(cid, ERR_MSG_TIMEOUT)
  {
  }

  /** What one operation does to the pending timeout of a channel, and when it is reported. */
  lemma TimeoutStep(s: State, op: Op, cid: u32)
    requires Inv(s)
    ensures var (s', e) := Step(s, op);
            var pending := cid in s.tombs || Drops(s, op, cid);
            && (cid in s'.tombs <==> pending && !op.Reset? && !(op.Packet? && Settles(Expire(s, op.at), op.report, cid)))
            && (ReportsTimeout(cid, e) <==> pending && op.Packet? && Cid(op.report) == cid && !IsInitial(op.report))
  {
    if op.Packet? {
      var live := Expire(s, op.at);
      assert cid in live.tombs <==> cid in s.tombs || Drops(s, op, cid);
      if IsInitial(op.report) && Command(op.report) == INIT {
        InitTimeout(live, op.report, op.draws, cid);
      } else if IsInitial(op.report) && Command(op.report) != CANCEL {
        RequestTimeout(live, op.report, op.at, cid);
      }
      hide FeedInit, FeedRequest;
    }
  }

  function TimeoutReports(s: State, ops: seq<Op>, cid: u32): nat
    requires Inv(s)
    decreases |ops|
  {
    if ops == [] then 0
    else Bit(ReportsTimeout(cid, Step(s, ops[0]).1)) + TimeoutReports(Step(s, ops[0]).0, ops[1..], cid)
  }

  function TimeoutDrops(s: State, ops: seq<Op>, cid: u32): nat
    requires Inv(s)
    decreases |ops|
  {
    if ops == [] then 0
    else Bit(Drops(s, ops[0], cid)) + TimeoutDrops(Step(s, ops[0]).0, ops[1..], cid)
  }

  /** Over any run a channel reports no more timeouts than messages it dropped. */
  lemma {:induction false} TimeoutReportedOnce(s: State, ops: seq<Op>, cid: u32)
    requires Inv(s)
    ensures TimeoutReports(s, ops, cid) + Bit(cid in Run(s, ops).0.tombs) <= TimeoutDrops(s, ops, cid) + Bit(cid in s.tombs)
    decreases |ops|
  {
    if ops != [] {
      TimeoutStep(s, ops[0], cid);
      TimeoutReportedOnce(Step(s, ops[0]).0, ops[1..], cid);
      assert !(Drops(s, ops[0], cid) && cid in s.tombs);
    }
  }

  /**
    Not every new initial packet settles a timeout: from start-up, a message is begun and stalls, a resync
    with the wrong length leaves its timeout pending, and a continuation after it is answered with a timeout.
  */
  lemma MalformedInitKeepsTimeout()
    ensures Inv(BOOT)
    ensures Run(BOOT, BEGIN + LATE).1[2..] == [Acted(Fail(1, ERR_INVALID_LEN)), Acted(Fail(1, ERR_MSG_TIMEOUT))]
  {
    hide BEGIN, LATE, Run, Midway;
    MidwayIsReached();
    LateRuns();
    RunOfBoth(BOOT, BEGIN, LATE);
    TwoEvents();
  }

  const LATE: seq<Op> := [
    Packet([0, 0, 0, 1, INIT, 0, 7] + Zeros(57), 600, NoDraw),
    Packet([0, 0, 0, 1] + Zeros(60), 600, NoDraw)]

  lemma TwoEvents()
    ensures |BEGIN| == 2
  {
  }

  lemma LateRuns()
    ensures Inv(Midway())
    ensures Run(Midway(), LATE).1 == [Acted(Fail(1, ERR_INVALID_LEN)), Acted(Fail(1, ERR_MSG_TIMEOUT))]
  {
    MidwayIsReached();
    MalformedInit();
    LateContinuation();
    hide Step, Run;
    RunOfTwo(Midway(), LATE[0], LATE[1]);
  }

  lemma MalformedInit()
    ensures Inv(Midway())
    ensures Step(Midway(), LATE[0]) == (State(map[1 := 1], {1}, Idle, None), Acted(Fail(1, ERR_INVALID_LEN)))
  {
    assert |Midway().gens.Keys| == 1;
    assert {} + {1} == {1};
    assert Expire(Midway(), 600) == State(map[1 := 1], {1}, Idle, None);
  }

  lemma LateContinuation()
    ensures var s := State(map[1 := 1], {1}, Idle, None);
            Inv(s) && Step(s, LATE[1]).1 == Acted(Fail(1, ERR_MSG_TIMEOUT))
  {
    assert |State(map[1 := 1], {1}, Idle, None).gens.Keys| == 1;
  }

  lemma {:induction false} RunOfBoth(s: State, a: seq<Op>, b: seq<Op>)
    requires Inv(s)
    ensures Run(s, a + b).0 == Run(Run(s, a).0, b).0
    ensures Run(s, a + b).1 == Run(s, a).1 + Run(Run(s, a).0, b).1
    decreases |a|
  {
    hide Step;
    if a == [] {
      assert a + b == b;
    } else {
      RunOfBoth(Step(s, a[0]).0, a[1..], b);
      assert (a + b)[1..] == a[1..] + b;
    }
  }
}
