/**
  What the receiver guarantees over whole runs: channels do not disturb one another, and reassembly inverts
  fragmentation under any interleaving.
*/
module CtaphidRuns {
  import opened Bytes
  import opened Wire
  import opened CtaphidTx
  import opened CtaphidProtocol

  datatype Op =
    | Packet(report: Report, at: u32, draws: Draws)
    | Tick(at: u32)
    | TakeMessage(cap: nat)
    | FinishResponse(cid: u32, generation: u32)
    | Uncancel(cid: u32, generation: u32)
    | KeepaliveSent(cid: u32, status: byte, at: u32)
    | Reset

  datatype Event = Acted(action: Action) | Handed(taken: Taken) | Silent

  function Step(s: State, op: Op): (r: (State, Event))
    requires Inv(s)
    ensures Inv(r.0)
  {
    match op
    case Packet(report, at, draws) =>
      FeedKeepsInv(s, report, at, draws);
      var (s', a) := Feed(s, report, at, draws);
      (s', Acted(a))
    case Tick(at) => (Expire(s, at), Silent)
    case TakeMessage(cap) => var (s', t) := Take(s, cap); (s', Handed(t))
    case FinishResponse(cid, generation) => (Finish(s, cid, generation), Silent)
    case Uncancel(cid, generation) => (ClearCancel(s, cid, generation), Silent)
    case KeepaliveSent(cid, status, at) => (NoteKeepalive(s, cid, status, at), Silent)
    case Reset => (BOOT, Silent)
  }

  function Run(s: State, ops: seq<Op>): (r: (State, seq<Event>))
    requires Inv(s)
    ensures Inv(r.0) && |r.1| == |ops|
    decreases |ops|
  {
    if ops == [] then (s, [])
    else
      var (s', e) := Step(s, ops[0]);
      var (last, es) := Run(s', ops[1..]);
      (last, [e] + es)
  }

  predicate Timed(op: Op) { op.Packet? || op.Tick? }

  // ---- channels do not disturb one another

  /** An operation that is not a request, resync or fragment of channel `cid`. */
  predicate Noise(cid: u32, op: Op) {
    !op.Reset? && (op.Packet? ==> Cid(op.report) != cid || Command(op.report) == CANCEL)
  }

  predicate InTime(op: Op, since: u32) {
    Timed(op) ==> !Expired(op.at, since, MESSAGE_TIMEOUT_MS)
  }

  /** Nothing in the event concerns channel `cid`. */
  predicate Elsewhere(cid: u32, e: Event) {
    match e
    case Acted(a) => a.Nothing? || (a.Reply? && a.cid != cid)
    case Handed(t) => t.Empty?
    case Silent => true
  }

  /**
    While channel `cid` is sending a message, no other traffic touches its progress or its
    generation, and no other channel gets a message through.
  */
  lemma NoiseIsHarmless(s: State, op: Op, cid: u32)
    requires Inv(s) && s.phase.Rx? && s.phase.cid == cid
    requires Noise(cid, op) && InTime(op, s.phase.lastMs)
    ensures var (s', e) := Step(s, op);
            && s'.phase == s.phase
            && cid in s'.gens && s'.gens[cid] == s.gens[cid]
            && Elsewhere(cid, e)
  {
    if op.Packet? {
      DrawIsUsable(s.gens, op.draws, 0);
      assert Expire(s, op.at) == s;
    }
  }

  /** Whatever channel `other` sends, the generation and the pending timeout of `cid` stay. */
  lemma ForeignReportFrame(s: State, r: Report, now: u32, draws: Draws, cid: u32)
    requires Inv(s) && Cid(r) != cid && cid in s.gens
    ensures var live, s' := Expire(s, now), Feed(s, r, now, draws).0;
            && cid in s'.gens && s'.gens[cid] == s.gens[cid]
            && (cid in s'.tombs <==> cid in live.tombs)
            && (Owns(live, cid) ==> s'.phase == live.phase && s'.ready == live.ready)
  {
    DrawIsUsable(s.gens, draws, 0);
  }

  // ---- reassembly inverts fragmentation

  /** `ops` is `frames` in order, each within the timeout of the one before, with noise between. */
  ghost predicate Weave(cid: u32, ops: seq<Op>, frames: seq<Report>, since: u32) {
    if frames == [] then ops == []
    else
      && ops != [] && InTime(ops[0], since)
      && ((Noise(cid, ops[0]) && Weave(cid, ops[1..], frames, since))
          || (ops[0].Packet? && ops[0].report == frames[0] && Weave(cid, ops[1..], frames[1..], ops[0].at)))
  }

  predicate Sendable(command: byte, data: seq<byte>) {
    |data| <= MAX_PAYLOAD && (command == PING || (command == CBOR && |data| > 0))
  }

  /** The action that hands a complete request on: an echo for PING, a message for CBOR. */
  function Arrival(cid: u32, command: byte, data: seq<byte>, generation: u32): Action {
    if command == PING then Reply(cid, PING, data, generation)
    else Deliver(Message(cid, command, data, generation))
  }

  predicate Receiving(s: State, cid: u32, command: byte, data: seq<byte>, k: nat, since: u32)
  {
    && cid in s.gens
    && Carried(|data|, k) < |data|
    && s.phase == Rx(cid, command, |data|, data[..Carried(|data|, k)], since)
  }

  /** The events of a run that carries `data` for channel `cid` and nothing else. */
  predicate OnlyArrival(es: seq<Event>, cid: u32, command: byte, data: seq<byte>, generation: u32) {
    && es != [] && es[|es| - 1] == Acted(Arrival(cid, command, data, generation))
    && forall i :: 0 <= i < |es| - 1 ==> Elsewhere(cid, es[i])
  }

  lemma FirstFrameArrives(s: State, cid: u32, command: byte, data: seq<byte>, at: u32, draws: Draws)
    requires Inv(s) && s.phase.Idle? && cid in s.gens && Sendable(command, data)
    ensures var (s', a) := Feed(s, InitFrame(cid, command, data), at, draws);
            && cid in s'.gens && s'.gens[cid] == Bump(s.gens[cid])
            && if |data| <= INIT_DATA_BYTES then a == Arrival(cid, command, data, s'.gens[cid])
               else a == Nothing && Receiving(s', cid, command, data, 0, at)
  {
    InitFrameFields(cid, command, data);
    var f := InitFrame(cid, command, data);
    assert IsInitial(f) && Expire(s, at) == s;
    if |data| <= INIT_DATA_BYTES {
      assert data[..|data|] == data;
    }
  }

  lemma NextFrameArrives(s: State, cid: u32, command: byte, data: seq<byte>, k: nat, since: u32, at: u32, draws: Draws)
    requires Inv(s) && Sendable(command, data) && Receiving(s, cid, command, data, k, since)
    requires !Expired(at, since, MESSAGE_TIMEOUT_MS) && k < 0x80
    ensures var (s', a) := Feed(s, ContFrame(cid, data, k), at, draws);
            && cid in s'.gens && s'.gens[cid] == s.gens[cid]
            && if Carried(|data|, k + 1) == |data| then a == Arrival(cid, command, data, s.gens[cid])
               else a == Nothing && Receiving(s', cid, command, data, k + 1, at)
  {
    CarriedAll(|data|, k);
    ContFrameFields(cid, data, k);
    var lo, hi := Carried(|data|, k), Carried(|data|, k + 1);
    assert data[..lo] + data[lo..hi] == data[..hi];
    if hi == |data| {
      assert data[..hi] == data;
    }
  }

  lemma {:induction false} RestArrives(s: State, cid: u32, command: byte, data: seq<byte>, k: nat, since: u32, ops: seq<Op>)
    requires Inv(s) && Sendable(command, data) && Receiving(s, cid, command, data, k, since)
    requires k + 1 < FrameCount(|data|)
    requires Weave(cid, ops, Frames(cid, command, data)[k + 1..], since)
    ensures OnlyArrival(Run(s, ops).1, cid, command, data, s.gens[cid])
    decreases |ops|
  {
    var frames := Frames(cid, command, data);
    var (s', e) := Step(s, ops[0]);
    if Noise(cid, ops[0]) && Weave(cid, ops[1..], frames[k + 1..], since) {
      NoiseIsHarmless(s, ops[0], cid);
      RestArrives(s', cid, command, data, k, since, ops[1..]);
    } else {
      assert ops[0].report == ContFrame(cid, data, k);
      assert frames[k + 1..][1..] == frames[k + 2..];
      CarriedAll(|data|, k + 1);
      NextFrameArrives(s, cid, command, data, k, since, ops[0].at, ops[0].draws);
      if k + 2 < FrameCount(|data|) {
        RestArrives(s', cid, command, data, k + 1, ops[0].at, ops[1..]);
      }
    }
  }

  lemma AfterFirst(s: State, e: Event, cid: u32, command: byte, data: seq<byte>, at: u32, ops: seq<Op>)
    requires Inv(s) && Sendable(command, data) && cid in s.gens
    requires if |data| <= INIT_DATA_BYTES then e == Acted(Arrival(cid, command, data, s.gens[cid]))
             else e == Acted(Nothing) && Receiving(s, cid, command, data, 0, at)
    requires Weave(cid, ops, Frames(cid, command, data)[1..], at)
    ensures OnlyArrival([e] + Run(s, ops).1, cid, command, data, s.gens[cid])
  {
    CarriedAll(|data|, 0);
    if |data| > INIT_DATA_BYTES {
      RestArrives(s, cid, command, data, 0, at, ops);
    }
  }

  /**
    Reassembly round trip. The frames of a message, fed in order from the idle state with any
    traffic of other channels, cancels and application calls in between, end in exactly one
    action, which carries exactly that message; nothing before it concerns the channel.
  */
  lemma RoundTrip(s: State, cid: u32, command: byte, data: seq<byte>, ops: seq<Op>)
    requires Inv(s) && s.phase.Idle? && cid in s.gens && Sendable(command, data)
    requires ops != [] && ops[0].Packet? && ops[0].report == Frames(cid, command, data)[0]
    requires Weave(cid, ops[1..], Frames(cid, command, data)[1..], ops[0].at)
    ensures OnlyArrival(Run(s, ops).1, cid, command, data, Bump(s.gens[cid]))
  {
    FirstFrameArrives(s, cid, command, data, ops[0].at, ops[0].draws);
    var (s', e) := Step(s, ops[0]);
    AfterFirst(s', e, cid, command, data, ops[0].at, ops[1..]);
  }
}
