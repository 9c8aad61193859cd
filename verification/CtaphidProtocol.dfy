/**
  The CTAPHID receiver as a protocol: what a host can observe, with none of the tables and
  buffers that `CtaphidCore.Core` keeps. A channel is a generation number and perhaps a timeout
  still to be reported; the one transaction in progress is a phase that carries the bytes
  received so far.
*/
module CtaphidProtocol {
  import opened Bytes
  import opened Wire

  datatype Keepalive = Keepalive(status: byte, sentMs: u32)

  datatype Phase =
    | Idle
    | Rx(cid: u32, command: byte, declared: nat, got: seq<byte>, lastMs: u32)
    | Processing(cid: u32, command: byte, cancelled: bool, keepalive: Option<Keepalive>)

  datatype Message = Message(cid: u32, command: byte, payload: seq<byte>, generation: u32)

  datatype State = State(gens: map<u32, u32>, tombs: set<u32>, phase: Phase, ready: Option<Message>)

  datatype Action =
    | Nothing
    | Reply(cid: u32, command: byte, data: seq<byte>, generation: u32)
    | Deliver(message: Message)
    | CancelNotice(cid: u32, generation: u32)

  /** The random source: the outcome of each draw of four bytes within one allocation. */
  type Draws = nat -> Option<u32>

  /** A source that fails, and one that always draws 1. */
  function NoDraw(attempt: nat): Option<u32> {
    None
  }

  function DrawOne(attempt: nat): Option<u32> {
    Some(1)
  }

  const BOOT: State := State(map[], {}, Idle, None)

  predicate Owns(s: State, cid: u32) {
    !s.phase.Idle? && s.phase.cid == cid
  }

  /** What every reachable state satisfies. */
  predicate Inv(s: State) {
    && |s.gens| <= CHANNEL_COUNT
    && 0 !in s.gens && BROADCAST_CID !in s.gens
    && s.tombs <= s.gens.Keys
    && (!s.phase.Idle? ==> s.phase.cid in s.gens && s.phase.cid !in s.tombs
                           && s.phase.command in {PING, CBOR})
    && (s.phase.Rx? ==> Partial(s.phase.got, s.phase.declared) && s.ready.None?)
    && (s.phase.Idle? ==> s.ready.None?)
    && (s.phase.Processing? ==> s.phase.command == CBOR || (!s.phase.cancelled && s.phase.keepalive.None?))
    && (s.ready.Some? ==> s.phase.command == CBOR && Current(s, s.ready.value))
  }

  /** A message still being assembled: a full initial packet and some full continuations. */
  predicate Partial(got: seq<byte>, declared: nat) {
    && INIT_DATA_BYTES <= |got| < declared <= MAX_PAYLOAD
    && (|got| - INIT_DATA_BYTES) % CONT_DATA_BYTES == 0
  }

  predicate Current(s: State, m: Message) {
    && Owns(s, m.cid) && s.phase.command == m.command
    && m.cid in s.gens && s.gens[m.cid] == m.generation
    && 1 <= |m.payload| <= MAX_PAYLOAD
  }

  function NextSequence(got: seq<byte>): int {
    (|got| - INIT_DATA_BYTES) / CONT_DATA_BYTES
  }

  /** A full-size fragment moves the sequence on by one; a shorter one ends the message. */
  lemma FragmentFits(got: seq<byte>, declared: nat, chunk: seq<byte>)
    requires Partial(got, declared) && |chunk| == Min(declared - |got|, CONT_DATA_BYTES)
    ensures |got + chunk| <= declared && 0 <= NextSequence(got) < 0x7f
    ensures |got + chunk| == declared
            || (Partial(got + chunk, declared) && NextSequence(got + chunk) == NextSequence(got) + 1)
  {
  }

  function Fail(cid: u32, code: byte): Action {
    Reply(cid, ERROR, [code], 0)
  }

  function InitReply(cid: u32, granted: u32, nonce: seq<byte>): Action {
    Reply(cid, INIT, nonce + StoreU32(granted) + INIT_TRAILER, 0)
  }

  // ---- channel allocation

  datatype Allocation = Allocated(cid: u32) | TableFull | RandomFailed | RetriesExhausted

  predicate Usable(gens: map<u32, u32>, cid: u32) {
    cid != 0 && cid != BROADCAST_CID && cid !in gens
  }

  function Draw(gens: map<u32, u32>, draws: Draws, attempt: nat): Allocation
    decreases CID_RETRIES - attempt
  {
    if attempt >= CID_RETRIES then RetriesExhausted
    else match draws(attempt)
      case None => RandomFailed
      case Some(c) => if Usable(gens, c) then Allocated(c) else Draw(gens, draws, attempt + 1)
  }

  function Allocate(gens: map<u32, u32>, draws: Draws): Allocation {
    if |gens| >= CHANNEL_COUNT then TableFull else Draw(gens, draws, 0)
  }

  // ---- one report

  /** Drops a partial message whose last packet is too old, leaving a timeout to report. */
  function Expire(s: State, now: u32): State {
    if s.phase.Rx? && Expired(now, s.phase.lastMs, MESSAGE_TIMEOUT_MS)
    then s.(phase := Idle, tombs := s.tombs + {s.phase.cid})
    else s
  }

  function Abandon(s: State): State {
    s.(phase := Idle, ready := None)
  }

  function Complete(s: State, cid: u32, command: byte, payload: seq<byte>): (State, Action)
    requires cid in s.gens
  {
    var s' := s.(phase := Processing(cid, command, false, None));
    if command == PING then (s', Reply(cid, PING, payload, s.gens[cid]))
    else
      var m := Message(cid, command, payload, s.gens[cid]);
      (s'.(ready := Some(m)), Deliver(m))
  }

  function Absorb(s: State, cid: u32, command: byte, declared: nat, got: seq<byte>, now: u32): (State, Action)
    requires cid in s.gens
  {
    if |got| == declared then Complete(s, cid, command, got)
    else (s.(phase := Rx(cid, command, declared, got, now)), Nothing)
  }

  function FeedInit(s: State, r: Report, draws: Draws): (State, Action) {
    var cid := Cid(r);
    if DeclaredLen(r) != 8 then (s, Fail(cid, ERR_INVALID_LEN))
    else if cid == BROADCAST_CID then
      match Allocate(s.gens, draws)
      case Allocated(c) => (s.(gens := s.gens[c := 0]), InitReply(cid, c, Nonce(r)))
      case TableFull => (s, Fail(cid, ERR_CHANNEL_BUSY))
      case RandomFailed => (s, Fail(cid, ERR_OTHER))
      case RetriesExhausted => (s, Fail(cid, ERR_OTHER))
    else if cid !in s.gens then (s, Fail(cid, ERR_INVALID_CHANNEL))
    else if !s.phase.Idle? && s.phase.cid != cid then (s, Fail(cid, ERR_CHANNEL_BUSY))
    else (State(s.gens[cid := Bump(s.gens[cid])], s.tombs - {cid}, Idle, None),
          InitReply(cid, cid, Nonce(r)))
  }

  function FeedCancel(s: State, r: Report): (State, Action) {
    var cid := Cid(r);
    if DeclaredLen(r) == 0 && s.phase.Processing? && s.phase.cid == cid && s.phase.command == CBOR && cid in s.gens
    then (s.(phase := s.phase.(cancelled := true)), CancelNotice(cid, s.gens[cid]))
    else (s, Nothing)
  }

  function FeedRequest(s: State, r: Report, now: u32): (State, Action) {
    var cid, command, declared := Cid(r), Command(r), DeclaredLen(r);
    if cid !in s.gens then (s, Fail(cid, ERR_INVALID_CHANNEL))
    else
      var s' := s.(tombs := s.tombs - {cid});
      if !s.phase.Idle? then
        if s.phase.cid == cid && s.phase.Rx? then (Abandon(s'), Fail(cid, ERR_INVALID_SEQ))
        else (s', Fail(cid, ERR_CHANNEL_BUSY))
      else if declared > MAX_PAYLOAD then (s', Fail(cid, ERR_INVALID_LEN))
      else if command != PING && command != CBOR then (s', Fail(cid, ERR_INVALID_CMD))
      else if command == CBOR && declared == 0 then (s', Fail(cid, ERR_INVALID_LEN))
      else
        var begun := s'.(gens := s.gens[cid := Bump(s.gens[cid])]);
        Absorb(begun, cid, command, declared, FirstChunk(r), now)
  }

  function FeedInitial(s: State, r: Report, now: u32, draws: Draws): (State, Action) {
    if Command(r) == CANCEL then FeedCancel(s, r)
    else if Command(r) == INIT then FeedInit(s, r, draws)
    else FeedRequest(s, r, now)
  }

  function FeedContinuation(s: State, r: Report, now: u32): (State, Action)
    requires Inv(s)
  {
    var cid := Cid(r);
    if cid in s.tombs then (s.(tombs := s.tombs - {cid}), Fail(cid, ERR_MSG_TIMEOUT))
    else if !s.phase.Rx? || s.phase.cid != cid then (s, Nothing)
    else if r[4] != NextSequence(s.phase.got) then (Abandon(s), Fail(cid, ERR_INVALID_SEQ))
    else
      Absorb(s, cid, s.phase.command, s.phase.declared,
             s.phase.got + NextChunk(r, s.phase.declared - |s.phase.got|), now)
  }

  function Feed(s: State, r: Report, now: u32, draws: Draws): (State, Action)
    requires Inv(s)
  {
    var live := Expire(s, now);
    if IsInitial(r) then FeedInitial(live, r, now, draws) else FeedContinuation(live, r, now)
  }

  // ---- the application side

  datatype Taken = Empty | TooSmall | Took(message: Message)

  function Take(s: State, cap: nat): (State, Taken) {
    match s.ready
    case None => (s, Empty)
    case Some(m) => if |m.payload| > cap then (s, TooSmall) else (s.(ready := None), Took(m))
  }

  /** `generation` still names the transaction that channel `cid` is processing. */
  predicate Holds(s: State, cid: u32, generation: u32) {
    s.phase.Processing? && s.phase.cid == cid && cid in s.gens && s.gens[cid] == generation
  }

  function Finish(s: State, cid: u32, generation: u32): State {
    if Holds(s, cid, generation) then Abandon(s) else s
  }

  predicate IsCancelled(s: State, cid: u32, generation: u32) {
    !Holds(s, cid, generation) || s.phase.cancelled
  }

  function ClearCancel(s: State, cid: u32, generation: u32): State {
    if Holds(s, cid, generation) then s.(phase := s.phase.(cancelled := false)) else s
  }

  /** Records a keepalive that went out on the channel being processed. */
  function NoteKeepalive(s: State, cid: u32, status: byte, now: u32): State {
    if s.phase.Processing? && s.phase.cid == cid && s.phase.command == CBOR
    then s.(phase := s.phase.(keepalive := Some(Keepalive(status, now))))
    else s
  }

  // ---- every step keeps the invariant

  lemma {:induction false} DrawIsUsable(gens: map<u32, u32>, draws: Draws, attempt: nat)
    ensures Draw(gens, draws, attempt).Allocated? ==> Usable(gens, Draw(gens, draws, attempt).cid)
    decreases CID_RETRIES - attempt
  {
    if attempt < CID_RETRIES && draws(attempt).Some? && !Usable(gens, draws(attempt).value) {
      DrawIsUsable(gens, draws, attempt + 1);
    }
  }

  lemma ExpireKeepsInv(s: State, now: u32)
    requires Inv(s)
    ensures Inv(Expire(s, now))
  {
  }

  lemma FeedInitKeepsInv(s: State, r: Report, draws: Draws)
    requires Inv(s)
    ensures Inv(FeedInit(s, r, draws).0)
  {
    DrawIsUsable(s.gens, draws, 0);
    match Allocate(s.gens, draws)
    case Allocated(c) => assert s.gens[c := 0].Keys == s.gens.Keys + {c};
    case _ =>
    if Cid(r) in s.gens {
      assert |s.gens[Cid(r) := Bump(s.gens[Cid(r)])]| == |s.gens|;
    }
  }

  lemma FeedRequestKeepsInv(s: State, r: Report, now: u32)
    requires Inv(s)
    ensures Inv(FeedRequest(s, r, now).0)
  {
    if Cid(r) in s.gens {
      assert |s.gens[Cid(r) := Bump(s.gens[Cid(r)])]| == |s.gens|;
    }
  }

  lemma FeedInitialKeepsInv(s: State, r: Report, now: u32, draws: Draws)
    requires Inv(s)
    ensures Inv(FeedInitial(s, r, now, draws).0)
  {
    hide FeedInit, FeedRequest;
    FeedInitKeepsInv(s, r, draws);
    FeedRequestKeepsInv(s, r, now);
  }

  lemma FeedContinuationKeepsInv(s: State, r: Report, now: u32)
    requires Inv(s)
    ensures Inv(FeedContinuation(s, r, now).0)
  {
  }

  /** A report, whatever it is, leads from a good state to a good state. */
  lemma FeedKeepsInv(s: State, r: Report, now: u32, draws: Draws)
    requires Inv(s)
    ensures Inv(Feed(s, r, now, draws).0)
  {
    hide FeedInitial, FeedContinuation;
    var live := Expire(s, now);
    if IsInitial(r) { FeedInitialKeepsInv(live, r, now, draws); } else { FeedContinuationKeepsInv(live, r, now); }
  }

  /** What a report's action says about the transaction that is now in progress. */
  predicate Outcome(s: State, s': State, a: Action)
    requires Inv(s) && Inv(s')
  {
    && (s'.ready.Some? ==> a == Deliver(s'.ready.value) || s'.ready == s.ready)
    && (match a
        case Deliver(m) => s'.ready == Some(m) && !s.phase.Processing?
        case Reply(cid, command, data, generation) =>
          if command == PING then
            && !s.phase.Processing? && s'.ready.None?
            && s'.phase.Processing? && s'.phase.command == PING && Holds(s', cid, generation)
          else generation == 0 && (s'.phase.Processing? ==> SameTransaction(s, s'))
        case _ => s'.phase.Processing? ==> SameTransaction(s, s'))
  }

  predicate SameTransaction(s: State, s': State)
    requires Inv(s) && Inv(s') && s'.phase.Processing?
  {
    && s.phase.Processing? && s.phase.cid == s'.phase.cid && s.phase.command == s'.phase.command
    && s.ready == s'.ready && s.phase.cid in s.gens && s.phase.cid in s'.gens && s.gens[s.phase.cid] == s'.gens[s.phase.cid]
  }

  lemma FeedOutcome(s: State, r: Report, now: u32, draws: Draws)
    requires Inv(s)
    ensures var (s', a) := Feed(s, r, now, draws);
            Inv(s') && Outcome(s, s', a)
  {
    FeedKeepsInv(s, r, now, draws);
    var live := Expire(s, now);
    ExpireKeepsInv(s, now);
    if IsInitial(r) && Command(r) == INIT {
      FeedInitKeepsInv(live, r, draws);
      InitOutcome(live, r, draws);
    } else if IsInitial(r) && Command(r) != CANCEL {
      FeedRequestKeepsInv(live, r, now);
      RequestOutcome(live, r, now);
    }
    hide FeedInit, FeedRequest, Inv;
  }

  lemma InitOutcome(s: State, r: Report, draws: Draws)
    requires Inv(s) && Inv(FeedInit(s, r, draws).0)
    ensures Outcome(s, FeedInit(s, r, draws).0, FeedInit(s, r, draws).1)
  {
    DrawIsUsable(s.gens, draws, 0);
  }

  lemma RequestOutcome(s: State, r: Report, now: u32)
    requires Inv(s) && Inv(FeedRequest(s, r, now).0)
    ensures Outcome(s, FeedRequest(s, r, now).0, FeedRequest(s, r, now).1)
  {
  }
}
