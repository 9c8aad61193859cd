/** Which reports the receiver refuses, accepts and answers, told outcome by outcome. */
module CtaphidAnswers {
  import opened Bytes
  import opened Wire
  import opened CtaphidProtocol

  // ---- channel numbers

  /** The first usable draw of at most sixteen, all before which succeeded. */
  predicate FirstUsable(gens: map<u32, u32>, draws: Draws, n: nat) {
    && n < 16 && draws(n).Some? && Usable(gens, draws(n).value)
    && forall m: nat :: m < n ==> draws(m).Some? && !Usable(gens, draws(m).value)
  }

  /** The random source fails before it draws a usable number. */
  predicate FirstFailed(gens: map<u32, u32>, draws: Draws, n: nat) {
    n < 16 && draws(n).None? && forall m: nat :: m < n ==> draws(m).Some? && !Usable(gens, draws(m).value)
  }

  /** What comes of the draws for a new channel number. */
  lemma {:induction false} DrawExactly(gens: map<u32, u32>, draws: Draws, attempt: nat)
    requires attempt <= 16 && forall m: nat :: m < attempt ==> draws(m).Some? && !Usable(gens, draws(m).value)
    ensures var d := Draw(gens, draws, attempt);
            && (d.Allocated? <==> exists n: nat :: FirstUsable(gens, draws, n))
            && (d.Allocated? ==> exists n: nat :: FirstUsable(gens, draws, n) && d == Allocated(draws(n).value))
            && (d.RetriesExhausted? <==> forall m: nat :: m < 16 ==> draws(m).Some? && !Usable(gens, draws(m).value))
            && (d.RandomFailed? <==> exists n: nat :: FirstFailed(gens, draws, n))
            && !d.TableFull?
    decreases 16 - attempt
  {
    if attempt < 16 {
      if draws(attempt).Some? {
        if Usable(gens, draws(attempt).value) {
          assert FirstUsable(gens, draws, attempt);
        } else {
          DrawExactly(gens, draws, attempt + 1);
        }
      } else {
        assert FirstFailed(gens, draws, attempt);
      }
    }
  }

  // ---- refusals

  predicate IsRequest(r: Report) {
    IsInitial(r) && Command(r) != INIT && Command(r) != CANCEL
  }

  predicate IsInit(r: Report) {
    Command(r) == INIT
  }

  /** The sequence number of the continuation that a message in progress waits for. */
  predicate InSequence(s: State, r: Report)
    requires s.phase.Rx? && |s.phase.got| >= 57
  {
    r[4] == (|s.phase.got| - 57) / 59
  }

  /**
    When a report gets an error: by code (section 11.2.9.1.6 of CTAP 2.1) rather than in the order of the checks.
    Messages that have stalled are gone by the time a report is looked at.
  */
  predicate Deserves(s: State, r: Report, draws: Draws, code: byte)
    requires Inv(s)
  {
    var cid, known := Cid(r), Cid(r) in s.gens;
    match code
    case 0x01 =>
      IsRequest(r) && known && s.phase.Idle? && DeclaredLen(r) <= 2048 && Command(r) != 0x81 && Command(r) != 0x90
    case 0x03 =>
      || (IsInit(r) && DeclaredLen(r) != 8)
      || (IsRequest(r) && known && s.phase.Idle? && (DeclaredLen(r) > 2048 || (Command(r) == 0x90 && DeclaredLen(r) == 0)))
    case 0x04 => s.phase.Rx? && s.phase.cid == cid && (IsRequest(r) || (!IsInitial(r) && !InSequence(s, r)))
    case 0x05 => !IsInitial(r) && cid in s.tombs
    case 0x06 =>
      || (IsInit(r) && DeclaredLen(r) == 8 && if cid == 0xffff_ffff then |s.gens| >= 4 else known && !s.phase.Idle? && s.phase.cid != cid)
      || (IsRequest(r) && known && !s.phase.Idle? && (s.phase.cid != cid || s.phase.Processing?))
    case 0x0b => !known && (IsRequest(r) || (IsInit(r) && DeclaredLen(r) == 8 && cid != 0xffff_ffff))
    case 0x7f =>
      && IsInit(r) && DeclaredLen(r) == 8 && cid == 0xffff_ffff && |s.gens| < 4
      && !exists n: nat | n < 16 :: FirstUsable(s.gens, draws, n)
    case _ => false
  }

  /** A report is answered with an error exactly when it deserves that error. */
  lemma RefusedExactlyWhen(s: State, r: Report, now: u32, draws: Draws, code: byte)
    requires Inv(s)
    ensures Inv(Expire(s, now))
    ensures Feed(s, r, now, draws).1 == Reply(Cid(r), 0xbf, [code], 0) <==> Deserves(Expire(s, now), r, draws, code)
  {
    ExpireKeepsInv(s, now);
    var live := Expire(s, now);
    if IsInit(r) {
      InitRefused(live, r, draws, code);
    } else if IsRequest(r) {
      RequestRefused(live, r, now, draws, code);
    }
    hide FeedInit, FeedRequest;
  }

  lemma InitRefused(s: State, r: Report, draws: Draws, code: byte)
    requires Inv(s) && IsInit(r)
    ensures FeedInit(s, r, draws).1 == Reply(Cid(r), 0xbf, [code], 0) <==> Deserves(s, r, draws, code)
  {
    DrawExactly(s.gens, draws, 0);
    hide Draw, FirstUsable;
    assert forall c :: |InitReply(Cid(r), c, Nonce(r)).data| == 17;
    if FeedInit(s, r, draws).1.command == 0xbf {
      assert FeedInit(s, r, draws).1.data[0] in {0x03, 0x06, 0x0b, 0x7f};
    }
  }

  lemma RequestRefused(s: State, r: Report, now: u32, draws: Draws, code: byte)
    requires Inv(s) && IsRequest(r)
    ensures FeedRequest(s, r, now).1 == Reply(Cid(r), 0xbf, [code], 0) <==> Deserves(s, r, draws, code)
  {
    var a := FeedRequest(s, r, now).1;
    if a.Reply? && a.command == 0xbf {
      assert a.data[0] in {0x01, 0x03, 0x04, 0x06, 0x0b};
    }
  }

  // ---- the answer to INIT

  /** What a host reads from an answer to INIT: its nonce, its channel and the five bytes that describe the key. */
  predicate Grants(data: seq<byte>, nonce: seq<byte>, channel: u32) {
    && |data| == 17 && data[..8] == nonce && LoadU32(data[8..12]) == channel
    && data[12] == 2 && data[13..16] == [0, 1, 0] && data[16] == 0x0c
  }

  predicate IsGrant(a: Action, r: Report, channel: u32) {
    a.Reply? && a.cid == Cid(r) && a.command == 0x86 && Grants(a.data, r[7..15], channel)
  }

  /**
    What an INIT comes to. It changes nothing if it deserves an error; otherwise it is answered on the channel it
    came on, with its nonce: the broadcast channel is told a new channel number, which from now on is a channel,
    and any other channel its own, which starts afresh.
  */
  ghost predicate InitDone(s: State, r: Report, draws: Draws, s': State, a: Action)
    requires Inv(s)
  {
    if exists code :: Deserves(s, r, draws, code) then s' == s
    else
      && a.Reply? && |a.data| == 17
      && var channel := LoadU32(a.data[8..12]);
      && IsGrant(a, r, channel)
      && (if Cid(r) == 0xffff_ffff
          then channel !in s.gens && channel != 0 && s' == s.(gens := s.gens[channel := 0])
          else channel == Cid(r) && channel in s.gens
               && s' == State(s.gens[channel := Bump(s.gens[channel])], s.tombs - {channel}, Idle, None))
  }

  lemma InitAnswered(s: State, r: Report, now: u32, draws: Draws)
    requires Inv(s) && IsInit(r)
    ensures Inv(Expire(s, now))
    ensures InitDone(Expire(s, now), r, draws, Feed(s, r, now, draws).0, Feed(s, r, now, draws).1)
  {
    hide FeedInit, InitDone;
    ExpireKeepsInv(s, now);
    InitDecided(Expire(s, now), r, draws);
  }

  lemma InitDecided(s: State, r: Report, draws: Draws)
    requires Inv(s) && IsInit(r)
    ensures InitDone(s, r, draws, FeedInit(s, r, draws).0, FeedInit(s, r, draws).1)
  {
    hide Deserves, InitReply, IsGrant, Draw;
    DrawIsUsable(s.gens, draws, 0);
    ReplyGrants(r, if Cid(r) == BROADCAST_CID then Allocate(s.gens, draws) else Allocated(Cid(r)));
    var a := FeedInit(s, r, draws).1;
    if code :| Deserves(s, r, draws, code) {
      InitRefused(s, r, draws, code);
    } else if a.Reply? && a.command == 0xbf {
      InitRefused(s, r, draws, a.data[0]);
    }
  }

  /** The reply that grants a channel says what it should. */
  lemma ReplyGrants(r: Report, outcome: Allocation)
    ensures outcome.Allocated? ==>
              var a := InitReply(Cid(r), outcome.cid, Nonce(r));
              a.Reply? && a.command == 0x86 && |a.data| == 17 && LoadU32(a.data[8..12]) == outcome.cid
              && IsGrant(a, r, outcome.cid)
  {
    if outcome.Allocated? {
      LoadOfStoreU32(outcome.cid);
      var data := InitReply(Cid(r), outcome.cid, Nonce(r)).data;
      assert data[8..12] == StoreU32(outcome.cid);
    }
  }

  // ---- who holds the transport

  /** A request that an idle receiver takes. */
  predicate Acceptable(s: State, r: Report) {
    && Cid(r) in s.gens && DeclaredLen(r) <= 2048
    && (Command(r) == 0x81 || (Command(r) == 0x90 && DeclaredLen(r) > 0))
  }

  /** An idle receiver begins a transaction exactly for an acceptable request, which it holds as far as it came. */
  lemma TransactionBegins(s: State, r: Report, now: u32, draws: Draws)
    requires Inv(s) && Expire(s, now).phase.Idle?
    ensures var live, s' := Expire(s, now), Feed(s, r, now, draws).0;
            && (!s'.phase.Idle? <==> Acceptable(live, r))
            && (Acceptable(live, r) ==>
                  && s'.gens == live.gens[Cid(r) := Bump(live.gens[Cid(r)])]
                  && s'.tombs == live.tombs - {Cid(r)}
                  && (if DeclaredLen(r) <= 57 then s'.phase == Processing(Cid(r), Command(r), false, None)
                      else s'.phase == Rx(Cid(r), Command(r), DeclaredLen(r), r[7..64], now)))
  {
    ExpireKeepsInv(s, now);
    var live := Expire(s, now);
    InitBeginsNothing(live, r, draws);
    hide FeedInit;
  }

  lemma InitBeginsNothing(s: State, r: Report, draws: Draws)
    requires s.phase.Idle?
    ensures FeedInit(s, r, draws).0.phase.Idle?
  {
  }

  /** The report ends the transaction that holds the transport: a resync, or a report that breaks a message. */
  predicate EndsTransaction(s: State, r: Report)
    requires Inv(s)
  {
    && !s.phase.Idle? && Cid(r) == s.phase.cid
    && ((IsInit(r) && DeclaredLen(r) == 8)
        || (s.phase.Rx? && (IsRequest(r) || (!IsInitial(r) && !InSequence(s, r)))))
  }

  /** The next fragment of the message that is being received. */
  predicate IsNextFragment(s: State, r: Report)
    requires Inv(s)
  {
    s.phase.Rx? && Cid(r) == s.phase.cid && !IsInitial(r) && InSequence(s, r)
  }

  /** How a message grows by one fragment. */
  function Grown(s: State, r: Report, now: u32): Phase
    requires Inv(s) && s.phase.Rx?
  {
    var left := s.phase.declared - |s.phase.got|;
    if left <= 59 then Processing(s.phase.cid, s.phase.command, false, None)
    else Rx(s.phase.cid, s.phase.command, s.phase.declared, s.phase.got + r[5..64], now)
  }

  /** A transaction is ended by exactly these reports, grows with its next fragment, and is left alone by all others. */
  lemma TransactionGoesOn(s: State, r: Report, now: u32, draws: Draws)
    requires Inv(s) && !Expire(s, now).phase.Idle?
    ensures Inv(Expire(s, now))
    ensures var live, s' := Expire(s, now), Feed(s, r, now, draws).0;
            && (s'.phase.Idle? <==> EndsTransaction(live, r))
            && (s'.phase.Idle? ==> s'.ready.None?)
            && (!s'.phase.Idle? ==>
                  s'.phase == if IsNextFragment(live, r) then Grown(live, r, now)
                              else if Cancels(live, r) then live.phase.(cancelled := true) else live.phase)
  {
    ExpireKeepsInv(s, now);
    var live := Expire(s, now);
    if IsInit(r) {
      InitGoesOn(live, r, draws);
    } else if IsRequest(r) {
      RequestGoesOn(live, r, now);
    }
    hide FeedInit, FeedRequest;
  }

  lemma InitGoesOn(s: State, r: Report, draws: Draws)
    requires Inv(s) && !s.phase.Idle? && IsInit(r)
    ensures var s' := FeedInit(s, r, draws).0;
            if EndsTransaction(s, r) then s'.phase.Idle? && s'.ready.None? else s'.phase == s.phase
  {
  }

  lemma RequestGoesOn(s: State, r: Report, now: u32)
    requires Inv(s) && !s.phase.Idle? && IsRequest(r)
    ensures var s' := FeedRequest(s, r, now).0;
            if EndsTransaction(s, r) then s'.phase.Idle? && s'.ready.None? else s'.phase == s.phase
  {
  }

  // ---- cancelling

  /** An empty CANCEL on the channel whose CBOR request is being processed. */
  predicate Cancels(s: State, r: Report) {
    s.phase.Processing? && s.phase.command == 0x90 && Cid(r) == s.phase.cid && r[4] == 0x91 && DeclaredLen(r) == 0
  }

  /** It cancels, and the token of the transaction says so; no other report is taken for it. */
  lemma CancelTakesEffect(s: State, r: Report, now: u32, draws: Draws)
    requires Inv(s)
    ensures var live, (s', a) := Expire(s, now), Feed(s, r, now, draws);
            && (a.CancelNotice? <==> Cancels(live, r))
            && (Cancels(live, r) ==>
                  && a == CancelNotice(Cid(r), s'.gens[Cid(r)])
                  && s' == live.(phase := live.phase.(cancelled := true))
                  && Holds(s', Cid(r), s'.gens[Cid(r)]) && IsCancelled(s', Cid(r), s'.gens[Cid(r)]))
  {
    ExpireKeepsInv(s, now);
    var live := Expire(s, now);
    if IsInit(r) {
      InitCancelsNothing(live, r, draws);
    }
    hide FeedInit;
  }

  lemma InitCancelsNothing(s: State, r: Report, draws: Draws)
    ensures !FeedInit(s, r, draws).1.CancelNotice?
  {
  }
}
