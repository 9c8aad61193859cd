/**
  The receiver as the firmware runs it: a table of four channels, two payload buffers that swap
  roles when a message is handed over, and a small reply buffer, all updated in place. Every
  method is proved to take the protocol step of `CtaphidProtocol` and to keep the tables
  consistent and the buffers scrubbed.
*/
module CtaphidCore {
  import opened Bytes
  import opened Wire
  import opened CtaphidProtocol
  import opened CtaphidTable

  const NO_BUFFER: nat := 255

  class Core {
    const channels: array<Channel>
    const poolA: array<byte>
    const poolB: array<byte>
    const control: array<byte>
    var rxBuffer: nat
    var completeBuffer: nat
    var completeLen: nat
    var completeCid: u32
    var completeGeneration: u32
    var completeCommand: byte
    var phase: Tag
    var activeCid: u32
    var activeCommand: byte
    var messageReady: bool

    ghost function Repr(): set<object> {
      {this, channels, poolA, poolB, control}
    }

    ghost function Tabled(): set<object> {
      {this, channels, poolA, poolB}
    }

    ghost predicate Layout() {
      && channels.Length == CHANNEL_COUNT && control.Length == 17
      && poolA.Length == MAX_PAYLOAD && poolB.Length == MAX_PAYLOAD
      && poolA != poolB && poolA != control && poolB != control
    }

    function Pool(index: nat): array<byte> {
      if index == 0 then poolA else poolB
    }

    ghost function Tables(): Raw
      reads Tabled()
    {
      Raw(channels[..], Pool(rxBuffer)[..], Pool(1 - Min(rxBuffer, 1))[..], phase, activeCid, activeCommand,
          messageReady, completeLen, completeCid, completeCommand, completeGeneration)
    }

    ghost predicate Buffers()
      reads this
    {
      rxBuffer < 2 && completeBuffer == if messageReady then 1 - rxBuffer else NO_BUFFER
    }

    ghost predicate Valid()
      reads Tabled()
    {
      Layout() && Buffers() && Good(Tables())
    }

    /** The protocol state that the tables stand for. */
    ghost function Abs(): State
      reads Tabled()
      requires Valid()
    {
      Abstract(Tables())
    }

    constructor ()
      ensures Valid() && Abs() == BOOT && fresh(Repr())
    {
      channels := new Channel[CHANNEL_COUNT](_ => FREE_CHANNEL);
      poolA := new byte[MAX_PAYLOAD](_ => 0);
      poolB := new byte[MAX_PAYLOAD](_ => 0);
      control := new byte[17](_ => 0);
      rxBuffer, completeBuffer := 0, NO_BUFFER;
      completeLen, completeCid, completeGeneration, completeCommand := 0, 0, 0, 0;
      phase, activeCid, activeCommand, messageReady := IDLE, 0, 0, false;
      new;
      BootRaw(channels[..]);
      assert poolA[..] == Zeros(MAX_PAYLOAD) && poolB[..] == Zeros(MAX_PAYLOAD);
    }

    static method Wipe(a: array<byte>)
      modifies a
      ensures a[..] == Zeros(a.Length)
    {
      for i := 0 to a.Length
        invariant forall j :: 0 <= j < i ==> a[j] == 0
      {
        a[i] := 0;
      }
    }

    /** Forgets every channel and request; nothing of the old state survives. */
    method Reset()
      requires Layout()
      modifies Repr()
      ensures Valid() && Abs() == BOOT
    {
      for i := 0 to channels.Length
        invariant forall j :: 0 <= j < i ==> channels[j] == FREE_CHANNEL
      {
        channels[i] := FREE_CHANNEL;
      }
      Wipe(poolA);
      Wipe(poolB);
      Wipe(control);
      rxBuffer, completeBuffer := 0, NO_BUFFER;
      completeLen, completeCid, completeGeneration, completeCommand := 0, 0, 0, 0;
      phase, activeCid, activeCommand, messageReady := IDLE, 0, 0, false;
      BootRaw(channels[..]);
    }

    /** The slot of channel `cid`, or the table size when it has none. */
    method Find(cid: u32) returns (i: nat)
      requires Layout() && Table(channels[..])
      ensures i == Slot(channels[..], cid)
    {
      if cid == 0 || cid == BROADCAST_CID {
        return channels.Length;
      }
      i := 0;
      while i < channels.Length
        invariant i <= channels.Length
        invariant forall j :: 0 <= j < i ==> !Uses(channels[j], cid)
      {
        if channels[i].inUse && channels[i].cid == cid {
          SlotIs(channels[..], cid, i);
          return;
        }
        i := i + 1;
      }
    }

    /** `Find` in a consistent table: what the slot says about the channel. */
    method Locate(cid: u32) returns (i: nat)
      requires Valid()
      ensures i == Slot(channels[..], cid) <= channels.Length
      ensures i < channels.Length <==> cid in Abs().gens
      ensures i < channels.Length ==>
                && channels[i].inUse && channels[i].cid == cid
                && channels[i].generation == Abs().gens[cid]
                && (channels[i].timeoutPending <==> cid in Abs().tombs)
      ensures (phase == IDLE <==> Abs().phase.Idle?) && (phase == RX <==> Abs().phase.Rx?)
      ensures phase == IDLE ==> activeCid == 0
      ensures phase != IDLE ==> Abs().phase.cid == activeCid && Abs().phase.command == activeCommand
      ensures i < channels.Length ==> (channels[i].partialActive <==> Abs().phase.Rx? && Abs().phase.cid == cid)
      ensures i < channels.Length && channels[i].partialActive ==>
                && channels[i].lastPacketMs == Abs().phase.lastMs && phase == RX && activeCid == cid
                && channels[i].nextSequence == NextSequence(Abs().phase.got)
      ensures Valid() && Abs() == old(Abs()) && Inv(Abs())
    {
      RegistersShow(Tables());
      i := Find(cid);
      if i < channels.Length {
        GensAt(channels[..], i);
      }
    }

    /** Empties the handoff buffer. */
    method DropMessage()
      requires Layout() && Buffers()
      modifies Repr()
      ensures Buffers() && Tables() == Dropped(old(Tables()))
      ensures messageReady == false
    {
      if messageReady && completeBuffer < 2 {
        Wipe(Pool(completeBuffer));
        messageReady, completeBuffer := false, NO_BUFFER;
        completeCid, completeCommand, completeLen, completeGeneration := 0, 0, 0, 0;
      }
    }

    /** Replaces the record of channel `i` and releases the transport. */
    method Release(i: nat, c: Channel)
      requires Layout() && Buffers() && Table(channels[..])
      requires i == Slot(channels[..], activeCid) < channels.Length
      modifies Repr()
      ensures Buffers() && Tables() == Idled(old(Tables()), c)
    {
      channels[i] := c;
      Wipe(Pool(rxBuffer));
      phase, activeCid, activeCommand := IDLE, 0, 0;
    }

    /** Ends the transaction in progress and drops its message, leaving no request bytes. */
    method ClearActive()
      requires Valid() && phase != IDLE
      modifies Repr()
      ensures Valid() && Abs() == Abandon(old(Abs()))
    {
      ghost var before := Tables();
      AbandonRaw(before);
      assert Shape(before);
      hide Good, Abstract, Slot, Table;
      var i := Find(activeCid);
      Release(i, Cleared(channels[i]));
      DropMessage();
    }

    method FinishResponse(cid: u32, generation: u32)
      requires Valid()
      modifies Repr()
      ensures Valid() && Abs() == Finish(old(Abs()), cid, generation)
    {
      if phase != PROCESSING || activeCid != cid {
        return;
      }
      var i := Find(cid);
      GensAt(channels[..], i);
      if channels[i].generation != generation {
        return;
      }
      ClearActive();
    }

    /** Drops a partial message that has waited too long and remembers to say so. */
    method Cleanup(now: u32)
      requires Valid()
      modifies Repr()
      ensures Valid() && Abs() == Expire(old(Abs()), now)
    {
      if phase != RX {
        return;
      }
      var i := Find(activeCid);
      if !Expired(now, channels[i].lastPacketMs, MESSAGE_TIMEOUT_MS) {
        return;
      }
      ExpireRaw(Tables(), now);
      hide Good, Abstract, Slot, Table;
      Release(i, ClearedRx(channels[i]).(timeoutPending := true));
    }

    /** Hands the complete message to the application, once. */
    method TakeMessage(cap: nat) returns (taken: Taken)
      requires Valid()
      modifies Repr()
      ensures Valid() && (Abs(), taken) == Take(old(Abs()), cap)
    {
      if !messageReady || completeBuffer >= 2 {
        return Empty;
      }
      if completeLen > cap {
        return TooSmall;
      }
      taken := Took(Message(completeCid, completeCommand, Pool(completeBuffer)[..completeLen], completeGeneration));
      TakeRaw(Tables());
      assert Abs().ready == Some(taken.message);
      hide Good, Abstract, Slot, Table;
      DropMessage();
    }

    method Cancelled(cid: u32, generation: u32) returns (cancelled: bool)
      requires Valid()
      ensures cancelled == IsCancelled(Abs(), cid, generation)
    {
      if phase != PROCESSING || activeCid != cid {
        return true;
      }
      var i := Find(cid);
      GensAt(channels[..], i);
      cancelled := channels[i].generation != generation || channels[i].cancel;
    }

    method ClearCancelMark(cid: u32, generation: u32)
      requires Valid()
      modifies Repr()
      ensures Valid() && Abs() == ClearCancel(old(Abs()), cid, generation)
    {
      if phase != PROCESSING || activeCid != cid {
        return;
      }
      var i := Find(cid);
      GensAt(channels[..], i);
      if channels[i].generation == generation {
        Mark(i, channels[i].(cancel := false));
      }
    }

    /** Records that a keepalive went out on channel `cid`. */
    method KeepaliveSent(cid: u32, status: byte, now: u32)
      requires Valid()
      modifies Repr()
      ensures Valid() && Abs() == NoteKeepalive(old(Abs()), cid, status, now)
    {
      if phase != PROCESSING || activeCid != cid || activeCommand != CBOR {
        return;
      }
      var i := Find(cid);
      Mark(i, channels[i].(keepaliveSent := true, lastKeepaliveMs := now, lastKeepaliveStatus := status));
    }

    /** Changes the cancel and keepalive marks of the channel being processed. */
    method Mark(i: nat, c: Channel)
      requires Valid() && phase == PROCESSING && i == Slot(channels[..], activeCid)
      requires c == channels[i].(cancel := c.cancel, keepaliveSent := c.keepaliveSent,
                                 lastKeepaliveMs := c.lastKeepaliveMs, lastKeepaliveStatus := c.lastKeepaliveStatus)
      requires c.cancel || c.keepaliveSent ==> activeCommand == CBOR
      modifies Repr()
      ensures Valid()
      ensures Abs() == old(Abs()).(phase := Processing(old(activeCid), old(activeCommand), c.cancel,
                if c.keepaliveSent then Some(Keepalive(c.lastKeepaliveStatus, c.lastKeepaliveMs)) else None))
    {
      ghost var before := Tables();
      MarkRaw(before, c);
      hide Good, Abstract, Slot, Table;
      channels[i] := c;
      assert Tables() == WithSlot(before, i, c);
    }

    // ---- replies

    /** A one-byte transport error. */
    method ErrorAction(cid: u32, code: byte) returns (action: Action)
      requires Valid()
      modifies control
      ensures Valid() && Abs() == old(Abs())
      ensures action == Fail(cid, code)
    {
      control[0] := code;
      action := Reply(cid, ERROR, control[..1], 0);
    }

    method InitAction(cid: u32, granted: u32, nonce: seq<byte>) returns (action: Action)
      requires Valid() && |nonce| == 8
      modifies control
      ensures Valid() && Abs() == old(Abs())
      ensures action == InitReply(cid, granted, nonce)
    {
      var reply := nonce + StoreU32(granted) + INIT_TRAILER;
      for i := 0 to control.Length
        invariant control[..i] == reply[..i]
      {
        control[i] := reply[i];
      }
      action := Reply(cid, INIT, control[..], 0);
    }

    // ---- channel allocation and resynchronisation

    method FreeSlot() returns (free: nat)
      requires Valid()
      ensures free <= channels.Length
      ensures free == channels.Length <==> |Abs().gens| >= CHANNEL_COUNT
      ensures free < channels.Length ==> !channels[free].inUse
    {
      free := 0;
      while free < channels.Length && channels[free].inUse
        invariant free <= channels.Length
        invariant forall j :: 0 <= j < free ==> channels[j].inUse
      {
        free := free + 1;
      }
      GensCount(channels[..]);
      if free < channels.Length {
        assert !channels[..][free].inUse;
      }
    }

    /** Draws channel numbers, with a bound on the work, until one is neither reserved nor taken. */
    method DrawCid(draws: Draws) returns (outcome: Allocation)
      requires Valid()
      ensures outcome == Draw(Abs().gens, draws, 0)
    {
      for attempt := 0 to CID_RETRIES
        invariant Draw(Abs().gens, draws, 0) == Draw(Abs().gens, draws, attempt)
      {
        var drawn := draws(attempt);
        if drawn.None? {
          return RandomFailed;
        }
        var i := Locate(drawn.value);
        if drawn.value != 0 && drawn.value != BROADCAST_CID && i == channels.Length {
          return Allocated(drawn.value);
        }
      }
      outcome := RetriesExhausted;
    }

    /** Gives a free slot to a fresh channel number. */
    method AllocateChannel(draws: Draws) returns (outcome: Allocation)
      requires Valid()
      modifies channels
      ensures Valid() && outcome == Allocate(old(Abs()).gens, draws)
      ensures Abs() == if outcome.Allocated? then old(Abs()).(gens := old(Abs()).gens[outcome.cid := 0]) else old(Abs())
    {
      hide Good, Abstract, Slot, Table;
      var free := FreeSlot();
      if free == channels.Length {
        return TableFull;
      }
      outcome := DrawCid(draws);
      if outcome.Allocated? {
        DrawIsUsable(Abs().gens, draws, 0);
        FillChannel(free, outcome.cid);
      }
    }

    method FillChannel(free: nat, cid: u32)
      requires Valid() && free < channels.Length && !channels[free].inUse && Usable(Abs().gens, cid)
      modifies channels
      ensures Valid() && Abs() == old(Abs()).(gens := old(Abs()).gens[cid := 0])
    {
      ghost var before := Tables();
      AllocateRaw(before, free, cid);
      hide Good, Abstract, Slot, Table;
      channels[free] := FREE_CHANNEL.(cid := cid, inUse := true);
      assert Tables() == WithSlot(before, free, channels[free]);
    }

    method HandleInit(r: Report, draws: Draws) returns (action: Action)
      requires Valid()
      modifies Repr()
      ensures Valid() && (Abs(), action) == FeedInit(old(Abs()), r, draws)
    {
      hide Valid, Abs, Tables, Slot, Inv, Allocate, InitReply;
      var cid := Cid(r);
      if DeclaredLen(r) != 8 {
        action := ErrorAction(cid, ERR_INVALID_LEN);
      } else if cid == BROADCAST_CID {
        var outcome := AllocateChannel(draws);
        match outcome
        case TableFull => action := ErrorAction(cid, ERR_CHANNEL_BUSY);
        case Allocated(c) => action := InitAction(cid, c, Nonce(r));
        case _ => action := ErrorAction(cid, ERR_OTHER);
      } else {
        action := HandleOwnInit(r, draws);
      }
    }

    /** A channel resynchronises itself; other channels never lose a transaction to it. */
    method HandleOwnInit(r: Report, draws: Draws) returns (action: Action)
      requires Valid() && Cid(r) != BROADCAST_CID && DeclaredLen(r) == 8
      modifies Repr()
      ensures Valid() && (Abs(), action) == FeedInit(old(Abs()), r, draws)
    {
      hide Valid, Abs, Tables, Slot, Inv, Allocate, InitReply;
      var cid := Cid(r);
      var i := Locate(cid);
      if i == channels.Length {
        action := ErrorAction(cid, ERR_INVALID_CHANNEL);
      } else if phase != IDLE && activeCid != cid {
        action := ErrorAction(cid, ERR_CHANNEL_BUSY);
      } else {
        RenewOwn(cid);
        action := InitAction(cid, cid, Nonce(r));
      }
    }

    /** Abandons what the channel had in progress and gives it a new generation. */
    method RenewOwn(cid: u32)
      requires Valid() && cid in Abs().gens && (phase == IDLE || activeCid == cid)
      modifies Repr()
      ensures Valid()
      ensures var s := old(Abs());
              Abs() == State(s.gens[cid := Bump(s.gens[cid])], s.tombs - {cid}, Idle, None)
    {
      RegistersShow(Tables());
      if activeCid == cid {
        ClearActive();
        RegistersShow(Tables());
      }
      hide Good, Abstract, Slot, Table;
      var i := Locate(cid);
      Resync(i);
    }

    /** Renews a channel while nothing is in progress. */
    method Resync(i: nat)
      requires Valid() && phase == IDLE && i < channels.Length && channels[i].inUse
      modifies Repr()
      ensures Valid()
      ensures old(channels[i].cid) in old(Abs()).gens
      ensures var cid, s := old(channels[i].cid), old(Abs());
              Abs() == State(s.gens[cid := Bump(s.gens[cid])], s.tombs - {cid}, Idle, None)
    {
      ghost var before := Tables();
      ResyncRaw(before, i);
      hide Good, Abstract, Slot, Table;
      var c := channels[i];
      channels[i] := ClearedRx(c).(cancel := false, timeoutPending := false, generation := Bump(c.generation));
      assert Tables() == WithSlot(before, i, channels[i]);
    }

    method HandleCancel(r: Report) returns (action: Action)
      requires Valid()
      modifies Repr()
      ensures Valid() && (Abs(), action) == FeedCancel(old(Abs()), r)
    {
      var cid := Cid(r);
      if DeclaredLen(r) != 0 || phase != PROCESSING || activeCid != cid || activeCommand != CBOR {
        return Nothing;
      }
      var i := Find(cid);
      GensAt(channels[..], i);
      var generation := channels[i].generation;
      Mark(i, channels[i].(cancel := true));
      action := CancelNotice(cid, generation);
    }

    // ---- requests and their fragments

    /** Forgets a timeout that was still to be reported on the channel. */
    method Settle(i: nat)
      requires Valid() && i < channels.Length && channels[i].inUse
      modifies channels
      ensures Valid() && Abs() == old(Abs()).(tombs := old(Abs()).tombs - {old(channels[i].cid)})
      ensures channels[i] == old(channels[i]).(timeoutPending := false)
    {
      ghost var before := Tables();
      SettleRaw(before, i);
      hide Good, Abstract, Slot, Table;
      channels[i] := channels[i].(timeoutPending := false);
      assert Tables() == WithSlot(before, i, channels[i]);
    }

    /** Gives the transport and a scrubbed assembly buffer to channel `i`. */
    method BeginMessage(i: nat, command: byte, declared: u16, now: u32)
      requires Valid() && phase == IDLE && i < channels.Length && channels[i].inUse && !channels[i].timeoutPending
      requires command in {PING, CBOR} && declared <= MAX_PAYLOAD && (command == CBOR ==> declared > 0)
      modifies Repr()
      ensures Layout() && Buffers() && activeCid == old(channels[i].cid) && activeCommand == command
      ensures channels[i].nextSequence == 0
      ensures var s := old(Abs());
              && activeCid in s.gens
              && Filling(Tables(), s.(gens := s.gens[activeCid := Bump(s.gens[activeCid])]), i, declared, [], now)
    {
      BeginRaw(Tables(), i, command, declared, now);
      hide Good, Abstract, Slot, Table, Filling;
      Claim(i, Begun(channels[i], command, declared, now), command);
    }

    method Claim(i: nat, c: Channel, command: byte)
      requires Layout() && Buffers() && i < channels.Length
      modifies Repr()
      ensures Buffers() && channels[i] == c && activeCid == c.cid && activeCommand == command
      ensures Tables() == WithSlot(old(Tables()), i, c).(rx := Zeros(MAX_PAYLOAD), tag := RX,
                            activeCid := c.cid, activeCommand := command)
    {
      phase, activeCid, activeCommand := RX, c.cid, command;
      channels[i] := c;
      Wipe(Pool(rxBuffer));
    }

    /** Copies a chunk behind the bytes received so far. */
    method Append(i: nat, chunk: seq<byte>, sequence: byte, now: u32,
                  ghost s: State, ghost got: seq<byte>, ghost declared: nat, ghost since: u32)
      requires Layout() && Buffers() && Filling(Tables(), s, i, declared, got, since)
      requires |got| + |chunk| <= declared
      modifies Repr()
      ensures Layout() && Buffers() && Filling(Tables(), s, i, declared, got + chunk, now)
      ensures channels[i].nextSequence == sequence
      ensures activeCid == old(activeCid) && activeCommand == old(activeCommand)
    {
      ghost var before := Tables();
      var c := channels[i];
      CopyIn(Pool(rxBuffer), c.received, chunk);
      ghost var rx := Pool(rxBuffer)[..];
      assert Blank(before.rx, |got|) && before.rx[..|got|] == got;
      AppendRaw(before, s, i, declared, got, since, chunk, rx, sequence, now);
      hide Filling, Slot, Table;
      channels[i] := Grown(c, c.received + |chunk|, sequence, now);
      assert Tables() == WithSlot(before, i, channels[i]).(rx := rx);
    }

    static method CopyIn(a: array<byte>, from: nat, chunk: seq<byte>)
      requires from + |chunk| <= a.Length
      modifies a
      ensures a[..] == old(a[..from]) + chunk + old(a[from + |chunk|..])
    {
      for k := 0 to |chunk|
        invariant a[..from] == old(a[..from]) && a[from..from + k] == chunk[..k]
        invariant a[from + |chunk|..] == old(a[from + |chunk|..])
      {
        a[from + k] := chunk[k];
      }
    }

    /** Turns the filled assembly buffer into the handoff buffer, without a copy. */
    method HandOver(i: nat)
      requires Layout() && Buffers() && i < channels.Length && !messageReady
      modifies this
      ensures Buffers()
      ensures var c := channels[i];
              var before := old(Tables());
              Tables() == before.(tag := PROCESSING, rx := before.other, other := before.rx, ready := true,
                completeLen := c.declaredLen, completeCid := c.cid, completeCommand := c.command,
                completeGeneration := c.generation)
    {
      var c := channels[i];
      phase := PROCESSING;
      completeBuffer := rxBuffer;
      completeCid, completeCommand, completeLen, completeGeneration := c.cid, c.command, c.declaredLen, c.generation;
      rxBuffer := 1 - rxBuffer;
      messageReady := true;
    }

    /** Hands a fully received message on: a PING is echoed, a CBOR request swaps buffers. */
    method CompleteMessage(i: nat, ghost s: State, ghost got: seq<byte>, ghost now: u32) returns (action: Action)
      requires Layout() && Buffers() && Filling(Tables(), s, i, |got|, got, now)
      requires activeCid in s.gens
      modifies Repr()
      ensures Valid() && (Abs(), action) == Complete(s, old(activeCid), old(activeCommand), got)
    {
      ghost var before := Tables();
      var c := channels[i];
      assert before.rx[..|got|] == got;
      channels[i] := c.(partialActive := false);
      assert Tables() == WithSlot(before, i, channels[i]);
      if c.command == PING {
        CompletePing(before, s, i, got, now);
        hide Good, Abstract, Slot, Table, Filling;
        phase := PROCESSING;
        assert Tables() == WithSlot(before, i, c.(partialActive := false)).(tag := PROCESSING);
        action := Reply(c.cid, PING, Pool(rxBuffer)[..c.declaredLen], c.generation);
      } else {
        if messageReady {
          // a second complete message never meets an unread one
          assert false;
        }
        CompleteCbor(before, s, i, got, now);
        hide Good, Abstract, Slot, Table, Filling;
        action := Deliver(Message(c.cid, c.command, Pool(rxBuffer)[..c.declaredLen], c.generation));
        HandOver(i);
      }
    }

    /** An initial packet other than CANCEL and INIT. */
    method FeedInitialRequest(r: Report, now: u32) returns (action: Action)
      requires Valid()
      modifies Repr()
      ensures Valid() && (Abs(), action) == FeedRequest(old(Abs()), r, now)
    {
      hide Valid, Abs, Tables, Slot, Inv, Complete;
      var cid, command, declared := Cid(r), Command(r), DeclaredLen(r);
      var i := Locate(cid);
      if i == channels.Length {
        action := ErrorAction(cid, ERR_INVALID_CHANNEL);
        return;
      }
      Settle(i);
      var again := Locate(cid);
      if phase != IDLE {
        if activeCid != cid {
          action := ErrorAction(cid, ERR_CHANNEL_BUSY);
        } else if phase == RX {
          ClearActive();
          action := ErrorAction(cid, ERR_INVALID_SEQ);
        } else {
          action := ErrorAction(cid, ERR_CHANNEL_BUSY);
        }
      } else if declared > MAX_PAYLOAD {
        action := ErrorAction(cid, ERR_INVALID_LEN);
      } else if command != PING && command != CBOR {
        action := ErrorAction(cid, ERR_INVALID_CMD);
      } else if command == CBOR && declared == 0 {
        action := ErrorAction(cid, ERR_INVALID_LEN);
      } else {
        action := StartMessage(i, r, now);
      }
    }

    /** Accepts the first report of a message. */
    method StartMessage(i: nat, r: Report, now: u32) returns (action: Action)
      requires Valid() && phase == IDLE && i < channels.Length && channels[i].inUse && !channels[i].timeoutPending
      requires Command(r) in {PING, CBOR} && DeclaredLen(r) <= MAX_PAYLOAD && (Command(r) == CBOR ==> DeclaredLen(r) > 0)
      modifies Repr()
      ensures Valid() && old(channels[i].cid) in old(Abs()).gens
      ensures var cid, s := old(channels[i].cid), old(Abs());
              (Abs(), action) == Absorb(s.(gens := s.gens[cid := Bump(s.gens[cid])]), cid, Command(r), DeclaredLen(r),
                                        FirstChunk(r), now)
    {
      ghost var cid, was := channels[i].cid, Abs();
      hide Good, Abstract, Slot, Table, Filling, Valid, Abs, Tables, Complete;
      BeginMessage(i, Command(r), DeclaredLen(r), now);
      ghost var s := was.(gens := was.gens[cid := Bump(was.gens[cid])]);
      var declared := DeclaredLen(r);
      var chunk := FirstChunk(r);
      assert [] + chunk == chunk;
      action := Extend(i, chunk, 0, now, s, [], declared, now);
    }

    /** Copies a chunk in and completes the message if it was the last. */
    method Extend(i: nat, chunk: seq<byte>, sequence: byte, now: u32,
                  ghost s: State, ghost got: seq<byte>, ghost declared: nat, ghost since: u32)
      returns (action: Action)
      requires Layout() && Buffers() && Filling(Tables(), s, i, declared, got, since)
      requires |got| + |chunk| <= declared && activeCid in s.gens
      requires |got + chunk| == declared || (Partial(got + chunk, declared) && sequence == NextSequence(got + chunk))
      modifies Repr()
      ensures Valid() && (Abs(), action) == Absorb(s, old(activeCid), old(activeCommand), declared, got + chunk, now)
    {
      hide Good, Abstract, Slot, Table, Filling, Tables, Partial, NextSequence, Complete;
      Append(i, chunk, sequence, now, s, got, declared, since);
      action := AdvanceMessage(i, s, got + chunk, declared, now);
    }

    /** Completes the message if its last byte has arrived. */
    method AdvanceMessage(i: nat, ghost s: State, ghost got: seq<byte>, ghost declared: nat, ghost now: u32)
      returns (action: Action)
      requires Layout() && Buffers() && Filling(Tables(), s, i, declared, got, now)
      requires |got| == declared || (Partial(got, declared) && channels[i].nextSequence == NextSequence(got))
      requires activeCid in s.gens
      modifies Repr()
      ensures Valid() && (Abs(), action) == Absorb(s, old(activeCid), old(activeCommand), declared, got, now)
    {
      if channels[i].received == channels[i].declaredLen {
        action := CompleteMessage(i, s, got, now);
      } else {
        StillFilling(Tables(), s, i, declared, got, now);
        action := Nothing;
      }
    }

    /** A continuation, after a stale partial message has been dropped. */
    method FeedContinuationReport(r: Report, now: u32) returns (action: Action)
      requires Valid() && !(Abs().phase.Rx? && Expired(now, Abs().phase.lastMs, MESSAGE_TIMEOUT_MS))
      modifies Repr()
      ensures Valid() && (Abs(), action) == FeedContinuation(old(Abs()), r, now)
    {
      hide Valid, Abs, Tables, Slot, Absorb, NextSequence;
      var cid := Cid(r);
      var i := Locate(cid);
      if i < channels.Length && channels[i].timeoutPending {
        Settle(i);
        action := ErrorAction(cid, ERR_MSG_TIMEOUT);
      } else if i == channels.Length || !channels[i].partialActive || phase != RX || activeCid != cid {
        action := Nothing;
      } else {
        if Expired(now, channels[i].lastPacketMs, MESSAGE_TIMEOUT_MS) {
          // the cleanup before every report has already dropped such a message
          assert false;
        }
        if r[4] != channels[i].nextSequence {
          ClearActive();
          action := ErrorAction(cid, ERR_INVALID_SEQ);
        } else {
          action := ContinueMessage(i, r, now);
        }
      }
    }

    /** Accepts the next report of the message in progress. */
    method ContinueMessage(i: nat, r: Report, now: u32) returns (action: Action)
      requires Valid() && phase == RX && i == Slot(channels[..], activeCid) && r[4] == channels[i].nextSequence
      modifies Repr()
      ensures old(Abs()).phase.Rx? && old(Abs()).phase.cid in old(Abs()).gens
      ensures |old(Abs()).phase.got| <= old(Abs()).phase.declared
      ensures var s := old(Abs());
              Valid() && (Abs(), action) == Absorb(s, s.phase.cid, s.phase.command, s.phase.declared,
                           s.phase.got + NextChunk(r, s.phase.declared - |s.phase.got|), now)
    {
      ResumeRaw(Tables());
      hide Good, Abstract, Slot, Table, Filling, Partial, NextSequence, NextChunk, Complete, Inv;
      ghost var p, s := Abs().phase, Abs().(phase := Idle);
      var c := channels[i];
      var chunk := NextChunk(r, c.declaredLen - c.received);
      FragmentFits(p.got, p.declared, chunk);
      action := Extend(i, chunk, r[4] + 1, now, s, p.got, p.declared, p.lastMs);
    }

    /** One report from the host. */
    method FeedReport(r: Report, now: u32, draws: Draws) returns (action: Action)
      requires Valid()
      modifies Repr()
      ensures Valid() && Inv(old(Abs())) && (Abs(), action) == Feed(old(Abs()), r, now, draws)
    {
      RegistersShow(Tables());
      ExpireKeepsInv(Abs(), now);
      ghost var live := Expire(Abs(), now);
      hide Good, Abstract, Slot, Table;
      Cleanup(now);
      assert Expire(live, now) == live;
      if IsInitial(r) {
        if Command(r) == CANCEL {
          action := HandleCancel(r);
        } else if Command(r) == INIT {
          action := HandleInit(r, draws);
        } else {
          action := FeedInitialRequest(r, now);
        }
      } else {
        action := FeedContinuationReport(r, now);
      }
    }
  }
}
