/**
  The receiver's tables and buffers as a value, and the protocol state they stand for. The
  lemmas here say what each in-place update of `CtaphidCore.Core` does to that state.
*/
module CtaphidTable {
  import opened Bytes
  import opened Wire
  import opened CtaphidProtocol

  datatype Channel = Channel(
    cid: u32, lastPacketMs: u32, lastKeepaliveMs: u32, generation: u32,
    declaredLen: u16, received: u16, command: byte, nextSequence: byte, lastKeepaliveStatus: byte,
    inUse: bool, partialActive: bool, cancel: bool, timeoutPending: bool, keepaliveSent: bool)

  const FREE_CHANNEL: Channel := Channel(0, 0, 0, 0, 0, 0, 0, 0, 0, false, false, false, false, false)

  datatype Tag = IDLE | RX | PROCESSING

  /** `rx` is the assembly buffer and `other` the handoff buffer. */
  datatype Raw = Raw(
    cs: seq<Channel>, rx: seq<byte>, other: seq<byte>,
    tag: Tag, activeCid: u32, activeCommand: byte,
    ready: bool, completeLen: nat, completeCid: u32, completeCommand: byte, completeGeneration: u32)

  // ---- the channel table

  predicate Uses(c: Channel, cid: u32) {
    c.inUse && c.cid == cid
  }

  predicate Table(cs: seq<Channel>) {
    && |cs| == CHANNEL_COUNT
    && (forall i :: 0 <= i < |cs| && cs[i].inUse ==> cs[i].cid != 0 && cs[i].cid != BROADCAST_CID)
    && (forall i, j :: 0 <= i < j < |cs| && cs[i].inUse && cs[j].inUse ==> cs[i].cid != cs[j].cid)
  }

  /** The slot of an allocated channel, or `|cs|`. */
  function Slot(cs: seq<Channel>, cid: u32): (r: nat)
    ensures r <= |cs|
    ensures r < |cs| ==> Uses(cs[r], cid)
    ensures r == |cs| ==> forall i :: 0 <= i < |cs| ==> !Uses(cs[i], cid)
  {
    if cs == [] then 0
    else if Uses(cs[0], cid) then 0
    else 1 + Slot(cs[1..], cid)
  }

  lemma SlotIs(cs: seq<Channel>, cid: u32, i: nat)
    requires Table(cs) && i < |cs| && Uses(cs[i], cid)
    ensures Slot(cs, cid) == i
  {
  }

  ghost predicate Listed(cs: seq<Channel>, cid: u32) {
    Slot(cs, cid) < |cs|
  }

  ghost function Gens(cs: seq<Channel>): map<u32, u32> {
    map cid: u32 | 0 <= cid < U32_SPAN && Listed(cs, cid) :: cs[Slot(cs, cid)].generation
  }

  ghost function Tombs(cs: seq<Channel>): set<u32> {
    set cid: u32 | 0 <= cid < U32_SPAN && Listed(cs, cid) && cs[Slot(cs, cid)].timeoutPending
  }

  lemma GensAt(cs: seq<Channel>, i: nat)
    requires Table(cs) && i < |cs| && cs[i].inUse
    ensures cs[i].cid in Gens(cs) && Gens(cs)[cs[i].cid] == cs[i].generation
    ensures cs[i].cid in Tombs(cs) <==> cs[i].timeoutPending
  {
    SlotIs(cs, cs[i].cid, i);
  }

  /** The slots of a table that differs from `cs` in slot `i` only. */
  lemma SlotAfter(cs: seq<Channel>, i: nat, c: Channel, cid: u32)
    requires Table(cs) && i < |cs| && Table(cs[i := c])
    requires cs[i].inUse ==> c.inUse && c.cid == cs[i].cid
    requires c.inUse
    ensures Slot(cs[i := c], cid) == if cid == c.cid then i else Slot(cs, cid)
  {
    var cs' := cs[i := c];
    if cid == c.cid {
      SlotIs(cs', cid, i);
    } else {
      var k := Slot(cs, cid);
      if k < |cs| {
        SlotIs(cs', cid, k);
      }
    }
  }

  lemma UpdateSlot(cs: seq<Channel>, i: nat, c: Channel)
    requires Table(cs) && i < |cs| && cs[i].inUse && c.inUse && c.cid == cs[i].cid
    ensures Table(cs[i := c])
    ensures Gens(cs[i := c]) == Gens(cs)[c.cid := c.generation]
    ensures Tombs(cs[i := c]) == if c.timeoutPending then Tombs(cs) + {c.cid} else Tombs(cs) - {c.cid}
  {
    forall cid: u32
      ensures Slot(cs[i := c], cid) == if cid == c.cid then i else Slot(cs, cid)
    {
      SlotAfter(cs, i, c, cid);
    }
    SlotIs(cs, c.cid, i);
  }

  lemma FillSlot(cs: seq<Channel>, i: nat, c: Channel)
    requires Table(cs) && i < |cs| && !cs[i].inUse && c.inUse && !c.timeoutPending
    requires Usable(Gens(cs), c.cid)
    ensures Table(cs[i := c])
    ensures Gens(cs[i := c]) == Gens(cs)[c.cid := c.generation]
    ensures Tombs(cs[i := c]) == Tombs(cs)
  {
    hide Slot;
    assert !Listed(cs, c.cid);
    forall cid: u32
      ensures Slot(cs[i := c], cid) == if cid == c.cid then i else Slot(cs, cid)
    {
      SlotAfter(cs, i, c, cid);
    }
  }

  function InUse(cs: seq<Channel>): nat {
    if cs == [] then 0 else (if cs[0].inUse then 1 else 0) + InUse(cs[1..])
  }

  ghost function ListedIn(cs: seq<Channel>): set<u32> {
    set cid: u32 | 0 <= cid < U32_SPAN && Listed(cs, cid)
  }

  lemma {:induction false} InUseAll(cs: seq<Channel>)
    ensures InUse(cs) <= |cs|
    ensures InUse(cs) == |cs| <==> forall i :: 0 <= i < |cs| ==> cs[i].inUse
  {
    if cs != [] {
      InUseAll(cs[1..]);
      assert forall i :: 0 < i < |cs| ==> cs[i] == cs[1..][i - 1];
    }
  }

  lemma {:induction false} ListedCount(cs: seq<Channel>)
    requires forall i, j :: 0 <= i < j < |cs| && cs[i].inUse && cs[j].inUse ==> cs[i].cid != cs[j].cid
    ensures |ListedIn(cs)| == InUse(cs)
  {
    if cs == [] {
      assert ListedIn(cs) == {};
    } else {
      var rest := cs[1..];
      ListedCount(rest);
      if cs[0].inUse {
        forall i | 0 <= i < |rest|
          ensures !Uses(rest[i], cs[0].cid)
        {
          assert rest[i] == cs[i + 1];
        }
        assert !Listed(rest, cs[0].cid);
        assert ListedIn(cs) == ListedIn(rest) + {cs[0].cid};
      } else {
        assert ListedIn(cs) == ListedIn(rest);
      }
    }
  }

  /** The protocol's channel count is the table's: it is full exactly when no slot is free. */
  lemma GensCount(cs: seq<Channel>)
    requires Table(cs)
    ensures |Gens(cs)| <= CHANNEL_COUNT
    ensures |Gens(cs)| == CHANNEL_COUNT <==> forall i :: 0 <= i < |cs| ==> cs[i].inUse
  {
    ListedCount(cs);
    InUseAll(cs);
    assert Gens(cs).Keys == ListedIn(cs);
    assert |Gens(cs)| == |Gens(cs).Keys|;
  }

  // ---- what the tables and buffers stand for

  predicate Blank(s: seq<byte>, from: nat) {
    forall i :: from <= i < |s| ==> s[i] == 0
  }

  predicate Shape(raw: Raw) {
    && Table(raw.cs) && |raw.rx| == MAX_PAYLOAD && |raw.other| == MAX_PAYLOAD
    && (raw.tag != IDLE ==> Slot(raw.cs, raw.activeCid) < |raw.cs| && Active(raw).received <= MAX_PAYLOAD)
    && (raw.ready ==> raw.completeLen <= MAX_PAYLOAD)
  }

  function Active(raw: Raw): Channel
    requires Slot(raw.cs, raw.activeCid) < |raw.cs|
  {
    raw.cs[Slot(raw.cs, raw.activeCid)]
  }

  ghost function Abstract(raw: Raw): State
    requires Shape(raw)
  {
    State(Gens(raw.cs), Tombs(raw.cs), PhaseOf(raw),
          if raw.ready then Some(Message(raw.completeCid, raw.completeCommand,
                                         raw.other[..raw.completeLen], raw.completeGeneration))
          else None)
  }

  function PhaseOf(raw: Raw): Phase
    requires Shape(raw)
  {
    match raw.tag
    case IDLE => Idle
    case RX =>
      var c := Active(raw);
      Rx(raw.activeCid, raw.activeCommand, c.declaredLen, raw.rx[..c.received], c.lastPacketMs)
    case PROCESSING =>
      var c := Active(raw);
      Processing(raw.activeCid, raw.activeCommand, c.cancel,
                 if c.keepaliveSent then Some(Keepalive(c.lastKeepaliveStatus, c.lastKeepaliveMs)) else None)
  }

  /** Only the active channel has a message, a cancel or a keepalive on record. */
  predicate Flags(raw: Raw) {
    forall i :: 0 <= i < |raw.cs| && raw.cs[i].inUse ==>
      var c := raw.cs[i];
      && (c.partialActive <==> raw.tag == RX && c.cid == raw.activeCid)
      && (c.cancel || c.keepaliveSent ==> raw.tag == PROCESSING && c.cid == raw.activeCid)
  }

  predicate NoMessage(raw: Raw) {
    !raw.ready && raw.completeLen == 0 && raw.completeCid == 0 && raw.completeCommand == 0 && raw.completeGeneration == 0
  }

  /** How many bytes of the assembly buffer belong to a message in progress or a PING being echoed. */
  function LiveBytes(raw: Raw): nat
    requires Shape(raw)
  {
    match raw.tag
    case IDLE => 0
    case RX => Active(raw).received
    case PROCESSING => if raw.activeCommand == PING then Active(raw).declaredLen else 0
  }

  /** Every buffer byte outside a live message is zero. */
  predicate Scrubbed(raw: Raw)
    requires Shape(raw)
  {
    Blank(raw.rx, LiveBytes(raw)) && Blank(raw.other, if raw.ready then raw.completeLen else 0)
  }

  ghost predicate Good(raw: Raw) {
    && Shape(raw) && Flags(raw) && Scrubbed(raw)
    && (raw.tag == IDLE ==> raw.activeCid == 0 && raw.activeCommand == 0)
    && (raw.tag == RX ==> Active(raw).command == raw.activeCommand
                          && Active(raw).received >= INIT_DATA_BYTES
                          && Active(raw).nextSequence == NextSequence(raw.rx[..Active(raw).received]))
    && (!raw.ready ==> NoMessage(raw))
    && Inv(Abstract(raw))
  }

  /** When nothing is in progress, or once the application holds the message, no byte remains. */
  lemma NoRequestBytesRemain(raw: Raw)
    requires Good(raw)
    requires raw.tag == IDLE || (!raw.ready && raw.activeCommand == CBOR && raw.tag == PROCESSING)
    ensures Blank(raw.rx, 0) && Blank(raw.other, 0)
  {
    if raw.tag == IDLE { assert Abstract(raw).phase.Idle?; }
  }

  /** Which registers of the core show which part of the protocol state. */
  lemma RegistersShow(raw: Raw)
    requires Good(raw)
    ensures Table(raw.cs) && Inv(Abstract(raw))
    ensures var s := Abstract(raw);
            && (raw.tag == IDLE <==> s.phase.Idle?)
            && (raw.tag == RX <==> s.phase.Rx?)
            && (raw.tag == PROCESSING <==> s.phase.Processing?)
            && (raw.tag == IDLE ==> raw.activeCid == 0)
            && (raw.tag != IDLE ==> s.phase.cid == raw.activeCid && s.phase.command == raw.activeCommand)
  {
  }

  // ---- the updates

  function ClearedRx(c: Channel): Channel {
    c.(partialActive := false, command := 0, declaredLen := 0, received := 0, nextSequence := 0, lastPacketMs := 0)
  }

  function Cleared(c: Channel): Channel {
    ClearedRx(c).(cancel := false, keepaliveSent := false, lastKeepaliveMs := 0, lastKeepaliveStatus := 0)
  }

  function Idled(raw: Raw, c: Channel): Raw
    requires Slot(raw.cs, raw.activeCid) < |raw.cs|
  {
    raw.(cs := raw.cs[Slot(raw.cs, raw.activeCid) := c], rx := Zeros(MAX_PAYLOAD), tag := IDLE, activeCid := 0, activeCommand := 0)
  }

  function Dropped(raw: Raw): Raw {
    if raw.ready then
      raw.(other := Zeros(MAX_PAYLOAD), ready := false, completeLen := 0, completeCid := 0,
           completeCommand := 0, completeGeneration := 0)
    else raw
  }

  lemma AbandonRaw(raw: Raw)
    requires Good(raw) && raw.tag != IDLE
    ensures var raw' := Dropped(Idled(raw, Cleared(Active(raw))));
            Good(raw') && Abstract(raw') == Abandon(Abstract(raw))
  {
    hide Slot, Gens, Tombs;
    var i := Slot(raw.cs, raw.activeCid);
    UpdateSlot(raw.cs, i, Cleared(raw.cs[i]));
    GensAt(raw.cs, i);
    assert Abstract(raw).phase.cid == raw.activeCid;
  }

  lemma ExpireRaw(raw: Raw, now: u32)
    requires Good(raw) && raw.tag == RX && Expired(now, Active(raw).lastPacketMs, MESSAGE_TIMEOUT_MS)
    ensures var raw' := Idled(raw, ClearedRx(Active(raw)).(timeoutPending := true));
            Good(raw') && Abstract(raw') == Expire(Abstract(raw), now)
  {
    hide Slot, Gens, Tombs;
    var i := Slot(raw.cs, raw.activeCid);
    UpdateSlot(raw.cs, i, ClearedRx(raw.cs[i]).(timeoutPending := true));
    GensAt(raw.cs, i);
    assert Abstract(raw).phase.Rx?;
  }

  function WithSlot(raw: Raw, i: nat, c: Channel): Raw
    requires i < |raw.cs|
  {
    raw.(cs := raw.cs[i := c])
  }

  lemma SettleRaw(raw: Raw, i: nat)
    requires Good(raw) && i < |raw.cs| && raw.cs[i].inUse
    ensures var raw' := WithSlot(raw, i, raw.cs[i].(timeoutPending := false));
            var s := Abstract(raw);
            Good(raw') && Abstract(raw') == s.(tombs := s.tombs - {raw.cs[i].cid})
  {
    hide Slot, Gens, Tombs;
    var c := raw.cs[i].(timeoutPending := false);
    UpdateSlot(raw.cs, i, c);
    GensAt(raw.cs, i);
    if raw.tag != IDLE {
      SlotAfter(raw.cs, i, c, raw.activeCid);
      SlotIs(raw.cs, c.cid, i);
    }
  }

  lemma ResyncRaw(raw: Raw, i: nat)
    requires Good(raw) && raw.tag == IDLE && i < |raw.cs| && raw.cs[i].inUse
    ensures var c := raw.cs[i];
            var raw' := WithSlot(raw, i, ClearedRx(c).(cancel := false, timeoutPending := false, generation := Bump(c.generation)));
            var s := Abstract(raw);
            && Good(raw') && c.cid in s.gens
            && Abstract(raw') == State(s.gens[c.cid := Bump(s.gens[c.cid])], s.tombs - {c.cid}, Idle, None)
  {
    hide Slot, Gens, Tombs;
    var c := raw.cs[i];
    UpdateSlot(raw.cs, i, ClearedRx(c).(cancel := false, timeoutPending := false, generation := Bump(c.generation)));
    GensAt(raw.cs, i);
    GensCount(WithSlot(raw, i, ClearedRx(c).(cancel := false, timeoutPending := false, generation := Bump(c.generation))).cs);
    assert Abstract(raw).phase.Idle?;
  }

  lemma AllocateRaw(raw: Raw, i: nat, cid: u32)
    requires Good(raw) && i < |raw.cs| && !raw.cs[i].inUse && Usable(Gens(raw.cs), cid)
    ensures var raw' := WithSlot(raw, i, FREE_CHANNEL.(cid := cid, inUse := true));
            var s := Abstract(raw);
            Good(raw') && Abstract(raw') == s.(gens := s.gens[cid := 0])
  {
    hide Slot, Gens, Tombs;
    var c := FREE_CHANNEL.(cid := cid, inUse := true);
    FillSlot(raw.cs, i, c);
    GensCount(raw.cs[i := c]);
    if raw.tag != IDLE {
      assert Abstract(raw).phase.cid == raw.activeCid;
      SlotAfter(raw.cs, i, c, raw.activeCid);
    }
  }

  lemma TakeRaw(raw: Raw)
    requires Good(raw) && raw.ready
    ensures Good(Dropped(raw)) && Abstract(Dropped(raw)) == Abstract(raw).(ready := None)
  {
    hide Slot, Gens, Tombs;
  }

  /** A change to the cancel or keepalive marks of the channel being processed. */
  lemma MarkRaw(raw: Raw, c: Channel)
    requires Good(raw) && raw.tag == PROCESSING
    requires c == Active(raw).(cancel := c.cancel, keepaliveSent := c.keepaliveSent,
                               lastKeepaliveMs := c.lastKeepaliveMs, lastKeepaliveStatus := c.lastKeepaliveStatus)
    requires c.cancel || c.keepaliveSent ==> raw.activeCommand == CBOR
    ensures var raw' := WithSlot(raw, Slot(raw.cs, raw.activeCid), c);
            var s := Abstract(raw);
            && Good(raw')
            && Abstract(raw') == s.(phase := Processing(raw.activeCid, raw.activeCommand, c.cancel,
                 if c.keepaliveSent then Some(Keepalive(c.lastKeepaliveStatus, c.lastKeepaliveMs)) else None))
  {
    hide Slot, Gens, Tombs;
    var i := Slot(raw.cs, raw.activeCid);
    UpdateSlot(raw.cs, i, c);
    GensAt(raw.cs, i);
    SlotAfter(raw.cs, i, c, raw.activeCid);
    assert Abstract(raw).phase.cid == raw.activeCid;
  }

  // ---- assembling a message

  /** The tables while channel `i` fills the assembly buffer; `s` is the rest of the state. */
  ghost predicate Filling(raw: Raw, s: State, i: nat, declared: nat, got: seq<byte>, now: u32) {
    && Table(raw.cs) && |raw.rx| == MAX_PAYLOAD && |raw.other| == MAX_PAYLOAD
    && raw.tag == RX && i < |raw.cs| && Uses(raw.cs[i], raw.activeCid)
    && Gens(raw.cs) == s.gens && Tombs(raw.cs) == s.tombs && s.phase == Idle && Inv(s)
    && Flags(raw) && NoMessage(raw)
    && Filled(raw, raw.cs[i], declared, got, now)
  }

  ghost predicate Filled(raw: Raw, c: Channel, declared: nat, got: seq<byte>, now: u32) {
    && !c.timeoutPending && c.command == raw.activeCommand && raw.activeCommand in {PING, CBOR}
    && c.declaredLen == declared <= MAX_PAYLOAD && (raw.activeCommand == CBOR ==> declared > 0)
    && c.received == |got| <= declared <= |raw.rx| && c.lastPacketMs == now
    && raw.rx[..|got|] == got && Blank(raw.rx, |got|) && Blank(raw.other, 0)
  }

  function Begun(c: Channel, command: byte, declared: u16, now: u32): Channel {
    c.(partialActive := true, command := command, declaredLen := declared, received := 0, nextSequence := 0,
       lastPacketMs := now, cancel := false, timeoutPending := false, keepaliveSent := false,
       generation := Bump(c.generation))
  }

  lemma BeginRaw(raw: Raw, i: nat, command: byte, declared: u16, now: u32)
    requires Good(raw) && raw.tag == IDLE && i < |raw.cs| && raw.cs[i].inUse && !raw.cs[i].timeoutPending
    requires command in {PING, CBOR} && declared <= MAX_PAYLOAD && (command == CBOR ==> declared > 0)
    ensures var c := raw.cs[i];
            var raw' := WithSlot(raw, i, Begun(c, command, declared, now)).(rx := Zeros(MAX_PAYLOAD), tag := RX,
                          activeCid := c.cid, activeCommand := command);
            var s := Abstract(raw);
            && c.cid in s.gens
            && Filling(raw', s.(gens := s.gens[c.cid := Bump(s.gens[c.cid])]), i, declared, [], now)
  {
    hide Slot, Gens, Tombs;
    var c := raw.cs[i];
    assert Abstract(raw).phase.Idle?;
    UpdateSlot(raw.cs, i, Begun(c, command, declared, now));
    GensAt(raw.cs, i);
    GensCount(raw.cs[i := Begun(c, command, declared, now)]);
  }

  lemma ResumeRaw(raw: Raw)
    requires Good(raw) && raw.tag == RX
    ensures var c := Active(raw);
            var p := Abstract(raw).phase;
            && Inv(Abstract(raw)) && p == Rx(raw.activeCid, raw.activeCommand, c.declaredLen, raw.rx[..c.received], c.lastPacketMs)
            && |p.got| == c.received && c.nextSequence == NextSequence(p.got) && Partial(p.got, p.declared)
            && Filling(raw, Abstract(raw).(phase := Idle), Slot(raw.cs, raw.activeCid), p.declared, p.got, p.lastMs)
  {
    hide Slot, Gens, Tombs;
    GensAt(raw.cs, Slot(raw.cs, raw.activeCid));
    assert Abstract(raw).phase.Rx?;
  }

  function Grown(c: Channel, received: u16, sequence: byte, now: u32): Channel {
    c.(received := received, nextSequence := sequence, lastPacketMs := now)
  }

  lemma AppendRaw(raw: Raw, s: State, i: nat, declared: nat, got: seq<byte>, since: u32,
                  chunk: seq<byte>, rx: seq<byte>, sequence: byte, now: u32)
    requires Filling(raw, s, i, declared, got, since) && |got| + |chunk| <= declared
    requires |rx| == MAX_PAYLOAD && rx[..|got| + |chunk|] == got + chunk && Blank(rx, |got| + |chunk|)
    ensures Filling(WithSlot(raw, i, Grown(raw.cs[i], |got| + |chunk|, sequence, now)).(rx := rx),
                    s, i, declared, got + chunk, now)
  {
    hide Slot, Gens, Tombs;
    UpdateSlot(raw.cs, i, Grown(raw.cs[i], |got| + |chunk|, sequence, now));
    GensAt(raw.cs, i);
  }

  lemma StillFilling(raw: Raw, s: State, i: nat, declared: nat, got: seq<byte>, now: u32)
    requires Filling(raw, s, i, declared, got, now) && Partial(got, declared)
    requires raw.cs[i].nextSequence == NextSequence(got)
    ensures Good(raw) && Abstract(raw) == s.(phase := Rx(raw.activeCid, raw.activeCommand, declared, got, now))
  {
    hide Slot, Gens, Tombs;
    SlotIs(raw.cs, raw.activeCid, i);
    GensAt(raw.cs, i);
  }

  lemma CompletePing(raw: Raw, s: State, i: nat, got: seq<byte>, now: u32)
    requires Filling(raw, s, i, |got|, got, now) && raw.activeCommand == PING
    ensures var raw' := WithSlot(raw, i, raw.cs[i].(partialActive := false)).(tag := PROCESSING);
            && Good(raw') && raw.activeCid in s.gens && s.gens[raw.activeCid] == raw.cs[i].generation
            && Abstract(raw') == Complete(s, raw.activeCid, PING, got).0
  {
    hide Slot, Gens, Tombs;
    var c := raw.cs[i].(partialActive := false);
    GensAt(raw.cs, i);
    UpdateSlot(raw.cs, i, c);
    SlotIs(raw.cs[i := c], raw.activeCid, i);
  }

  lemma CompleteCbor(raw: Raw, s: State, i: nat, got: seq<byte>, now: u32)
    requires Filling(raw, s, i, |got|, got, now) && raw.activeCommand == CBOR
    ensures var raw' := WithSlot(raw, i, raw.cs[i].(partialActive := false)).(tag := PROCESSING,
                          rx := raw.other, other := raw.rx, ready := true, completeLen := |got|,
                          completeCid := raw.activeCid, completeCommand := CBOR, completeGeneration := raw.cs[i].generation);
            && Good(raw') && raw.activeCid in s.gens && s.gens[raw.activeCid] == raw.cs[i].generation
            && Abstract(raw') == Complete(s, raw.activeCid, CBOR, got).0
  {
    hide Slot, Gens, Tombs;
    var c := raw.cs[i].(partialActive := false);
    GensAt(raw.cs, i);
    UpdateSlot(raw.cs, i, c);
    SlotIs(raw.cs[i := c], raw.activeCid, i);
  }

  lemma BootRaw(cs: seq<Channel>)
    requires |cs| == CHANNEL_COUNT && forall i :: 0 <= i < |cs| ==> cs[i] == FREE_CHANNEL
    ensures var raw := Raw(cs, Zeros(MAX_PAYLOAD), Zeros(MAX_PAYLOAD), IDLE, 0, 0, false, 0, 0, 0, 0);
            Good(raw) && Abstract(raw) == BOOT
  {
    assert Gens(cs) == map[];
    assert Tombs(cs) == {};
  }
}
