/** The host side of the framing, as the smoke-test script of the repository implements it. */
module CtaphidProbe {
  import opened Bytes
  import opened Wire
  import opened CtaphidTx

  datatype Outcome<T> = Ok(value: T) | ProbeError

  /** Fragments a message. It refuses exactly what the device refuses and emits the same reports. */
  method EncodeReports(cid: u32, command: byte, payload: seq<byte>) returns (out: Outcome<seq<Report>>)
    ensures out.ProbeError? <==> cid == 0 || command < 0x80 || |payload| > MAX_PAYLOAD
    ensures out.Ok? ==> out.value == Frames(cid, command, payload)
  {
    if cid == 0 || command < 0x80 || |payload| > MAX_PAYLOAD {
      return ProbeError;
    }
    ghost var frames := Frames(cid, command, payload);
    var first := payload[..Min(|payload|, INIT_DATA_BYTES)];
    var reports: seq<Report> := [Pad(StoreU32(cid) + [command] + StoreU16(|payload|) + first)];
    var offset := INIT_DATA_BYTES;
    var sequence := 0;
    while offset < |payload|
      invariant 0 <= sequence && |reports| == sequence + 1 <= |frames|
      invariant offset >= |payload| ==> sequence + 1 == |frames|
      invariant Min(offset, |payload|) == Carried(|payload|, sequence) && INIT_DATA_BYTES <= offset
      invariant offset < |payload| ==> sequence + 1 < |frames|
      invariant reports == frames[..|reports|]
    {
      var chunk := payload[offset..Min(|payload|, offset + CONT_DATA_BYTES)];
      var report: Report := Pad(StoreU32(cid) + [sequence] + chunk);
      assert report == frames[sequence + 1];
      reports := reports + [report];
      offset := offset + |chunk|;
      sequence := sequence + 1;
    }
    out := Ok(reports);
  }

  /**
    Reads one message from the reports that arrive before the deadline: it returns the message
    those reports carry, and fails only when they carry none.
  */
  method ReadMessage(arriving: seq<Report>, expected: u32) returns (out: Outcome<(byte, seq<byte>)>)
    ensures out.Ok? ==> Carries(arriving, expected, out.value.0, out.value.1)
    ensures out.ProbeError? ==> forall c: byte, p: seq<byte> :: !Carries(arriving, expected, c, p)
  {
    if |arriving| == 0 {
      return ProbeError;
    }
    ghost var some := exists c: byte, p: seq<byte> :: Carries(arriving, expected, c, p);
    ghost var goalCommand: byte, goal: seq<byte> := 0, [];
    if some {
      goalCommand, goal :| Carries(arriving, expected, goalCommand, goal);
      assert CarriesAt(arriving[0], expected, goalCommand, goal, 0);
    }
    var command, declared := arriving[0][4], DeclaredLen(arriving[0]);
    if Cid(arriving[0]) != expected || command < 0x80 || declared > MAX_PAYLOAD {
      return ProbeError;
    }
    var payload := arriving[0][7..7 + Min(declared, INIT_DATA_BYTES)];
    var sequence := 0;
    while |payload| < declared
      invariant 0 <= sequence < |arriving|
      invariant |payload| == Carried(declared, sequence)
      invariant Assembled(arriving, expected, declared, payload, sequence)
      invariant some ==> goalCommand == command && |goal| == declared && payload <= goal
      decreases declared - |payload|
    {
      if some {
        NextReport(arriving, expected, goalCommand, goal, payload, sequence);
      }
      if sequence + 1 >= |arriving| {
        return ProbeError;
      }
      var report := arriving[sequence + 1];
      if Cid(report) != expected || report[4] != sequence {
        return ProbeError;
      }
      var take := Min(CONT_DATA_BYTES, declared - |payload|);
      AssembledExtends(arriving, expected, declared, payload, sequence);
      payload := payload + report[5..5 + take];
      sequence := sequence + 1;
    }
    AssembledAll(arriving, expected, command, payload, sequence);
    out := Ok((command, payload));
  }

  /** The reports up to number `sequence` are the frames of a message that begins with `payload`. */
  ghost predicate Assembled(rs: seq<Report>, cid: u32, declared: nat, payload: seq<byte>, sequence: nat) {
    && sequence < |rs| && |payload| == Carried(declared, sequence)
    && payload[..Carried(declared, 0)] == rs[0][7..7 + Carried(declared, 0)]
    && forall k :: 0 < k <= sequence ==> Fragment(rs[k], cid, declared, payload, k)
  }

  ghost predicate Fragment(r: Report, cid: u32, declared: nat, payload: seq<byte>, k: nat)
    requires k > 0
  {
    var lo, hi := Carried(declared, k - 1), Carried(declared, k);
    Cid(r) == cid && r[4] == k - 1 && hi <= |payload| && r[5..5 + hi - lo] == payload[lo..hi]
  }

  lemma AssembledExtends(rs: seq<Report>, cid: u32, declared: nat, payload: seq<byte>, sequence: nat)
    requires Assembled(rs, cid, declared, payload, sequence)
    requires sequence + 1 < |rs| && |payload| < declared
    requires Cid(rs[sequence + 1]) == cid && rs[sequence + 1][4] == sequence
    ensures var take := Min(CONT_DATA_BYTES, declared - |payload|);
            Assembled(rs, cid, declared, payload + rs[sequence + 1][5..5 + take], sequence + 1)
  {
    var take := Min(CONT_DATA_BYTES, declared - |payload|);
    var longer := payload + rs[sequence + 1][5..5 + take];
    forall k | 0 < k <= sequence
      ensures Fragment(rs[k], cid, declared, longer, k)
    {
      assert Fragment(rs[k], cid, declared, payload, k);
    }
  }

  lemma AssembledAll(rs: seq<Report>, cid: u32, command: byte, payload: seq<byte>, sequence: nat)
    requires |payload| <= MAX_PAYLOAD && command >= 0x80
    requires Assembled(rs, cid, |payload|, payload, sequence)
    requires Cid(rs[0]) == cid && rs[0][4] == command && DeclaredLen(rs[0]) == |payload|
    ensures Carries(rs, cid, command, payload)
  {
    CarriedAll(|payload|, sequence);
    forall k: nat | 0 < k < FrameCount(|payload|)
      ensures CarriesAt(rs[k], cid, command, payload, k)
    {
      assert Fragment(rs[k], cid, |payload|, payload, k);
    }
  }

  lemma NextReport(rs: seq<Report>, cid: u32, command: byte, goal: seq<byte>, payload: seq<byte>, sequence: nat)
    requires Carries(rs, cid, command, goal)
    requires payload <= goal && |payload| == Carried(|goal|, sequence) < |goal|
    ensures sequence + 1 < |rs|
    ensures Cid(rs[sequence + 1]) == cid && rs[sequence + 1][4] == sequence
    ensures var take := Min(CONT_DATA_BYTES, |goal| - |payload|);
            payload + rs[sequence + 1][5..5 + take] <= goal
  {
    CarriedAll(|goal|, sequence);
    assert CarriesAt(rs[sequence + 1], cid, command, goal, sequence + 1);
  }

  /**
    What either side fragments, the host reads back, whatever other reports follow on the wire.
  */
  lemma FramedMessageIsCarriedAlone(cid: u32, command: byte, data: seq<byte>, later: seq<Report>, c: byte, p: seq<byte>)
    requires |data| <= MAX_PAYLOAD && command >= 0x80
    ensures Carries(Frames(cid, command, data) + later, cid, c, p) <==> c == command && p == data
  {
    FramesCarry(cid, command, data);
    var rs := Frames(cid, command, data) + later;
    assert forall k: nat :: k < FrameCount(|data|) ==> rs[k] == Frames(cid, command, data)[k];
    if Carries(rs, cid, c, p) {
      CarriesUnique(rs, cid, c, p, command, data);
    }
  }
}
