/** Fragmentation of one message into 64-byte reports, on the device and in the host probe. */
module CtaphidTx {
  import opened Bytes
  import opened Wire

  // ---- the frames of a message, report by report

  function FrameCount(n: nat): (c: nat)
    ensures c >= 1
  {
    if n <= INIT_DATA_BYTES then 1 else 1 + (n - INIT_DATA_BYTES + CONT_DATA_BYTES - 1) / CONT_DATA_BYTES
  }

  function Pad(prefix: seq<byte>): (r: Report)
    requires |prefix| <= REPORT_BYTES
  {
    prefix + Zeros(REPORT_BYTES - |prefix|)
  }

  /** How much of a message of length `n` the first `k + 1` reports carry. */
  function Carried(n: nat, k: nat): nat {
    Min(n, INIT_DATA_BYTES + k * CONT_DATA_BYTES)
  }

  /** The message is complete exactly when its last frame is. */
  lemma CarriedAll(n: nat, k: nat)
    requires n <= MAX_PAYLOAD
    ensures Carried(n, k) < n <==> k + 1 < FrameCount(n)
    ensures FrameCount(n) <= 35
  {
  }

  function InitFrame(cid: u32, command: byte, data: seq<byte>): Report
    requires |data| < 0x1_0000
  {
    Pad(StoreU32(cid) + [command] + StoreU16(|data|) + data[..Min(|data|, INIT_DATA_BYTES)])
  }

  function ContFrame(cid: u32, data: seq<byte>, k: nat): Report
    requires k < 0x80
  {
    Pad(StoreU32(cid) + [k] + data[Carried(|data|, k)..Carried(|data|, k + 1)])
  }

  function Frame(cid: u32, command: byte, data: seq<byte>, k: nat): Report
    requires |data| <= MAX_PAYLOAD && k < FrameCount(|data|)
  {
    if k == 0 then InitFrame(cid, command, data) else ContFrame(cid, data, k - 1)
  }

  function Frames(cid: u32, command: byte, data: seq<byte>): (fs: seq<Report>)
    requires |data| <= MAX_PAYLOAD
    ensures |fs| == FrameCount(|data|)
    ensures forall k :: 0 <= k < |fs| ==> fs[k] == Frame(cid, command, data, k)
  {
    seq(FrameCount(|data|), k requires 0 <= k < FrameCount(|data|) => Frame(cid, command, data, k))
  }

  lemma InitFrameFields(cid: u32, command: byte, data: seq<byte>)
    requires |data| <= MAX_PAYLOAD
    ensures var f := InitFrame(cid, command, data);
            && Cid(f) == cid && Command(f) == command && DeclaredLen(f) == |data|
            && f[7..7 + Min(|data|, INIT_DATA_BYTES)] == data[..Min(|data|, INIT_DATA_BYTES)]
  {
    LoadOfStoreU32(cid);
  }

  lemma ContFrameFields(cid: u32, data: seq<byte>, k: nat)
    requires |data| <= MAX_PAYLOAD && k + 1 < FrameCount(|data|)
    ensures var f := ContFrame(cid, data, k);
            var take := Carried(|data|, k + 1) - Carried(|data|, k);
            && Cid(f) == cid && f[4] == k < 0x80
            && 0 < take <= CONT_DATA_BYTES
            && f[5..5 + take] == data[Carried(|data|, k)..Carried(|data|, k + 1)]
  {
    LoadOfStoreU32(cid);
  }

  /** Report `k` carries its share of the message; padding is not looked at. */
  predicate CarriesAt(r: Report, cid: u32, command: byte, data: seq<byte>, k: nat) {
    && Cid(r) == cid
    && if k == 0 then
         r[4] == command && DeclaredLen(r) == |data|
         && r[7..7 + Carried(|data|, 0)] == data[..Carried(|data|, 0)]
       else
         var take := Carried(|data|, k) - Carried(|data|, k - 1);
         r[4] == k - 1 && r[5..5 + take] == data[Carried(|data|, k - 1)..Carried(|data|, k)]
  }

  predicate Carries(rs: seq<Report>, cid: u32, command: byte, data: seq<byte>) {
    && command >= 0x80 && |data| <= MAX_PAYLOAD && FrameCount(|data|) <= |rs|
    && forall k: nat :: k < FrameCount(|data|) ==> CarriesAt(rs[k], cid, command, data, k)
  }

  lemma FramesCarry(cid: u32, command: byte, data: seq<byte>)
    requires |data| <= MAX_PAYLOAD && command >= 0x80
    ensures Carries(Frames(cid, command, data), cid, command, data)
  {
    InitFrameFields(cid, command, data);
    forall k: nat | 0 < k < FrameCount(|data|)
      ensures CarriesAt(Frame(cid, command, data, k), cid, command, data, k)
    {
      ContFrameFields(cid, data, k - 1);
    }
  }

  /** The reports determine the message they carry. */
  lemma CarriesUnique(rs: seq<Report>, cid: u32, c1: byte, p1: seq<byte>, c2: byte, p2: seq<byte>)
    requires Carries(rs, cid, c1, p1) && Carries(rs, cid, c2, p2)
    ensures c1 == c2 && p1 == p2
  {
    assert CarriesAt(rs[0], cid, c1, p1, 0) && CarriesAt(rs[0], cid, c2, p2, 0);
    forall i | 0 <= i < |p1|
      ensures p1[i] == p2[i]
    {
      if i < INIT_DATA_BYTES {
        assert p1[i] == p1[..Carried(|p1|, 0)][i] == p2[..Carried(|p1|, 0)][i];
      } else {
        var k := (i - INIT_DATA_BYTES) / CONT_DATA_BYTES + 1;
        assert CarriesAt(rs[k], cid, c1, p1, k) && CarriesAt(rs[k], cid, c2, p2, k);
        var lo, hi := Carried(|p1|, k - 1), Carried(|p1|, k);
        assert p1[i] == p1[lo..hi][i - lo] == p2[lo..hi][i - lo];
      }
    }
  }

  // ---- the device's transmitter

  datatype TxStatus = TxOk | TxArg | TxSend

  /**
    Sends one message through `emit`, whose k-th call succeeds when `accepts(k)`. A refused
    report ends the transmission, so what goes out is always a prefix of the frames.
  */
  method Send(cid: u32, command: byte, data: array<byte>, len: nat, accepts: nat -> bool)
    returns (status: TxStatus, sent: seq<Report>)
    requires len <= data.Length
    ensures status == TxArg <==> cid == 0 || command < 0x80 || len > MAX_PAYLOAD
    ensures status == TxArg ==> sent == []
    ensures status != TxArg ==> sent <= Frames(cid, command, data[..len])
    ensures status == TxOk ==> sent == Frames(cid, command, data[..len])
    ensures status == TxSend ==> |sent| < FrameCount(len) && !accepts(|sent|)
    ensures forall k :: 0 <= k < |sent| ==> accepts(k)
  {
    if cid == 0 || command < 0x80 || len > MAX_PAYLOAD {
      return TxArg, [];
    }
    ghost var message := data[..len];
    sent := [];
    var report := InitialReport(cid, command, data, len);
    if !accepts(0) {
      return TxSend, sent;
    }
    sent := [report];

    var offset := Min(len, INIT_DATA_BYTES);
    var sequence := 0;
    while offset < len
      invariant 0 <= sequence && offset == Carried(len, sequence)
      invariant |sent| == sequence + 1 && sent <= Frames(cid, command, message)
      invariant forall k :: 0 <= k < |sent| ==> accepts(k)
      decreases len - offset
    {
      CarriedAll(len, sequence);
      var take := Min(len - offset, CONT_DATA_BYTES);
      report := ContinuationReport(cid, data, len, offset, sequence, take);
      if !accepts(sequence + 1) {
        return TxSend, sent;
      }
      sent := sent + [report];
      offset := offset + take;
      sequence := sequence + 1;
    }
    CarriedAll(len, sequence);
    status := TxOk;
  }

  method InitialReport(cid: u32, command: byte, data: array<byte>, len: nat) returns (r: Report)
    requires len <= data.Length && len <= MAX_PAYLOAD
    ensures r == InitFrame(cid, command, data[..len])
  {
    var take := Min(len, INIT_DATA_BYTES);
    assert data[0..take] == data[..len][..take];
    var report := StoreReport(StoreU32(cid) + [command] + StoreU16(len), data, 0, take);
    r := report[..];
  }

  method ContinuationReport(cid: u32, data: array<byte>, len: nat, offset: nat, sequence: nat, take: nat)
    returns (r: Report)
    requires len <= data.Length && len <= MAX_PAYLOAD && sequence < 0x80
    requires offset == Carried(len, sequence) < len && take == Min(len - offset, CONT_DATA_BYTES)
    ensures r == ContFrame(cid, data[..len], sequence)
  {
    assert data[offset..offset + take] == data[..len][offset..offset + take];
    var report := StoreReport(StoreU32(cid) + [sequence], data, offset, take);
    r := report[..];
  }

  /** A zeroed report with a header and a copied chunk. */
  method StoreReport(header: seq<byte>, data: array<byte>, from: nat, take: nat) returns (report: array<byte>)
    requires |header| + take <= REPORT_BYTES
    requires from + take <= data.Length
    ensures fresh(report) && report.Length == REPORT_BYTES
    ensures report[..] == Pad(header + data[from..from + take])
  {
    report := new byte[REPORT_BYTES](_ => 0);
    for i := 0 to |header|
      invariant forall j :: 0 <= j < i ==> report[j] == header[j]
      invariant forall j :: i <= j < report.Length ==> report[j] == 0
    {
      report[i] := header[i];
    }
    for i := 0 to take
      invariant forall j :: 0 <= j < |header| ==> report[j] == header[j]
      invariant forall j :: |header| <= j < |header| + i ==> report[j] == data[from + j - |header|]
      invariant forall j :: |header| + i <= j < report.Length ==> report[j] == 0
    {
      report[|header| + i] := data[from + i];
    }
  }
}
