/** Constants of the CTAPHID wire format (section 11.2 of CTAP 2.1). */
module Wire {
  import opened Bytes

  const REPORT_BYTES: int := 64
  const INIT_DATA_BYTES: int := 57
  const CONT_DATA_BYTES: int := 59
  const MAX_PAYLOAD: int := 2048
  const CHANNEL_COUNT: int := 4
  const CID_RETRIES: int := 16
  const MESSAGE_TIMEOUT_MS: u32 := 500
  const KEEPALIVE_MS: u32 := 100
  const BROADCAST_CID: u32 := 0xffff_ffff

  const PING: byte := 0x81
  const INIT: byte := 0x86
  const CBOR: byte := 0x90
  const CANCEL: byte := 0x91
  const KEEPALIVE: byte := 0xbb
  const ERROR: byte := 0xbf

  const ERR_INVALID_CMD: byte := 0x01
  const ERR_INVALID_LEN: byte := 0x03
  const ERR_INVALID_SEQ: byte := 0x04
  const ERR_MSG_TIMEOUT: byte := 0x05
  const ERR_CHANNEL_BUSY: byte := 0x06
  const ERR_INVALID_CHANNEL: byte := 0x0b
  const ERR_OTHER: byte := 0x7f

  const KEEPALIVE_PROCESSING: byte := 0x01
  const KEEPALIVE_UP_NEEDED: byte := 0x02
  const ERR_KEEPALIVE_CANCEL: byte := 0x2d

  /** Protocol version, firmware version 0.1.0 and capabilities CBOR | NMSG. */
  const INIT_TRAILER: seq<byte> := [2, 0, 1, 0, 0x0c]

  type Report = r: seq<byte> | |r| == REPORT_BYTES witness Zeros(64)

  function Cid(r: Report): u32 { LoadU32(r) }

  function Command(r: Report): byte { r[4] }

  predicate IsInitial(r: Report) { r[4] >= 0x80 }

  function DeclaredLen(r: Report): u16 { LoadU16(r[5..]) }

  function Nonce(r: Report): (n: seq<byte>)
    ensures |n| == 8
  {
    r[7..15]
  }

  /** The payload bytes of an initial report, without its padding. */
  function FirstChunk(r: Report): (c: seq<byte>)
    ensures |c| == Min(DeclaredLen(r), INIT_DATA_BYTES)
  {
    r[7..7 + Min(DeclaredLen(r), INIT_DATA_BYTES)]
  }

  /** The payload bytes of a continuation, of which at most `room` belong to the message. */
  function NextChunk(r: Report, room: nat): (c: seq<byte>)
    ensures |c| == Min(room, CONT_DATA_BYTES)
  {
    r[5..5 + Min(room, CONT_DATA_BYTES)]
  }

  /** Wrap-around age test on the 32-bit millisecond clock. */
  predicate Expired(now: u32, since: u32, timeout: u32) {
    (now - since) % U32_SPAN >= timeout
  }
}
