/** The status bytes of CTAP responses the commands use. */
module CtapStatus {
  const OK: int := 0x00
  const INVALID_PARAMETER: int := 0x02
  const UNEXPECTED_TYPE: int := 0x11
  const INVALID_CBOR: int := 0x12
  const MISSING_PARAMETER: int := 0x14
  const LIMIT_EXCEEDED: int := 0x15
  const CREDENTIAL_EXCLUDED: int := 0x19
  const UNSUPPORTED_ALGORITHM: int := 0x26
  const OPERATION_DENIED: int := 0x27
  const UNSUPPORTED_OPTION: int := 0x2b
  const KEEPALIVE_CANCEL: int := 0x2d
  const NO_CREDENTIALS: int := 0x2e
  const USER_ACTION_TIMEOUT: int := 0x2f
  const OTHER: int := 0x7f

  /** A result of a command handler that is not a CTAP status. */
  const ERR_SMALL: int := -2
}
