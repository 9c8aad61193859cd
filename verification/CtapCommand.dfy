/** What both command handlers rely on besides the request. */
module CtapCommand {
  import opened Bytes
  import opened Cred
  import opened Crypto
  import opened CtapFields
  import opened CtapStatus
  import opened Memory

  const PRESS_OK: int := 0
  const PRESS_CANCEL: int := -1
  const PRESS_DENIED: int := -2
  const PRESS_TIMEOUT: int := -3

  /**
    The surroundings of one command: the libraries, what each attempt to load the wrapping root yields (`roots`
    for the list entry tried, `root` for wrapping), the drawn nonce and key pair, the outcome of waiting for
    the button, and what each later poll for a cancellation says.
  */
  datatype World = World(
    lib: Library,
    roots: nat -> Root,
    root: Root,
    nonce: Nonce,
    keys: Option<KeyPair>,
    press: int,
    cancelled: nat -> bool
  )

  /** A generated key pair is one. */
  ghost predicate Sound(w: World) {
    && Sized(w.lib)
    && (w.keys.Some? ==> |w.keys.value.scalar| == SCALAR_LEN
                         && w.lib.pub(w.keys.value.scalar) == PublicKey(w.keys.value.x, w.keys.value.y))
  }

  function PresenceStatus(press: int): int {
    if press == PRESS_OK then OK
    else if press == PRESS_CANCEL then KEEPALIVE_CANCEL
    else if press == PRESS_TIMEOUT then USER_ACTION_TIMEOUT
    else OPERATION_DENIED
  }

  /** Whether a listed credential can be one of this device's at all. */
  predicate Tried(d: Desc) {
    d.publicKey && |d.id| == ID_LEN
  }

  /** An entry that is not one of this device's credentials for the relying party. */
  predicate NotOurs(w: World, rpHash: seq<byte>, ds: seq<Desc>, i: nat)
    requires i < |ds|
  {
    !Tried(ds[i]) || Opening(w.lib, w.roots(i), rpHash, ds[i].id) == Error(CRED_MISMATCH)
  }

  /** An entry that opens for the relying party. */
  predicate Ours(w: World, rpHash: seq<byte>, ds: seq<Desc>, i: nat)
    requires i < |ds|
  {
    Tried(ds[i]) && Opening(w.lib, w.roots(i), rpHash, ds[i].id).Got?
  }

  /** A buffer in which nothing changed, but that a stretch of the room for the response may have been zeroed. */
  ghost predicate OnlyZeroed(before: seq<byte>, after: seq<byte>, base: nat, cap: nat)
    requires base + cap <= |before|
  {
    exists n: nat :: n <= cap && after == Copied(before, base, Zeros(n))
  }

  lemma NothingZeroed(before: seq<byte>, base: nat, cap: nat)
    requires base + cap <= |before|
    ensures OnlyZeroed(before, before, base, cap)
  {
    assert before == Copied(before, base, Zeros(0));
  }

  /** What was written first and then zeroed is only zeroed. */
  lemma WrittenAndZeroed(before: seq<byte>, written: seq<byte>, after: seq<byte>, base: nat, cap: nat, bytes: seq<byte>)
    requires |bytes| <= cap && base + cap <= |before|
    requires written == Copied(before, base, bytes) && after == Copied(written, base, Zeros(|bytes|))
    ensures OnlyZeroed(before, after, base, cap)
  {
    assert after == Copied(before, base, Zeros(|bytes|));
  }
}
