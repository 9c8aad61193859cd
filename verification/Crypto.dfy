/**
  The cryptographic libraries as opaque operations, with the laws credentials depend on. Every operation is a
  function of its arguments; randomness is an argument of what draws it.
*/
module Crypto {
  import opened Bytes

  const HASH_LEN: int := 32
  const SCALAR_LEN: int := 32
  const KEY_LEN: int := 32
  const NONCE_LEN: int := 12
  const TAG_LEN: int := 16
  const DER_MAX: int := 72

  datatype Sealed = Sealed(cipher: seq<byte>, tag: seq<byte>)

  /** What decryption yields: a plaintext, a failed authentication, or a library failure. */
  datatype Unsealed = Plain(plain: seq<byte>) | Forged | Broken

  /** The public key of a scalar, unless the scalar is not a key or the library fails. */
  datatype PublicKey = PublicKey(x: seq<byte>, y: seq<byte>) | NoKey | Failure

  datatype KeyPair = KeyPair(scalar: seq<byte>, x: seq<byte>, y: seq<byte>)

  datatype Library = Library(
    sha: seq<byte> -> Option<seq<byte>>,
    seal: (seq<byte>, seq<byte>, seq<byte>, seq<byte>) -> Option<Sealed>,
    unseal: (seq<byte>, seq<byte>, seq<byte>, seq<byte>, seq<byte>) -> Unsealed,
    pub: seq<byte> -> PublicKey,
    sign: (seq<byte>, seq<byte>) -> Option<seq<byte>>,
    verify: (seq<byte>, seq<byte>, seq<byte>, seq<byte>) -> bool
  )

  /** Results have the sizes of the buffers they are written to. */
  ghost predicate Sized(c: Library) {
    && (forall m :: c.sha(m).Some? ==> |c.sha(m).value| == HASH_LEN)
    && (forall k, n, a, p :: c.seal(k, n, a, p).Some? ==>
          |c.seal(k, n, a, p).value.cipher| == |p| && |c.seal(k, n, a, p).value.tag| == TAG_LEN)
    && (forall k, n, a, x, t :: c.unseal(k, n, a, x, t).Plain? ==> |c.unseal(k, n, a, x, t).plain| == |x|)
    && (forall s :: c.pub(s).PublicKey? ==> |c.pub(s).x| == SCALAR_LEN && |c.pub(s).y| == SCALAR_LEN)
  }

  /** What was sealed opens under the same key, nonce and associated data. */
  ghost predicate Opens(c: Library) {
    forall k, n, a, p :: c.seal(k, n, a, p).Some? ==>
      c.unseal(k, n, a, c.seal(k, n, a, p).value.cipher, c.seal(k, n, a, p).value.tag) == Plain(p)
  }

  /** Signatures verify under the public key of the scalar that made them. */
  ghost predicate Verifies(c: Library) {
    forall s, h :: c.sign(s, h).Some? && c.pub(s).PublicKey? ==> c.verify(c.pub(s).x, c.pub(s).y, h, c.sign(s, h).value)
  }
}
