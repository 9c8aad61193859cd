/** Credential IDs: the private scalar and the relying party's hash, sealed under the device's wrapping root. */
module Cred {
  import opened Bytes
  import opened Bits
  import opened Crypto
  import opened Memory

  const ID_LEN: int := 100
  const HEADER: seq<byte> := [0x50, 0x34, 0x4b, 0x31, 1, 1, 0, 0]
  const AAGUID: seq<byte> := [0xe9, 0xc0, 0x17, 0x41, 0x4d, 0x6d, 0x4a, 0x49, 0x9e, 0x89, 0xb4, 0xb3, 0x6f, 0x5c, 0x21, 0xa2]
  const NONCE_OFFSET: int := 8
  const CIPHER_OFFSET: int := 20
  const TAG_OFFSET: int := 84

  const CRED_OK: int := 0
  const CRED_ARG: int := -1
  const CRED_SMALL: int := -2
  const CRED_ROOT: int := -3
  const CRED_CRYPTO: int := -4
  const CRED_KEY: int := -5
  const CRED_MISMATCH: int := -6

  type Root = r: Option<seq<byte>> | r.Some? ==> |r.value| == KEY_LEN witness None
  type Nonce = n: Option<seq<byte>> | n.Some? ==> |n.value| == NONCE_LEN witness None

  // ---- what wrapping and opening mean

  /** An ID or a scalar, or the error there is none for. */
  datatype Outcome = Got(bytes: seq<byte>) | Error(code: int)

  function IdOf(nonce: seq<byte>, s: Sealed): seq<byte> {
    HEADER + nonce + s.cipher + s.tag
  }

  function KeyError(p: PublicKey): int {
    match p case PublicKey(_, _) => CRED_OK case NoKey => CRED_KEY case Failure => CRED_CRYPTO
  }

  function Wrapping(c: Library, root: Root, nonce: Nonce, rpHash: seq<byte>, scalar: seq<byte>): (o: Outcome)
    ensures o.Error? ==> o.code != CRED_OK
  {
    if |rpHash| != HASH_LEN || |scalar| != SCALAR_LEN then Error(CRED_ARG)
    else if !c.pub(scalar).PublicKey? then Error(KeyError(c.pub(scalar)))
    else if nonce.None? then Error(CRED_CRYPTO)
    else if root.None? then Error(CRED_ROOT)
    else match c.seal(root.value, nonce.value, HEADER + AAGUID, rpHash + scalar)
      case None => Error(CRED_CRYPTO)
      case Some(s) => Got(IdOf(nonce.value, s))
  }

  function Opening(c: Library, root: Root, rpHash: seq<byte>, id: seq<byte>): (o: Outcome)
    ensures o.Error? ==> o.code != CRED_OK
  {
    if |rpHash| != HASH_LEN then Error(CRED_ARG)
    else if |id| != ID_LEN || id[..NONCE_OFFSET] != HEADER then Error(CRED_MISMATCH)
    else if root.None? then Error(CRED_ROOT)
    else match c.unseal(root.value, id[NONCE_OFFSET..CIPHER_OFFSET], HEADER + AAGUID,
                        id[CIPHER_OFFSET..TAG_OFFSET], id[TAG_OFFSET..])
      case Broken => Error(CRED_CRYPTO)
      case Forged => Error(CRED_MISMATCH)
      case Plain(p) =>
        if |p| != 64 || p[..HASH_LEN] != rpHash then Error(CRED_MISMATCH)
        else match c.pub(p[HASH_LEN..])
          case PublicKey(_, _) => Got(p[HASH_LEN..])
          case NoKey => Error(CRED_MISMATCH)
          case Failure => Error(CRED_CRYPTO)
  }

  /** A wrapped scalar opens for the relying party it was wrapped for, and for no other. */
  lemma WrapThenOpen(c: Library, root: Root, nonce: Nonce, rpHash: seq<byte>, scalar: seq<byte>, other: seq<byte>)
    requires Sized(c) && Opens(c) && |other| == HASH_LEN
    requires Wrapping(c, root, nonce, rpHash, scalar).Got?
    ensures var id := Wrapping(c, root, nonce, rpHash, scalar).bytes;
            && |id| == ID_LEN
            && Opening(c, root, other, id) == if other == rpHash then Got(scalar) else Error(CRED_MISMATCH)
  {
    var s := c.seal(root.value, nonce.value, HEADER + AAGUID, rpHash + scalar).value;
    var id := IdOf(nonce.value, s);
    assert id[..NONCE_OFFSET] == HEADER;
    assert id[NONCE_OFFSET..CIPHER_OFFSET] == nonce.value;
    assert id[CIPHER_OFFSET..TAG_OFFSET] == s.cipher;
    assert id[TAG_OFFSET..] == s.tag;
    var p := rpHash + scalar;
    assert p[..HASH_LEN] == rpHash && p[HASH_LEN..] == scalar;
  }

  /** The mark and version every ID begins with. */
  predicate IsId(id: seq<byte>) {
    |id| == 100 && id[..8] == [0x50, 0x34, 0x4b, 0x31, 1, 1, 0, 0]
  }

  /** What an ID is made of: its beginning, the nonce, and both parts of what was sealed under mark and device. */
  lemma WrappedFields(c: Library, root: Root, nonce: Nonce, rpHash: seq<byte>, scalar: seq<byte>)
    requires Sized(c) && Wrapping(c, root, nonce, rpHash, scalar).Got?
    ensures var id := Wrapping(c, root, nonce, rpHash, scalar).bytes;
            && IsId(id) && Some(id[8..20]) == nonce && root.Some?
            && c.seal(root.value, id[8..20], id[..8] + AAGUID, rpHash + scalar) == Some(Sealed(id[20..84], id[84..]))
  {
    var s := c.seal(root.value, nonce.value, HEADER + AAGUID, rpHash + scalar).value;
    var id := IdOf(nonce.value, s);
    assert id[..8] == HEADER && id[8..20] == nonce.value && id[20..84] == s.cipher && id[84..] == s.tag;
  }

  /** Why a scalar is not wrapped, by code: it is no key, there is no root, or the library or the random source fails. */
  lemma NotWrappedExactlyWhen(c: Library, root: Root, nonce: Nonce, rpHash: seq<byte>, scalar: seq<byte>)
    requires |rpHash| == HASH_LEN && |scalar| == SCALAR_LEN
    ensures var o, key := Wrapping(c, root, nonce, rpHash, scalar), c.pub(scalar);
            && (o == Error(-5) <==> key.NoKey?)
            && (o == Error(-3) <==> key.PublicKey? && nonce.Some? && root.None?)
            && (o == Error(-4) <==>
                  || key.Failure?
                  || (key.PublicKey? && nonce.None?)
                  || (key.PublicKey? && nonce.Some? && root.Some?
                      && c.seal(root.value, nonce.value, HEADER + AAGUID, rpHash + scalar).None?))
            && (o.Error? ==> o.code in {-5, -3, -4})
  {
  }

  /** What decrypting an ID yields. */
  function Inside(c: Library, root: seq<byte>, id: seq<byte>): Unsealed
    requires IsId(id)
  {
    c.unseal(root, id[8..20], id[..8] + AAGUID, id[20..84], id[84..])
  }

  /** It is for this relying party. */
  predicate IsFor(u: Unsealed, rpHash: seq<byte>) {
    u.Plain? && |u.plain| == 64 && rpHash <= u.plain
  }

  /** An ID opens exactly to the key inside it, if that is for this relying party. */
  lemma OpenedExactlyWhen(c: Library, root: Root, rpHash: seq<byte>, id: seq<byte>, scalar: seq<byte>)
    requires |rpHash| == HASH_LEN
    ensures Opening(c, root, rpHash, id) == Got(scalar) <==>
              && IsId(id) && root.Some? && |scalar| == 32 && c.pub(scalar).PublicKey?
              && Inside(c, root.value, id) == Plain(rpHash + scalar)
  {
    if IsId(id) && root.Some? {
      var u := Inside(c, root.value, id);
      if IsFor(u, rpHash) {
        assert u.plain == rpHash + u.plain[32..];
      }
      if u == Plain(rpHash + scalar) {
        assert u.plain[..32] == rpHash && u.plain[32..] == scalar;
      }
    }
  }

  /** Why an ID does not open, by code: it cannot be tried, the library fails, or it is not this device's for this party. */
  lemma NotOpenedExactlyWhen(c: Library, root: Root, rpHash: seq<byte>, id: seq<byte>)
    requires |rpHash| == HASH_LEN
    ensures var o := Opening(c, root, rpHash, id);
            && (o == Error(-3) <==> IsId(id) && root.None?)
            && (o == Error(-4) <==>
                  && IsId(id) && root.Some?
                  && var u := Inside(c, root.value, id);
                     u.Broken? || (IsFor(u, rpHash) && c.pub(u.plain[32..]).Failure?))
            && (o == Error(-6) <==>
                  || !IsId(id)
                  || (root.Some?
                      && var u := Inside(c, root.value, id);
                         !u.Broken? && (IsFor(u, rpHash) ==> c.pub(u.plain[32..]).NoKey?)))
            && (o.Error? ==> o.code in {-3, -4, -6})
  {
    if IsId(id) && root.Some? {
      var u := Inside(c, root.value, id);
      if u.Plain? && |u.plain| == 64 {
        assert rpHash <= u.plain <==> u.plain[..32] == rpHash;
      }
    }
  }

  // ---- the operations on buffers

  /** Compares without an early exit. */
  method EqualHash(left: seq<byte>, right: seq<byte>) returns (same: bool)
    requires |left| == |right|
    ensures same <==> left == right
  {
    var different: nat := 0;
    for i := 0 to |left|
      invariant different == 0 <==> left[..i] == right[..i]
    {
      XorIsZero(left[i], right[i]);
      OrIsZero(different, Xor(left[i], right[i]));
      assert left[..i + 1] == left[..i] + [left[i]] && right[..i + 1] == right[..i] + [right[i]];
      different := Or(different, Xor(left[i], right[i]));
    }
    assert left[..|left|] == left && right[..|right|] == right;
    same := different == 0;
  }

  /** Zeroes what a caller could take for a result. */
  method ClearPrefix(out: array<byte>, needed: nat)
    modifies out
    ensures out[..] == Cleared(old(out[..]), needed)
  {
    Clear(out, 0, Min(out.Length, needed));
  }

  function Cleared(before: seq<byte>, needed: nat): seq<byte> {
    Copied(before, 0, Zeros(Min(|before|, needed)))
  }

  /** The buffers on the stack of both operations, whose contents must not outlive the call. */
  class Scratch {
    const root: array<byte>
    const nonce: array<byte>
    const plain: array<byte>
    const aad: array<byte>
    const wrapped: array<byte>

    ghost function Repr(): set<object> {
      {root, nonce, plain, aad, wrapped}
    }

    predicate Valid() {
      && root.Length == KEY_LEN && nonce.Length == NONCE_LEN && plain.Length == 64 && aad.Length == 24
      && wrapped.Length == ID_LEN
    }

    ghost predicate Cleared()
      reads Repr()
    {
      Blank(root[..]) && Blank(nonce[..]) && Blank(plain[..]) && Blank(aad[..]) && Blank(wrapped[..])
    }

    constructor ()
      ensures Valid() && Cleared() && fresh(Repr())
    {
      root := new byte[KEY_LEN](_ => 0);
      nonce := new byte[NONCE_LEN](_ => 0);
      plain := new byte[64](_ => 0);
      aad := new byte[24](_ => 0);
      wrapped := new byte[ID_LEN](_ => 0);
    }

    method Clear()
      requires Valid()
      modifies Repr()
      ensures Cleared()
    {
      ClearAll(root);
      ClearAll(nonce);
      ClearAll(plain);
      ClearAll(aad);
      ClearAll(wrapped);
    }
  }

  /**
    Wraps a scalar into an ID; whatever goes wrong, nothing of it is left in the output, and nothing is left in
    the scratch buffers in any case.
  */
  method CredWrap(c: Library, root: Root, nonce: Nonce, rpHash: seq<byte>, scalar: seq<byte>, out: array<byte>, scratch: Scratch)
    returns (result: int)
    requires Sized(c) && scratch.Valid() && scratch.Cleared() && out !in scratch.Repr()
    modifies out, scratch.Repr()
    ensures |rpHash| == HASH_LEN && |scalar| == SCALAR_LEN && out.Length < ID_LEN ==> result == CRED_SMALL
    ensures !(|rpHash| == HASH_LEN && |scalar| == SCALAR_LEN && out.Length < ID_LEN) ==>
              match Wrapping(c, root, nonce, rpHash, scalar)
              case Got(id) => result == CRED_OK && out.Length >= |id| && out[..] == Copied(old(out[..]), 0, id)
              case Error(code) => result == code
    ensures result != CRED_OK ==> out[..] == Cleared(old(out[..]), ID_LEN)
    ensures scratch.Cleared()
  {
    if |rpHash| != HASH_LEN || |scalar| != SCALAR_LEN {
      ClearPrefix(out, ID_LEN);
      return CRED_ARG;
    }
    if out.Length < ID_LEN {
      ClearPrefix(out, ID_LEN);
      return CRED_SMALL;
    }
    result := KeyError(c.pub(scalar));
    if result != CRED_OK {
      ClearPrefix(out, ID_LEN);
      return result;
    }
    result := WrapInto(c, root, nonce, rpHash, scalar, scratch);
    if result == CRED_OK {
      Copy(out, 0, scratch.wrapped[..]);
    }
    scratch.Clear();
    if result != CRED_OK {
      ClearPrefix(out, ID_LEN);
    }
  }

  /** Builds the ID in the scratch buffers. */
  method WrapInto(c: Library, root: Root, nonce: Nonce, rpHash: seq<byte>, scalar: seq<byte>, scratch: Scratch)
    returns (result: int)
    requires Sized(c) && scratch.Valid() && |rpHash| == HASH_LEN && |scalar| == SCALAR_LEN && c.pub(scalar).PublicKey?
    modifies scratch.Repr()
    ensures match Wrapping(c, root, nonce, rpHash, scalar)
            case Got(id) => result == CRED_OK && scratch.wrapped[..] == id
            case Error(code) => result == code
  {
    FillPlain(rpHash, scalar, scratch);
    FillAad(HEADER, scratch);
    Copy(scratch.wrapped, 0, HEADER);
    assert scratch.wrapped[..NONCE_OFFSET] == HEADER;
    if nonce.None? {
      return CRED_CRYPTO;
    }
    Copy(scratch.nonce, 0, nonce.value);
    if root.None? {
      return CRED_ROOT;
    }
    Copy(scratch.root, 0, root.value);
    AllOfIt(scratch.nonce[..], nonce.value);
    assert scratch.nonce[..] == nonce.value && scratch.root[..] == root.value;
    Copy(scratch.wrapped, NONCE_OFFSET, scratch.nonce[..]);
    assert scratch.wrapped[..CIPHER_OFFSET] == HEADER + nonce.value;
    var s := c.seal(scratch.root[..], scratch.nonce[..], scratch.aad[..], scratch.plain[..]);
    if s.None? {
      return CRED_CRYPTO;
    }
    Complete(HEADER + nonce.value, s.value, scratch);
    result := CRED_OK;
  }

  method FillPlain(rpHash: seq<byte>, scalar: seq<byte>, scratch: Scratch)
    requires scratch.Valid() && |rpHash| == HASH_LEN && |scalar| == SCALAR_LEN
    modifies scratch.plain
    ensures scratch.plain[..] == rpHash + scalar
  {
    Copy(scratch.plain, 0, rpHash);
    Copy(scratch.plain, HASH_LEN, scalar);
  }

  method FillAad(header: seq<byte>, scratch: Scratch)
    requires scratch.Valid() && |header| == NONCE_OFFSET
    modifies scratch.aad
    ensures scratch.aad[..] == header + AAGUID
  {
    Copy(scratch.aad, 0, header);
    Copy(scratch.aad, NONCE_OFFSET, AAGUID);
  }

  /** Puts ciphertext and tag behind header and nonce. */
  method Complete(start: seq<byte>, s: Sealed, scratch: Scratch)
    requires scratch.Valid() && scratch.wrapped[..CIPHER_OFFSET] == start && |s.cipher| == 64 && |s.tag| == TAG_LEN
    modifies scratch.wrapped
    ensures scratch.wrapped[..] == start + s.cipher + s.tag
  {
    ghost var before := scratch.wrapped[..];
    Copy(scratch.wrapped, CIPHER_OFFSET, s.cipher);
    assert scratch.wrapped[..TAG_OFFSET] == before[..CIPHER_OFFSET] + s.cipher;
    Copy(scratch.wrapped, TAG_OFFSET, s.tag);
  }

  /**
    Opens an ID into a scalar for one relying party; a refusal leaves no part of a scalar behind, and nothing is
    left in the scratch buffers in any case.
  */
  method CredOpen(c: Library, root: Root, rpHash: seq<byte>, id: seq<byte>, out: array<byte>, scratch: Scratch)
    returns (result: int)
    requires Sized(c) && scratch.Valid() && scratch.Cleared() && out !in scratch.Repr()
    modifies out, scratch.Repr()
    ensures |rpHash| == HASH_LEN && out.Length < SCALAR_LEN ==> result == CRED_SMALL
    ensures !(|rpHash| == HASH_LEN && out.Length < SCALAR_LEN) ==>
              match Opening(c, root, rpHash, id)
              case Got(scalar) =>
                result == CRED_OK && out.Length >= |scalar| && out[..] == Copied(old(out[..]), 0, scalar)
              case Error(code) => result == code
    ensures result != CRED_OK ==> out[..] == Cleared(old(out[..]), SCALAR_LEN)
    ensures scratch.Cleared()
  {
    if |rpHash| != HASH_LEN {
      ClearPrefix(out, SCALAR_LEN);
      return CRED_ARG;
    }
    if out.Length < SCALAR_LEN {
      ClearPrefix(out, SCALAR_LEN);
      return CRED_SMALL;
    }
    if |id| != ID_LEN || id[..NONCE_OFFSET] != HEADER {
      ClearPrefix(out, SCALAR_LEN);
      return CRED_MISMATCH;
    }
    result := OpenInto(c, root, rpHash, id, scratch);
    if result == CRED_OK {
      Copy(out, 0, scratch.plain[HASH_LEN..]);
    }
    scratch.Clear();
    if result != CRED_OK {
      ClearPrefix(out, SCALAR_LEN);
    }
  }

  /** Decrypts and judges the ID in the scratch buffers. */
  method OpenInto(c: Library, root: Root, rpHash: seq<byte>, id: seq<byte>, scratch: Scratch) returns (result: int)
    requires Sized(c) && scratch.Valid() && |rpHash| == HASH_LEN && |id| == ID_LEN && id[..NONCE_OFFSET] == HEADER
    modifies scratch.Repr()
    ensures match Opening(c, root, rpHash, id)
            case Got(scalar) => result == CRED_OK && scratch.plain[HASH_LEN..] == scalar
            case Error(code) => result == code
  {
    FillAad(id[..NONCE_OFFSET], scratch);
    if root.None? {
      return CRED_ROOT;
    }
    Copy(scratch.root, 0, root.value);
    assert scratch.root[..] == root.value;
    var unsealed := c.unseal(scratch.root[..], id[NONCE_OFFSET..CIPHER_OFFSET], scratch.aad[..],
                             id[CIPHER_OFFSET..TAG_OFFSET], id[TAG_OFFSET..]);
    if !unsealed.Plain? {
      return if unsealed.Forged? then CRED_MISMATCH else CRED_CRYPTO;
    }
    Copy(scratch.plain, 0, unsealed.plain);
    assert scratch.plain[..] == unsealed.plain;
    var matches := EqualHash(scratch.plain[..HASH_LEN], rpHash);
    var key := c.pub(scratch.plain[HASH_LEN..]);
    if !matches || key.NoKey? {
      return CRED_MISMATCH;
    }
    if key.Failure? {
      return CRED_CRYPTO;
    }
    result := CRED_OK;
  }
}
