/** Registering a credential and asserting with it. */
module Passkey {
  import opened Bytes
  import opened CborItem
  import opened Cred
  import opened Crypto
  import opened CtapCommand
  import opened CtapFields
  import opened CtapStatus
  import M = MakeCredential
  import A = GetAssertion
  import MR = CredentialRequest
  import AR = AssertionRequest

  /** The wrapping root the device keeps, wherever it can be loaded. */
  ghost predicate KeepsRoot(w: World, root: seq<byte>) {
    && |root| == KEY_LEN
    && (w.root.Some? ==> w.root.value == root)
    && (forall n :: w.roots(n).Some? ==> w.roots(n).value == root)
  }

  /** The credential ID a client takes out of the authenticator data of a registration. */
  ghost function RegisteredId(w: World, q: MR.Request, cap: nat): (id: seq<byte>)
    requires Sound(w) && M.Decision(w, q, cap) == OK
    ensures |id| == ID_LEN
  {
    M.NewAuthData(w, q, cap)[M.ID_OFFSET..M.COSE_OFFSET]
  }

  /** The ID in a registration opens to the key that was registered, for its relying party only. */
  lemma RegisteredIdOpens(w: World, q: MR.Request, cap: nat, root: seq<byte>, rpHash: seq<byte>)
    requires Sound(w) && Opens(w.lib) && KeepsRoot(w, root)
    requires M.Decision(w, q, cap) == OK && |rpHash| == HASH_LEN
    ensures Opening(w.lib, Some(root), rpHash, RegisteredId(w, q, cap)) ==
              if w.lib.sha(q.rpId) == Some(rpHash) then Got(w.keys.value.scalar) else Error(CRED_MISMATCH)
  {
    var ownHash := w.lib.sha(q.rpId).value;
    M.NewIdLength(w, ownHash);
    M.IdInAuthData(ownHash, M.NewId(w, ownHash).bytes, w.keys.value.x, w.keys.value.y);
    WrapThenOpen(w.lib, w.root, w.nonce, ownHash, w.keys.value.scalar, rpHash);
  }

  /**
    A credential that was registered, offered for its relying party behind entries that are none of the
    device's, is the one that is found, with the private scalar behind the registered public key.
  */
  lemma RegisteredIsFound(w: World, q: MR.Request, cap: nat, root: seq<byte>, later: World, allow: seq<Desc>, k: nat)
    requires Sound(w) && Opens(w.lib) && KeepsRoot(w, root) && M.Decision(w, q, cap) == OK
    requires later.lib == w.lib && KeepsRoot(later, root) && later.roots(k).Some?
    requires k < |allow| && allow[k] == Desc(RegisteredId(w, q, cap), true)
    requires forall j :: 0 <= j < k ==> NotOurs(later, w.lib.sha(q.rpId).value, allow, j)
    ensures A.Find(later, w.lib.sha(q.rpId).value, allow, 0) == A.Credential(k, w.keys.value.scalar)
  {
    var rpHash := w.lib.sha(q.rpId).value;
    RegisteredIdOpens(w, q, cap, root, rpHash);
    A.FindMeans(later, rpHash, allow, 0, k);
  }

  /** Nor can it be registered over: a list of exclusions that names it is refused, once the user has agreed. */
  lemma RegisteredIsExcluded(w: World, q: MR.Request, cap: nat, root: seq<byte>, later: World, p: MR.Request, room: nat, k: nat)
    requires Sound(w) && Opens(w.lib) && KeepsRoot(w, root) && M.Decision(w, q, cap) == OK
    requires later.lib == w.lib && KeepsRoot(later, root) && later.roots(k).Some?
    requires p.rpId == q.rpId && k < |p.exclude| && p.exclude[k] == Desc(RegisteredId(w, q, cap), true)
    requires forall j :: 0 <= j < |p.exclude| ==> M.Judged(later, w.lib.sha(q.rpId).value, p.exclude, j)
    ensures later.press == PRESS_OK ==> M.Decision(later, p, room) == CREDENTIAL_EXCLUDED
  {
    var rpHash := w.lib.sha(q.rpId).value;
    RegisteredIdOpens(w, q, cap, root, rpHash);
    assert Ours(later, rpHash, p.exclude, k);
  }

  /**
    Register, then assert: the signature of the assertion verifies, under the public key of the registration,
    over the authenticator data and the client data hash.
  */
  lemma RegisterThenAssert(w: World, q: MR.Request, cap: nat, root: seq<byte>, later: World, p: AR.Request, room: nat, k: nat)
    requires Sound(w) && Opens(w.lib) && Verifies(w.lib) && KeepsRoot(w, root) && M.Decision(w, q, cap) == OK
    requires later.lib == w.lib && KeepsRoot(later, root) && later.roots(k).Some? && Sound(later)
    requires p.rpId == q.rpId && k < |p.allow| && p.allow[k] == Desc(RegisteredId(w, q, cap), true)
    requires forall j :: 0 <= j < k ==> NotOurs(later, w.lib.sha(q.rpId).value, p.allow, j)
    requires A.Decision(later, p, room) == OK
    ensures var rpHash := w.lib.sha(q.rpId).value;
            var digest := A.Digest(later, rpHash, p);
            && digest.Some?
            && exists signature ::
                 && 0 < |signature| <= DER_MAX
                 && A.Reply(later, p, room) == A.Encoded(RegisteredId(w, q, cap), A.AuthData(rpHash), signature)
                 && w.lib.verify(w.keys.value.x, w.keys.value.y, digest.value, signature)
  {
    hide Opening, A.Encoded;
    var rpHash := w.lib.sha(q.rpId).value;
    RegisteredIsFound(w, q, cap, root, later, p.allow, k);
    var signature := w.lib.sign(w.keys.value.scalar, A.Digest(later, rpHash, p).value).value;
    assert A.Reply(later, p, room) == A.Encoded(RegisteredId(w, q, cap), A.AuthData(rpHash), signature);
  }
}
