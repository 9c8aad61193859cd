/** The authenticatorGetAssertion command. */
module GetAssertion {
  import opened Bytes
  import opened CborItem
  import opened CborChain
  import opened CborReader
  import opened CborWriter
  import opened Cred
  import opened Crypto
  import opened CtapCommand
  import opened CtapFields
  import opened CtapMaps
  import opened CtapStatus
  import opened Memory
  import R = AssertionRequest

  const AUTH_DATA_LEN: int := 37
  const RESPONSE_MAX: int := 239

  // ---- the credential

  datatype Found = Credential(index: nat, scalar: seq<byte>) | NoCredentials | OpenFailed

  /** What a search from entry `i` on comes to. */
  function Find(w: World, rpHash: seq<byte>, ds: seq<Desc>, i: nat): Found
    requires i <= |ds|
    decreases |ds| - i
  {
    if i == |ds| then NoCredentials
    else if NotOurs(w, rpHash, ds, i) then Find(w, rpHash, ds, i + 1)
    else match Opening(w.lib, w.roots(i), rpHash, ds[i].id)
      case Got(scalar) => Credential(i, scalar)
      case Error(_) => OpenFailed
  }

  /** The credential is the first entry that opens; there is none only if no entry is one of the device's. */
  lemma {:induction false} FindMeans(w: World, rpHash: seq<byte>, ds: seq<Desc>, i: nat, k: nat)
    requires i <= k < |ds| && forall j :: i <= j < k ==> NotOurs(w, rpHash, ds, j)
    ensures Ours(w, rpHash, ds, k) ==>
              Find(w, rpHash, ds, i) == Credential(k, Opening(w.lib, w.roots(k), rpHash, ds[k].id).bytes)
    ensures !Ours(w, rpHash, ds, k) && !NotOurs(w, rpHash, ds, k) ==> Find(w, rpHash, ds, i) == OpenFailed
    decreases k - i
  {
    if i < k {
      FindMeans(w, rpHash, ds, i + 1, k);
    }
  }

  lemma {:induction false} FindNothing(w: World, rpHash: seq<byte>, ds: seq<Desc>, i: nat)
    requires i <= |ds|
    ensures Find(w, rpHash, ds, i) == NoCredentials <==> forall j :: i <= j < |ds| ==> NotOurs(w, rpHash, ds, j)
    decreases |ds| - i
  {
    if i < |ds| {
      FindNothing(w, rpHash, ds, i + 1);
    }
  }

  lemma {:induction false} FoundIsTried(w: World, rpHash: seq<byte>, ds: seq<Desc>, i: nat)
    requires i <= |ds|
    ensures var f := Find(w, rpHash, ds, i);
            f.Credential? ==> f.index < |ds| && Tried(ds[f.index])
                              && Opening(w.lib, w.roots(f.index), rpHash, ds[f.index].id) == Got(f.scalar)
                              && forall j :: i <= j < f.index ==> NotOurs(w, rpHash, ds, j)
    decreases |ds| - i
  {
    if i < |ds| {
      FoundIsTried(w, rpHash, ds, i + 1);
    }
  }

  method FindCred(w: World, rpHash: seq<byte>, ds: seq<Desc>, scalar: array<byte>) returns (status: int, id: seq<byte>)
    requires Sound(w) && |rpHash| == HASH_LEN && scalar.Length == SCALAR_LEN && scalar[..] == Zeros(SCALAR_LEN)
    modifies scalar
    ensures match Find(w, rpHash, ds, 0)
            case Credential(k, s) => status == OK && k < |ds| && id == ds[k].id && Tried(ds[k]) && scalar[..] == s
            case NoCredentials => status == NO_CREDENTIALS && scalar[..] == Zeros(SCALAR_LEN)
            case OpenFailed => status == OTHER && scalar[..] == Zeros(SCALAR_LEN)
  {
    for i := 0 to |ds|
      invariant scalar[..] == Zeros(SCALAR_LEN)
      invariant Find(w, rpHash, ds, i) == Find(w, rpHash, ds, 0)
    {
      if !ds[i].publicKey || |ds[i].id| != ID_LEN {
        continue;
      }
      var scratch := new Scratch();
      var error := CredOpen(w.lib, w.roots(i), rpHash, ds[i].id, scalar, scratch);
      if error == CRED_OK {
        assert scalar[..] == Opening(w.lib, w.roots(i), rpHash, ds[i].id).bytes;
        return OK, ds[i].id;
      }
      Clear(scalar, 0, SCALAR_LEN);
      assert scalar[..] == Zeros(SCALAR_LEN);
      if error != CRED_MISMATCH {
        return OTHER, [];
      }
    }
    return NO_CREDENTIALS, [];
  }

  // ---- the response

  /** The response map: the credential, the authenticator data and the signature. */
  function Response(id: seq<byte>, authData: seq<byte>, signature: seq<byte>): Item {
    Map([Uint(1), Map([ID, Bytes(id), TYPE, PUBLIC_KEY]), Uint(2), Bytes(authData), Uint(3), Bytes(signature)])
  }

  /** Relying party hash, the user-present flag and a counter that stays zero. */
  function AuthData(rpHash: seq<byte>): seq<byte> {
    rpHash + [0x01] + Zeros(4)
  }

  /** The layout of section 6.1 of WebAuthn: whose it is, that the user was there and nothing else, and no count. */
  lemma AuthDataFields(rpHash: seq<byte>)
    requires |rpHash| == 32
    ensures var a := AuthData(rpHash);
            |a| == 37 && a[..32] == rpHash && a[32] == 0x01 && a[33..] == [0, 0, 0, 0]
  {
  }

  lemma Reassociate(h: seq<byte>, a: seq<byte>, g: seq<byte>, b: seq<byte>, c: seq<byte>, d: seq<byte>, e: seq<byte>,
                    i: seq<byte>, j: seq<byte>, k: seq<byte>, l: seq<byte>)
    ensures h + (a + (g + (b + c + d + e)) + (i + j + k + l)) == h + a + g + b + c + d + e + i + j + k + l
  {
  }

  lemma ResponseParts(id: seq<byte>, authData: seq<byte>, signature: seq<byte>)
    requires |id| == ID_LEN && |authData| == AUTH_DATA_LEN && |signature| <= DER_MAX
    ensures Wf(Response(id, authData, signature))
    ensures Enc(Response(id, authData, signature)) ==
            Head(5, 3) + Enc(Uint(1)) + Head(5, 2) + Enc(ID) + Enc(Bytes(id)) + Enc(TYPE) + Enc(PUBLIC_KEY)
            + Enc(Uint(2)) + Enc(Bytes(authData)) + Enc(Uint(3)) + Enc(Bytes(signature))
  {
    hide Head, EncAll;
    var named := [ID, Bytes(id), TYPE, PUBLIC_KEY];
    var rest := [Uint(2), Bytes(authData), Uint(3), Bytes(signature)];
    EncFour(ID, Bytes(id), TYPE, PUBLIC_KEY);
    EncTwo(Uint(1), Map(named));
    EncFour(Uint(2), Bytes(authData), Uint(3), Bytes(signature));
    EncAllAppend([Uint(1), Map(named)], rest);
    assert Response(id, authData, signature).items == [Uint(1), Map(named)] + rest;
    Reassociate(Head(5, 3), Enc(Uint(1)), Head(5, 2), Enc(ID), Enc(Bytes(id)), Enc(TYPE), Enc(PUBLIC_KEY),
                Enc(Uint(2)), Enc(Bytes(authData)), Enc(Uint(3)), Enc(Bytes(signature)));
  }

  /** The largest response fills the smallest buffer the command accepts. */
  lemma ResponseFits(id: seq<byte>, authData: seq<byte>, signature: seq<byte>)
    requires |id| == ID_LEN && |authData| == AUTH_DATA_LEN && |signature| <= DER_MAX
    ensures Wf(Response(id, authData, signature))
    ensures |Enc(Response(id, authData, signature))| <= RESPONSE_MAX
    ensures |signature| == DER_MAX ==> |Enc(Response(id, authData, signature))| == RESPONSE_MAX
  {
    hide EncAll;
    ResponseParts(id, authData, signature);
  }

  function Encoded(id: seq<byte>, authData: seq<byte>, signature: seq<byte>): seq<byte>
    requires |id| == ID_LEN && |authData| == AUTH_DATA_LEN && |signature| <= DER_MAX
  {
    ResponseFits(id, authData, signature);
    Enc(Response(id, authData, signature))
  }

  /** Writes the response; a buffer larger than a writer takes stays as it was. */
  method PutResponse(id: seq<byte>, authData: seq<byte>, signature: seq<byte>, response: array<byte>, base: nat, cap: nat)
    returns (ok: bool, len: nat)
    requires |id| == ID_LEN && |authData| == AUTH_DATA_LEN && |signature| <= DER_MAX
    requires RESPONSE_MAX <= cap && base + cap <= response.Length
    modifies response
    ensures ok <==> cap <= MAX_BYTES
    ensures var bytes := Encoded(id, authData, signature);
            ok ==> len == |bytes| && len <= cap && response[..] == Copied(old(response[..]), base, bytes)
    ensures !ok ==> len == 0 && response[..] == old(response[..])
  {
    hide Enc, Head, EncAll;
    ResponseFits(id, authData, signature);
    ResponseParts(id, authData, signature);
    ghost var before := response[..];
    var w := new Writer(response, base, cap);
    ok := StartMap(w, 3, before);
    ghost var t := Head(5, 3);
    ok := AndUint(w, ok, 1, t, before);
    t := t + Enc(Uint(1));
    ok := AndMap(w, ok, 2, t, before);
    t := t + Head(5, 2);
    ok := AndText(w, ok, ID.data, t, before);
    t := t + Enc(ID);
    ok := AndBytes(w, ok, id, t, before);
    t := t + Enc(Bytes(id));
    ok := AndText(w, ok, TYPE.data, t, before);
    t := t + Enc(TYPE);
    ok := AndText(w, ok, PUBLIC_KEY.data, t, before);
    t := t + Enc(PUBLIC_KEY);
    ok := AndUint(w, ok, 2, t, before);
    t := t + Enc(Uint(2));
    ok := AndBytes(w, ok, authData, t, before);
    t := t + Enc(Bytes(authData));
    ok := AndUint(w, ok, 3, t, before);
    t := t + Enc(Uint(3));
    ok := AndBytes(w, ok, signature, t, before);
    len := w.Len();
  }

  // ---- the command

  /** What is signed: the hash of the authenticator data and the client data hash. */
  function Digest(w: World, rpHash: seq<byte>, q: R.Request): Option<seq<byte>> {
    w.lib.sha(AuthData(rpHash) + q.clientHash)
  }

  predicate Usable(signature: Option<seq<byte>>) {
    signature.Some? && 0 < |signature.value| <= DER_MAX
  }

  /** The status of a request that was understood, in the order the steps are taken. */
  function Decision(w: World, q: R.Request, cap: nat): int {
    var hash := w.lib.sha(q.rpId);
    if hash.None? then OTHER
    else match Find(w, hash.value, q.allow, 0)
      case NoCredentials => NO_CREDENTIALS
      case OpenFailed => OTHER
      case Credential(k, scalar) =>
        if PresenceStatus(w.press) != OK then PresenceStatus(w.press)
        else if w.cancelled(0) then KEEPALIVE_CANCEL
        else
          var digest := Digest(w, hash.value, q);
          if digest.None? then OTHER
          else if w.cancelled(1) then KEEPALIVE_CANCEL
          else if !Usable(w.lib.sign(scalar, digest.value)) then OTHER
          else if w.cancelled(2) then KEEPALIVE_CANCEL
          else if cap > MAX_BYTES then OTHER
          else if w.cancelled(3) then KEEPALIVE_CANCEL
          else OK
  }

  /**
    An assertion is given exactly when some listed credential opens before any entry fails otherwise, the user
    agreed and never cancelled, and it could be signed. That there is none is found out without asking.
  */
  lemma AssertedExactlyWhen(w: World, q: R.Request, cap: nat)
    ensures Decision(w, q, cap) == OK <==>
              && w.lib.sha(q.rpId).Some?
              && var rpHash := w.lib.sha(q.rpId).value;
              && w.press == PRESS_OK && !w.cancelled(0) && !w.cancelled(1) && !w.cancelled(2) && !w.cancelled(3)
              && cap <= MAX_BYTES && Digest(w, rpHash, q).Some?
              && exists k :: 0 <= k < |q.allow| && Ours(w, rpHash, q.allow, k)
                             && (forall j :: 0 <= j < k ==> NotOurs(w, rpHash, q.allow, j))
                             && var scalar := Opening(w.lib, w.roots(k), rpHash, q.allow[k].id).bytes;
                             Usable(w.lib.sign(scalar, Digest(w, rpHash, q).value))
    ensures Decision(w, q, cap) == NO_CREDENTIALS <==>
              w.lib.sha(q.rpId).Some? && forall j :: 0 <= j < |q.allow| ==> NotOurs(w, w.lib.sha(q.rpId).value, q.allow, j)
  {
    hide Opening, Digest;
    if w.lib.sha(q.rpId).Some? {
      var rpHash := w.lib.sha(q.rpId).value;
      FindNothing(w, rpHash, q.allow, 0);
      FoundIsTried(w, rpHash, q.allow, 0);
      forall k | 0 <= k < |q.allow| && Ours(w, rpHash, q.allow, k) && forall j :: 0 <= j < k ==> NotOurs(w, rpHash, q.allow, j)
        ensures Find(w, rpHash, q.allow, 0) == Credential(k, Opening(w.lib, w.roots(k), rpHash, q.allow[k].id).bytes)
      {
        FindMeans(w, rpHash, q.allow, 0, k);
      }
    }
  }

  /** The credential the command works with is the one entry `k` names. */
  predicate Chosen(w: World, q: R.Request, k: nat)
    requires k < |q.allow|
  {
    w.lib.sha(q.rpId).Some? && Ours(w, w.lib.sha(q.rpId).value, q.allow, k)
    && forall j :: 0 <= j < k ==> NotOurs(w, w.lib.sha(q.rpId).value, q.allow, j)
  }

  /** With credential `k` and a user who agreed, a cancellation is noticed at one of four places along the way. */
  predicate CancelledOnTheWay(w: World, q: R.Request, cap: nat, k: nat)
    requires k < |q.allow| && Chosen(w, q, k)
  {
    var rpHash := w.lib.sha(q.rpId).value;
    var scalar := Opening(w.lib, w.roots(k), rpHash, q.allow[k].id).bytes;
    var digest := Digest(w, rpHash, q);
    || w.cancelled(0)
    || (digest.Some? && w.cancelled(1))
    || (digest.Some? && Usable(w.lib.sign(scalar, digest.value)) && (w.cancelled(2) || (cap <= 2048 && w.cancelled(3))))
  }

  /** What the other outcomes mean, by status: the user's, and that of a cancellation. */
  lemma DeclinedExactlyWhen(w: World, q: R.Request, cap: nat)
    ensures Decision(w, q, cap) == 0x2f <==> w.press == -3 && exists k :: 0 <= k < |q.allow| && Chosen(w, q, k)
    ensures Decision(w, q, cap) == 0x27 <==>
              w.press !in {0, -1, -3} && exists k :: 0 <= k < |q.allow| && Chosen(w, q, k)
    ensures Decision(w, q, cap) == 0x2d <==>
              exists k :: 0 <= k < |q.allow| && Chosen(w, q, k)
                          && (w.press == -1 || (w.press == 0 && CancelledOnTheWay(w, q, cap, k)))
    ensures Decision(w, q, cap) in {0x00, 0x2e, 0x2f, 0x27, 0x2d, 0x7f}
  {
    hide Opening, Digest;
    if w.lib.sha(q.rpId).Some? {
      var rpHash := w.lib.sha(q.rpId).value;
      FoundIsTried(w, rpHash, q.allow, 0);
      forall k | 0 <= k < |q.allow| && Chosen(w, q, k)
        ensures Find(w, rpHash, q.allow, 0) == Credential(k, Opening(w.lib, w.roots(k), rpHash, q.allow[k].id).bytes)
      {
        FindMeans(w, rpHash, q.allow, 0, k);
      }
      if Find(w, rpHash, q.allow, 0).Credential? {
        assert Chosen(w, q, Find(w, rpHash, q.allow, 0).index);
      }
    }
  }

  /** The bytes of a successful response. */
  function Reply(w: World, q: R.Request, cap: nat): seq<byte>
    requires Sound(w) && Decision(w, q, cap) == OK
  {
    var rpHash := w.lib.sha(q.rpId).value;
    var found := Find(w, rpHash, q.allow, 0);
    FoundIsTried(w, rpHash, q.allow, 0);
    var signature := w.lib.sign(found.scalar, Digest(w, rpHash, q).value).value;
    Encoded(q.allow[found.index].id, AuthData(rpHash), signature)
  }

  /** A request the command understands, and what it asks for. */
  predicate Asks(data: seq<byte>, x: Item) {
    |data| <= MAX_BYTES && R.IsRequest(x) && R.IsSupported(x) && Enc(x) == data
  }

  /** What the command keeps on its stack, the private scalar among it. */
  class Work {
    const rpHash: array<byte>
    const scalar: array<byte>
    const authData: array<byte>
    const signInput: array<byte>
    const digest: array<byte>
    const signature: array<byte>

    ghost function Repr(): set<object> {
      {rpHash, scalar, authData, signInput, digest, signature}
    }

    ghost predicate Valid() {
      && rpHash.Length == HASH_LEN && scalar.Length == SCALAR_LEN && authData.Length == AUTH_DATA_LEN
      && signInput.Length == AUTH_DATA_LEN + HASH_LEN && digest.Length == HASH_LEN && signature.Length == DER_MAX
      && rpHash != scalar && rpHash != digest && scalar != digest
    }

    ghost predicate Cleared()
      reads Repr()
    {
      && Blank(rpHash[..]) && Blank(scalar[..]) && Blank(authData[..]) && Blank(signInput[..])
      && Blank(digest[..]) && Blank(signature[..])
    }

    constructor ()
      ensures Valid() && Cleared() && fresh(Repr())
    {
      rpHash := new byte[HASH_LEN](_ => 0);
      scalar := new byte[SCALAR_LEN](_ => 0);
      authData := new byte[AUTH_DATA_LEN](_ => 0);
      signInput := new byte[AUTH_DATA_LEN + HASH_LEN](_ => 0);
      digest := new byte[HASH_LEN](_ => 0);
      signature := new byte[DER_MAX](_ => 0);
    }

    method Clear()
      requires Valid()
      modifies Repr()
      ensures Cleared()
    {
      ClearAll(rpHash);
      ClearAll(scalar);
      ClearAll(authData);
      ClearAll(signInput);
      ClearAll(digest);
      ClearAll(signature);
    }
  }

  method FillAuthData(rpHash: seq<byte>, authData: array<byte>)
    requires |rpHash| == HASH_LEN && authData.Length == AUTH_DATA_LEN && Blank(authData[..])
    modifies authData
    ensures authData[..] == AuthData(rpHash)
  {
    assert authData[..] == Zeros(AUTH_DATA_LEN);
    Copy(authData, 0, rpHash);
    assert authData[..] == rpHash + Zeros(5);
    authData[32] := 0x01;
  }

  method FillSignInput(authData: seq<byte>, clientHash: seq<byte>, signInput: array<byte>)
    requires |authData| == AUTH_DATA_LEN && |clientHash| == HASH_LEN && signInput.Length == AUTH_DATA_LEN + HASH_LEN
    modifies signInput
    ensures signInput[..] == authData + clientHash
  {
    Copy(signInput, 0, authData);
    Copy(signInput, AUTH_DATA_LEN, clientHash);
  }

  /** What can still go wrong once the user has agreed. */
  function SigningStatus(w: World, q: R.Request, rpHash: seq<byte>, scalar: seq<byte>): int {
    var digest := Digest(w, rpHash, q);
    if digest.None? then OTHER
    else if w.cancelled(1) then KEEPALIVE_CANCEL
    else if !Usable(w.lib.sign(scalar, digest.value)) then OTHER
    else OK
  }

  /** Signs for the credential that was found, and clears the scalar and all that was signed at once. */
  method Sign(w: World, q: R.Request, work: Work) returns (status: int, length: nat)
    requires Sound(w) && work.Valid() && |q.clientHash| == HASH_LEN && Blank(work.authData[..])
    modifies work.scalar, work.authData, work.signInput, work.digest, work.signature
    ensures status == SigningStatus(w, q, work.rpHash[..], old(work.scalar[..]))
    ensures status == OK ==>
              var signature := w.lib.sign(old(work.scalar[..]), Digest(w, work.rpHash[..], q).value).value;
              && work.authData[..] == AuthData(work.rpHash[..])
              && length == |signature| <= DER_MAX && work.signature[..length] == signature
    ensures Digest(w, work.rpHash[..], q).Some? && !w.cancelled(1) ==>
              Blank(work.scalar[..]) && Blank(work.signInput[..]) && Blank(work.digest[..])
  {
    length := 0;
    FillAuthData(work.rpHash[..], work.authData);
    FillSignInput(work.authData[..], q.clientHash, work.signInput);
    var digest := w.lib.sha(work.signInput[..]);
    if digest.None? {
      return OTHER, 0;
    }
    Copy(work.digest, 0, digest.value);
    assert work.digest[..] == digest.value;
    if w.cancelled(1) {
      return KEEPALIVE_CANCEL, 0;
    }
    var signature := w.lib.sign(work.scalar[..], work.digest[..]);
    ClearAll(work.scalar);
    ClearAll(work.signInput);
    ClearAll(work.digest);
    if signature.None? || |signature.value| == 0 || |signature.value| > DER_MAX {
      return OTHER, 0;
    }
    length := |signature.value|;
    Copy(work.signature, 0, signature.value);
    status := OK;
  }

  /** Takes the steps of the command, leaving what they need in the work buffers. */
  method Steps(w: World, q: R.Request, response: array<byte>, base: nat, cap: nat, work: Work) returns (status: int, len: nat)
    requires Sound(w) && RESPONSE_MAX <= cap && base + cap <= response.Length && |q.clientHash| == HASH_LEN
    requires work.Valid() && work.Cleared() && response !in work.Repr()
    modifies response, work.Repr()
    ensures status == Decision(w, q, cap)
    ensures status == OK ==> len == |Reply(w, q, cap)| <= cap
                             && response[..] == Copied(old(response[..]), base, Reply(w, q, cap))
    ensures status != OK ==> len == 0 && OnlyZeroed(old(response[..]), response[..], base, cap)
  {
    hide Opening, OnlyZeroed, Encoded, AuthData, Find, NotOurs, Copied, Digest, Usable;
    len := 0;
    ghost var before := response[..];
    NothingZeroed(before, base, cap);
    var hash := w.lib.sha(q.rpId);
    if hash.None? {
      return OTHER, 0;
    }
    Copy(work.rpHash, 0, hash.value);
    AllOfIt(old(work.rpHash[..]), hash.value);
    BlankIsZeros(work.scalar[..]);
    var id;
    status, id := FindCred(w, work.rpHash[..], q.allow, work.scalar);
    if status != OK {
      return status, 0;
    }
    status := PresenceStatus(w.press);
    if status != OK {
      return status, 0;
    }
    if w.cancelled(0) {
      return KEEPALIVE_CANCEL, 0;
    }
    var length;
    status, length := Sign(w, q, work);
    if status != OK {
      return status, 0;
    }
    if w.cancelled(2) {
      return KEEPALIVE_CANCEL, 0;
    }
    var ok;
    AuthDataLength(work.rpHash[..]);
    ok, len := PutResponse(id, work.authData[..], work.signature[..length], response, base, cap);
    if !ok {
      return OTHER, 0;
    }
    if w.cancelled(3) {
      ghost var written := response[..];
      Clear(response, base, len);
      WrittenAndZeroed(before, written, response[..], base, cap, Encoded(id, work.authData[..], work.signature[..length]));
      return KEEPALIVE_CANCEL, 0;
    }
    status := OK;
  }

  lemma AuthDataLength(rpHash: seq<byte>)
    requires |rpHash| == HASH_LEN
    ensures |AuthData(rpHash)| == AUTH_DATA_LEN
  {
  }

  /** Acts on a request that was understood; nothing stays in the work buffers, however it ends. */
  method Act(w: World, q: R.Request, response: array<byte>, base: nat, cap: nat, work: Work) returns (status: int, len: nat)
    requires Sound(w) && RESPONSE_MAX <= cap && base + cap <= response.Length && |q.clientHash| == HASH_LEN
    requires work.Valid() && work.Cleared() && response !in work.Repr()
    modifies response, work.Repr()
    ensures status == Decision(w, q, cap)
    ensures status == OK ==> len == |Reply(w, q, cap)| <= cap
                             && response[..] == Copied(old(response[..]), base, Reply(w, q, cap))
    ensures status != OK ==> len == 0 && OnlyZeroed(old(response[..]), response[..], base, cap)
    ensures work.Cleared()
  {
    hide Decision, Reply, OnlyZeroed, Copied;
    status, len := Steps(w, q, response, base, cap, work);
    work.Clear();
  }

  /**
    The whole command. Only a request that was understood is acted on; only a successful one leaves anything
    but zeroes in the response, of which nothing is reported otherwise, and no call leaves anything in the
    work buffers.
  */
  method Assert(w: World, data: seq<byte>, response: array<byte>, base: nat, cap: nat, work: Work)
    returns (status: int, len: nat, ghost x: Item)
    requires Sound(w) && base + cap <= response.Length
    requires work.Valid() && work.Cleared() && response !in work.Repr()
    modifies response, work.Repr()
    ensures work.Cleared()
    ensures status == ERR_SMALL <==> cap < RESPONSE_MAX
    ensures cap >= RESPONSE_MAX && (exists y :: Asks(data, y)) ==>
              Asks(data, x) && status == Decision(w, R.Meaning(Pairs(x.items)), cap)
    ensures cap >= RESPONSE_MAX && !(exists y :: Asks(data, y)) ==> status != OK && R.Refuses(data, status)
    ensures status == OK ==> var bytes := Reply(w, R.Meaning(Pairs(x.items)), cap);
                             len == |bytes| <= cap && response[..] == Copied(old(response[..]), base, bytes)
    ensures status != OK ==> len == 0 && OnlyZeroed(old(response[..]), response[..], base, cap)
  {
    hide Enc, R.IsRequest, R.IsSupported, R.Meaning, Pairs, Decision, Reply, OnlyZeroed, R.Refuses;
    len, x := 0, Bool(false);
    NothingZeroed(response[..], base, cap);
    if cap < RESPONSE_MAX {
      return ERR_SMALL, 0, x;
    }
    var q: R.Request;
    status, q, x := R.ReadRequest(data);
    if status != OK {
      return status, 0, x;
    }
    assert Asks(data, x);
    R.HashLength(x);
    status, len := Act(w, q, response, base, cap, work);
    DecisionIsStatus(w, q, cap);
  }

  lemma DecisionIsStatus(w: World, q: R.Request, cap: nat)
    ensures Decision(w, q, cap) in {OK, OTHER, NO_CREDENTIALS, KEEPALIVE_CANCEL, USER_ACTION_TIMEOUT, OPERATION_DENIED}
  {
  }
}
