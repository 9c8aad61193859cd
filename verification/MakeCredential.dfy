/** The authenticatorMakeCredential command. */
module MakeCredential {
  import opened Bytes
  import opened CborChain
  import opened CborItem
  import opened CborReader
  import opened CborWriter
  import opened Cred
  import opened Crypto
  import opened CtapCommand
  import opened CtapFields
  import opened CtapMaps
  import opened CtapStatus
  import opened Memory
  import R = CredentialRequest

  const COSE_OFFSET: int := 155
  const COSE_LEN: int := 77
  const AUTH_DATA_LEN: int := 232
  const RESPONSE_LEN: int := 244
  const ID_OFFSET: int := 55

  // ---- excluded credentials

  /** An entry that can be judged: the device's own, or not. */
  predicate Judged(w: World, rpHash: seq<byte>, ds: seq<Desc>, i: nat)
    requires i < |ds|
  {
    NotOurs(w, rpHash, ds, i) || Ours(w, rpHash, ds, i)
  }

  /** The list is read to its end whether or not something in it is excluded. */
  method CheckExclude(w: World, rpHash: seq<byte>, ds: seq<Desc>, scalar: array<byte>)
    returns (status: int, excluded: bool)
    requires Sound(w) && |rpHash| == HASH_LEN && scalar.Length == SCALAR_LEN && scalar[..] == Zeros(SCALAR_LEN)
    modifies scalar
    ensures status == OK <==> forall i :: 0 <= i < |ds| ==> Judged(w, rpHash, ds, i)
    ensures status == OK ==> (excluded <==> exists i :: 0 <= i < |ds| && Ours(w, rpHash, ds, i))
    ensures status in {OK, OTHER} && scalar[..] == Zeros(SCALAR_LEN)
  {
    excluded := false;
    for i := 0 to |ds|
      invariant scalar[..] == Zeros(SCALAR_LEN)
      invariant forall j :: 0 <= j < i ==> Judged(w, rpHash, ds, j)
      invariant excluded <==> exists j :: 0 <= j < i && Ours(w, rpHash, ds, j)
    {
      if !ds[i].publicKey || |ds[i].id| != ID_LEN {
        continue;
      }
      var scratch := new Scratch();
      var error := CredOpen(w.lib, w.roots(i), rpHash, ds[i].id, scalar, scratch);
      Clear(scalar, 0, SCALAR_LEN);
      assert scalar[..] == Zeros(SCALAR_LEN);
      if error == CRED_OK {
        assert Ours(w, rpHash, ds, i);
        excluded := true;
      } else if error != CRED_MISMATCH {
        assert !Judged(w, rpHash, ds, i);
        return OTHER, excluded;
      }
    }
    status := OK;
  }

  // ---- authenticator data and response

  /** The public key as a COSE key for ES256 on P-256 (RFC 9053). */
  function Cose(x: seq<byte>, y: seq<byte>): Item {
    Map([Uint(1), Uint(2), Uint(3), IntItem(-7), IntItem(-1), Uint(1), IntItem(-2), Bytes(x), IntItem(-3), Bytes(y)])
  }

  lemma CoseParts(x: seq<byte>, y: seq<byte>)
    requires |x| == SCALAR_LEN && |y| == SCALAR_LEN
    ensures Wf(Cose(x, y))
    ensures Enc(Cose(x, y)) ==
            Head(5, 5) + Enc(Uint(1)) + Enc(Uint(2)) + Enc(Uint(3)) + Enc(IntItem(-7)) + Enc(IntItem(-1)) + Enc(Uint(1))
            + Enc(IntItem(-2)) + Enc(Bytes(x)) + Enc(IntItem(-3)) + Enc(Bytes(y))
  {
    hide Head, EncAll;
    var first := [Uint(1), Uint(2), Uint(3), IntItem(-7)];
    var second := [IntItem(-1), Uint(1), IntItem(-2), Bytes(x)];
    var third := [IntItem(-3), Bytes(y)];
    EncFour(Uint(1), Uint(2), Uint(3), IntItem(-7));
    EncFour(IntItem(-1), Uint(1), IntItem(-2), Bytes(x));
    EncTwo(IntItem(-3), Bytes(y));
    EncAllAppend(first, second);
    EncAllAppend(first + second, third);
    assert Cose(x, y).items == first + second + third;
    Reassociate(Head(5, 5), Enc(Uint(1)), Enc(Uint(2)), Enc(Uint(3)), Enc(IntItem(-7)), Enc(IntItem(-1)), Enc(Uint(1)),
                Enc(IntItem(-2)), Enc(Bytes(x)), Enc(IntItem(-3)), Enc(Bytes(y)));
  }

  lemma Reassociate(h: seq<byte>, a: seq<byte>, b: seq<byte>, c: seq<byte>, d: seq<byte>, e: seq<byte>, f: seq<byte>,
                    g: seq<byte>, i: seq<byte>, j: seq<byte>, k: seq<byte>)
    ensures h + ((a + b + c + d) + (e + f + g + i) + (j + k)) == h + a + b + c + d + e + f + g + i + j + k
  {
  }

  /** The key always fills the space kept for it exactly. */
  lemma CoseFits(x: seq<byte>, y: seq<byte>)
    requires |x| == SCALAR_LEN && |y| == SCALAR_LEN
    ensures Wf(Cose(x, y)) && |Enc(Cose(x, y))| == COSE_LEN
  {
    hide EncAll;
    CoseParts(x, y);
  }

  method PutCose(x: seq<byte>, y: seq<byte>, authData: array<byte>) returns (ok: bool)
    requires |x| == SCALAR_LEN && |y| == SCALAR_LEN && authData.Length == AUTH_DATA_LEN
    modifies authData
    ensures ok && Wf(Cose(x, y)) && COSE_OFFSET + |Enc(Cose(x, y))| == AUTH_DATA_LEN
    ensures authData[..] == Copied(old(authData[..]), COSE_OFFSET, Enc(Cose(x, y)))
  {
    hide Enc, Head, EncAll;
    CoseFits(x, y);
    CoseParts(x, y);
    ghost var before := authData[..];
    var w := new Writer(authData, COSE_OFFSET, COSE_LEN);
    ok := StartMap(w, 5, before);
    ghost var t := Head(5, 5);
    ok := AndUint(w, ok, 1, t, before);
    t := t + Enc(Uint(1));
    ok := AndUint(w, ok, 2, t, before);
    t := t + Enc(Uint(2));
    ok := AndUint(w, ok, 3, t, before);
    t := t + Enc(Uint(3));
    ok := AndInt(w, ok, -7, t, before);
    t := t + Enc(IntItem(-7));
    ok := AndInt(w, ok, -1, t, before);
    t := t + Enc(IntItem(-1));
    ok := AndUint(w, ok, 1, t, before);
    t := t + Enc(Uint(1));
    ok := AndInt(w, ok, -2, t, before);
    t := t + Enc(IntItem(-2));
    ok := AndBytes(w, ok, x, t, before);
    t := t + Enc(Bytes(x));
    ok := AndInt(w, ok, -3, t, before);
    t := t + Enc(IntItem(-3));
    ok := AndBytes(w, ok, y, t, before);
    ok := ok && w.Len() == COSE_LEN;
  }

  /** Relying party hash, flags, counter, device, credential ID and public key. */
  function AuthData(rpHash: seq<byte>, id: seq<byte>, x: seq<byte>, y: seq<byte>): seq<byte>
    requires |x| == SCALAR_LEN && |y| == SCALAR_LEN
  {
    CoseFits(x, y);
    rpHash + [0x41] + Zeros(4) + AAGUID + [0, ID_LEN] + id + Enc(Cose(x, y))
  }

  /** A client finds the credential ID where the layout says. */
  lemma IdInAuthData(rpHash: seq<byte>, id: seq<byte>, x: seq<byte>, y: seq<byte>)
    requires |rpHash| == HASH_LEN && |id| == ID_LEN && |x| == SCALAR_LEN && |y| == SCALAR_LEN
    ensures var a := AuthData(rpHash, id, x, y);
            |a| == AUTH_DATA_LEN && a[ID_OFFSET..COSE_OFFSET] == id && a[..HASH_LEN] == rpHash
            && LoadU16(a[53..55]) == ID_LEN && a[COSE_OFFSET..] == Enc(Cose(x, y))
  {
    hide Enc;
    CoseFits(x, y);
  }

  /** The layout of section 6.1 of WebAuthn in front of it: whose it is, a user and a credential, no count, the device. */
  lemma AuthDataFields(rpHash: seq<byte>, id: seq<byte>, x: seq<byte>, y: seq<byte>)
    requires |rpHash| == HASH_LEN && |id| == ID_LEN && |x| == SCALAR_LEN && |y| == SCALAR_LEN
    ensures var a := AuthData(rpHash, id, x, y);
            |a| == 232 && a[..32] == rpHash && a[32] == 0x41 && a[33..37] == [0, 0, 0, 0] && a[37..53] == AAGUID
  {
    hide Enc;
    CoseFits(x, y);
  }

  const NONE: Item := Text([0x6e, 0x6f, 0x6e, 0x65])

  /** The response map, without attestation. */
  function Response(authData: seq<byte>): Item {
    Map([Uint(1), NONE, Uint(2), Bytes(authData), Uint(3), Map([])])
  }

  lemma ResponseParts(authData: seq<byte>)
    requires |authData| == AUTH_DATA_LEN
    ensures Wf(Response(authData))
    ensures Enc(Response(authData)) ==
            Head(5, 3) + Enc(Uint(1)) + Enc(NONE) + Enc(Uint(2)) + Enc(Bytes(authData)) + Enc(Uint(3)) + Head(5, 0)
  {
    hide Head, EncAll;
    var first := [Uint(1), NONE, Uint(2), Bytes(authData)];
    EncFour(Uint(1), NONE, Uint(2), Bytes(authData));
    EncTwo(Uint(3), Map([]));
    EncAllAppend(first, [Uint(3), Map([])]);
    assert Response(authData).items == first + [Uint(3), Map([])];
    assert EncAll([]) == [] by { NoItems([]); }
    assert Enc(Map([])) == Head(5, 0);
  }

  lemma ResponseFits(authData: seq<byte>)
    requires |authData| == AUTH_DATA_LEN
    ensures Wf(Response(authData)) && |Enc(Response(authData))| == RESPONSE_LEN
  {
    hide EncAll;
    ResponseParts(authData);
  }

  /** Writes the response; a buffer larger than a writer takes stays as it was. */
  method PutResponse(authData: seq<byte>, response: array<byte>, base: nat, cap: nat) returns (ok: bool, len: nat)
    requires |authData| == AUTH_DATA_LEN && RESPONSE_LEN <= cap && base + cap <= response.Length
    modifies response
    ensures Wf(Response(authData)) && |Enc(Response(authData))| == RESPONSE_LEN
    ensures ok <==> cap <= MAX_BYTES
    ensures ok ==> len == RESPONSE_LEN && response[..] == Copied(old(response[..]), base, Enc(Response(authData)))
    ensures !ok ==> len == 0 && response[..] == old(response[..])
  {
    hide Enc, Head, EncAll;
    ResponseFits(authData);
    ResponseParts(authData);
    ghost var before := response[..];
    var w := new Writer(response, base, cap);
    ok := StartMap(w, 3, before);
    ghost var t := Head(5, 3);
    ok := AndUint(w, ok, 1, t, before);
    t := t + Enc(Uint(1));
    ok := AndText(w, ok, NONE.data, t, before);
    t := t + Enc(NONE);
    ok := AndUint(w, ok, 2, t, before);
    t := t + Enc(Uint(2));
    ok := AndBytes(w, ok, authData, t, before);
    t := t + Enc(Bytes(authData));
    ok := AndUint(w, ok, 3, t, before);
    t := t + Enc(Uint(3));
    ok := AndMap(w, ok, 0, t, before);
    len := w.Len();
    ok := ok && len == RESPONSE_LEN;
  }

  // ---- the command

  /** The ID the new key is wrapped in. */
  function NewId(w: World, rpHash: seq<byte>): Outcome
    requires w.keys.Some?
  {
    Wrapping(w.lib, w.root, w.nonce, rpHash, w.keys.value.scalar)
  }

  /** The status of a request that was understood, in the order the steps are taken. */
  ghost function Decision(w: World, q: R.Request, cap: nat): int {
    var hash := w.lib.sha(q.rpId);
    if hash.None? then OTHER
    else if exists i :: 0 <= i < |q.exclude| && !Judged(w, hash.value, q.exclude, i) then OTHER
    else if PresenceStatus(w.press) != OK then PresenceStatus(w.press)
    else if exists i :: 0 <= i < |q.exclude| && Ours(w, hash.value, q.exclude, i) then CREDENTIAL_EXCLUDED
    else if w.cancelled(0) then KEEPALIVE_CANCEL
    else if w.keys.None? then OTHER
    else if w.cancelled(1) then KEEPALIVE_CANCEL
    else if NewId(w, hash.value).Error? then OTHER
    else if w.cancelled(2) then KEEPALIVE_CANCEL
    else if cap > MAX_BYTES then OTHER
    else if w.cancelled(3) then KEEPALIVE_CANCEL
    else OK
  }

  /** A credential is made only once the user agreed, and for a user who agreed an excluded one is reported. */
  lemma MadeExactlyWhen(w: World, q: R.Request, cap: nat)
    ensures Decision(w, q, cap) == OK <==>
              && w.lib.sha(q.rpId).Some?
              && var rpHash := w.lib.sha(q.rpId).value;
              && (forall i :: 0 <= i < |q.exclude| ==> NotOurs(w, rpHash, q.exclude, i))
              && w.press == PRESS_OK && !w.cancelled(0) && !w.cancelled(1) && !w.cancelled(2) && !w.cancelled(3)
              && cap <= MAX_BYTES && w.keys.Some? && NewId(w, rpHash).Got?
    ensures Decision(w, q, cap) == CREDENTIAL_EXCLUDED <==>
              && w.lib.sha(q.rpId).Some?
              && var rpHash := w.lib.sha(q.rpId).value;
              && (forall i :: 0 <= i < |q.exclude| ==> Judged(w, rpHash, q.exclude, i))
              && (exists i :: 0 <= i < |q.exclude| && Ours(w, rpHash, q.exclude, i))
              && w.press == PRESS_OK
  {
    hide Opening, NewId;
    if w.lib.sha(q.rpId).Some? {
      var rpHash := w.lib.sha(q.rpId).value;
      forall i | 0 <= i < |q.exclude|
        ensures NotOurs(w, rpHash, q.exclude, i) ==> Judged(w, rpHash, q.exclude, i) && !Ours(w, rpHash, q.exclude, i)
        ensures Judged(w, rpHash, q.exclude, i) && !Ours(w, rpHash, q.exclude, i) ==> NotOurs(w, rpHash, q.exclude, i)
      {
      }
    }
  }

  /** Every entry of the exclusion list could be judged. */
  predicate AllJudged(w: World, q: R.Request) {
    w.lib.sha(q.rpId).Some? && forall i :: 0 <= i < |q.exclude| ==> Judged(w, w.lib.sha(q.rpId).value, q.exclude, i)
  }

  predicate NoneOurs(w: World, q: R.Request)
    requires w.lib.sha(q.rpId).Some?
  {
    forall i :: 0 <= i < |q.exclude| ==> !Ours(w, w.lib.sha(q.rpId).value, q.exclude, i)
  }

  /** With a user who agreed, a cancellation is noticed at one of four places along the way. */
  predicate CancelledOnTheWay(w: World, q: R.Request, cap: nat)
    requires w.lib.sha(q.rpId).Some?
  {
    || w.cancelled(0)
    || (w.keys.Some? && w.cancelled(1))
    || (w.keys.Some? && NewId(w, w.lib.sha(q.rpId).value).Got? && (w.cancelled(2) || (cap <= 2048 && w.cancelled(3))))
  }

  /** What the other outcomes mean, by status: the user's, and that of a cancellation. */
  lemma DeclinedExactlyWhen(w: World, q: R.Request, cap: nat)
    ensures Decision(w, q, cap) == 0x2f <==> AllJudged(w, q) && w.press == -3
    ensures Decision(w, q, cap) == 0x27 <==> AllJudged(w, q) && w.press !in {0, -1, -3}
    ensures Decision(w, q, cap) == 0x2d <==>
              && AllJudged(w, q)
              && (w.press == -1 || (w.press == 0 && NoneOurs(w, q) && CancelledOnTheWay(w, q, cap)))
    ensures Decision(w, q, cap) in {0x00, 0x19, 0x2f, 0x27, 0x2d, 0x7f}
  {
    hide Opening, NewId;
  }

  /** The authenticator data of a successful response. */
  ghost function NewAuthData(w: World, q: R.Request, cap: nat): (a: seq<byte>)
    requires Sound(w) && Decision(w, q, cap) == OK
    ensures |a| == AUTH_DATA_LEN
  {
    var rpHash := w.lib.sha(q.rpId).value;
    NewIdLength(w, rpHash);
    IdInAuthData(rpHash, NewId(w, rpHash).bytes, w.keys.value.x, w.keys.value.y);
    AuthData(rpHash, NewId(w, rpHash).bytes, w.keys.value.x, w.keys.value.y)
  }

  lemma NewIdLength(w: World, rpHash: seq<byte>)
    requires Sound(w) && w.keys.Some? && NewId(w, rpHash).Got?
    ensures |NewId(w, rpHash).bytes| == ID_LEN
  {
  }

  /** The bytes of a successful response. */
  ghost function Reply(w: World, q: R.Request, cap: nat): seq<byte>
    requires Sound(w) && Decision(w, q, cap) == OK
  {
    ResponseFits(NewAuthData(w, q, cap));
    Enc(Response(NewAuthData(w, q, cap)))
  }

  /** A request the command understands, and what it asks for. */
  predicate Asks(data: seq<byte>, x: Item) {
    |data| <= MAX_BYTES && R.IsRequest(x) && R.IsSupported(x) && R.Meaning(Pairs(x.items)).es256 && Enc(x) == data
  }

  /** What the command keeps on its stack, the private scalar among it. */
  class Work {
    const rpHash: array<byte>
    const scalar: array<byte>
    const x: array<byte>
    const y: array<byte>
    const id: array<byte>
    const authData: array<byte>

    ghost function Repr(): set<object> {
      {rpHash, scalar, x, y, id, authData}
    }

    ghost predicate Valid() {
      && rpHash.Length == HASH_LEN && scalar.Length == SCALAR_LEN && x.Length == SCALAR_LEN && y.Length == SCALAR_LEN
      && id.Length == ID_LEN && authData.Length == AUTH_DATA_LEN
      && rpHash != scalar && rpHash != x && rpHash != y && scalar != x && scalar != y && x != y
    }

    ghost predicate Cleared()
      reads Repr()
    {
      && Blank(rpHash[..]) && Blank(scalar[..]) && Blank(x[..]) && Blank(y[..])
      && Blank(id[..]) && Blank(authData[..])
    }

    constructor ()
      ensures Valid() && Cleared() && fresh(Repr())
    {
      rpHash := new byte[HASH_LEN](_ => 0);
      scalar := new byte[SCALAR_LEN](_ => 0);
      x := new byte[SCALAR_LEN](_ => 0);
      y := new byte[SCALAR_LEN](_ => 0);
      id := new byte[ID_LEN](_ => 0);
      authData := new byte[AUTH_DATA_LEN](_ => 0);
    }

    method Clear()
      requires Valid()
      modifies Repr()
      ensures Cleared()
    {
      ClearAll(rpHash);
      ClearAll(scalar);
      ClearAll(x);
      ClearAll(y);
      ClearAll(id);
      ClearAll(authData);
    }
  }

  /** What can still go wrong once a key is wanted. */
  function KeyStatus(w: World, rpHash: seq<byte>): int {
    if w.keys.None? then OTHER
    else if w.cancelled(1) then KEEPALIVE_CANCEL
    else if NewId(w, rpHash).Error? then OTHER
    else OK
  }

  /** Makes a key and wraps it, and clears the scalar at once. */
  method MakeKey(w: World, work: Work) returns (status: int)
    requires Sound(w) && work.Valid()
    modifies work.scalar, work.x, work.y, work.id
    ensures status == KeyStatus(w, work.rpHash[..])
    ensures status == OK ==> && work.id[..] == NewId(w, work.rpHash[..]).bytes
                             && work.x[..] == w.keys.value.x && work.y[..] == w.keys.value.y
    ensures status == OK ==> Blank(work.scalar[..])
  {
    hide Wrapping, Copied;
    if w.keys.None? {
      return OTHER;
    }
    var keys := w.keys.value;
    Copy(work.scalar, 0, keys.scalar);
    AllOfIt(old(work.scalar[..]), keys.scalar);
    Copy(work.x, 0, keys.x);
    AllOfIt(old(work.x[..]), keys.x);
    Copy(work.y, 0, keys.y);
    AllOfIt(old(work.y[..]), keys.y);
    if w.cancelled(1) {
      return KEEPALIVE_CANCEL;
    }
    var scratch := new Scratch();
    var wrapError := CredWrap(w.lib, w.root, w.nonce, work.rpHash[..], work.scalar[..], work.id, scratch);
    ClearAll(work.scalar);
    if wrapError != CRED_OK {
      return OTHER;
    }
    NewIdLength(w, work.rpHash[..]);
    AllOfIt(old(work.id[..]), NewId(w, work.rpHash[..]).bytes);
    status := OK;
  }

  /** Takes the steps of the command, leaving what they need in the work buffers. */
  method Steps(w: World, q: R.Request, response: array<byte>, base: nat, cap: nat, work: Work) returns (status: int, len: nat)
    requires Sound(w) && RESPONSE_LEN <= cap && base + cap <= response.Length
    requires work.Valid() && work.Cleared() && response !in work.Repr()
    modifies response, work.Repr()
    ensures status == Decision(w, q, cap)
    ensures status == OK ==> len == |Reply(w, q, cap)| == RESPONSE_LEN
                             && response[..] == Copied(old(response[..]), base, Reply(w, q, cap))
    ensures status != OK ==> len == 0 && OnlyZeroed(old(response[..]), response[..], base, cap)
  {
    hide Enc, Opening, Wrapping, NewId, OnlyZeroed, AuthData, Ours, NotOurs, Copied;
    len := 0;
    ghost var before := response[..];
    NothingZeroed(before, base, cap);
    var hash := w.lib.sha(q.rpId);
    if hash.None? {
      return OTHER, 0;
    }
    Copy(work.rpHash, 0, hash.value);
    AllOfIt(old(work.rpHash[..]), hash.value);
    BlankIsZeros(work.scalar[..]);
    var excluded;
    status, excluded := CheckExclude(w, work.rpHash[..], q.exclude, work.scalar);
    if status != OK {
      return status, 0;
    }
    status := PresenceStatus(w.press);
    if status != OK {
      return status, 0;
    }
    if excluded {
      return CREDENTIAL_EXCLUDED, 0;
    }
    if w.cancelled(0) {
      return KEEPALIVE_CANCEL, 0;
    }
    status := MakeKey(w, work);
    if status != OK {
      return status, 0;
    }
    if w.cancelled(2) {
      return KEEPALIVE_CANCEL, 0;
    }
    NewIdLength(w, work.rpHash[..]);
    FillAuthData(work.rpHash[..], work.id[..], work.x[..], work.y[..], work.authData);
    var ok;
    ok, len := PutResponse(work.authData[..], response, base, cap);
    if !ok {
      return OTHER, 0;
    }
    if w.cancelled(3) {
      ghost var written := response[..];
      Clear(response, base, len);
      WrittenAndZeroed(before, written, response[..], base, cap, Enc(Response(work.authData[..])));
      return KEEPALIVE_CANCEL, 0;
    }
    status := OK;
  }

  /** Fills in the authenticator data by offset. */
  method FillAuthData(rpHash: seq<byte>, id: seq<byte>, x: seq<byte>, y: seq<byte>, authData: array<byte>)
    requires |rpHash| == HASH_LEN && |id| == ID_LEN && |x| == SCALAR_LEN && |y| == SCALAR_LEN
    requires authData.Length == AUTH_DATA_LEN && Blank(authData[..])
    modifies authData
    ensures authData[..] == AuthData(rpHash, id, x, y)
  {
    hide Enc;
    assert authData[..] == Zeros(AUTH_DATA_LEN);
    Copy(authData, 0, rpHash);
    authData[32] := 0x41;
    assert authData[..] == rpHash + [0x41] + Zeros(199);
    Copy(authData, 37, AAGUID);
    assert authData[..] == rpHash + [0x41] + Zeros(4) + AAGUID + Zeros(179);
    authData[53] := ID_LEN / 0x100;
    authData[54] := ID_LEN % 0x100;
    assert authData[..] == rpHash + [0x41] + Zeros(4) + AAGUID + [0, ID_LEN] + Zeros(177);
    Copy(authData, ID_OFFSET, id);
    assert authData[..] == rpHash + [0x41] + Zeros(4) + AAGUID + [0, ID_LEN] + id + Zeros(77);
    var ok := PutCose(x, y, authData);
  }

  /** Acts on a request that was understood; nothing stays in the work buffers, however it ends. */
  method Act(w: World, q: R.Request, response: array<byte>, base: nat, cap: nat, work: Work) returns (status: int, len: nat)
    requires Sound(w) && RESPONSE_LEN <= cap && base + cap <= response.Length
    requires work.Valid() && work.Cleared() && response !in work.Repr()
    modifies response, work.Repr()
    ensures status == Decision(w, q, cap)
    ensures status == OK ==> len == |Reply(w, q, cap)| == RESPONSE_LEN
                             && response[..] == Copied(old(response[..]), base, Reply(w, q, cap))
    ensures status != OK ==> len == 0 && OnlyZeroed(old(response[..]), response[..], base, cap)
    ensures work.Cleared()
  {
    hide Decision, Reply, OnlyZeroed, Copied;
    status, len := Steps(w, q, response, base, cap, work);
    work.Clear();
  }

  /**
    The whole command. Only a request that was understood is acted on; only a successful one leaves anything
    but zeroes in the response, of which nothing is reported otherwise, and no call leaves anything in the
    work buffers.
  */
  method Make(w: World, data: seq<byte>, response: array<byte>, base: nat, cap: nat, work: Work)
    returns (status: int, len: nat, ghost x: Item)
    requires Sound(w) && base + cap <= response.Length
    requires work.Valid() && work.Cleared() && response !in work.Repr()
    modifies response, work.Repr()
    ensures work.Cleared()
    ensures status == ERR_SMALL <==> cap < RESPONSE_LEN
    ensures cap >= RESPONSE_LEN && (exists y :: Asks(data, y)) ==>
              Asks(data, x) && status == Decision(w, R.Meaning(Pairs(x.items)), cap)
    ensures cap >= RESPONSE_LEN && !(exists y :: Asks(data, y)) ==> status != OK && R.Refuses(data, status)
    ensures status == OK ==> var bytes := Reply(w, R.Meaning(Pairs(x.items)), cap);
                             len == |bytes| == RESPONSE_LEN && response[..] == Copied(old(response[..]), base, bytes)
    ensures status != OK ==> len == 0 && OnlyZeroed(old(response[..]), response[..], base, cap)
  {
    hide Enc, R.IsRequest, R.IsSupported, R.Meaning, Pairs, Decision, Reply, OnlyZeroed, R.Refuses;
    len, x := 0, Bool(false);
    NothingZeroed(response[..], base, cap);
    if cap < RESPONSE_LEN {
      return ERR_SMALL, 0, x;
    }
    var q: R.Request;
    status, q, x := R.ReadRequest(data);
    if status != OK {
      return status, 0, x;
    }
    assert Asks(data, x);
    status, len := Act(w, q, response, base, cap, work);
    DecisionIsStatus(w, q, cap);
  }

  lemma DecisionIsStatus(w: World, q: R.Request, cap: nat)
    ensures Decision(w, q, cap) in
              {OK, OTHER, CREDENTIAL_EXCLUDED, KEEPALIVE_CANCEL, USER_ACTION_TIMEOUT, OPERATION_DENIED}
  {
  }
}
