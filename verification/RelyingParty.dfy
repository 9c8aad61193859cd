/**
  What a relying party reads from the responses of the two commands and checks (sections 7.1 and 7.2 of WebAuthn),
  and that it accepts what the device gives it.
*/
module RelyingParty {
  import opened Bytes
  import opened CborItem
  import opened CborReader
  import opened Cred
  import opened Crypto
  import opened CtapCommand
  import opened CtapFields
  import opened CtapMaps
  import opened CtapStatus
  import opened Passkey
  import opened RequestRoundTrips
  import M = MakeCredential
  import A = GetAssertion
  import MR = CredentialRequest
  import AR = AssertionRequest

  // ---- what it looks for

  datatype Credential = Credential(id: seq<byte>, x: seq<byte>, y: seq<byte>)

  /** A public key for ECDSA on P-256 with SHA-256 (section 2.1 of RFC 9053 and section 7.1 of RFC 9052). */
  predicate IsKey(k: Item, x: seq<byte>, y: seq<byte>) {
    && Field(k, IntItem(1)) == Some(Uint(2)) && Field(k, IntItem(3)) == Some(IntItem(-7))
    && Field(k, IntItem(-1)) == Some(Uint(1)) && Field(k, IntItem(-2)) == Some(Bytes(x)) && Field(k, IntItem(-3)) == Some(Bytes(y))
  }

  /** Authenticator data of a registration for the relying party, with the user present and a credential attached. */
  ghost predicate Attests(sha: seq<byte> -> Option<seq<byte>>, rpId: seq<byte>, a: seq<byte>, c: Credential) {
    && |a| >= 55 && sha(rpId) == Some(a[..32]) && a[32] == 0x41
    && var n := LoadU16(a[53..55]);
    && |a| >= 55 + n && a[55..55 + n] == c.id
    && exists k: Item :: k.Map? && Wf(k) && Enc(k) == a[55 + n..] && IsKey(k, c.x, c.y)
  }

  /** The response registers this credential, without attestation. */
  ghost predicate Registers(lib: Library, rpId: seq<byte>, response: seq<byte>, c: Credential) {
    exists r: Item, a: seq<byte> ::
      && r.Map? && Wf(r) && Enc(r) == response
      && Field(r, Uint(1)) == Some(M.NONE) && Field(r, Uint(2)) == Some(Bytes(a)) && Field(r, Uint(3)) == Some(Map([]))
      && Attests(lib.sha, rpId, a, c)
  }

  /** Authenticator data of an assertion for the relying party, with the user present. */
  predicate Vouches(sha: seq<byte> -> Option<seq<byte>>, rpId: seq<byte>, a: seq<byte>) {
    |a| == 37 && sha(rpId) == Some(a[..32]) && a[32] % 2 == 1
  }

  /** The response is a valid assertion with this credential for this relying party and client data. */
  ghost predicate Accepts(lib: Library, rpId: seq<byte>, clientHash: seq<byte>, c: Credential, response: seq<byte>) {
    exists r: Item, d: Item, a: seq<byte>, signature: seq<byte> ::
      && r.Map? && Wf(r) && Enc(r) == response
      && Field(r, Uint(1)) == Some(d) && IsDesc(d, false) && DescOf(d) == Desc(c.id, true)
      && Field(r, Uint(2)) == Some(Bytes(a)) && Vouches(lib.sha, rpId, a)
      && Field(r, Uint(3)) == Some(Bytes(signature))
      && Signed(lib, c, a + clientHash, signature)
  }

  predicate Signed(lib: Library, c: Credential, message: seq<byte>, signature: seq<byte>) {
    lib.sha(message).Some? && lib.verify(c.x, c.y, lib.sha(message).value, signature)
  }

  /** A response registers at most one credential. */
  lemma RegistersOnce(lib: Library, rpId: seq<byte>, response: seq<byte>, c: Credential, d: Credential)
    requires Registers(lib, rpId, response, c) && Registers(lib, rpId, response, d)
    ensures c == d
  {
    hide Enc, Field, IsKey;
    var r: Item, a: seq<byte> :| r.Map? && Wf(r) && Enc(r) == response
                                 && Field(r, Uint(2)) == Some(Bytes(a)) && Attests(lib.sha, rpId, a, c);
    var s: Item, b: seq<byte> :| s.Map? && Wf(s) && Enc(s) == response
                                 && Field(s, Uint(2)) == Some(Bytes(b)) && Attests(lib.sha, rpId, b, d);
    BeginsUnique(response, r, s);
    AttestsOnce(lib, rpId, a, c, d);
  }

  lemma AttestsOnce(lib: Library, rpId: seq<byte>, a: seq<byte>, c: Credential, d: Credential)
    requires Attests(lib.sha, rpId, a, c) && Attests(lib.sha, rpId, a, d)
    ensures c == d
  {
    hide Enc, Field;
    var rest := a[55 + LoadU16(a[53..55])..];
    var k: Item :| k.Map? && Wf(k) && Enc(k) == rest && IsKey(k, c.x, c.y);
    var l: Item :| l.Map? && Wf(l) && Enc(l) == rest && IsKey(l, d.x, d.y);
    BeginsUnique(rest, k, l);
  }

  // ---- what the device gives it

  predicate AnyPair(key: Item, v: Item) {
    true
  }

  lemma FlatMore(ps: seq<Pair>, p: Pair)
    ensures Flat(ps + [p]) == Flat(ps) + [p.key, p.value]
  {
    assert (ps + [p])[..|ps|] == ps;
  }

  lemma FlatOfTwo(a: Pair, b: Pair)
    ensures Flat([a, b]) == [a.key, a.value, b.key, b.value]
  {
    hide Flat;
    assert [] + [a] == [a] && [a] + [b] == [a, b];
    FlatMore([], a);
    FlatMore([a], b);
    FlatOfNone();
  }

  lemma FlatOfNone()
    ensures Flat([]) == []
  {
  }

  lemma FlatOfThree(a: Pair, b: Pair, c: Pair)
    ensures Flat([a, b, c]) == [a.key, a.value, b.key, b.value, c.key, c.value]
  {
    hide Flat;
    assert [a, b] + [c] == [a, b, c];
    FlatOfTwo(a, b);
    FlatMore([a, b], c);
  }

  lemma FlatOfFive(a: Pair, b: Pair, c: Pair, d: Pair, e: Pair)
    ensures Flat([a, b, c, d, e]) ==
              [a.key, a.value, b.key, b.value, c.key, c.value, d.key, d.value, e.key, e.value]
  {
    hide Flat;
    assert [a, b, c] + [d] == [a, b, c, d] && [a, b, c, d] + [e] == [a, b, c, d, e];
    FlatOfThree(a, b, c);
    FlatMore([a, b, c], d);
    FlatMore([a, b, c, d], e);
  }

  lemma CoseIsKey(x: seq<byte>, y: seq<byte>)
    requires |x| == SCALAR_LEN && |y| == SCALAR_LEN
    ensures IsKey(M.Cose(x, y), x, y)
  {
    hide Flat, Pairs, Lookup, Obeys;
    var ps := [Pair(IntItem(1), Uint(2)), Pair(IntItem(3), IntItem(-7)), Pair(IntItem(-1), Uint(1)),
               Pair(IntItem(-2), Bytes(x)), Pair(IntItem(-3), Bytes(y))];
    FlatOfFive(ps[0], ps[1], ps[2], ps[3], ps[4]);
    FreshMap(ps, AnyPair, {});
    assert M.Cose(x, y) == MapOf(ps);
    assert Field(MapOf(ps), ps[0].key) == Some(ps[0].value) && Field(MapOf(ps), ps[1].key) == Some(ps[1].value);
    assert Field(MapOf(ps), ps[2].key) == Some(ps[2].value) && Field(MapOf(ps), ps[3].key) == Some(ps[3].value);
    assert Field(MapOf(ps), ps[4].key) == Some(ps[4].value);
  }

  /** Three members under the keys 1, 2 and 3. */
  lemma ThreeMembers(a: Item, b: Item, c: Item)
    requires Wf(a) && Wf(b) && Wf(c)
    ensures var r := Map([Uint(1), a, Uint(2), b, Uint(3), c]);
            Field(r, Uint(1)) == Some(a) && Field(r, Uint(2)) == Some(b) && Field(r, Uint(3)) == Some(c)
  {
    hide Flat, Pairs, Lookup, Obeys, Wf;
    var ps := [Pair(Uint(1), a), Pair(Uint(2), b), Pair(Uint(3), c)];
    assert Wf(Uint(1)) && Wf(Uint(2)) && Wf(Uint(3)) by { NumbersAreWf(); }
    FlatOfThree(ps[0], ps[1], ps[2]);
    FreshMap(ps, AnyPair, {});
    assert Map([Uint(1), a, Uint(2), b, Uint(3), c]) == MapOf(ps);
    assert Field(MapOf(ps), ps[0].key) == Some(ps[0].value) && Field(MapOf(ps), ps[1].key) == Some(ps[1].value);
    assert Field(MapOf(ps), ps[2].key) == Some(ps[2].value);
  }

  lemma NumbersAreWf()
    ensures Wf(Uint(1)) && Wf(Uint(2)) && Wf(Uint(3))
  {
  }

  /** A successful registration response registers the new key under the new ID. */
  lemma RegistrationIsRead(w: World, q: MR.Request, cap: nat)
    requires Sound(w) && M.Decision(w, q, cap) == OK
    ensures Registers(w.lib, q.rpId, M.Reply(w, q, cap),
                      Credential(RegisteredId(w, q, cap), w.keys.value.x, w.keys.value.y))
  {
    hide Enc, Wf, Field, M.Response, Opening, Wrapping, IsKey, M.Cose;
    var rpHash := w.lib.sha(q.rpId).value;
    var id, x, y := M.NewId(w, rpHash).bytes, w.keys.value.x, w.keys.value.y;
    M.NewIdLength(w, rpHash);
    M.IdInAuthData(rpHash, id, x, y);
    M.AuthDataFields(rpHash, id, x, y);
    M.CoseFits(x, y);
    CoseIsKey(x, y);
    var a := M.NewAuthData(w, q, cap);
    assert M.Cose(x, y).Map? by { CoseIsMap(x, y); }
    assert a[155..] == Enc(M.Cose(x, y));
    assert Attests(w.lib.sha, q.rpId, a, Credential(id, x, y));
    M.ResponseFits(a);
    RegistrationMembers(a);
  }

  lemma CoseIsMap(x: seq<byte>, y: seq<byte>)
    ensures M.Cose(x, y).Map?
  {
  }

  lemma RegistrationMembers(a: seq<byte>)
    requires |a| == M.AUTH_DATA_LEN
    ensures var r := M.Response(a);
            && r.Map? && Field(r, Uint(1)) == Some(M.NONE) && Field(r, Uint(2)) == Some(Bytes(a))
            && Field(r, Uint(3)) == Some(Map([]))
  {
    ThreeMembers(M.NONE, Bytes(a), Map([]));
  }

  lemma NamedIsDesc(id: seq<byte>)
    requires 0 < |id| <= MAX_BYTES
    ensures var d := Map([ID, Bytes(id), TYPE, PUBLIC_KEY]);
            Wf(d) && IsDesc(d, false) && DescOf(d) == Desc(id, true)
  {
    DescItemMeans(Desc(id, true), false);
    hide Flat, Pairs, Lookup, Obeys;
    FlatOfTwo(Pair(ID, Bytes(id)), Pair(TYPE, PUBLIC_KEY));
    assert Map([ID, Bytes(id), TYPE, PUBLIC_KEY]) == MapOf(DescPairs(Desc(id, true)));
  }

  lemma AssertionMembers(id: seq<byte>, a: seq<byte>, signature: seq<byte>)
    requires |id| == ID_LEN && |a| == A.AUTH_DATA_LEN && |signature| <= DER_MAX
    ensures var r := A.Response(id, a, signature);
            && r.Map? && Wf(r) && Enc(r) == A.Encoded(id, a, signature)
            && Field(r, Uint(1)).Some? && IsDesc(Field(r, Uint(1)).value, false)
            && DescOf(Field(r, Uint(1)).value) == Desc(id, true)
            && Field(r, Uint(2)) == Some(Bytes(a)) && Field(r, Uint(3)) == Some(Bytes(signature))
  {
    A.ResponseFits(id, a, signature);
    hide Enc, Field, IsDesc, DescOf;
    NamedIsDesc(id);
    ThreeMembers(Map([ID, Bytes(id), TYPE, PUBLIC_KEY]), Bytes(a), Bytes(signature));
  }

  /**
    Register, then assert, as the relying party sees it: the registration response registers one credential, and
    the response to a later assertion that lists it behind entries that are not the device's is accepted for
    that credential, that relying party and that client data.
  */
  lemma PasskeyWorks(w: World, q: MR.Request, cap: nat, root: seq<byte>, later: World, p: AR.Request, room: nat, k: nat)
    requires Sound(w) && Opens(w.lib) && Verifies(w.lib) && KeepsRoot(w, root) && M.Decision(w, q, cap) == OK
    requires later.lib == w.lib && KeepsRoot(later, root) && later.roots(k).Some? && Sound(later)
    requires p.rpId == q.rpId && k < |p.allow| && p.allow[k] == Desc(RegisteredId(w, q, cap), true)
    requires forall j :: 0 <= j < k ==> NotOurs(later, w.lib.sha(q.rpId).value, p.allow, j)
    requires A.Decision(later, p, room) == OK
    ensures exists c :: Registers(w.lib, q.rpId, M.Reply(w, q, cap), c)
    ensures forall c | Registers(w.lib, q.rpId, M.Reply(w, q, cap), c) ::
              Accepts(w.lib, q.rpId, p.clientHash, c, A.Reply(later, p, room))
  {
    hide Registers, M.Reply, A.Encoded, A.AuthData, A.Decision, M.Decision, Opens, Verifies, KeepsRoot, RegisteredId, M.NewAuthData;
    M.MadeExactlyWhen(w, q, cap);
    RegistrationIsRead(w, q, cap);
    var own := Credential(RegisteredId(w, q, cap), w.keys.value.x, w.keys.value.y);
    RegisterThenAssert(w, q, cap, root, later, p, room, k);
    var rpHash := w.lib.sha(q.rpId).value;
    A.AuthDataFields(rpHash);
    var signature :| 0 < |signature| <= DER_MAX
                     && A.Reply(later, p, room) == A.Encoded(own.id, A.AuthData(rpHash), signature)
                     && w.lib.verify(own.x, own.y, A.Digest(later, rpHash, p).value, signature);
    AssertionIsRead(w.lib, q.rpId, p.clientHash, own, signature);
    forall c | Registers(w.lib, q.rpId, M.Reply(w, q, cap), c)
      ensures c == own
    {
      RegistersOnce(w.lib, q.rpId, M.Reply(w, q, cap), c, own);
    }
  }

  lemma AssertionIsRead(lib: Library, rpId: seq<byte>, clientHash: seq<byte>, c: Credential, signature: seq<byte>)
    requires Sized(lib) && lib.sha(rpId).Some? && |c.id| == ID_LEN && |signature| <= DER_MAX
    requires Signed(lib, c, A.AuthData(lib.sha(rpId).value) + clientHash, signature)
    ensures |A.AuthData(lib.sha(rpId).value)| == A.AUTH_DATA_LEN
    ensures Accepts(lib, rpId, clientHash, c, A.Encoded(c.id, A.AuthData(lib.sha(rpId).value), signature))
  {
    hide Enc, Wf, Field, A.Response, A.Encoded, A.AuthData, IsDesc, DescOf, Signed;
    var a := A.AuthData(lib.sha(rpId).value);
    A.AuthDataFields(lib.sha(rpId).value);
    AssertionMembers(c.id, a, signature);
    assert Vouches(lib.sha, rpId, a);
  }
}
