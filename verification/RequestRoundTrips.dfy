/** Every request that can be asked for has an encoding that both writer and parsers agree on. */
module RequestRoundTrips {
  import opened Bytes
  import opened CborItem
  import opened CborReader
  import opened CborWriter
  import opened CtapFields
  import opened CtapMaps
  import opened CtapStatus
  import A = AssertionRequest
  import C = CredentialRequest

  // ---- building maps

  function MapOf(ps: seq<Pair>): Item {
    Map(Flat(ps))
  }

  /** Pairs with keys of their own, each as the rule says. */
  predicate Fresh(ps: seq<Pair>, rule: Rule) {
    && (forall i :: 0 <= i < |ps| ==> Wf(ps[i].key) && Wf(ps[i].value) && rule(ps[i].key, ps[i].value))
    && (forall i, j :: 0 <= i < j < |ps| ==> ps[i].key != ps[j].key)
  }

  /** They obey the rule, and looking up finds exactly them. */
  lemma {:induction false} FreshObeys(ps: seq<Pair>, rule: Rule, once: set<Item>)
    requires Fresh(ps, rule)
    ensures Obeys(ps, rule, once)
    ensures forall i :: 0 <= i < |ps| ==> Lookup(ps, ps[i].key) == Some(ps[i].value)
    ensures forall k :: (forall i :: 0 <= i < |ps| ==> ps[i].key != k) ==> Lookup(ps, k) == None
  {
    if ps != [] {
      var m := |ps| - 1;
      FreshObeys(ps[..m], rule, once);
      assert forall i :: 0 <= i < m ==> ps[..m][i] == ps[i];
    }
  }

  lemma FreshMap(ps: seq<Pair>, rule: Rule, once: set<Item>)
    requires Fresh(ps, rule) && |ps| <= MAX_ITEMS
    ensures IsMap(MapOf(ps), rule, once) && Pairs(MapOf(ps).items) == ps
    ensures forall i :: 0 <= i < |ps| ==> Field(MapOf(ps), ps[i].key) == Some(ps[i].value)
    ensures forall k :: (forall i :: 0 <= i < |ps| ==> ps[i].key != k) ==> Field(MapOf(ps), k) == None
  {
    FreshObeys(ps, rule, once);
    PairsOfFlat(ps);
    ObeysWf(ps, rule, once);
  }

  // ---- credential descriptors

  const OTHER_TYPE: Item := Text([])

  function DescPairs(d: Desc): seq<Pair> {
    [Pair(ID, Bytes(d.id)), Pair(TYPE, if d.publicKey then PUBLIC_KEY else OTHER_TYPE)]
  }

  predicate Nameable(ds: seq<Desc>, emptyId: bool) {
    |ds| <= MAX_CREDENTIALS && forall d :: d in ds ==> |d.id| <= MAX_BYTES && (emptyId || d.id != [])
  }

  lemma DescItemMeans(d: Desc, emptyId: bool)
    requires |d.id| <= MAX_BYTES && (emptyId || d.id != [])
    ensures IsDesc(MapOf(DescPairs(d)), emptyId) && DescOf(MapOf(DescPairs(d))) == d
  {
    hide Obeys, Flat, Pairs, Lookup, Fits, MapOf;
    var x := MapOf(DescPairs(d));
    FreshMap(DescPairs(d), DescRule(emptyId), {TYPE, ID});
    assert DescPairs(d)[0].key == ID && DescPairs(d)[1].key == TYPE;
  }

  function DescItems(ds: seq<Desc>): (xs: seq<Item>)
    ensures |xs| == |ds|
  {
    seq(|ds|, i requires 0 <= i < |ds| => MapOf(DescPairs(ds[i])))
  }

  lemma DescListMeans(ds: seq<Desc>, emptyId: bool)
    requires Nameable(ds, emptyId)
    ensures IsDescList(Array(DescItems(ds)), emptyId) && Wf(Array(DescItems(ds))) && DescsOf(DescItems(ds)) == ds
  {
    hide IsDesc, DescOf, DescPairs;
    var xs := DescItems(ds);
    forall i | 0 <= i < |ds|
      ensures IsDesc(xs[i], emptyId) && Wf(xs[i]) && DescOf(xs[i]) == ds[i]
    {
      assert ds[i] in ds;
      DescItemMeans(ds[i], emptyId);
      DescIsWf(xs[i], emptyId);
    }
  }

  lemma DescIsWf(x: Item, emptyId: bool)
    requires IsDesc(x, emptyId)
    ensures Wf(x)
  {
  }

  function FlagPairs(a: Item, first: bool, b: Item, second: bool): seq<Pair> {
    [Pair(a, Bool(first)), Pair(b, Bool(second))]
  }

  lemma FlagsMean(a: Item, first: bool, b: Item, second: bool)
    requires a.Text? && b.Text? && a != b && Wf(a) && Wf(b)
    ensures var x := MapOf(FlagPairs(a, first, b, second));
            IsFlags(x, a, b) && Wf(x) && IsSet(x, a) == first && IsSet(x, b) == second
  {
    hide Obeys, Flat, Pairs, Lookup, Fits, MapOf;
    FreshMap(FlagPairs(a, first, b, second), FlagRule(a, b), {a, b});
    assert FlagPairs(a, first, b, second)[0].key == a && FlagPairs(a, first, b, second)[1].key == b;
  }

  // ---- assertion requests

  /** The requests the command has a place for. */
  predicate IsAssertion(q: A.Request) {
    0 < |q.rpId| <= MAX_BYTES && |q.clientHash| == 32 && Nameable(q.allow, true)
  }

  function AssertionPairs(q: A.Request, up: bool): seq<Pair> {
    [Pair(Uint(1), Text(q.rpId)), Pair(Uint(2), Bytes(q.clientHash)), Pair(Uint(3), Array(DescItems(q.allow))),
     Pair(Uint(5), MapOf(FlagPairs(UP, up, UV, q.unsupported)))]
  }

  lemma AssertionMembers(q: A.Request, up: bool)
    requires IsAssertion(q)
    ensures Fresh(AssertionPairs(q, up), A.MemberOk)
  {
    hide IsMap, IsDescList, DescItems, FlagPairs, MapOf, Fits;
    DescListMeans(q.allow, true);
    FlagsMean(UP, up, UV, q.unsupported);
  }

  lemma AssertionMeaning(q: A.Request, up: bool)
    requires IsAssertion(q)
    ensures A.Meaning(AssertionPairs(q, up)) == q
  {
    hide IsMap, IsDescList, DescItems, DescsOf, FlagPairs, MapOf, A.MemberOk, Fresh, Obeys, Lookup, IsSet;
    DescListMeans(q.allow, true);
    FlagsMean(UP, up, UV, q.unsupported);
    AssertionMembers(q, up);
    var ps := AssertionPairs(q, up);
    FreshObeys(ps, A.MemberOk, Known());
    assert ps[0].key == Uint(1) && ps[1].key == Uint(2) && ps[2].key == Uint(3) && ps[3].key == Uint(5);
  }

  /** Such a request has an item that means it. */
  lemma AssertionItemMeans(q: A.Request, up: bool)
    requires IsAssertion(q)
    ensures var x := MapOf(AssertionPairs(q, up));
            && Wf(x) && A.IsRequest(x) && A.Meaning(Pairs(x.items)) == q
            && (A.IsSupported(x) <==> !q.unsupported)
  {
    hide Obeys, Flat, Pairs, Lookup, AssertionPairs, Fresh, A.MemberOk;
    var ps := AssertionPairs(q, up);
    AssertionMembers(q, up);
    AssertionMeaning(q, up);
    AssertionKeys(q, up);
    FreshMap(ps, A.MemberOk, Known());
    MembersAreWf(MapOf(ps), A.MemberOk);
  }

  lemma AssertionKeys(q: A.Request, up: bool)
    ensures var ps := AssertionPairs(q, up); |ps| == 4 && ps[0].key == Uint(1) && ps[1].key == Uint(2)
  {
  }

  lemma MembersAreWf(x: Item, rule: Rule)
    requires IsMap(x, rule, Known())
    ensures x.Map? && Wf(x)
  {
  }

  /** Writes any such request; if it fits, it is read back as what it was. */
  method AssertionRoundTrip(q: A.Request, up: bool) returns (written: bool, status: int, back: A.Request)
    requires IsAssertion(q)
    ensures Wf(MapOf(AssertionPairs(q, up)))
    ensures written <==> |Enc(MapOf(AssertionPairs(q, up)))| <= MAX_BYTES
    ensures written ==> status == if q.unsupported then UNSUPPORTED_OPTION else OK
    ensures written && status == OK ==> back == q
  {
    hide AssertionPairs, MapOf, A.IsRequest, A.IsSupported, A.Meaning, Enc, Pairs;
    AssertionItemMeans(q, up);
    var x := MapOf(AssertionPairs(q, up));
    var buffer := new byte[MAX_BYTES];
    var w := new Writer(buffer, 0, MAX_BYTES);
    written := PutItem(w, x);
    status, back := OTHER, q;
    if written {
      assert buffer[..w.len] == w.Contents() == Enc(x);
      ghost var y: Item;
      status, back, y := A.ReadRequest(buffer[..w.len]);
      if status == OK {
        A.IsRequestIsWf(y);
        BeginsUnique(Enc(x), x, y);
      }
    }
  }

  // ---- registration requests

  predicate IsRegistration(q: C.Request, clientHash: seq<byte>, user: seq<byte>) {
    && 0 < |q.rpId| <= MAX_BYTES && |clientHash| == 32 && 0 < |user| <= MAX_BYTES && Nameable(q.exclude, false)
  }

  function AlgPairs(es256: bool): seq<Pair> {
    [Pair(TYPE, PUBLIC_KEY), Pair(C.ALG, IntItem(if es256 then -7 else -257))]
  }

  lemma AlgMeans(es256: bool)
    ensures var x := Array([MapOf(AlgPairs(es256))]);
            C.IsAlgs(x) && Wf(x) && C.OffersEs256(x.items) == es256
  {
    hide Obeys, Flat, Pairs, Lookup, Fits, MapOf;
    var y := MapOf(AlgPairs(es256));
    FreshMap(AlgPairs(es256), C.AlgRule, {TYPE, C.ALG});
    assert AlgPairs(es256)[0].key == TYPE && AlgPairs(es256)[1].key == C.ALG;
    assert C.IsEs256(y) == es256 && y in [y];
  }

  lemma EntityMeans(id: seq<byte>, text: bool)
    requires 0 < |id| <= MAX_BYTES
    ensures var x := MapOf([Pair(ID, StringItem(text, id))]);
            C.IsEntity(x, text) && Wf(x) && C.EntityId(x) == id
  {
    hide Obeys, Flat, Pairs, Lookup, Fits, MapOf;
    var v := StringItem(text, id);
    var ps := [Pair(ID, v)];
    assert Wf(ID) && Wf(v) && C.EntityRule(text)(ID, v);
    FreshMap(ps, C.EntityRule(text), {ID});
    assert ps[0].key == ID && Field(MapOf(ps), ps[0].key) == Some(v);
  }

  function RegistrationPairs(q: C.Request, clientHash: seq<byte>, user: seq<byte>): seq<Pair> {
    [Pair(Uint(1), Bytes(clientHash)), Pair(Uint(2), MapOf([Pair(ID, StringItem(true, q.rpId))])),
     Pair(Uint(3), MapOf([Pair(ID, StringItem(false, user))])), Pair(Uint(4), Array([MapOf(AlgPairs(q.es256))])),
     Pair(Uint(5), Array(DescItems(q.exclude))), Pair(Uint(7), MapOf(FlagPairs(RK, q.unsupported, UV, false)))]
  }

  lemma RegistrationMembers(q: C.Request, clientHash: seq<byte>, user: seq<byte>)
    requires IsRegistration(q, clientHash, user)
    ensures Fresh(RegistrationPairs(q, clientHash, user), C.MemberOk)
  {
    hide IsMap, IsDescList, DescItems, FlagPairs, AlgPairs, MapOf, Fits, C.IsAlgs, C.IsEntity;
    EntityMeans(q.rpId, true);
    EntityMeans(user, false);
    AlgMeans(q.es256);
    DescListMeans(q.exclude, false);
    FlagsMean(RK, q.unsupported, UV, false);
  }

  lemma RegistrationMeaning(q: C.Request, clientHash: seq<byte>, user: seq<byte>)
    requires IsRegistration(q, clientHash, user)
    ensures C.Meaning(RegistrationPairs(q, clientHash, user)) == q
  {
    hide IsMap, IsDescList, DescItems, DescsOf, FlagPairs, AlgPairs, MapOf, C.MemberOk, Fresh, Obeys, Lookup, IsSet;
    hide C.IsAlgs, C.IsEntity, C.EntityId, C.OffersEs256;
    EntityMeans(q.rpId, true);
    AlgMeans(q.es256);
    DescListMeans(q.exclude, false);
    FlagsMean(RK, q.unsupported, UV, false);
    RegistrationMembers(q, clientHash, user);
    var ps := RegistrationPairs(q, clientHash, user);
    FreshObeys(ps, C.MemberOk, Known());
    assert ps[1].key == Uint(2) && ps[3].key == Uint(4) && ps[4].key == Uint(5) && ps[5].key == Uint(7);
    assert forall i :: 0 <= i < |ps| ==> ps[i].key != Uint(8) && ps[i].key != Uint(9) && ps[i].key != Uint(10);
  }

  /** Such a request has an item that means it. */
  lemma RegistrationItemMeans(q: C.Request, clientHash: seq<byte>, user: seq<byte>)
    requires IsRegistration(q, clientHash, user)
    ensures var x := MapOf(RegistrationPairs(q, clientHash, user));
            && Wf(x) && C.IsRequest(x) && C.Meaning(Pairs(x.items)) == q
            && (C.IsSupported(x) <==> !q.unsupported)
  {
    hide Obeys, Flat, Pairs, Lookup, RegistrationPairs, Fresh, C.MemberOk;
    var ps := RegistrationPairs(q, clientHash, user);
    RegistrationMembers(q, clientHash, user);
    RegistrationMeaning(q, clientHash, user);
    RegistrationKeys(q, clientHash, user);
    FreshMap(ps, C.MemberOk, Known());
    MembersAreWf(MapOf(ps), C.MemberOk);
  }

  lemma RegistrationKeys(q: C.Request, clientHash: seq<byte>, user: seq<byte>)
    ensures var ps := RegistrationPairs(q, clientHash, user);
            |ps| == 6 && ps[0].key == Uint(1) && ps[1].key == Uint(2) && ps[2].key == Uint(3) && ps[3].key == Uint(4)
  {
  }

  /** Writes any such request; if it fits, it is read back as what it was. */
  method RegistrationRoundTrip(q: C.Request, clientHash: seq<byte>, user: seq<byte>)
    returns (written: bool, status: int, back: C.Request)
    requires IsRegistration(q, clientHash, user)
    ensures Wf(MapOf(RegistrationPairs(q, clientHash, user)))
    ensures written <==> |Enc(MapOf(RegistrationPairs(q, clientHash, user)))| <= MAX_BYTES
    ensures written ==> status == if q.unsupported then UNSUPPORTED_OPTION else if q.es256 then OK else UNSUPPORTED_ALGORITHM
    ensures written && status == OK ==> back == q
  {
    hide RegistrationPairs, MapOf, C.IsRequest, C.IsSupported, C.Meaning, Enc, Pairs;
    RegistrationItemMeans(q, clientHash, user);
    var x := MapOf(RegistrationPairs(q, clientHash, user));
    var buffer := new byte[MAX_BYTES];
    var w := new Writer(buffer, 0, MAX_BYTES);
    written := PutItem(w, x);
    status, back := OTHER, q;
    if written {
      assert buffer[..w.len] == w.Contents() == Enc(x);
      ghost var y: Item;
      status, back, y := C.ReadRequest(buffer[..w.len]);
      if status == OK {
        C.IsRequestIsWf(y);
        BeginsUnique(Enc(x), x, y);
      }
    }
  }
}
