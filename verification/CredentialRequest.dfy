/** The request of authenticatorMakeCredential (section 6.1 of CTAP 2.1). */
module CredentialRequest {
  import opened Bytes
  import opened CborItem
  import opened CborReader
  import opened CborKeys
  import opened CtapFields
  import opened CtapMaps
  import opened CtapStatus
  import B = Bits

  const ALG: Item := Text([0x61, 0x6c, 0x67])
  const ES256: Item := IntItem(-7)

  datatype Request = Request(rpId: seq<byte>, exclude: seq<Desc>, es256: bool, unsupported: bool)

  // ---- relying party and user

  predicate IsName(v: Item, text: bool) {
    (if text then v.Text? else v.Bytes?) && v.data != []
  }

  function EntityRule(text: bool): Rule {
    (k: Item, v: Item) => k.Text? && if k == ID then IsName(v, text) else Fits(v, 0)
  }

  predicate IsEntityMap(x: Item, text: bool) {
    IsMap(x, EntityRule(text), {ID})
  }

  /** A map with an ID that is not empty: a text for a relying party, a byte string for a user. */
  predicate IsEntity(x: Item, text: bool) {
    IsEntityMap(x, text) && Field(x, ID).Some?
  }

  function EntityId(x: Item): seq<byte> {
    match Field(x, ID) case Some(Text(d)) => d case Some(Bytes(d)) => d case _ => []
  }

  ghost predicate NoString(s: seq<byte>, text: bool) {
    forall d: seq<byte> :: !Begins(s, StringItem(text, d))
  }

  ghost predicate NameFault(rest: seq<byte>, text: bool, status: int) {
    if NoString(rest, text) then status == UNEXPECTED_TYPE
    else status == INVALID_PARAMETER && Begins(rest, StringItem(text, []))
  }

  /** Reads an ID that must not be empty. */
  method ReadName(r: Reader, text: bool) returns (status: int, id: seq<byte>)
    requires r.Valid() && !r.failed
    modifies r
    ensures r.Valid()
    ensures status == OK <==> exists v :: IsName(v, text) && Begins(old(r.Rest()), v)
    ensures status == OK ==> var v := StringItem(text, id);
                             !r.failed && IsName(v, text) && Begins(old(r.Rest()), v)
                             && r.offset == old(r.offset) + |Enc(v)|
    ensures status != OK ==> NameFault(old(r.Rest()), text, status)
    ensures status in {OK, INVALID_PARAMETER, UNEXPECTED_TYPE}
  {
    ghost var here := r.Rest();
    var ok;
    if text {
      ok, id := r.GetText();
    } else {
      ok, id := r.GetBytes();
    }
    if !ok {
      assert forall d: seq<byte> :: !Begins(here, StringItem(text, d));
      return UNEXPECTED_TYPE, id;
    }
    OnlyItem(here, StringItem(text, id));
    status := if id == [] then INVALID_PARAMETER else OK;
  }

  ghost predicate EntityFault(text: bool, rest: seq<byte>, key: Item, ps: seq<Pair>, status: int) {
    if key != ID then status == INVALID_CBOR && NothingFits(rest)
    else if Lookup(ps, ID).Some? then status == INVALID_CBOR
    else NameFault(rest, text, status)
  }

  ghost function EntityFaults(text: bool): Fault {
    (rest, key, ps, status) => EntityFault(text, rest, key, ps, status)
  }

  /** The status of a relying party or user that is refused. */
  ghost predicate EntityMapFault(s: seq<byte>, text: bool, status: int) {
    if exists y :: IsEntityMap(y, text) && Begins(s, y) then
      status == MISSING_PARAMETER && forall y :: !(IsEntity(y, text) && Begins(s, y))
    else MapFault(s, EntityRule(text), {ID}, EntityFaults(text), status)
  }

  /** Reads the value that goes with a key of a relying party or user. */
  method ReadEntityValue(r: Reader, text: bool, key: Item, id: Option<seq<byte>>, ghost ps: seq<Pair>)
    returns (status: int, next: Option<seq<byte>>, ghost v: Item)
    requires r.Valid() && !r.failed && key.Text?
    requires key == ID ==> (id.Some? <==> Lookup(ps, ID).Some?)
    modifies r
    ensures r.Valid()
    ensures status == OK <==> (key == ID ==> id.None?) && exists w :: EntityRule(text)(key, w) && Begins(old(r.Rest()), w)
    ensures status == OK ==> !r.failed && EntityRule(text)(key, v) && Begins(old(r.Rest()), v)
                             && r.offset == old(r.offset) + |Enc(v)|
                             && (if key == ID then next.Some? && v == StringItem(text, next.value) else next == id)
    ensures status == OK && key == ID ==> Lookup(ps, ID).None?
    ensures status != OK ==> EntityFault(text, old(r.Rest()), key, ps, status)
    ensures status in {OK, INVALID_PARAMETER, UNEXPECTED_TYPE, INVALID_CBOR}
  {
    next, v := id, Bool(false);
    if key == ID {
      if id.Some? {
        return INVALID_CBOR, id, v;
      }
      var name;
      status, name := ReadName(r, text);
      v := StringItem(text, name);
      next := Some(name);
    } else {
      var ok;
      ok, v := r.Skip();
      status := if ok then OK else INVALID_CBOR;
    }
  }

  ghost predicate IdSoFar(ps: seq<Pair>, text: bool, id: Option<seq<byte>>) {
    Lookup(ps, ID) == match id case Some(d) => Some(StringItem(text, d)) case None => None
  }

  lemma EntityKeysAreTexts(text: bool)
    ensures TextKeys(EntityRule(text)) && IdSoFar([], text, None)
  {
  }

  lemma OneMoreId(ps: seq<Pair>, text: bool, id: Option<seq<byte>>, key: Item, v: Item, next: Option<seq<byte>>)
    requires IdSoFar(ps, text, id) && (key == ID ==> id.None?)
    requires if key == ID then next.Some? && v == StringItem(text, next.value) else next == id
    ensures IdSoFar(ps + [Pair(key, v)], text, next)
  {
    assert (ps + [Pair(key, v)])[..|ps|] == ps;
  }

  method ReadEntity(r: Reader, text: bool) returns (status: int, id: seq<byte>, ghost x: Item)
    requires r.Valid()
    modifies r
    ensures r.Valid()
    ensures status == OK <==> !old(r.failed) && exists y :: IsEntity(y, text) && Begins(old(r.Rest()), y)
    ensures status == OK ==> !r.failed && IsEntity(x, text) && Begins(old(r.Rest()), x) && id == EntityId(x)
                             && r.offset == old(r.offset) + |Enc(x)|
    ensures status != OK && !old(r.failed) ==> EntityMapFault(old(r.Rest()), text, status)
    ensures status in {OK, INVALID_PARAMETER, UNEXPECTED_TYPE, INVALID_CBOR, MISSING_PARAMETER}
  {
    hide Obeys, Flat, Pairs, EncAll, Enc, Lookup, Head, Fits, WalksTo, MapFault, NoText, EntityFault, EntityRule, ID;
    ghost var rule, once, faults := EntityRule(text), {ID}, EntityFaults(text);
    ghost var s := r.Rest();
    x, id := Bool(false), [];
    var had, pairs := OpenMap(r, rule, once);
    if !had {
      NoMapIsFault(s, rule, once, faults);
      return UNEXPECTED_TYPE, id, x;
    }
    ghost var start, ps: seq<Pair> := r.offset, [];
    var found: Option<seq<byte>> := None;
    EntityKeysAreTexts(text);
    for i := 0 to pairs
      invariant At(r, start, ps, rule, once) && |ps| == i
      invariant IdSoFar(ps, text, found)
    {
      ghost var here := r.Rest();
      AtWalksTo(r, s, start, pairs, ps, rule, once);
      var ok, key := ReadKey(r, start, ps, pairs, rule, once);
      if !ok {
        KeyIsFault(s, pairs, ps, here, rule, once, faults);
        return UNEXPECTED_TYPE, id, x;
      }
      var one, next;
      ghost var v: Item;
      one, next, v := ReadEntityValue(r, text, Text(key), found, ps);
      if one != OK {
        ValueIsFault(s, pairs, ps, here, key, rule, once, faults, one);
        return one, id, x;
      }
      OneMoreId(ps, text, found, Text(key), v, next);
      found := next;
      TakePair(r, start, ps, Text(key), v, here, rule, once);
      ps := ps + [Pair(Text(key), v)];
    }
    WalkedMap(s, ps, rule, once);
    x := Map(Flat(ps));
    OnlyItem(s, x);
    if found.None? {
      return MISSING_PARAMETER, id, x;
    }
    return OK, found.value, x;
  }

  // ---- algorithms

  predicate IsInt(v: Item) {
    (v.Uint? || v.Nint?) && v.value <= 0x7fff_ffff_ffff_ffff
  }

  predicate AlgRule(k: Item, v: Item) {
    k.Text? && if k == TYPE then v.Text? else if k == ALG then IsInt(v) else Fits(v, 0)
  }

  predicate IsAlgMap(x: Item) {
    IsMap(x, AlgRule, {TYPE, ALG})
  }

  predicate IsAlg(x: Item) {
    IsAlgMap(x) && Field(x, TYPE).Some? && Field(x, ALG).Some?
  }

  /** A public key with the one algorithm there is. */
  predicate IsEs256(x: Item) {
    Field(x, TYPE) == Some(PUBLIC_KEY) && Field(x, ALG) == Some(ES256)
  }

  predicate IsAlgs(x: Item) {
    x.Array? && 0 < |x.items| <= MAX_ITEMS && forall y :: y in x.items ==> IsAlg(y)
  }

  predicate OffersEs256(xs: seq<Item>) {
    exists y :: y in xs && IsEs256(y)
  }

  lemma IntItemIsInt()
    ensures forall v: Item :: IsInt(v) <==> exists n: i64 :: v == IntItem(n)
  {
    forall v: Item
      ensures IsInt(v) <==> exists n: i64 :: v == IntItem(n)
    {
      if IsInt(v) {
        var n: i64 := if v.Uint? then v.value else -1 - v.value;
        assert v == IntItem(n);
      }
    }
  }

  ghost predicate AlgFault(rest: seq<byte>, key: Item, ps: seq<Pair>, status: int) {
    if key != TYPE && key != ALG then status == INVALID_CBOR && NothingFits(rest)
    else if Lookup(ps, key).Some? then status == INVALID_CBOR
    else status == UNEXPECTED_TYPE && if key == TYPE then NoText(rest) else NoInt(rest)
  }

  ghost predicate NoInt(s: seq<byte>) {
    forall n: i64 :: !Begins(s, IntItem(n))
  }

  /** The status of a credential parameter that is refused. */
  ghost predicate AlgMapFault(s: seq<byte>, status: int) {
    if exists y :: IsAlgMap(y) && Begins(s, y) then
      status == MISSING_PARAMETER && forall y :: !(IsAlg(y) && Begins(s, y))
    else MapFault(s, AlgRule, {TYPE, ALG}, AlgFault, status)
  }

  /** The type and algorithm that were read so far. */
  datatype Parameter = Parameter(haveType: bool, publicKey: bool, haveAlg: bool, algorithm: i64)

  ghost predicate AlgSoFar(ps: seq<Pair>, p: Parameter) {
    && (p.haveType <==> Lookup(ps, TYPE).Some?)
    && (p.publicKey <==> Lookup(ps, TYPE) == Some(PUBLIC_KEY))
    && Lookup(ps, ALG) == (if p.haveAlg then Some(IntItem(p.algorithm)) else None)
  }

  /** Reads the value that goes with a key of a credential parameter. */
  method ReadAlgValue(r: Reader, key: Item, p: Parameter, ghost ps: seq<Pair>)
    returns (status: int, next: Parameter, ghost v: Item)
    requires r.Valid() && !r.failed && key.Text? && AlgSoFar(ps, p)
    modifies r
    ensures r.Valid()
    ensures status == OK <==> (key in {TYPE, ALG} ==> Lookup(ps, key).None?)
                              && exists w :: AlgRule(key, w) && Begins(old(r.Rest()), w)
    ensures status == OK ==> !r.failed && AlgRule(key, v) && Begins(old(r.Rest()), v)
                             && r.offset == old(r.offset) + |Enc(v)| && AlgSoFar(ps + [Pair(key, v)], next)
    ensures status != OK ==> AlgFault(old(r.Rest()), key, ps, status)
    ensures status in {OK, UNEXPECTED_TYPE, INVALID_CBOR}
  {
    hide IsInt, Fits;
    next, v := p, Bool(false);
    var ok;
    IntItemIsInt();
    if key == TYPE {
      if p.haveType {
        return INVALID_CBOR, p, v;
      }
      var text;
      ok, text := r.GetText();
      if !ok {
        return UNEXPECTED_TYPE, p, v;
      }
      v := Text(text);
      next := p.(haveType := true, publicKey := Text(text) == PUBLIC_KEY);
    } else if key == ALG {
      if p.haveAlg {
        return INVALID_CBOR, p, v;
      }
      var algorithm;
      ok, algorithm := r.GetInt();
      if !ok {
        return UNEXPECTED_TYPE, p, v;
      }
      v := IntItem(algorithm);
      next := p.(haveAlg := true, algorithm := algorithm);
    } else {
      ok, v := r.Skip();
      if !ok {
        return INVALID_CBOR, p, v;
      }
    }
    assert (ps + [Pair(key, v)])[..|ps|] == ps;
    status := OK;
  }

  lemma NoAlgSoFar()
    ensures TextKeys(AlgRule) && AlgSoFar([], Parameter(false, false, false, 0))
  {
  }

  lemma AllAlgSoFar(ps: seq<Pair>, p: Parameter, x: Item)
    requires AlgSoFar(ps, p) && IsAlgMap(x) && Pairs(x.items) == ps
    ensures IsAlg(x) <==> p.haveType && p.haveAlg
    ensures p.haveType && p.haveAlg ==> (IsEs256(x) <==> p.publicKey && p.algorithm == -7)
  {
  }

  /** Reads one credential type and algorithm. */
  method ReadAlg(r: Reader) returns (status: int, es256: bool, ghost x: Item)
    requires r.Valid()
    modifies r
    ensures r.Valid()
    ensures status == OK <==> !old(r.failed) && exists y :: IsAlg(y) && Begins(old(r.Rest()), y)
    ensures status == OK ==> !r.failed && IsAlg(x) && Begins(old(r.Rest()), x) && es256 == IsEs256(x)
                             && r.offset == old(r.offset) + |Enc(x)|
    ensures status != OK && !old(r.failed) ==> AlgMapFault(old(r.Rest()), status)
    ensures status in {OK, UNEXPECTED_TYPE, INVALID_CBOR, MISSING_PARAMETER}
  {
    hide Obeys, Flat, Pairs, EncAll, Enc, Lookup, Head, IsInt, Fits, WalksTo;
    hide MapFault, NoText, AlgFault, AlgRule, AlgSoFar, IsEs256, Field;
    ghost var rule, once := AlgRule, {TYPE, ALG};
    ghost var s := r.Rest();
    x, es256 := Bool(false), false;
    var had, pairs := OpenMap(r, rule, once);
    if !had {
      NoMapIsFault(s, rule, once, AlgFault);
      return UNEXPECTED_TYPE, es256, x;
    }
    ghost var start, ps: seq<Pair> := r.offset, [];
    var p := Parameter(false, false, false, 0);
    NoAlgSoFar();
    for i := 0 to pairs
      invariant At(r, start, ps, rule, once) && |ps| == i
      invariant AlgSoFar(ps, p)
    {
      ghost var here := r.Rest();
      AtWalksTo(r, s, start, pairs, ps, rule, once);
      var ok, key := ReadKey(r, start, ps, pairs, rule, once);
      if !ok {
        KeyIsFault(s, pairs, ps, here, rule, once, AlgFault);
        return UNEXPECTED_TYPE, es256, x;
      }
      var one;
      ghost var v: Item;
      one, p, v := ReadAlgValue(r, Text(key), p, ps);
      if one != OK {
        ValueIsFault(s, pairs, ps, here, key, rule, once, AlgFault, one);
        return one, es256, x;
      }
      TakePair(r, start, ps, Text(key), v, here, rule, once);
      ps := ps + [Pair(Text(key), v)];
    }
    WalkedMap(s, ps, rule, once);
    x := Map(Flat(ps));
    OnlyItem(s, x);
    AllAlgSoFar(ps, p, x);
    es256 := p.publicKey && p.algorithm == -7;
    status := if p.haveType && p.haveAlg then OK else MISSING_PARAMETER;
  }

  /** The status of a list of parameters that is refused is that of the first thing wrong with it. */
  ghost predicate AlgsFault(s: seq<byte>, status: int) {
    if NoArray(s) then status == UNEXPECTED_TYPE
    else if Head(4, 0) <= s then status == INVALID_PARAMETER
    else ListFault(s, IsAlg, AlgMapFault, status)
  }

  method ReadAlgs(r: Reader) returns (status: int, es256: bool, ghost x: Item)
    requires r.Valid()
    modifies r
    ensures r.Valid()
    ensures status == OK <==> !old(r.failed) && exists y :: IsAlgs(y) && Begins(old(r.Rest()), y)
    ensures status == OK ==> !r.failed && IsAlgs(x) && Begins(old(r.Rest()), x) && es256 == OffersEs256(x.items)
                             && r.offset == old(r.offset) + |Enc(x)|
    ensures status != OK && !old(r.failed) ==> AlgsFault(old(r.Rest()), status)
    ensures status in {OK, INVALID_PARAMETER, UNEXPECTED_TYPE, INVALID_CBOR, MISSING_PARAMETER}
  {
    hide Obeys, Flat, Pairs, EncAll, Enc, Lookup, Head, IsAlg, IsEs256, ItemsTo, AlgMapFault;
    x, es256 := Bool(false), false;
    ghost var s := r.Rest();
    var had, count := r.GetArray();
    if !had {
      forall y | !old(r.failed) && IsAlgs(y) && Begins(s, y)
        ensures false
      {
        ArrayOpens(s, y);
      }
      return UNEXPECTED_TYPE, es256, x;
    }
    ArrayOpened(s, count);
    if count == 0 {
      return INVALID_PARAMETER, es256, x;
    }
    ghost var start, xs: seq<Item> := r.offset, [];
    assert s[|Head(4, count)|..] == r.data[start..];
    NoItems(r.data[start..]);
    for i := 0 to count
      invariant AtItems(r, start, xs, IsAlg) && |xs| == i
      invariant es256 == OffersEs256(xs)
    {
      var one, offered;
      ghost var y: Item;
      assert r.Rest() == r.data[start..][|EncAll(xs)|..];
      AtItemsTo(r, s, start, count, xs, IsAlg);
      one, offered, y := ReadAlg(r);
      if one != OK {
        forall z | IsAlgs(z) && Begins(s, z)
          ensures false
        {
          NextItem(xs, z.items, r.data[start..]);
        }
        return one, es256, x;
      }
      TakeItem(r, start, xs, y, IsAlg);
      assert OffersEs256(xs + [y]) <==> OffersEs256(xs) || IsEs256(y);
      xs := xs + [y];
      es256 := es256 || offered;
    }
    x := Array(xs);
    WalkedArray(s, xs);
    status := OK;
  }

  // ---- the whole request

  predicate MemberOk(key: Item, v: Item) {
    key.Uint? && key.value != 0
    && if key.value == 1 then v.Bytes? && |v.data| == 32
       else if key.value == 2 then IsEntity(v, true)
       else if key.value == 3 then IsEntity(v, false)
       else if key.value == 4 then IsAlgs(v)
       else if key.value == 5 then IsDescList(v, false)
       else if key.value == 6 then IsMap(v, Anything, {})
       else if key.value == 7 then IsFlags(v, RK, UV)
       else if key.value == 8 then v.Bytes?
       else if key.value == 9 || key.value == 10 then v.Uint?
       else Fits(v, 0)
  }

  /** A map whose known keys occur once and have values of their kinds. */
  predicate IsMembers(x: Item) {
    IsMap(x, MemberOk, Known())
  }

  /** With client data hash, relying party, user and algorithms there. */
  predicate IsRequest(x: Item) {
    && IsMembers(x) && Field(x, Uint(1)).Some? && Field(x, Uint(2)).Some?
    && Field(x, Uint(3)).Some? && Field(x, Uint(4)).Some?
  }

  /** Neither residence, user verification, a PIN nor attestation is asked for. */
  predicate IsSupported(x: Item) {
    x.Map? && !Unsupported(Pairs(x.items))
  }

  predicate Unsupported(ps: seq<Pair>) {
    || (Lookup(ps, Uint(7)).Some? && (IsSet(Lookup(ps, Uint(7)).value, RK) || IsSet(Lookup(ps, Uint(7)).value, UV)))
    || Lookup(ps, Uint(8)).Some? || Lookup(ps, Uint(9)).Some? || Lookup(ps, Uint(10)).Some?
  }

  /** The request a map of members stands for. */
  function Meaning(ps: seq<Pair>): Request {
    Request(match Lookup(ps, Uint(2)) case Some(x) => EntityId(x) case None => [],
            DescsOf(ItemsAt(ps, Uint(5))), OffersEs256(ItemsAt(ps, Uint(4))), Unsupported(ps))
  }

  /** What a member changes in the request that is being filled in. */
  function Entered(q: Request, key: u64, v: Item): Request
    requires MemberOk(Uint(key), v)
  {
    if key == 2 then q.(rpId := EntityId(v))
    else if key == 4 then q.(es256 := q.es256 || OffersEs256(v.items))
    else if key == 5 then q.(exclude := DescsOf(v.items))
    else if key == 7 then q.(unsupported := q.unsupported || IsSet(v, RK) || IsSet(v, UV))
    else if key == 8 || key == 9 || key == 10 then q.(unsupported := true)
    else q
  }

  ghost predicate WrongHash(s: seq<byte>) {
    exists d: seq<byte> :: |d| != 32 && Begins(s, Bytes(d))
  }

  /** The status of a member that is refused for its value. */
  ghost predicate ValueFault(rest: seq<byte>, key: u64, status: int) {
    if key == 1 then
      if NoBytes(rest) then status == UNEXPECTED_TYPE else status == INVALID_PARAMETER && WrongHash(rest)
    else if key == 2 then EntityMapFault(rest, true, status)
    else if key == 3 then EntityMapFault(rest, false, status)
    else if key == 4 then AlgsFault(rest, status)
    else if key == 5 then DescsFault(rest, false, status)
    else if key == 6 then MapFault(rest, Anything, {}, AnythingFault, status)
    else if key == 7 then MapFault(rest, FlagRule(RK, UV), {RK, UV}, FlagFaults(RK, UV), status)
    else if key == 8 then status == UNEXPECTED_TYPE && NoBytes(rest)
    else if key == 9 || key == 10 then status == UNEXPECTED_TYPE && NoNumber(rest)
    else status == INVALID_CBOR && NothingFits(rest)
  }

  /** Reads the value of one member. */
  method ReadMember(r: Reader, key: u64, q: Request) returns (status: int, next: Request, ghost v: Item)
    requires r.Valid() && !r.failed && key != 0
    modifies r
    ensures r.Valid()
    ensures status == OK <==> exists w :: MemberOk(Uint(key), w) && Begins(old(r.Rest()), w)
    ensures status == OK ==> !r.failed && MemberOk(Uint(key), v) && Begins(old(r.Rest()), v)
                             && r.offset == old(r.offset) + |Enc(v)| && next == Entered(q, key, v)
    ensures status != OK ==> ValueFault(old(r.Rest()), key, status)
    ensures status in {OK, INVALID_PARAMETER, UNEXPECTED_TYPE, INVALID_CBOR, MISSING_PARAMETER, LIMIT_EXCEEDED}
  {
    hide IsMap, IsDescList, DescsOf, Enc, IsSet, IsEntity, IsAlgs, EntityId, OffersEs256;
    next, v, status := q, Bool(false), OK;
    ghost var here := r.Rest();
    var ok := true;
    if key == 1 {
      var hash;
      ok, hash := r.GetBytes();
      if !ok {
        return UNEXPECTED_TYPE, q, v;
      }
      v := Bytes(hash);
      if |hash| != 32 {
        OnlyItem(here, v);
        return INVALID_PARAMETER, q, v;
      }
    } else if key == 2 || key == 3 {
      var id;
      status, id, v := ReadEntity(r, key == 2);
      if key == 2 {
        next := q.(rpId := id);
      }
    } else if key == 4 {
      var es256;
      status, es256, v := ReadAlgs(r);
      next := q.(es256 := q.es256 || es256);
    } else if key == 5 {
      var ds;
      status, ds, v := ReadDescriptors(r, false);
      next := q.(exclude := ds);
    } else if key == 6 {
      status, v := ReadIgnoredMap(r);
    } else if key == 7 {
      var rk, uv;
      status, rk, uv, v := ReadFlags(r, RK, UV);
      next := q.(unsupported := q.unsupported || rk || uv);
    } else if key == 8 {
      var pin;
      ok, pin := r.GetBytes();
      if !ok {
        return UNEXPECTED_TYPE, q, v;
      }
      v := Bytes(pin);
      next := q.(unsupported := true);
    } else if key == 9 || key == 10 {
      var value;
      ok, value := r.GetUint();
      if !ok {
        return UNEXPECTED_TYPE, q, v;
      }
      v := Uint(value);
      next := q.(unsupported := true);
    } else {
      ok, v := r.Skip();
      if !ok {
        return INVALID_CBOR, q, v;
      }
    }
  }

  /** Reads one member: a key that may still be used, and its value. */
  method ReadPair(r: Reader, ghost start: nat, ghost ps: seq<Pair>, ghost pairs: nat, seen: u32, q: Request)
    returns (status: int, next: u32, after: Request, ghost p: Pair)
    requires At(r, start, ps, MemberOk, Known()) && |ps| < pairs && NumberKeys(MemberOk)
    requires Tracks(seen, ps) && q == Meaning(ps)
    modifies r
    ensures r.Valid()
    ensures status == OK ==> At(r, start, ps + [p], MemberOk, Known())
                             && Tracks(next, ps + [p]) && after == Meaning(ps + [p])
    ensures status != OK ==> FaultAt(old(r.Rest()), ps, ValueFault, status)
                             && forall qs :: !Holds(qs, pairs, MemberOk, Known(), r.data[start..])
    ensures status in {OK, INVALID_PARAMETER, UNEXPECTED_TYPE, INVALID_CBOR, MISSING_PARAMETER, LIMIT_EXCEEDED}
  {
    hide Obeys, Flat, Pairs, EncAll, Enc, Lookup, Head, MemberOk, Meaning, Entered, Tracks, ValueFault, FaultAt, Refused;
    ghost var rule, once, here := MemberOk, Known(), r.Rest();
    next, after, p := seen, q, Pair(Bool(false), Bool(false));
    var ok, key := ReadNumber(r, start, ps, pairs, rule, once);
    if !ok {
      NoNumberFault(here, ps, ValueFault);
      return UNEXPECTED_TYPE, next, after, p;
    }
    if key <= 32 {
      MayEnter(key, seen, ps);
      ok, next := KnownKeyOnce(seen, key);
      if !ok {
        KeyFaultAt(here, ps, ValueFault, key, INVALID_CBOR);
        return INVALID_CBOR, next, after, p;
      }
    } else {
      LargeKey(key, ps);
    }
    ghost var v: Item;
    status, after, v := ReadMember(r, key, q);
    if status != OK {
      KeyFaultAt(here, ps, ValueFault, key, status);
      return status, next, after, p;
    }
    p := Pair(Uint(key), v);
    TakePair(r, start, ps, Uint(key), v, here, rule, once);
    Enters(ps, key, v);
    StillTracks(seen, next, ps, p);
  }

  /** Reads all members, which must fill the request exactly. */
  method ReadMembers(data: seq<byte>) returns (status: int, q: Request, seen: u32, ghost x: Item)
    ensures status == OK <==> |data| <= MAX_BYTES && exists y :: IsMembers(y) && Enc(y) == data
    ensures status == OK ==> IsMembers(x) && Enc(x) == data && q == Meaning(Pairs(x.items)) && Tracks(seen, Pairs(x.items))
    ensures status != OK ==> MembersFault(data, MemberOk, Known(), ValueFault, status)
    ensures status in {OK, INVALID_PARAMETER, UNEXPECTED_TYPE, INVALID_CBOR, MISSING_PARAMETER, LIMIT_EXCEEDED}
  {
    hide Obeys, Flat, Pairs, EncAll, Enc, Lookup, Head, MemberOk, Meaning, Entered, Tracks;
    hide WalksTo, ValueFault, FaultAt, Refused, NoMap, MembersFault;
    ghost var rule, once := MemberOk, Known();
    q, x, seen := Request([], [], false, false), Bool(false), 0;
    var r := new Reader(data);
    assert r.Rest() == data;
    var had, pairs := OpenMap(r, rule, once);
    if !had {
      NoMembers(data, rule, once, ValueFault);
      return INVALID_CBOR, q, seen, x;
    }
    ghost var start, ps: seq<Pair> := r.offset, [];
    NothingRead();
    NothingMeant();
    Numbered();
    for i := 0 to pairs
      invariant At(r, start, ps, rule, once) && |ps| == i
      invariant Tracks(seen, ps) && q == Meaning(ps)
    {
      ghost var here := r.Rest();
      AtWalksTo(r, data, start, pairs, ps, rule, once);
      ghost var p: Pair;
      status, seen, q, p := ReadPair(r, start, ps, pairs, seen, q);
      if status != OK {
        FaultIsMembersFault(data, pairs, ps, here, rule, once, ValueFault, status);
        return status, q, seen, x;
      }
      ps := ps + [p];
    }
    WalkedMap(data, ps, rule, once);
    x := Map(Flat(ps));
    forall y | IsMembers(y) && Enc(y) == data
      ensures y == x
    {
      BeginsUnique(data, x, y);
    }
    if !r.Done() {
      MoreThanMembers(data, x, rule, once, ValueFault);
      return INVALID_CBOR, q, seen, x;
    }
    assert Enc(x) == data[..|data|];
    status := OK;
  }

  /** The status of a request that is refused: of what is missing or unsupported, or of the first thing wrong. */
  ghost predicate Refuses(data: seq<byte>, status: int) {
    if |data| <= MAX_BYTES && exists y :: IsMembers(y) && Enc(y) == data then
      exists y :: IsMembers(y) && Enc(y) == data
                  && status == if !IsRequest(y) then MISSING_PARAMETER
                               else if !IsSupported(y) then UNSUPPORTED_OPTION else UNSUPPORTED_ALGORITHM
    else MembersFault(data, MemberOk, Known(), ValueFault, status)
  }

  /** Reads a whole request. */
  method ReadRequest(data: seq<byte>) returns (status: int, q: Request, ghost x: Item)
    ensures status == OK <==>
            |data| <= MAX_BYTES
            && exists y :: IsRequest(y) && IsSupported(y) && Meaning(Pairs(y.items)).es256 && Enc(y) == data
    ensures status == UNSUPPORTED_OPTION <==>
            |data| <= MAX_BYTES && exists y :: IsRequest(y) && !IsSupported(y) && Enc(y) == data
    ensures status == UNSUPPORTED_ALGORITHM <==>
            |data| <= MAX_BYTES
            && exists y :: IsRequest(y) && IsSupported(y) && !Meaning(Pairs(y.items)).es256 && Enc(y) == data
    ensures status != OK ==> Refuses(data, status)
    ensures status == OK ==> IsRequest(x) && IsSupported(x) && Enc(x) == data && q == Meaning(Pairs(x.items))
    ensures status in {OK, INVALID_PARAMETER, UNEXPECTED_TYPE, INVALID_CBOR, MISSING_PARAMETER, LIMIT_EXCEEDED,
                       UNSUPPORTED_OPTION, UNSUPPORTED_ALGORITHM}
  {
    hide Obeys, Enc, Lookup, Unsupported, Pairs, MemberOk, MembersFault;
    var seen;
    status, q, seen, x := ReadMembers(data);
    if status != OK {
      return status, q, x;
    }
    forall y | IsMembers(y) && Enc(y) == data
      ensures y == x
    {
      BeginsUnique(data, x, y);
    }
    SeenFour(seen);
    if B.And(seen, 0xf) != 0xf {
      return MISSING_PARAMETER, q, x;
    }
    status := if q.unsupported then UNSUPPORTED_OPTION else if q.es256 then OK else UNSUPPORTED_ALGORITHM;
  }

  lemma IsRequestIsWf(x: Item)
    requires IsRequest(x)
    ensures x.Map? && Wf(x)
  {
  }

  /** A key below 33 may be entered exactly when it is not 0 and the mask does not have it. */
  lemma MayEnter(key: u64, seen: u32, ps: seq<Pair>)
    requires key <= 32 && Tracks(seen, ps)
    ensures key == 0 ==> forall v :: !MemberOk(Uint(key), v)
    ensures Refused(key, ps) <==> key == 0 || Has(seen, key)
    ensures key != 0 ==> Uint(key) in Known() && (Has(seen, key) <==> Lookup(ps, Uint(key)).Some?)
  {
  }

  /** Entering a member that is not a repetition is what adding it to the map means. */
  lemma Enters(ps: seq<Pair>, key: u64, v: Item)
    requires MemberOk(Uint(key), v) && (key <= 32 ==> Lookup(ps, Uint(key)).None?)
    ensures Meaning(ps + [Pair(Uint(key), v)]) == Entered(Meaning(ps), key, v)
  {
    assert (ps + [Pair(Uint(key), v)])[..|ps|] == ps;
  }

  lemma Numbered()
    ensures NumberKeys(MemberOk)
  {
  }

  lemma NothingMeant()
    ensures Meaning([]) == Request([], [], false, false)
  {
  }

  lemma SeenFour(seen: u32)
    ensures B.And(seen, 0xf) == 0xf <==> Has(seen, 1) && Has(seen, 2) && Has(seen, 3) && Has(seen, 4)
  {
    MaskTest(seen, 4);
    assert B.Shifted(4) == 16;
    assert LowBits(seen, 4) <==> B.Bit(seen, 0) && B.Bit(seen, 1) && B.Bit(seen, 2) && B.Bit(seen, 3);
  }

  // ---- the status of a refusal is determined

  lemma EntityFaithful(text: bool)
    ensures Faithful(EntityRule(text), {ID}, EntityFaults(text))
  {
    hide Fits, Lookup, Enc;
    forall rest, w | Begins(rest, StringItem(text, [])) && Begins(rest, w)
      ensures w == StringItem(text, [])
    {
      BeginsUnique(rest, w, StringItem(text, []));
    }
    assert forall v :: IsName(v, text) ==> v == StringItem(text, v.data);
  }

  lemma EntityFaultUnique(s: seq<byte>, text: bool, a: int, b: int)
    requires EntityMapFault(s, text, a) && EntityMapFault(s, text, b)
    ensures a == b
  {
    hide MapFault, IsMap, Faithful, Begins, Field;
    EntityFaithful(text);
    if !exists y :: IsEntityMap(y, text) && Begins(s, y) {
      MapFaultUnique(s, EntityRule(text), {ID}, EntityFaults(text), a, b);
    }
  }

  lemma AlgFaithful()
    ensures Faithful(AlgRule, {TYPE, ALG}, AlgFault)
  {
    hide Fits, Lookup, Begins, IsInt;
    IntItemIsInt();
  }

  lemma AlgItemFaithful()
    ensures FaithfulItem(IsAlg, AlgMapFault)
  {
    hide MapFault, IsMap, AlgRule, Begins, Faithful, Field;
    AlgFaithful();
    forall s, a, b | AlgMapFault(s, a) && AlgMapFault(s, b)
      ensures a == b
    {
      if !exists y :: IsAlgMap(y) && Begins(s, y) {
        MapFaultUnique(s, AlgRule, {TYPE, ALG}, AlgFault, a, b);
      }
    }
  }

  lemma AlgsFaultUnique(s: seq<byte>, a: int, b: int)
    requires AlgsFault(s, a) && AlgsFault(s, b)
    ensures a == b
  {
    hide ListFault, FaithfulItem, Head;
    if !NoArray(s) && !(Head(4, 0) <= s) {
      AlgItemFaithful();
      ListFaultUnique(s, IsAlg, AlgMapFault, a, b);
    }
  }

  lemma AlgsFaultExcludes(s: seq<byte>, x: Item, status: int)
    requires IsAlgs(x) && Begins(s, x)
    ensures !AlgsFault(s, status)
  {
    hide ListFault, FaithfulItem, Enc, Head, IsAlg;
    ArrayOpens(s, x);
    forall n: u64 | Head(4, n) <= s
      ensures n == |x.items|
    {
      HeadUnique(4, n, 4, |x.items|, s);
    }
    AlgItemFaithful();
    ListFaultExcludes(s, x, IsAlg, AlgMapFault, status);
  }

  lemma ValueFaultUnique(rest: seq<byte>, key: u64, a: int, b: int)
    requires ValueFault(rest, key, a) && ValueFault(rest, key, b)
    ensures a == b
  {
    hide DescsFault, MapFault, NothingFits, NoBytes, NoNumber, Begins, WrongHash, Faithful, EntityMapFault, AlgsFault;
    if key == 2 || key == 3 {
      EntityFaultUnique(rest, key == 2, a, b);
    } else if key == 4 {
      AlgsFaultUnique(rest, a, b);
    } else if key == 5 {
      DescsFaultUnique(rest, false, a, b);
    } else if key == 6 {
      AnythingFaithful();
      MapFaultUnique(rest, Anything, {}, AnythingFault, a, b);
    } else if key == 7 {
      FlagFaithful(RK, UV);
      MapFaultUnique(rest, FlagRule(RK, UV), {RK, UV}, FlagFaults(RK, UV), a, b);
    }
  }

  lemma ValueFaultExcludes(rest: seq<byte>, key: u64, status: int, w: Item)
    requires ValueFault(rest, key, status) && MemberOk(Uint(key), w)
    ensures !Begins(rest, w)
  {
    hide DescsFault, MapFault, Faithful, IsMap, IsDescList, IsAlgs, AlgsFault, Field, Fits, Enc, Wf;
    if Begins(rest, w) {
      OnlyItem(rest, w);
      if key == 4 {
        AlgsFaultExcludes(rest, w, status);
      } else if key == 5 {
        DescsFaultExcludes(rest, false, w, status);
      } else if key == 6 {
        AnythingFaithful();
        MapFaultExcludes(rest, w, Anything, {}, AnythingFault, status);
      } else if key == 7 {
        FlagFaithful(RK, UV);
        MapFaultExcludes(rest, w, FlagRule(RK, UV), {RK, UV}, FlagFaults(RK, UV), status);
      }
    }
  }

  lemma ValuesFaithful()
    ensures FaithfulMember(MemberOk, ValueFault)
  {
    Numbered();
    assert forall v :: !MemberOk(Uint(0), v);
    hide ValueFault, MemberOk, Begins, NumberKeys;
    forall rest, key, a, b | ValueFault(rest, key, a) && ValueFault(rest, key, b)
      ensures a == b
    {
      ValueFaultUnique(rest, key, a, b);
    }
    forall rest, key, a, w | ValueFault(rest, key, a) && MemberOk(Uint(key), w)
      ensures !Begins(rest, w)
    {
      ValueFaultExcludes(rest, key, a, w);
    }
  }

  /** For every byte string that is refused, the status is the one its bytes determine. */
  lemma RefusesOnce(data: seq<byte>, a: int, b: int)
    requires Refuses(data, a) && Refuses(data, b)
    ensures a == b
  {
    hide ValueFault, MemberOk, MembersFault, Enc, Obeys, Pairs, Field;
    if |data| <= MAX_BYTES && exists y :: IsMembers(y) && Enc(y) == data {
      forall x, y | IsMembers(x) && IsMembers(y) && Enc(x) == data && Enc(y) == data
        ensures x == y
      {
        BeginsUnique(data, x, y);
      }
    } else {
      ValuesFaithful();
      MembersFaultUnique(data, MemberOk, ValueFault, a, b);
    }
  }
}
