/** The request of authenticatorGetAssertion (section 6.2 of CTAP 2.1). */
module AssertionRequest {
  import opened Bytes
  import opened CborItem
  import opened CborReader
  import opened CborKeys
  import opened CtapFields
  import opened CtapMaps
  import opened CtapStatus
  import B = Bits

  datatype Request = Request(rpId: seq<byte>, clientHash: seq<byte>, allow: seq<Desc>, unsupported: bool)

  // ---- what a request is

  predicate MemberOk(key: Item, v: Item) {
    key.Uint? && key.value != 0
    && if key.value == 1 then v.Text? && v.data != []
       else if key.value == 2 then v.Bytes? && |v.data| == 32
       else if key.value == 3 then IsDescList(v, true)
       else if key.value == 4 then IsMap(v, Anything, {})
       else if key.value == 5 then IsFlags(v, UP, UV)
       else if key.value == 6 then v.Bytes?
       else if key.value == 7 then v.Uint?
       else Fits(v, 0)
  }

  /** A map whose known keys occur once and have values of their kinds. */
  predicate IsMembers(x: Item) {
    IsMap(x, MemberOk, Known())
  }

  /** With the relying party and the client data hash there. */
  predicate IsRequest(x: Item) {
    IsMembers(x) && Field(x, Uint(1)).Some? && Field(x, Uint(2)).Some?
  }

  /** Neither user verification nor a PIN is asked for. */
  predicate IsSupported(x: Item) {
    x.Map? && !Unsupported(Pairs(x.items))
  }

  predicate Unsupported(ps: seq<Pair>) {
    || (Lookup(ps, Uint(5)).Some? && IsSet(Lookup(ps, Uint(5)).value, UV))
    || Lookup(ps, Uint(6)).Some? || Lookup(ps, Uint(7)).Some?
  }

  function StringAt(ps: seq<Pair>, key: Item): seq<byte> {
    match Lookup(ps, key) case Some(Bytes(d)) => d case Some(Text(d)) => d case _ => []
  }

  /** The request a map of members stands for. */
  function Meaning(ps: seq<Pair>): Request {
    Request(StringAt(ps, Uint(1)), StringAt(ps, Uint(2)), DescsOf(ItemsAt(ps, Uint(3))), Unsupported(ps))
  }

  // ---- reading it

  /** What a member changes in the request that is being filled in. */
  function Entered(q: Request, key: u64, v: Item): Request
    requires MemberOk(Uint(key), v)
  {
    if key == 1 then q.(rpId := v.data)
    else if key == 2 then q.(clientHash := v.data)
    else if key == 3 then q.(allow := DescsOf(v.items))
    else if key == 5 then q.(unsupported := q.unsupported || IsSet(v, UV))
    else if key == 6 || key == 7 then q.(unsupported := true)
    else q
  }

  ghost predicate WrongHash(s: seq<byte>) {
    exists d: seq<byte> :: |d| != 32 && Begins(s, Bytes(d))
  }

  /** The status of a member that is refused for its value. */
  ghost predicate ValueFault(rest: seq<byte>, key: u64, status: int) {
    if key == 1 then
      if NoText(rest) then status == UNEXPECTED_TYPE else status == INVALID_PARAMETER && Begins(rest, Text([]))
    else if key == 2 then
      if NoBytes(rest) then status == UNEXPECTED_TYPE else status == INVALID_PARAMETER && WrongHash(rest)
    else if key == 3 then DescsFault(rest, true, status)
    else if key == 4 then MapFault(rest, Anything, {}, AnythingFault, status)
    else if key == 5 then MapFault(rest, FlagRule(UP, UV), {UP, UV}, FlagFaults(UP, UV), status)
    else if key == 6 then status == UNEXPECTED_TYPE && NoBytes(rest)
    else if key == 7 then status == UNEXPECTED_TYPE && NoNumber(rest)
    else status == INVALID_CBOR && NothingFits(rest)
  }

  /** Reads the value of one member. */
  method ReadMember(r: Reader, key: u64, q: Request) returns (status: int, next: Request, ghost v: Item)
    requires r.Valid() && !r.failed && key != 0
    modifies r
    ensures r.Valid()
    ensures status == OK <==> exists w :: MemberOk(Uint(key), w) && Begins(old(r.Rest()), w)
    ensures status == OK ==> !r.failed && MemberOk(Uint(key), v) && Begins(old(r.Rest()), v)
                             && r.offset == old(r.offset) + |Enc(v)| && next == Entered(q, key, v)
    ensures status != OK ==> ValueFault(old(r.Rest()), key, status)
    ensures status in {OK, INVALID_PARAMETER, UNEXPECTED_TYPE, INVALID_CBOR, MISSING_PARAMETER, LIMIT_EXCEEDED}
  {
    hide IsMap, IsDescList, DescsOf, Enc, IsSet;
    next, v := q, Bool(false);
    ghost var here := r.Rest();
    var ok := true;
    if key == 1 {
      var rpId;
      ok, rpId := r.GetText();
      if !ok {
        return UNEXPECTED_TYPE, q, v;
      }
      v := Text(rpId);
      if rpId == [] {
        OnlyItem(here, v);
        return INVALID_PARAMETER, q, v;
      }
      next := q.(rpId := rpId);
    } else if key == 2 {
      var hash;
      ok, hash := r.GetBytes();
      if !ok {
        return UNEXPECTED_TYPE, q, v;
      }
      v := Bytes(hash);
      if |hash| != 32 {
        OnlyItem(here, v);
        return INVALID_PARAMETER, q, v;
      }
      next := q.(clientHash := hash);
    } else if key == 3 {
      var one, ds;
      one, ds, v := ReadDescriptors(r, true);
      if one != OK {
        return one, q, v;
      }
      next := q.(allow := ds);
    } else if key == 4 {
      var one;
      one, v := ReadIgnoredMap(r);
      if one != OK {
        return one, q, v;
      }
    } else if key == 5 {
      var one, up, uv;
      one, up, uv, v := ReadFlags(r, UP, UV);
      if one != OK {
        return one, q, v;
      }
      next := q.(unsupported := q.unsupported || uv);
    } else if key == 6 {
      var pin;
      ok, pin := r.GetBytes();
      if !ok {
        return UNEXPECTED_TYPE, q, v;
      }
      v := Bytes(pin);
      next := q.(unsupported := true);
    } else if key == 7 {
      var protocol;
      ok, protocol := r.GetUint();
      if !ok {
        return UNEXPECTED_TYPE, q, v;
      }
      v := Uint(protocol);
      next := q.(unsupported := true);
    } else {
      ok, v := r.Skip();
      if !ok {
        return INVALID_CBOR, q, v;
      }
    }
    status := OK;
  }

  /** Reads one member: a key that may still be used, and its value. */
  method ReadPair(r: Reader, ghost start: nat, ghost ps: seq<Pair>, ghost pairs: nat, seen: u32, q: Request)
    returns (status: int, next: u32, after: Request, ghost p: Pair)
    requires At(r, start, ps, MemberOk, Known()) && |ps| < pairs && NumberKeys(MemberOk)
    requires Tracks(seen, ps) && q == Meaning(ps)
    modifies r
    ensures r.Valid()
    ensures status == OK ==> At(r, start, ps + [p], MemberOk, Known())
                             && Tracks(next, ps + [p]) && after == Meaning(ps + [p])
    ensures status != OK ==> FaultAt(old(r.Rest()), ps, ValueFault, status)
                             && forall qs :: !Holds(qs, pairs, MemberOk, Known(), r.data[start..])
    ensures status in {OK, INVALID_PARAMETER, UNEXPECTED_TYPE, INVALID_CBOR, MISSING_PARAMETER, LIMIT_EXCEEDED}
  {
    hide Obeys, Flat, Pairs, EncAll, Enc, Lookup, Head, MemberOk, Meaning, Entered, Tracks, ValueFault, FaultAt, Refused;
    ghost var rule, once, here := MemberOk, Known(), r.Rest();
    next, after, p := seen, q, Pair(Bool(false), Bool(false));
    var ok, key := ReadNumber(r, start, ps, pairs, rule, once);
    if !ok {
      NoNumberFault(here, ps, ValueFault);
      return UNEXPECTED_TYPE, next, after, p;
    }
    if key <= 32 {
      MayEnter(key, seen, ps);
      ok, next := KnownKeyOnce(seen, key);
      if !ok {
        KeyFaultAt(here, ps, ValueFault, key, INVALID_CBOR);
        return INVALID_CBOR, next, after, p;
      }
    } else {
      LargeKey(key, ps);
    }
    ghost var v: Item;
    status, after, v := ReadMember(r, key, q);
    if status != OK {
      KeyFaultAt(here, ps, ValueFault, key, status);
      return status, next, after, p;
    }
    p := Pair(Uint(key), v);
    TakePair(r, start, ps, Uint(key), v, here, rule, once);
    Enters(ps, key, v);
    StillTracks(seen, next, ps, p);
  }

  /** Reads all members, which must fill the request exactly. */
  method ReadMembers(data: seq<byte>) returns (status: int, q: Request, seen: u32, ghost x: Item)
    ensures status == OK <==> |data| <= MAX_BYTES && exists y :: IsMembers(y) && Enc(y) == data
    ensures status == OK ==> IsMembers(x) && Enc(x) == data && q == Meaning(Pairs(x.items)) && Tracks(seen, Pairs(x.items))
    ensures status != OK ==> MembersFault(data, MemberOk, Known(), ValueFault, status)
    ensures status in {OK, INVALID_PARAMETER, UNEXPECTED_TYPE, INVALID_CBOR, MISSING_PARAMETER, LIMIT_EXCEEDED}
  {
    hide Obeys, Flat, Pairs, EncAll, Enc, Lookup, Head, MemberOk, Meaning, Entered, Tracks;
    hide WalksTo, ValueFault, FaultAt, Refused, NoMap, MembersFault;
    ghost var rule, once := MemberOk, Known();
    q, x, seen := Request([], [], [], false), Bool(false), 0;
    var r := new Reader(data);
    assert r.Rest() == data;
    var had, pairs := OpenMap(r, rule, once);
    if !had {
      NoMembers(data, rule, once, ValueFault);
      return INVALID_CBOR, q, seen, x;
    }
    ghost var start, ps: seq<Pair> := r.offset, [];
    NothingRead();
    NothingMeant();
    Numbered();
    for i := 0 to pairs
      invariant At(r, start, ps, rule, once) && |ps| == i
      invariant Tracks(seen, ps) && q == Meaning(ps)
    {
      ghost var here := r.Rest();
      AtWalksTo(r, data, start, pairs, ps, rule, once);
      ghost var p: Pair;
      status, seen, q, p := ReadPair(r, start, ps, pairs, seen, q);
      if status != OK {
        FaultIsMembersFault(data, pairs, ps, here, rule, once, ValueFault, status);
        return status, q, seen, x;
      }
      ps := ps + [p];
    }
    WalkedMap(data, ps, rule, once);
    x := Map(Flat(ps));
    forall y | IsMembers(y) && Enc(y) == data
      ensures y == x
    {
      BeginsUnique(data, x, y);
    }
    if !r.Done() {
      MoreThanMembers(data, x, rule, once, ValueFault);
      return INVALID_CBOR, q, seen, x;
    }
    assert Enc(x) == data[..|data|];
    status := OK;
  }

  /** The status of a request that is refused: of what is missing or unsupported, or of the first thing wrong. */
  ghost predicate Refuses(data: seq<byte>, status: int) {
    if |data| <= MAX_BYTES && exists y :: IsMembers(y) && Enc(y) == data then
      exists y :: IsMembers(y) && Enc(y) == data && status == if !IsRequest(y) then MISSING_PARAMETER else UNSUPPORTED_OPTION
    else MembersFault(data, MemberOk, Known(), ValueFault, status)
  }

  /** Reads a whole request. */
  method ReadRequest(data: seq<byte>) returns (status: int, q: Request, ghost x: Item)
    ensures status == OK <==> |data| <= MAX_BYTES && exists y :: IsRequest(y) && IsSupported(y) && Enc(y) == data
    ensures status == UNSUPPORTED_OPTION <==>
            |data| <= MAX_BYTES && exists y :: IsRequest(y) && !IsSupported(y) && Enc(y) == data
    ensures status != OK ==> Refuses(data, status)
    ensures status == OK ==> IsRequest(x) && IsSupported(x) && Enc(x) == data && q == Meaning(Pairs(x.items))
    ensures status in {OK, INVALID_PARAMETER, UNEXPECTED_TYPE, INVALID_CBOR, MISSING_PARAMETER, LIMIT_EXCEEDED,
                       UNSUPPORTED_OPTION}
  {
    hide Obeys, Enc, Lookup, Unsupported, Pairs, MemberOk, MembersFault;
    var seen;
    status, q, seen, x := ReadMembers(data);
    if status != OK {
      return status, q, x;
    }
    forall y | IsMembers(y) && Enc(y) == data
      ensures y == x
    {
      BeginsUnique(data, x, y);
    }
    SeenBoth(seen);
    if B.And(seen, 3) != 3 {
      return MISSING_PARAMETER, q, x;
    }
    status := if q.unsupported then UNSUPPORTED_OPTION else OK;
  }

  lemma HashLength(x: Item)
    requires IsRequest(x)
    ensures |Meaning(Pairs(x.items)).clientHash| == 32
  {
    LookupObeys(Pairs(x.items), MemberOk, Known(), Uint(2));
  }

  lemma IsRequestIsWf(x: Item)
    requires IsRequest(x)
    ensures x.Map? && Wf(x)
  {
  }

  /** A key below 33 may be entered exactly when it is not 0 and the mask does not have it. */
  lemma MayEnter(key: u64, seen: u32, ps: seq<Pair>)
    requires key <= 32 && Tracks(seen, ps)
    ensures key == 0 ==> forall v :: !MemberOk(Uint(key), v)
    ensures Refused(key, ps) <==> key == 0 || Has(seen, key)
    ensures key != 0 ==> Uint(key) in Known() && (Has(seen, key) <==> Lookup(ps, Uint(key)).Some?)
  {
  }

  /** Entering a member that is not a repetition is what adding it to the map means. */
  lemma Enters(ps: seq<Pair>, key: u64, v: Item)
    requires MemberOk(Uint(key), v) && (key <= 32 ==> Lookup(ps, Uint(key)).None?)
    ensures Meaning(ps + [Pair(Uint(key), v)]) == Entered(Meaning(ps), key, v)
  {
    assert (ps + [Pair(Uint(key), v)])[..|ps|] == ps;
  }

  lemma Numbered()
    ensures NumberKeys(MemberOk)
  {
  }

  lemma NothingMeant()
    ensures Meaning([]) == Request([], [], [], false)
  {
  }

  lemma SeenBoth(seen: u32)
    ensures B.And(seen, 3) == 3 <==> Has(seen, 1) && Has(seen, 2)
  {
    MaskTest(seen, 2);
    assert B.Shifted(2) == 4;
    assert LowBits(seen, 2) <==> B.Bit(seen, 0) && B.Bit(seen, 1);
  }

  /** Every allowed credential ID is a stretch of the request's own bytes. */
  lemma AllowedIdOccurs(x: Item, k: nat)
    requires IsRequest(x) && k < |Meaning(Pairs(x.items)).allow|
    ensures Occurs(Meaning(Pairs(x.items)).allow[k].id, Enc(x))
  {
    hide Enc, Obeys, Pairs, Lookup;
    var list := Field(x, Uint(3)).value;
    MemberIsOk(Pairs(x.items), Uint(3));
    FieldOccurs(x, Uint(3));
    var d := list.items[k];
    MemberOccurs(list.items, d);
    BodyOccurs(list);
    IdOccurs(d);
    OccursWithin(Enc(d), EncAll(list.items), Enc(list));
    OccursWithin(Enc(d), Enc(list), Enc(x));
    OccursWithin(DescOf(d).id, Enc(d), Enc(x));
  }

  lemma IdOccurs(d: Item)
    requires IsDesc(d, true) && Wf(d)
    ensures Occurs(DescOf(d).id, Enc(d))
  {
    hide Enc, Obeys, Pairs, Lookup;
    LookupObeys(Pairs(d.items), DescRule(true), {TYPE, ID}, ID);
    FieldOccurs(d, ID);
    var v := Field(d, ID).value;
    BodyOccurs(v);
    OccursWithin(Body(v), Enc(v), Enc(d));
  }

  lemma MemberIsOk(ps: seq<Pair>, key: Item)
    requires Obeys(ps, MemberOk, Known()) && Lookup(ps, key).Some?
    ensures MemberOk(key, Lookup(ps, key).value)
  {
    LookupObeys(ps, MemberOk, Known(), key);
  }

  // ---- the status of a refusal is determined

  lemma ValueFaultUnique(rest: seq<byte>, key: u64, a: int, b: int)
    requires ValueFault(rest, key, a) && ValueFault(rest, key, b)
    ensures a == b
  {
    hide DescsFault, MapFault, NothingFits, NoText, NoBytes, NoNumber, Begins, WrongHash, Faithful;
    if key == 3 {
      DescsFaultUnique(rest, true, a, b);
    } else if key == 4 {
      AnythingFaithful();
      MapFaultUnique(rest, Anything, {}, AnythingFault, a, b);
    } else if key == 5 {
      FlagFaithful(UP, UV);
      MapFaultUnique(rest, FlagRule(UP, UV), {UP, UV}, FlagFaults(UP, UV), a, b);
    }
  }

  lemma ValueFaultExcludes(rest: seq<byte>, key: u64, status: int, w: Item)
    requires ValueFault(rest, key, status) && MemberOk(Uint(key), w)
    ensures !Begins(rest, w)
  {
    hide DescsFault, MapFault, Faithful, IsMap, IsDescList, Fits, Enc, Wf;
    if Begins(rest, w) {
      OnlyItem(rest, w);
      if key == 3 {
        DescsFaultExcludes(rest, true, w, status);
      } else if key == 4 {
        AnythingFaithful();
        MapFaultExcludes(rest, w, Anything, {}, AnythingFault, status);
      } else if key == 5 {
        FlagFaithful(UP, UV);
        MapFaultExcludes(rest, w, FlagRule(UP, UV), {UP, UV}, FlagFaults(UP, UV), status);
      }
    }
  }

  /** For every byte string that is refused, the status is the one its bytes determine. */
  lemma RefusesOnce(data: seq<byte>, a: int, b: int)
    requires Refuses(data, a) && Refuses(data, b)
    ensures a == b
  {
    hide ValueFault, MemberOk, MembersFault, Enc, Obeys, Pairs, Field;
    if |data| <= MAX_BYTES && exists y :: IsMembers(y) && Enc(y) == data {
      forall x, y | IsMembers(x) && IsMembers(y) && Enc(x) == data && Enc(y) == data
        ensures x == y
      {
        BeginsUnique(data, x, y);
      }
    } else {
      ValuesFaithful();
      MembersFaultUnique(data, MemberOk, ValueFault, a, b);
    }
  }

  lemma ValuesFaithful()
    ensures FaithfulMember(MemberOk, ValueFault)
  {
    Numbered();
    assert forall v :: !MemberOk(Uint(0), v);
    hide ValueFault, MemberOk, Begins, NumberKeys;
    forall rest, key, a, b | ValueFault(rest, key, a) && ValueFault(rest, key, b)
      ensures a == b
    {
      ValueFaultUnique(rest, key, a, b);
    }
    forall rest, key, a, w | ValueFault(rest, key, a) && MemberOk(Uint(key), w)
      ensures !Begins(rest, w)
    {
      ValueFaultExcludes(rest, key, a, w);
    }
  }
}
