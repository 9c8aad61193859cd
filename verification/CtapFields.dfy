/** The members of a command map that both commands read: flags and lists of credential descriptors. */
module CtapFields {
  import opened Bytes
  import opened Bits
  import opened CborItem
  import opened CborKeys
  import opened CborReader
  import opened CtapMaps
  import opened CtapStatus

  const MAX_CREDENTIALS: int := 16

  const TYPE: Item := Text([0x74, 0x79, 0x70, 0x65])
  const ID: Item := Text([0x69, 0x64])
  const PUBLIC_KEY: Item := Text([0x70, 0x75, 0x62, 0x6c, 0x69, 0x63, 0x2d, 0x6b, 0x65, 0x79])

  // ---- flags

  const UP: Item := Text([0x75, 0x70])
  const UV: Item := Text([0x75, 0x76])
  const RK: Item := Text([0x72, 0x6b])

  /** Two of the keys carry booleans; any other member is skipped. */
  function FlagRule(a: Item, b: Item): Rule {
    (k: Item, v: Item) => k.Text? && if k == a || k == b then v.Bool? else Fits(v, 0)
  }

  predicate IsFlags(x: Item, a: Item, b: Item) {
    IsMap(x, FlagRule(a, b), {a, b})
  }

  predicate IsSet(x: Item, flag: Item) {
    Field(x, flag) == Some(Bool(true))
  }

  ghost predicate FlagFault(a: Item, b: Item, rest: seq<byte>, key: Item, ps: seq<Pair>, status: int) {
    if key != a && key != b then status == INVALID_CBOR && NothingFits(rest)
    else if Lookup(ps, key).Some? then status == INVALID_CBOR
    else status == UNEXPECTED_TYPE && forall v: bool :: !Begins(rest, Bool(v))
  }

  ghost function FlagFaults(a: Item, b: Item): Fault {
    (rest, key, ps, status) => FlagFault(a, b, rest, key, ps, status)
  }

  lemma FlagFaithful(a: Item, b: Item)
    ensures Faithful(FlagRule(a, b), {a, b}, FlagFaults(a, b))
  {
    hide Fits, Lookup, Begins;
  }

  /** Reads an option map with these two known flags. */
  method ReadFlags(r: Reader, a: Item, b: Item) returns (status: int, first: bool, second: bool, ghost x: Item)
    requires r.Valid() && a.Text? && b.Text? && a != b
    modifies r
    ensures r.Valid()
    ensures status == OK <==> !old(r.failed) && exists y :: IsFlags(y, a, b) && Begins(old(r.Rest()), y)
    ensures status == OK ==> !r.failed && IsFlags(x, a, b) && Begins(old(r.Rest()), x)
                             && r.offset == old(r.offset) + |Enc(x)|
                             && first == IsSet(x, a) && second == IsSet(x, b)
    ensures status != OK && !old(r.failed) ==> MapFault(old(r.Rest()), FlagRule(a, b), {a, b}, FlagFaults(a, b), status)
    ensures status in {OK, UNEXPECTED_TYPE, INVALID_CBOR}
  {
    hide Obeys, Flat, Pairs, EncAll, Enc, Lookup, Head, WalksTo;
    ghost var rule, once := FlagRule(a, b), {a, b};
    ghost var s := r.Rest();
    x := Bool(false);
    first, second := false, false;
    var had, pairs := OpenMap(r, rule, once);
    if !had {
      return UNEXPECTED_TYPE, false, false, x;
    }
    ghost var start, ps: seq<Pair> := r.offset, [];
    var haveFirst, haveSecond := false, false;
    assert Lookup(ps, a) == None && Lookup(ps, b) == None by { NothingIn(a); NothingIn(b); }
    for i := 0 to pairs
      invariant At(r, start, ps, rule, once) && |ps| == i
      invariant Lookup(ps, a) == (if haveFirst then Some(Bool(first)) else None)
      invariant Lookup(ps, b) == (if haveSecond then Some(Bool(second)) else None)
      invariant (!haveFirst ==> !first) && (!haveSecond ==> !second)
    {
      ghost var here := r.Rest();
      AtWalksTo(r, s, start, pairs, ps, rule, once);
      var ok, key := ReadKey(r, start, ps, pairs, rule, once);
      if !ok {
        return UNEXPECTED_TYPE, false, false, x;
      }
      ghost var v: Item;
      if Text(key) == a || Text(key) == b {
        var isFirst := Text(key) == a;
        if if isFirst then haveFirst else haveSecond {
          return INVALID_CBOR, false, false, x;
        }
        var value;
        ok, value := r.GetBool();
        if !ok {
          return UNEXPECTED_TYPE, false, false, x;
        }
        v := Bool(value);
        haveFirst, haveSecond := haveFirst || isFirst, haveSecond || !isFirst;
        if isFirst { first := value; } else { second := value; }
      } else {
        ok, v := r.Skip();
        if !ok {
          return INVALID_CBOR, false, false, x;
        }
      }
      TakePair(r, start, ps, Text(key), v, here, rule, once);
      ps := ps + [Pair(Text(key), v)];
    }
    WalkedMap(old(r.Rest()), ps, rule, once);
    x := Map(Flat(ps));
    status := OK;
  }

  // ---- credential descriptors

  datatype Desc = Desc(id: seq<byte>, publicKey: bool)

  /** GetAssertion takes an empty credential ID, MakeCredential does not. */
  function DescRule(emptyId: bool): Rule {
    (k: Item, v: Item) =>
      k.Text? && if k == TYPE then v.Text? else if k == ID then v.Bytes? && (emptyId || v.data != []) else Fits(v, 0)
  }

  predicate IsDescMap(x: Item, emptyId: bool) {
    IsMap(x, DescRule(emptyId), {TYPE, ID})
  }

  predicate IsDesc(x: Item, emptyId: bool) {
    IsDescMap(x, emptyId) && Field(x, TYPE).Some? && Field(x, ID).Some?
  }

  /** The credential a descriptor names. */
  function DescOf(x: Item): Desc {
    var id := match Field(x, ID) case Some(Bytes(d)) => d case _ => [];
    Desc(id, Field(x, TYPE) == Some(PUBLIC_KEY))
  }

  predicate IsDescList(x: Item, emptyId: bool) {
    x.Array? && |x.items| <= MAX_CREDENTIALS && forall y :: y in x.items ==> IsDesc(y, emptyId)
  }

  function DescsOf(xs: seq<Item>): (ds: seq<Desc>)
    ensures |ds| == |xs|
  {
    seq(|xs|, i requires 0 <= i < |xs| => DescOf(xs[i]))
  }

  ghost predicate DescFault(emptyId: bool, rest: seq<byte>, key: Item, ps: seq<Pair>, status: int) {
    if key != TYPE && key != ID then status == INVALID_CBOR && NothingFits(rest)
    else if Lookup(ps, key).Some? then status == INVALID_CBOR
    else if key == TYPE then status == UNEXPECTED_TYPE && NoText(rest)
    else if NoBytes(rest) then status == UNEXPECTED_TYPE
    else status == INVALID_PARAMETER && !emptyId && Begins(rest, Bytes([]))
  }

  ghost predicate NoBytes(s: seq<byte>) {
    forall d: seq<byte> :: !Begins(s, Bytes(d))
  }

  ghost function DescFaults(emptyId: bool): Fault {
    (rest, key, ps, status) => DescFault(emptyId, rest, key, ps, status)
  }

  /** The status of a descriptor that is refused. */
  ghost predicate DescMapFault(s: seq<byte>, emptyId: bool, status: int) {
    if exists y :: IsDescMap(y, emptyId) && Begins(s, y) then
      status == MISSING_PARAMETER && forall y :: !(IsDesc(y, emptyId) && Begins(s, y))
    else MapFault(s, DescRule(emptyId), {TYPE, ID}, DescFaults(emptyId), status)
  }

  lemma DescFaithful(emptyId: bool)
    ensures Faithful(DescRule(emptyId), {TYPE, ID}, DescFaults(emptyId))
  {
    hide Fits, Lookup, Enc;
    forall rest, w | Begins(rest, Bytes([])) && Begins(rest, w)
      ensures w == Bytes([])
    {
      BeginsUnique(rest, w, Bytes([]));
    }
  }

  function GoodDesc(emptyId: bool): Item -> bool {
    (y: Item) => IsDesc(y, emptyId)
  }

  ghost function DescItemFault(emptyId: bool): ItemFault {
    (s, status) => DescMapFault(s, emptyId, status)
  }

  lemma DescItemFaithful(emptyId: bool)
    ensures FaithfulItem(GoodDesc(emptyId), DescItemFault(emptyId))
  {
    hide MapFault, IsMap, DescRule, Begins, Faithful, Field;
    DescFaithful(emptyId);
    forall s, a, b | DescMapFault(s, emptyId, a) && DescMapFault(s, emptyId, b)
      ensures a == b
    {
      if !exists y :: IsDescMap(y, emptyId) && Begins(s, y) {
        MapFaultUnique(s, DescRule(emptyId), {TYPE, ID}, DescFaults(emptyId), a, b);
      }
    }
  }

  /** What was read of a descriptor so far. */
  datatype Partial = Partial(haveType: bool, haveId: bool, desc: Desc)

  ghost predicate SoFar(ps: seq<Pair>, p: Partial) {
    && (p.haveType <==> Lookup(ps, TYPE).Some?)
    && (p.desc.publicKey <==> Lookup(ps, TYPE) == Some(PUBLIC_KEY))
    && Lookup(ps, ID) == (if p.haveId then Some(Bytes(p.desc.id)) else None)
  }

  /** Reads the value that goes with a key of a descriptor. */
  method ReadDescValue(r: Reader, emptyId: bool, key: Item, p: Partial, ghost ps: seq<Pair>)
    returns (status: int, next: Partial, ghost v: Item)
    requires r.Valid() && !r.failed && key.Text? && SoFar(ps, p)
    modifies r
    ensures r.Valid()
    ensures status == OK <==> (key in {TYPE, ID} ==> Lookup(ps, key).None?)
                              && exists w :: DescRule(emptyId)(key, w) && Begins(old(r.Rest()), w)
    ensures status == OK ==> !r.failed && DescRule(emptyId)(key, v) && Begins(old(r.Rest()), v)
                             && r.offset == old(r.offset) + |Enc(v)| && SoFar(ps + [Pair(key, v)], next)
    ensures status != OK ==> DescFault(emptyId, old(r.Rest()), key, ps, status)
    ensures status in {OK, UNEXPECTED_TYPE, INVALID_CBOR, INVALID_PARAMETER}
  {
    hide Fits;
    next, v := p, Bool(false);
    ghost var here := r.Rest();
    var ok;
    if key == TYPE {
      if p.haveType {
        return INVALID_CBOR, p, v;
      }
      var text;
      ok, text := r.GetText();
      if !ok {
        return UNEXPECTED_TYPE, p, v;
      }
      v := Text(text);
      next := p.(haveType := true, desc := p.desc.(publicKey := Text(text) == PUBLIC_KEY));
    } else if key == ID {
      if p.haveId {
        return INVALID_CBOR, p, v;
      }
      var id;
      ok, id := r.GetBytes();
      if !ok {
        return UNEXPECTED_TYPE, p, v;
      }
      v := Bytes(id);
      OnlyItem(here, v);
      if !emptyId && id == [] {
        return INVALID_PARAMETER, p, v;
      }
      next := p.(haveId := true, desc := p.desc.(id := id));
    } else {
      ok, v := r.Skip();
      if !ok {
        return INVALID_CBOR, p, v;
      }
    }
    assert (ps + [Pair(key, v)])[..|ps|] == ps;
    status := OK;
  }

  lemma NothingSoFar(emptyId: bool)
    ensures TextKeys(DescRule(emptyId)) && SoFar([], Partial(false, false, Desc([], false)))
  {
  }

  lemma AllSoFar(ps: seq<Pair>, p: Partial, x: Item, emptyId: bool)
    requires SoFar(ps, p) && IsDescMap(x, emptyId) && Pairs(x.items) == ps
    ensures IsDesc(x, emptyId) <==> p.haveType && p.haveId
    ensures p.haveType && p.haveId ==> p.desc == DescOf(x)
  {
  }

  /** Reads one descriptor: its type and its ID, in any order and each once. */
  method ReadDesc(r: Reader, emptyId: bool) returns (status: int, d: Desc, ghost x: Item)
    requires r.Valid()
    modifies r
    ensures r.Valid()
    ensures status == OK <==> !old(r.failed) && exists y :: IsDesc(y, emptyId) && Begins(old(r.Rest()), y)
    ensures status == OK ==> !r.failed && IsDesc(x, emptyId) && Begins(old(r.Rest()), x) && d == DescOf(x)
                             && r.offset == old(r.offset) + |Enc(x)|
    ensures status != OK && !old(r.failed) ==> DescMapFault(old(r.Rest()), emptyId, status)
    ensures status in {OK, UNEXPECTED_TYPE, INVALID_CBOR, INVALID_PARAMETER, MISSING_PARAMETER}
  {
    hide Obeys, Flat, Pairs, EncAll, Enc, Lookup, Head, Fits, WalksTo;
    hide DescFault, DescRule, MapFault, NoText, SoFar, DescOf, Field;
    ghost var rule, once := DescRule(emptyId), {TYPE, ID};
    ghost var s := r.Rest();
    x, d := Bool(false), Desc([], false);
    var had, pairs := OpenMap(r, rule, once);
    if !had {
      NoMapIsFault(s, rule, once, DescFaults(emptyId));
      return UNEXPECTED_TYPE, d, x;
    }
    ghost var start, ps: seq<Pair> := r.offset, [];
    var p := Partial(false, false, d);
    NothingSoFar(emptyId);
    for i := 0 to pairs
      invariant At(r, start, ps, rule, once) && |ps| == i
      invariant SoFar(ps, p)
    {
      ghost var here := r.Rest();
      AtWalksTo(r, s, start, pairs, ps, rule, once);
      var ok, key := ReadKey(r, start, ps, pairs, rule, once);
      if !ok {
        KeyIsFault(s, pairs, ps, here, rule, once, DescFaults(emptyId));
        return UNEXPECTED_TYPE, d, x;
      }
      var one;
      ghost var v: Item;
      one, p, v := ReadDescValue(r, emptyId, Text(key), p, ps);
      if one != OK {
        ValueIsFault(s, pairs, ps, here, key, rule, once, DescFaults(emptyId), one);
        return one, d, x;
      }
      TakePair(r, start, ps, Text(key), v, here, rule, once);
      ps := ps + [Pair(Text(key), v)];
    }
    WalkedMap(s, ps, rule, once);
    x := Map(Flat(ps));
    OnlyItem(s, x);
    AllSoFar(ps, p, x, emptyId);
    d := p.desc;
    status := if p.haveType && p.haveId then OK else MISSING_PARAMETER;
  }

  ghost predicate TooMany(s: seq<byte>) {
    exists n: u64 :: MAX_CREDENTIALS < n <= MAX_ITEMS && Head(4, n) <= s
  }

  /** The status of a list that is refused is that of the first thing wrong with it. */
  ghost predicate DescsFault(s: seq<byte>, emptyId: bool, status: int) {
    if NoArray(s) then status == UNEXPECTED_TYPE
    else if TooMany(s) then status == LIMIT_EXCEEDED
    else ListFault(s, GoodDesc(emptyId), DescItemFault(emptyId), status)
  }

  lemma DescsFaultUnique(s: seq<byte>, emptyId: bool, a: int, b: int)
    requires DescsFault(s, emptyId, a) && DescsFault(s, emptyId, b)
    ensures a == b
  {
    hide ListFault, FaithfulItem;
    if !NoArray(s) && !TooMany(s) {
      DescItemFaithful(emptyId);
      ListFaultUnique(s, GoodDesc(emptyId), DescItemFault(emptyId), a, b);
    }
  }

  lemma DescsFaultExcludes(s: seq<byte>, emptyId: bool, x: Item, status: int)
    requires IsDescList(x, emptyId) && Begins(s, x)
    ensures !DescsFault(s, emptyId, status)
  {
    hide ListFault, FaithfulItem, Enc, Head, IsDesc;
    ArrayOpens(s, x);
    forall n: u64 | Head(4, n) <= s
      ensures n == |x.items|
    {
      HeadUnique(4, n, 4, |x.items|, s);
    }
    DescItemFaithful(emptyId);
    ListFaultExcludes(s, x, GoodDesc(emptyId), DescItemFault(emptyId), status);
  }

  /** Reads an allow or exclude list, at most sixteen descriptors. */
  method ReadDescriptors(r: Reader, emptyId: bool) returns (status: int, ds: seq<Desc>, ghost x: Item)
    requires r.Valid()
    modifies r
    ensures r.Valid()
    ensures status == OK <==> !old(r.failed) && exists y :: IsDescList(y, emptyId) && Begins(old(r.Rest()), y)
    ensures status == OK ==> !r.failed && IsDescList(x, emptyId) && Begins(old(r.Rest()), x)
                             && ds == DescsOf(x.items) && r.offset == old(r.offset) + |Enc(x)|
    ensures status != OK && !old(r.failed) ==> DescsFault(old(r.Rest()), emptyId, status)
    ensures status in {OK, UNEXPECTED_TYPE, INVALID_CBOR, INVALID_PARAMETER, MISSING_PARAMETER, LIMIT_EXCEEDED}
  {
    hide Obeys, Flat, Pairs, EncAll, Enc, Lookup, Head, DescOf, IsDesc, ItemsTo, DescMapFault;
    x := Bool(false);
    ds := [];
    ghost var s := r.Rest();
    var had, count := r.GetArray();
    if !had {
      forall y | !old(r.failed) && IsDescList(y, emptyId) && Begins(s, y)
        ensures false
      {
        ArrayOpens(s, y);
      }
      return UNEXPECTED_TYPE, ds, x;
    }
    ArrayOpened(s, count);
    if count > MAX_CREDENTIALS {
      return LIMIT_EXCEEDED, ds, x;
    }
    ghost var good := GoodDesc(emptyId);
    ghost var start, xs: seq<Item> := r.offset, [];
    assert s[|Head(4, count)|..] == r.data[start..];
    NoItems(r.data[start..]);
    for i := 0 to count
      invariant AtItems(r, start, xs, good) && |xs| == i
      invariant ds == DescsOf(xs)
    {
      var one, d;
      ghost var y: Item;
      assert r.Rest() == r.data[start..][|EncAll(xs)|..];
      AtItemsTo(r, s, start, count, xs, good);
      one, d, y := ReadDesc(r, emptyId);
      if one != OK {
        forall y | IsDescList(y, emptyId) && Begins(s, y)
          ensures false
        {
          NextItem(xs, y.items, r.data[start..]);
        }
        return one, ds, x;
      }
      TakeItem(r, start, xs, y, good);
      xs := xs + [y];
      ds := ds + [d];
    }
    x := Array(xs);
    WalkedArray(s, xs);
    status := OK;
  }

  // ---- members with integer keys

  /** The keys a request may use once each. */
  function Known(): set<Item> {
    set k | 1 <= k <= 32 :: Uint(k)
  }

  function ItemsAt(ps: seq<Pair>, key: Item): seq<Item> {
    match Lookup(ps, key) case Some(Array(xs)) => xs case _ => []
  }

  /** What can be wrong with the value of a member. */
  type MemberFault = (seq<byte>, u64, int) -> bool

  predicate Refused(key: u64, ps: seq<Pair>) {
    key == 0 || (key <= 32 && Lookup(ps, Uint(key)).Some?)
  }

  ghost predicate FaultAt(here: seq<byte>, ps: seq<Pair>, fault: MemberFault, status: int) {
    if NoNumber(here) then status == UNEXPECTED_TYPE
    else exists key: u64 :: Begins(here, Uint(key))
                            && if Refused(key, ps) then status == INVALID_CBOR else fault(here[|Enc(Uint(key))|..], key, status)
  }

  /**
    The status of a request that is refused: it is no map, something follows the map, or it is the status of
    the first thing wrong with a member.
  */
  ghost predicate MembersFault(s: seq<byte>, rule: Rule, once: set<Item>, fault: MemberFault, status: int) {
    if |s| > MAX_BYTES || NoMap(s) then status == INVALID_CBOR
    else if exists y :: IsMap(y, rule, once) && Begins(s, y) then status == INVALID_CBOR
    else exists pairs: nat, ps: seq<Pair>, here: seq<byte> ::
           WalksTo(s, pairs, ps, here, rule, once) && FaultAt(here, ps, fault, status)
  }

  /** A fault of a member names one status, and is one. */
  ghost predicate FaithfulMember(rule: Rule, fault: MemberFault) {
    && NumberKeys(rule) && (forall v :: !rule(Uint(0), v))
    && (forall rest, key, a, b :: fault(rest, key, a) && fault(rest, key, b) ==> a == b)
    && (forall rest, key, a, w :: fault(rest, key, a) && rule(Uint(key), w) ==> !Begins(rest, w))
  }

  lemma FaultEndsMembers(s: seq<byte>, pairs: nat, ps: seq<Pair>, here: seq<byte>, qs: seq<Pair>,
                         rule: Rule, fault: MemberFault, status: int)
    requires FaithfulMember(rule, fault)
    requires WalksTo(s, pairs, ps, here, rule, Known()) && FaultAt(here, ps, fault, status)
    requires Holds(qs, |qs|, rule, Known(), s[|Head(5, pairs)|..])
    ensures |qs| <= |ps|
  {
    hide Obeys, Flat, Pairs, EncAll, Enc, Lookup, Head;
    if |qs| > |ps| {
      NextPair(ps, qs, rule, Known(), s[|Head(5, pairs)|..]);
      var next := qs[|ps|];
      IsNumberKey(rule, next.key, next.value);
      assert Begins(here, Uint(next.key.value));
      var key: u64 :| Begins(here, Uint(key))
                      && if Refused(key, ps) then status == INVALID_CBOR else fault(here[|Enc(Uint(key))|..], key, status);
      BeginsUnique(here, Uint(key), next.key);
    }
  }

  lemma FaultAtUnique(here: seq<byte>, ps: seq<Pair>, rule: Rule, fault: MemberFault, a: int, b: int)
    requires FaithfulMember(rule, fault) && FaultAt(here, ps, fault, a) && FaultAt(here, ps, fault, b)
    ensures a == b
  {
    hide Enc, Lookup;
    if !NoNumber(here) {
      var j: u64 :| Begins(here, Uint(j))
                    && if Refused(j, ps) then a == INVALID_CBOR else fault(here[|Enc(Uint(j))|..], j, a);
      var k: u64 :| Begins(here, Uint(k))
                    && if Refused(k, ps) then b == INVALID_CBOR else fault(here[|Enc(Uint(k))|..], k, b);
      BeginsUnique(here, Uint(j), Uint(k));
    }
  }

  /** The status a refused request has is the only one. */
  lemma MembersFaultUnique(s: seq<byte>, rule: Rule, fault: MemberFault, a: int, b: int)
    requires FaithfulMember(rule, fault)
    requires MembersFault(s, rule, Known(), fault, a) && MembersFault(s, rule, Known(), fault, b)
    ensures a == b
  {
    hide Obeys, Flat, Pairs, EncAll, Enc, Lookup, Head, FaultAt, Holds, IsMap, Known;
    if |s| <= MAX_BYTES && !NoMap(s) && !exists y :: IsMap(y, rule, Known()) && Begins(s, y) {
      var n: nat, ps, here :| WalksTo(s, n, ps, here, rule, Known()) && FaultAt(here, ps, fault, a);
      var m: nat, qs, there :| WalksTo(s, m, qs, there, rule, Known()) && FaultAt(there, qs, fault, b);
      HeadUnique(5, n, 5, m, s);
      FaultEndsMembers(s, n, ps, here, qs, rule, fault, a);
      FaultEndsMembers(s, n, qs, there, ps, rule, fault, b);
      SameWalk(ps, qs, |ps|, rule, Known(), s[|Head(5, n)|..]);
      FaultAtUnique(here, ps, rule, fault, a, b);
    }
  }

  lemma NoMembers(s: seq<byte>, rule: Rule, once: set<Item>, fault: MemberFault)
    requires |s| > MAX_BYTES || NoMap(s)
    ensures MembersFault(s, rule, once, fault, INVALID_CBOR)
  {
  }

  lemma MoreThanMembers(s: seq<byte>, y: Item, rule: Rule, once: set<Item>, fault: MemberFault)
    requires IsMap(y, rule, once) && Begins(s, y)
    ensures MembersFault(s, rule, once, fault, INVALID_CBOR)
  {
  }

  lemma FaultIsMembersFault(s: seq<byte>, pairs: nat, ps: seq<Pair>, here: seq<byte>,
                            rule: Rule, once: set<Item>, fault: MemberFault, status: int)
    requires |s| <= MAX_BYTES && !NoMap(s) && WalksTo(s, pairs, ps, here, rule, once)
    requires FaultAt(here, ps, fault, status)
    requires !exists y :: IsMap(y, rule, once) && Begins(s, y)
    ensures MembersFault(s, rule, once, fault, status)
  {
  }

  lemma LargeKey(key: u64, ps: seq<Pair>)
    requires key > 32
    ensures !Refused(key, ps)
  {
  }

  lemma NoNumberFault(here: seq<byte>, ps: seq<Pair>, fault: MemberFault)
    requires NoNumber(here)
    ensures FaultAt(here, ps, fault, UNEXPECTED_TYPE)
  {
  }

  lemma KeyFaultAt(here: seq<byte>, ps: seq<Pair>, fault: MemberFault, key: u64, status: int)
    requires Begins(here, Uint(key))
    requires if Refused(key, ps) then status == INVALID_CBOR else fault(here[|Enc(Uint(key))|..], key, status)
    ensures FaultAt(here, ps, fault, status)
  {
  }

  /** The mask of keys agrees with the members that were read. */
  ghost predicate Tracks(seen: u32, ps: seq<Pair>) {
    forall k: u64 | 1 <= k <= 32 :: Has(seen, k) <==> Lookup(ps, Uint(k)).Some?
  }

  lemma NothingRead()
    ensures Tracks(0, [])
  {
    forall k: u64 | 1 <= k <= 32
      ensures !Has(0, k)
    {
      BitOfZero(k - 1);
    }
  }

  lemma StillTracks(seen: u32, next: u32, ps: seq<Pair>, p: Pair)
    requires Tracks(seen, ps) && p.key.Uint?
    requires p.key.value > 32 ==> next == seen
    requires p.key.value <= 32 ==> forall k :: Has(next, k) <==> Has(seen, k) || k == p.key.value
    ensures Tracks(next, ps + [p])
  {
    assert (ps + [p])[..|ps|] == ps;
  }
}
