/**
  The status of a request as a function of the items it is made of: what the parsers answer to every well-formed
  item, told without the bytes they read it from.
*/
module RequestStatus {
  import opened Bytes
  import opened CborItem
  import opened CborReader
  import opened CtapFields
  import opened CtapMaps
  import opened CtapStatus
  import A = AssertionRequest
  import C = CredentialRequest

  // ---- maps with text keys

  /** The status of a value under a key, 0 if it is what the key demands. */
  type Values = (Item, Item) -> int

  predicate Repeated(ps: seq<Pair>, i: nat)
    requires i < |ps|
  {
    exists j :: 0 <= j < i && ps[j].key == ps[i].key
  }

  /** The status of the first pair, from `i` on, that is not as it should be. */
  function FirstWrong(ps: seq<Pair>, once: set<Item>, values: Values, i: nat): int
    requires i <= |ps|
    decreases |ps| - i
  {
    if i == |ps| then 0
    else if !ps[i].key.Text? then 0x11
    else if ps[i].key in once && Repeated(ps, i) then 0x12
    else if values(ps[i].key, ps[i].value) != 0 then values(ps[i].key, ps[i].value)
    else FirstWrong(ps, once, values, i + 1)
  }

  function MapStatus(x: Item, once: set<Item>, values: Values): int {
    if x.Map? then FirstWrong(Pairs(x.items), once, values, 0) else 0x11
  }

  /** Of the value `v` under `k`, behind the pairs `ps`, the status function says what the description by bytes says. */
  ghost predicate AgreeAt(rule: Rule, once: set<Item>, fault: Fault, values: Values, rest: seq<byte>, k: Item, v: Item, ps: seq<Pair>) {
    k.Text? && Begins(rest, v) ==>
      && (values(k, v) == 0 <==> rule(k, v))
      && (if k in once && Lookup(ps, k).Some? then fault(rest, k, ps, 0x12)
          else values(k, v) != 0 ==> fault(rest, k, ps, values(k, v)))
  }

  ghost predicate Agree(rule: Rule, once: set<Item>, fault: Fault, values: Values) {
    TextKeys(rule) && forall rest, k, v, ps :: AgreeAt(rule, once, fault, values, rest, k, v, ps)
  }

  lemma {:induction false} LookupIsRepeated(ps: seq<Pair>, key: Item)
    ensures Lookup(ps, key).Some? <==> exists j :: 0 <= j < |ps| && ps[j].key == key
  {
    if ps != [] {
      var n := |ps| - 1;
      LookupIsRepeated(ps[..n], key);
      assert forall j :: 0 <= j < n ==> ps[..n][j] == ps[j];
    }
  }

  /** Where the walk through a map has come to, the next pair stands. */
  lemma WalkReaches(s: seq<byte>, x: Item, i: nat, rule: Rule, once: set<Item>) returns (here: seq<byte>)
    requires x.Map? && Begins(s, x) && i < |Pairs(x.items)| && Obeys(Pairs(x.items)[..i], rule, once)
    ensures var ps := Pairs(x.items);
            && WalksTo(s, |ps|, ps[..i], here, rule, once)
            && Begins(here, ps[i].key) && Begins(here[|Enc(ps[i].key)|..], ps[i].value)
            && !NoMap(s)
  {
    hide Obeys, Flat, Pairs, EncAll, Enc, Lookup, Head, Wf;
    var ps := Pairs(x.items);
    HeadOfMap(s, x);
    FlatOfPairs(x.items);
    FlatPrefix(ps, i);
    ObeysWf(ps[..i], rule, once);
    EncAllPrefix(x.items, 2 * i, s[|Head(5, |ps|)|..]);
    NextTwo(Flat(ps[..i]), Flat(ps), s[|Head(5, |ps|)|..]);
    here := s[|Head(5, |ps|)|..][|EncAll(Flat(ps[..i]))|..];
  }

  lemma HeadOfMap(s: seq<byte>, x: Item)
    requires x.Map? && Begins(s, x)
    ensures var n := |Pairs(x.items)|;
            n <= MAX_ITEMS && Head(5, n) <= s && EncAll(x.items) <= s[|Head(5, n)|..]
    ensures |x.items| % 2 == 0 && forall y :: y in x.items ==> Wf(y)
  {
    HeadOfItem(s, x);
  }

  lemma EncAllPrefix(xs: seq<Item>, n: nat, s: seq<byte>)
    requires (forall x :: x in xs ==> Wf(x)) && n <= |xs| && EncAll(xs) <= s
    ensures (forall x :: x in xs[..n] ==> Wf(x)) && EncAll(xs[..n]) <= s
  {
    hide Enc, EncAll, Wf;
    assert xs == xs[..n] + xs[n..];
    assert forall x :: x in xs[..n] || x in xs[n..] ==> x in xs;
    EncAllAppend(xs[..n], xs[n..]);
    PrefixOfConcat(EncAll(xs[..n]), EncAll(xs[n..]), s);
  }

  lemma ObeysOneMore(ps: seq<Pair>, i: nat, rule: Rule, once: set<Item>)
    requires i < |ps| && Obeys(ps[..i], rule, once) && Wf(ps[i].key) && Wf(ps[i].value)
    requires rule(ps[i].key, ps[i].value) && (ps[i].key in once ==> !Repeated(ps, i))
    ensures Obeys(ps[..i + 1], rule, once)
  {
    assert ps[..i + 1][..i] == ps[..i];
    LookupIsRepeated(ps[..i], ps[i].key);
  }

  /** The status of a map is that of its first fault, and a map without one is as it should be. */
  lemma {:induction false} FirstWrongIsFault(s: seq<byte>, x: Item, rule: Rule, once: set<Item>, fault: Fault, values: Values, i: nat)
    requires x.Map? && Begins(s, x) && Agree(rule, once, fault, values)
    requires i <= |Pairs(x.items)| && Obeys(Pairs(x.items)[..i], rule, once)
    ensures var status := FirstWrong(Pairs(x.items), once, values, i);
            if status == 0 then IsMap(x, rule, once)
            else !IsMap(x, rule, once) && MapFault(s, rule, once, fault, status)
    decreases |Pairs(x.items)| - i
  {
    hide Obeys, Flat, Pairs, EncAll, Enc, Lookup, Head, Wf, WalksTo;
    var ps := Pairs(x.items);
    if i == |ps| {
      assert ps[..i] == ps;
      return;
    }
    var here := WalkReaches(s, x, i, rule, once);
    OnlyItem(here, ps[i].key);
    LookupIsRepeated(ps[..i], ps[i].key);
    assert Repeated(ps, i) <==> Lookup(ps[..i], ps[i].key).Some? by { RepeatedBefore(ps, i); }
    if IsMap(x, rule, once) {
      PairAt(ps, i, rule, once);
    }
    if !ps[i].key.Text? {
      KeyIsFault(s, |ps|, ps[..i], here, rule, once, fault);
    } else {
      var k := ps[i].key.data;
      assert ps[i].key == Text(k);
      assert AgreeAt(rule, once, fault, values, here[|Enc(ps[i].key)|..], ps[i].key, ps[i].value, ps[..i]);
      if (Text(k) in once && Repeated(ps, i)) || values(ps[i].key, ps[i].value) != 0 {
        var status := FirstWrong(ps, once, values, i);
        ValueIsFault(s, |ps|, ps[..i], here, k, rule, once, fault, status);
      } else {
        ObeysOneMore(ps, i, rule, once);
        FirstWrongIsFault(s, x, rule, once, fault, values, i + 1);
      }
    }
  }

  lemma RepeatedBefore(ps: seq<Pair>, i: nat)
    requires i < |ps|
    ensures Repeated(ps, i) <==> exists j :: 0 <= j < i && ps[..i][j].key == ps[i].key
  {
    if Repeated(ps, i) {
      var j :| 0 <= j < i && ps[j].key == ps[i].key;
      assert ps[..i][j].key == ps[i].key;
    }
  }

  /** The status function tells exactly what the description by bytes tells. */
  lemma MapStatusIsFault(s: seq<byte>, x: Item, rule: Rule, once: set<Item>, fault: Fault, values: Values)
    requires Begins(s, x) && Agree(rule, once, fault, values)
    ensures var status := MapStatus(x, once, values);
            if status == 0 then IsMap(x, rule, once)
            else !IsMap(x, rule, once) && MapFault(s, rule, once, fault, status)
  {
    if x.Map? {
      assert Pairs(x.items)[..0] == [];
      FirstWrongIsFault(s, x, rule, once, fault, values, 0);
    } else {
      OtherIsNoMap(s, x);
    }
  }

  lemma OtherIsNoMap(s: seq<byte>, x: Item)
    requires Begins(s, x) && !x.Map?
    ensures NoMap(s)
  {
    forall n: u64 | n <= MAX_ITEMS && Head(5, n) <= s
      ensures false
    {
      HeadOfSame(s, x, 5, n);
    }
  }

  // ---- lists

  /** The status of an item, 0 if it is as it should be. */
  type Statuses = Item -> int

  /** The status of the first item, from `i` on, that is not as it should be. */
  function FirstBad(xs: seq<Item>, status: Statuses, i: nat): int
    requires i <= |xs|
    decreases |xs| - i
  {
    if i == |xs| then 0 else if status(xs[i]) != 0 then status(xs[i]) else FirstBad(xs, status, i + 1)
  }

  ghost predicate AgreeItemAt(good: Item -> bool, fault: ItemFault, status: Statuses, s: seq<byte>, y: Item) {
    Begins(s, y) ==> (status(y) == 0 <==> good(y)) && (status(y) != 0 ==> fault(s, status(y)))
  }

  ghost predicate AgreeItem(good: Item -> bool, fault: ItemFault, status: Statuses) {
    forall s, y :: AgreeItemAt(good, fault, status, s, y)
  }

  lemma {:induction false} FirstBadIsFault(s: seq<byte>, x: Item, good: Item -> bool, fault: ItemFault, status: Statuses, i: nat)
    requires x.Array? && Begins(s, x) && AgreeItem(good, fault, status)
    requires i <= |x.items| && forall j :: 0 <= j < i ==> good(x.items[j])
    ensures var st := FirstBad(x.items, status, i);
            if st == 0 then forall y :: y in x.items ==> good(y)
            else (exists y :: y in x.items && !good(y)) && ListFault(s, good, fault, st)
    decreases |x.items| - i
  {
    hide EncAll, Enc, Head;
    if i < |x.items| {
      ArrayOpens(s, x);
      MembersAreWf(s, x);
      var t := s[|Head(4, |x.items|)|..];
      EncAllPrefix(x.items, i, t);
      NextItem(x.items[..i], x.items, t);
      var here := t[|EncAll(x.items[..i])|..];
      assert AgreeItemAt(good, fault, status, here, x.items[i]);
      if status(x.items[i]) != 0 {
        assert ItemsTo(s, |x.items|, x.items[..i], here, good);
      } else {
        FirstBadIsFault(s, x, good, fault, status, i + 1);
      }
    }
  }

  lemma MembersAreWf(s: seq<byte>, x: Item)
    requires x.Array? && Begins(s, x)
    ensures |x.items| <= MAX_ITEMS && forall y :: y in x.items ==> Wf(y)
  {
  }

  lemma OtherIsNoArray(s: seq<byte>, x: Item)
    requires Begins(s, x)
    ensures NoArray(s) <==> !x.Array?
    ensures x.Array? ==> forall n: u64 :: Head(4, n) <= s <==> n == |x.items|
  {
    hide Head, Enc;
    forall n: u64 | Head(4, n) <= s
      ensures x.Array? && n == |x.items|
    {
      HeadOfSame(s, x, 4, n);
    }
    if x.Array? {
      ArrayOpens(s, x);
      MembersAreWf(s, x);
    }
  }

  // ---- the values of the commands

  function SkippedStatus(v: Item): int {
    if Fits(v, 0) then 0 else 0x12
  }

  /** Values nobody looks at. */
  function AnyStatus(k: Item, v: Item): int {
    SkippedStatus(v)
  }

  function FlagStatus(a: Item, b: Item): Values {
    (k: Item, v: Item) => if k == a || k == b then if v.Bool? then 0 else 0x11 else SkippedStatus(v)
  }

  function DescValue(emptyId: bool): Values {
    (k: Item, v: Item) =>
      if k == TYPE then if v.Text? then 0 else 0x11
      else if k == ID then if !v.Bytes? then 0x11 else if v.data == [] && !emptyId then 0x02 else 0
      else SkippedStatus(v)
  }

  /** A descriptor without a type or an ID misses a parameter. */
  function DescStatus(emptyId: bool): Statuses {
    (y: Item) =>
      var status := MapStatus(y, {TYPE, ID}, DescValue(emptyId));
      if status != 0 then status else if Field(y, TYPE).None? || Field(y, ID).None? then 0x14 else 0
  }

  /** At most sixteen descriptors. */
  function DescsStatus(v: Item, emptyId: bool): int {
    if !v.Array? then 0x11 else if |v.items| > 16 then 0x15 else FirstBad(v.items, DescStatus(emptyId), 0)
  }

  lemma AnyAgrees()
    ensures Agree(Anything, {}, AnythingFault, AnyStatus)
  {
    hide Fits, Begins, NothingFits;
    forall rest, k, v, ps
      ensures AgreeAt(Anything, {}, AnythingFault, AnyStatus, rest, k, v, ps)
    {
      if Begins(rest, v) {
        SkippedAt(rest, v);
      }
    }
  }

  /** What cannot be skipped has the one status there is for it. */
  lemma SkippedAt(rest: seq<byte>, v: Item)
    requires Begins(rest, v)
    ensures Fits(v, 0) <==> !NothingFits(rest)
  {
    hide Fits, Enc;
    OnlyItem(rest, v);
  }

  /** What stands there decides whether a string, a number or a boolean can be read. */
  lemma KindsAt(rest: seq<byte>, v: Item)
    requires Begins(rest, v)
    ensures NoText(rest) <==> !v.Text?
    ensures NoBytes(rest) <==> !v.Bytes?
    ensures NoNumber(rest) <==> !v.Uint?
    ensures !v.Bool? ==> forall b: bool :: !Begins(rest, Bool(b))
  {
    OnlyItem(rest, v);
    hide Begins;
    assert v.Text? ==> v == Text(v.data);
    assert v.Bytes? ==> v == Bytes(v.data);
    assert v.Uint? ==> v == Uint(v.value);
  }

  lemma FlagsAgree(a: Item, b: Item)
    ensures Agree(FlagRule(a, b), {a, b}, FlagFaults(a, b), FlagStatus(a, b))
  {
    hide FlagRule, FlagFault, FlagStatus, Begins, Lookup;
    FlagKeys(a, b);
    forall rest, k, v, ps
      ensures AgreeAt(FlagRule(a, b), {a, b}, FlagFaults(a, b), FlagStatus(a, b), rest, k, v, ps)
    {
      if k.Text? && Begins(rest, v) {
        FlagAgrees(a, b, rest, k, v, ps);
      }
    }
  }

  lemma FlagKeys(a: Item, b: Item)
    ensures TextKeys(FlagRule(a, b))
  {
  }

  lemma FlagAgrees(a: Item, b: Item, rest: seq<byte>, k: Item, v: Item, ps: seq<Pair>)
    requires k.Text? && Begins(rest, v)
    ensures FlagStatus(a, b)(k, v) == 0 <==> FlagRule(a, b)(k, v)
    ensures if k in {a, b} && Lookup(ps, k).Some? then FlagFault(a, b, rest, k, ps, 0x12)
            else FlagStatus(a, b)(k, v) != 0 ==> FlagFault(a, b, rest, k, ps, FlagStatus(a, b)(k, v))
  {
    SkippedAt(rest, v);
    KindsAt(rest, v);
    hide Fits, Begins, NothingFits, Lookup;
  }

  lemma DescsAgree(emptyId: bool)
    ensures Agree(DescRule(emptyId), {TYPE, ID}, DescFaults(emptyId), DescValue(emptyId))
  {
    hide DescRule, DescFault, DescValue, Begins, Lookup, TYPE, ID;
    DescKeys(emptyId);
    forall rest, k, v, ps
      ensures AgreeAt(DescRule(emptyId), {TYPE, ID}, DescFaults(emptyId), DescValue(emptyId), rest, k, v, ps)
    {
      if k.Text? && Begins(rest, v) {
        DescValueAgrees(emptyId, rest, k, v, ps);
      }
    }
  }

  lemma DescKeys(emptyId: bool)
    ensures TextKeys(DescRule(emptyId))
  {
  }

  lemma DescValueAgrees(emptyId: bool, rest: seq<byte>, k: Item, v: Item, ps: seq<Pair>)
    requires k.Text? && Begins(rest, v)
    ensures DescValue(emptyId)(k, v) == 0 <==> DescRule(emptyId)(k, v)
    ensures if k in {TYPE, ID} && Lookup(ps, k).Some? then DescFault(emptyId, rest, k, ps, 0x12)
            else DescValue(emptyId)(k, v) != 0 ==> DescFault(emptyId, rest, k, ps, DescValue(emptyId)(k, v))
  {
    SkippedAt(rest, v);
    KindsAt(rest, v);
    hide Fits, Begins, NothingFits, Lookup, NoText, NoBytes, TYPE, ID;
    assert v.Bytes? && v.data == [] ==> v == Bytes([]);
  }

  lemma DescAgrees(emptyId: bool)
    ensures AgreeItem(GoodDesc(emptyId), DescItemFault(emptyId), DescStatus(emptyId))
  {
    hide DescStatus, IsDesc, DescMapFault, Begins;
    forall s, y
      ensures AgreeItemAt(GoodDesc(emptyId), DescItemFault(emptyId), DescStatus(emptyId), s, y)
    {
      if Begins(s, y) {
        DescStatusIsFault(s, y, emptyId);
      }
    }
  }

  lemma DescStatusIsFault(s: seq<byte>, y: Item, emptyId: bool)
    requires Begins(s, y)
    ensures var status := DescStatus(emptyId)(y);
            if status == 0 then IsDesc(y, emptyId) else !IsDesc(y, emptyId) && DescMapFault(s, emptyId, status)
  {
    hide Begins, MapFault, IsMap, Field, MapStatus, DescRule, DescFaults, DescValue, Agree, Wf, Enc, TYPE, ID;
    DescsAgree(emptyId);
    OnlyItem(s, y);
    MapStatusIsFault(s, y, DescRule(emptyId), {TYPE, ID}, DescFaults(emptyId), DescValue(emptyId));
  }

  lemma DescsStatusIsFault(s: seq<byte>, v: Item, emptyId: bool)
    requires Begins(s, v)
    ensures var status := DescsStatus(v, emptyId);
            if status == 0 then IsDescList(v, emptyId) else !IsDescList(v, emptyId) && DescsFault(s, emptyId, status)
  {
    hide Begins, ListFault, AgreeItem, IsDesc, Head, DescStatus;
    OtherIsNoArray(s, v);
    if v.Array? {
      MembersAreWf(s, v);
      DescAgrees(emptyId);
      FirstBadIsFault(s, v, GoodDesc(emptyId), DescItemFault(emptyId), DescStatus(emptyId), 0);
    }
  }

  // ---- members with integer keys

  /** The status of the value of a member, 0 if it is what the key demands. */
  type Members = (u64, Item) -> int

  /** The status of the first member, from `i` on, that is not as it should be. */
  function FirstWrongMember(ps: seq<Pair>, values: Members, i: nat): int
    requires i <= |ps|
    decreases |ps| - i
  {
    if i == |ps| then 0
    else if !ps[i].key.Uint? then 0x11
    else if ps[i].key.value == 0 || (ps[i].key.value <= 32 && Repeated(ps, i)) then 0x12
    else if values(ps[i].key.value, ps[i].value) != 0 then values(ps[i].key.value, ps[i].value)
    else FirstWrongMember(ps, values, i + 1)
  }

  ghost predicate AgreeMember(rule: Rule, fault: MemberFault, values: Members) {
    && NumberKeys(rule) && (forall v :: !rule(Uint(0), v))
    && forall rest, k, v :: AgreeMemberAt(rule, fault, values, rest, k, v)
  }

  ghost predicate AgreeMemberAt(rule: Rule, fault: MemberFault, values: Members, rest: seq<byte>, k: u64, v: Item) {
    Begins(rest, v) && k != 0 ==>
      (values(k, v) == 0 <==> rule(Uint(k), v)) && (values(k, v) != 0 ==> fault(rest, k, values(k, v)))
  }

  lemma KnownKeys(k: u64)
    ensures Uint(k) in Known() <==> 1 <= k <= 32
  {
  }

  lemma {:induction false} FirstWrongIsMembersFault(s: seq<byte>, x: Item, rule: Rule, fault: MemberFault, values: Members, i: nat)
    requires |s| <= MAX_BYTES && x.Map? && Begins(s, x) && AgreeMember(rule, fault, values)
    requires i <= |Pairs(x.items)| && Obeys(Pairs(x.items)[..i], rule, Known())
    ensures var status := FirstWrongMember(Pairs(x.items), values, i);
            if status == 0 then IsMap(x, rule, Known())
            else !IsMap(x, rule, Known()) && MembersFault(s, rule, Known(), fault, status)
    decreases |Pairs(x.items)| - i
  {
    hide Obeys, Flat, Pairs, EncAll, Enc, Lookup, Head, Wf, WalksTo, Known;
    var ps := Pairs(x.items);
    if i == |ps| {
      assert ps[..i] == ps;
      return;
    }
    var here := WalkReaches(s, x, i, rule, Known());
    OnlyItem(here, ps[i].key);
    OnlyItem(s, x);
    LookupIsRepeated(ps[..i], ps[i].key);
    RepeatedBefore(ps, i);
    if ps[i].key.Uint? {
      KnownKeys(ps[i].key.value);
    }
    if IsMap(x, rule, Known()) {
      PairAt(ps, i, rule, Known());
    }
    var status := FirstWrongMember(ps, values, i);
    if !ps[i].key.Uint? {
      NoNumberFault(here, ps[..i], fault);
      FaultIsMembersFault(s, |ps|, ps[..i], here, rule, Known(), fault, 0x11);
    } else {
      var k := ps[i].key.value;
      assert ps[i].key == Uint(k);
      assert AgreeMemberAt(rule, fault, values, here[|Enc(ps[i].key)|..], k, ps[i].value);
      if Refused(k, ps[..i]) || values(k, ps[i].value) != 0 {
        KeyFaultAt(here, ps[..i], fault, k, status);
        FaultIsMembersFault(s, |ps|, ps[..i], here, rule, Known(), fault, status);
      } else {
        ObeysOneMore(ps, i, rule, Known());
        FirstWrongIsMembersFault(s, x, rule, fault, values, i + 1);
      }
    }
  }

  /** The status of all members of a request. */
  function MembersStatus(x: Item, values: Members): int {
    if x.Map? then FirstWrongMember(Pairs(x.items), values, 0) else 0x12
  }

  lemma MembersStatusIsFault(x: Item, rule: Rule, fault: MemberFault, values: Members)
    requires Wf(x) && |Enc(x)| <= MAX_BYTES && AgreeMember(rule, fault, values)
    ensures var status := MembersStatus(x, values);
            if status == 0 then IsMap(x, rule, Known())
            else !IsMap(x, rule, Known()) && MembersFault(Enc(x), rule, Known(), fault, status)
  {
    assert Begins(Enc(x), x);
    if x.Map? {
      assert Pairs(x.items)[..0] == [];
      FirstWrongIsMembersFault(Enc(x), x, rule, fault, values, 0);
    } else {
      OtherIsNoMap(Enc(x), x);
    }
  }

  // ---- authenticatorGetAssertion

  function AssertionValue(key: u64, v: Item): int {
    match key
    case 1 => if !v.Text? then 0x11 else if v.data == [] then 0x02 else 0
    case 2 => if !v.Bytes? then 0x11 else if |v.data| != 32 then 0x02 else 0
    case 3 => DescsStatus(v, true)
    case 4 => MapStatus(v, {}, AnyStatus)
    case 5 => MapStatus(v, {UP, UV}, FlagStatus(UP, UV))
    case 6 => if v.Bytes? then 0 else 0x11
    case 7 => if v.Uint? then 0 else 0x11
    case _ => SkippedStatus(v)
  }

  /** What the command answers to an item before it looks for a credential, 0 if it goes on. */
  function AssertionStatus(x: Item): int {
    if MembersStatus(x, AssertionValue) != 0 then MembersStatus(x, AssertionValue)
    else if Field(x, Uint(1)).None? || Field(x, Uint(2)).None? then 0x14
    else if AsksToVerify(x) then 0x2b
    else 0
  }

  /** It asks for user verification or comes with a PIN. */
  predicate AsksToVerify(x: Item) {
    || Field(x, Uint(6)).Some? || Field(x, Uint(7)).Some?
    || (Field(x, Uint(5)).Some? && Field(Field(x, Uint(5)).value, UV) == Some(Bool(true)))
  }

  lemma AssertionValueAgrees(rest: seq<byte>, k: u64, v: Item)
    requires Begins(rest, v) && k != 0
    ensures var status := AssertionValue(k, v);
            if status == 0 then A.MemberOk(Uint(k), v) else !A.MemberOk(Uint(k), v) && A.ValueFault(rest, k, status)
  {
    hide Begins, Fits, NothingFits, NoText, NoBytes, NoNumber, MapFault, DescsFault, IsMap, IsDescList, MapStatus, DescsStatus, Agree;
    hide TYPE, ID, Enc, Wf;
    KindsAt(rest, v);
    SkippedAt(rest, v);
    OnlyItem(rest, v);
    if k == 1 || k == 2 {
      assert v.Text? ==> v == Text(v.data);
      assert v.Bytes? ==> v == Bytes(v.data);
    } else if k == 3 {
      DescsStatusIsFault(rest, v, true);
    } else if k == 4 {
      AnyAgrees();
      MapStatusIsFault(rest, v, Anything, {}, AnythingFault, AnyStatus);
    } else if k == 5 {
      FlagsAgree(UP, UV);
      MapStatusIsFault(rest, v, FlagRule(UP, UV), {UP, UV}, FlagFaults(UP, UV), FlagStatus(UP, UV));
    }
  }

  lemma AssertionKeys()
    ensures NumberKeys(A.MemberOk) && forall v :: !A.MemberOk(Uint(0), v)
  {
    A.Numbered();
  }

  lemma AssertionValuesAgree()
    ensures AgreeMember(A.MemberOk, A.ValueFault, AssertionValue)
  {
    hide A.ValueFault, A.MemberOk, AssertionValue, Begins, NumberKeys;
    AssertionKeys();
    forall rest, k, v
      ensures AgreeMemberAt(A.MemberOk, A.ValueFault, AssertionValue, rest, k, v)
    {
      if Begins(rest, v) && k != 0 {
        AssertionValueAgrees(rest, k, v);
      }
    }
  }

  /** To every item of a size it takes, the command answers exactly this status; it goes on exactly with the others. */
  lemma AssertionAnswered(x: Item, status: int)
    requires Wf(x) && |Enc(x)| <= MAX_BYTES
    ensures AssertionStatus(x) == 0 <==> A.IsRequest(x) && A.IsSupported(x)
    ensures AssertionStatus(x) != 0 ==> (A.Refuses(Enc(x), status) <==> status == AssertionStatus(x))
  {
    hide MembersFault, MembersStatus, A.IsMembers, Field, Enc, A.IsSupported, AsksToVerify, Wf, A.Refuses;
    AssertionMembersAnswered(x);
    AssertionRefused(x, AssertionStatus(x));
    if A.IsMembers(x) {
      VerificationAsked(x);
    }
    if AssertionStatus(x) != 0 && A.Refuses(Enc(x), status) {
      A.RefusesOnce(Enc(x), status, AssertionStatus(x));
    }
  }

  lemma AssertionMembersAnswered(x: Item)
    requires Wf(x) && |Enc(x)| <= MAX_BYTES
    ensures var status := MembersStatus(x, AssertionValue);
            if status == 0 then A.IsMembers(x)
            else !A.IsMembers(x) && MembersFault(Enc(x), A.MemberOk, Known(), A.ValueFault, status)
  {
    AssertionValuesAgree();
    hide MembersFault, MembersStatus, IsMap, Enc, Wf, AgreeMember, A.MemberOk, A.ValueFault, AssertionValue;
    MembersStatusIsFault(x, A.MemberOk, A.ValueFault, AssertionValue);
  }

  /** The refusal of an item's encoding is that of the item. */
  lemma AssertionRefused(x: Item, status: int)
    requires Wf(x) && |Enc(x)| <= MAX_BYTES
    ensures A.Refuses(Enc(x), status) <==>
              if A.IsMembers(x) then status == if !A.IsRequest(x) then 0x14 else 0x2b
              else MembersFault(Enc(x), A.MemberOk, Known(), A.ValueFault, status)
  {
    hide MembersFault, A.IsRequest, Enc;
    OnlyThis(x);
    forall y | A.IsMembers(y) && Enc(y) == Enc(x)
      ensures y == x
    {
      MembersAreWellFormed(y);
    }
  }

  lemma MembersAreWellFormed(y: Item)
    requires A.IsMembers(y) || C.IsMembers(y)
    ensures Wf(y)
  {
  }

  /** An item is the only one with its encoding. */
  lemma OnlyThis(x: Item)
    requires Wf(x)
    ensures forall y | Wf(y) && Enc(y) == Enc(x) :: y == x
  {
    forall y | Wf(y) && Enc(y) == Enc(x)
      ensures y == x
    {
      BeginsUnique(Enc(x), x, y);
    }
  }

  lemma VerificationAsked(x: Item)
    requires A.IsMembers(x)
    ensures A.IsSupported(x) <==> !AsksToVerify(x)
  {
    hide Lookup, Obeys;
  }

  // ---- authenticatorMakeCredential

  function EntityValue(text: bool): Values {
    (k: Item, v: Item) =>
      if k != ID then SkippedStatus(v)
      else if !(if text then v.Text? else v.Bytes?) then 0x11
      else if v.data == [] then 0x02 else 0
  }

  /** A relying party or a user without an ID misses a parameter. */
  function EntityStatus(y: Item, text: bool): int {
    var status := MapStatus(y, {ID}, EntityValue(text));
    if status != 0 then status else if Field(y, ID).None? then 0x14 else 0
  }

  function AlgValue(k: Item, v: Item): int {
    if k == TYPE then if v.Text? then 0 else 0x11
    else if k == C.ALG then if (v.Uint? || v.Nint?) && v.value < 0x8000_0000_0000_0000 then 0 else 0x11
    else SkippedStatus(v)
  }

  function AlgStatus(y: Item): int {
    var status := MapStatus(y, {TYPE, C.ALG}, AlgValue);
    if status != 0 then status else if Field(y, TYPE).None? || Field(y, C.ALG).None? then 0x14 else 0
  }

  function AlgsStatus(v: Item): int {
    if !v.Array? then 0x11 else if v.items == [] then 0x02 else FirstBad(v.items, AlgStatus, 0)
  }

  function RegistrationValue(key: u64, v: Item): int {
    match key
    case 1 => if !v.Bytes? then 0x11 else if |v.data| != 32 then 0x02 else 0
    case 2 => EntityStatus(v, true)
    case 3 => EntityStatus(v, false)
    case 4 => AlgsStatus(v)
    case 5 => DescsStatus(v, false)
    case 6 => MapStatus(v, {}, AnyStatus)
    case 7 => MapStatus(v, {RK, UV}, FlagStatus(RK, UV))
    case 8 => if v.Bytes? then 0 else 0x11
    case 9 => if v.Uint? then 0 else 0x11
    case 10 => if v.Uint? then 0 else 0x11
    case _ => SkippedStatus(v)
  }

  /** It asks for residence or verification, or comes with a PIN or a wish for attestation. */
  predicate AsksTooMuch(x: Item) {
    || Field(x, Uint(8)).Some? || Field(x, Uint(9)).Some? || Field(x, Uint(10)).Some?
    || (Field(x, Uint(7)).Some?
        && (Field(Field(x, Uint(7)).value, RK) == Some(Bool(true)) || Field(Field(x, Uint(7)).value, UV) == Some(Bool(true))))
  }

  /** One of the listed algorithms is ES256 with a public key. */
  predicate OffersEs256(x: Item) {
    && Field(x, Uint(4)).Some? && Field(x, Uint(4)).value.Array?
    && exists y :: y in Field(x, Uint(4)).value.items && Field(y, TYPE) == Some(PUBLIC_KEY) && Field(y, C.ALG) == Some(Nint(6))
  }

  /** What the command answers to an item before it looks at the exclusions, 0 if it goes on. */
  function RegistrationStatus(x: Item): int {
    if MembersStatus(x, RegistrationValue) != 0 then MembersStatus(x, RegistrationValue)
    else if Field(x, Uint(1)).None? || Field(x, Uint(2)).None? || Field(x, Uint(3)).None? || Field(x, Uint(4)).None? then 0x14
    else if AsksTooMuch(x) then 0x2b
    else if !OffersEs256(x) then 0x26
    else 0
  }

  lemma EntityAgrees(text: bool)
    ensures Agree(C.EntityRule(text), {ID}, C.EntityFaults(text), EntityValue(text))
  {
    hide C.EntityRule, C.EntityFault, EntityValue, Begins, Lookup, ID;
    C.EntityKeysAreTexts(text);
    forall rest, k, v, ps
      ensures AgreeAt(C.EntityRule(text), {ID}, C.EntityFaults(text), EntityValue(text), rest, k, v, ps)
    {
      if k.Text? && Begins(rest, v) {
        EntityValueAgrees(text, rest, k, v, ps);
      }
    }
  }

  lemma EntityValueAgrees(text: bool, rest: seq<byte>, k: Item, v: Item, ps: seq<Pair>)
    requires k.Text? && Begins(rest, v)
    ensures EntityValue(text)(k, v) == 0 <==> C.EntityRule(text)(k, v)
    ensures if k in {ID} && Lookup(ps, k).Some? then C.EntityFault(text, rest, k, ps, 0x12)
            else EntityValue(text)(k, v) != 0 ==> C.EntityFault(text, rest, k, ps, EntityValue(text)(k, v))
  {
    SkippedAt(rest, v);
    StringAt(rest, v, text);
    hide Fits, Begins, NothingFits, Lookup, C.NoString, ID;
    assert v.Bytes? && v.data == [] ==> v == Bytes([]);
    assert v.Text? && v.data == [] ==> v == Text([]);
  }

  lemma StringAt(rest: seq<byte>, v: Item, text: bool)
    requires Begins(rest, v)
    ensures C.NoString(rest, text) <==> !(if text then v.Text? else v.Bytes?)
  {
    OnlyItem(rest, v);
    hide Begins;
    assert v.Text? ==> v == StringItem(true, v.data);
    assert v.Bytes? ==> v == StringItem(false, v.data);
  }

  lemma IntAt(rest: seq<byte>, v: Item)
    requires Begins(rest, v)
    ensures C.NoInt(rest) <==> !C.IsInt(v)
  {
    C.IntItemIsInt();
    OnlyItem(rest, v);
    hide Begins, C.IsInt;
  }

  lemma EntityStatusIsFault(s: seq<byte>, y: Item, text: bool)
    requires Begins(s, y)
    ensures var status := EntityStatus(y, text);
            if status == 0 then C.IsEntity(y, text) else !C.IsEntity(y, text) && C.EntityMapFault(s, text, status)
  {
    hide Begins, MapFault, IsMap, Field, MapStatus, C.EntityRule, C.EntityFaults, EntityValue, Agree, Wf, Enc, ID;
    EntityAgrees(text);
    OnlyItem(s, y);
    MapStatusIsFault(s, y, C.EntityRule(text), {ID}, C.EntityFaults(text), EntityValue(text));
  }

  lemma AlgAgrees()
    ensures Agree(C.AlgRule, {TYPE, C.ALG}, C.AlgFault, AlgValue)
  {
    hide C.AlgRule, C.AlgFault, AlgValue, Begins, Lookup, TYPE, C.ALG;
    C.NoAlgSoFar();
    forall rest, k, v, ps
      ensures AgreeAt(C.AlgRule, {TYPE, C.ALG}, C.AlgFault, AlgValue, rest, k, v, ps)
    {
      if k.Text? && Begins(rest, v) {
        AlgValueAgrees(rest, k, v, ps);
      }
    }
  }

  lemma AlgValueAgrees(rest: seq<byte>, k: Item, v: Item, ps: seq<Pair>)
    requires k.Text? && Begins(rest, v)
    ensures AlgValue(k, v) == 0 <==> C.AlgRule(k, v)
    ensures if k in {TYPE, C.ALG} && Lookup(ps, k).Some? then C.AlgFault(rest, k, ps, 0x12)
            else AlgValue(k, v) != 0 ==> C.AlgFault(rest, k, ps, AlgValue(k, v))
  {
    SkippedAt(rest, v);
    KindsAt(rest, v);
    IntAt(rest, v);
    hide Fits, Begins, NothingFits, Lookup, NoText, C.NoInt, TYPE, C.ALG;
  }

  lemma AlgItemAgrees()
    ensures AgreeItem(C.IsAlg, C.AlgMapFault, AlgStatus)
  {
    hide AlgStatus, C.IsAlg, C.AlgMapFault, Begins;
    forall s, y
      ensures AgreeItemAt(C.IsAlg, C.AlgMapFault, AlgStatus, s, y)
    {
      if Begins(s, y) {
        AlgStatusIsFault(s, y);
      }
    }
  }

  lemma AlgStatusIsFault(s: seq<byte>, y: Item)
    requires Begins(s, y)
    ensures var status := AlgStatus(y);
            if status == 0 then C.IsAlg(y) else !C.IsAlg(y) && C.AlgMapFault(s, status)
  {
    hide Begins, MapFault, IsMap, Field, MapStatus, C.AlgRule, C.AlgFault, AlgValue, Agree, Wf, Enc, TYPE, C.ALG;
    AlgAgrees();
    OnlyItem(s, y);
    MapStatusIsFault(s, y, C.AlgRule, {TYPE, C.ALG}, C.AlgFault, AlgValue);
  }

  lemma AlgsStatusIsFault(s: seq<byte>, v: Item)
    requires Begins(s, v)
    ensures var status := AlgsStatus(v);
            if status == 0 then C.IsAlgs(v) else !C.IsAlgs(v) && C.AlgsFault(s, status)
  {
    hide Begins, ListFault, AgreeItem, C.IsAlg, Head, AlgStatus;
    OtherIsNoArray(s, v);
    if v.Array? {
      MembersAreWf(s, v);
      AlgItemAgrees();
      FirstBadIsFault(s, v, C.IsAlg, C.AlgMapFault, AlgStatus, 0);
    }
  }

  lemma RegistrationValueAgrees(rest: seq<byte>, k: u64, v: Item)
    requires Begins(rest, v) && k != 0
    ensures var status := RegistrationValue(k, v);
            if status == 0 then C.MemberOk(Uint(k), v) else !C.MemberOk(Uint(k), v) && C.ValueFault(rest, k, status)
  {
    hide Begins, Fits, NothingFits, NoText, NoBytes, NoNumber, MapFault, DescsFault, IsMap, IsDescList, MapStatus, DescsStatus, Agree;
    hide TYPE, ID, Enc, Wf;
    KindsAt(rest, v);
    SkippedAt(rest, v);
    OnlyItem(rest, v);
    hide C.IsEntity, C.EntityMapFault, EntityStatus, C.IsAlgs, C.AlgsFault, AlgsStatus;
    if k == 1 {
      assert v.Bytes? ==> v == Bytes(v.data);
    } else if k == 2 || k == 3 {
      EntityStatusIsFault(rest, v, k == 2);
    } else if k == 4 {
      AlgsStatusIsFault(rest, v);
    } else if k == 5 {
      DescsStatusIsFault(rest, v, false);
    } else if k == 6 {
      AnyAgrees();
      MapStatusIsFault(rest, v, Anything, {}, AnythingFault, AnyStatus);
    } else if k == 7 {
      FlagsAgree(RK, UV);
      MapStatusIsFault(rest, v, FlagRule(RK, UV), {RK, UV}, FlagFaults(RK, UV), FlagStatus(RK, UV));
    }
  }

  lemma RegistrationKeys()
    ensures NumberKeys(C.MemberOk) && forall v :: !C.MemberOk(Uint(0), v)
  {
    C.Numbered();
  }

  lemma RegistrationValuesAgree()
    ensures AgreeMember(C.MemberOk, C.ValueFault, RegistrationValue)
  {
    hide C.ValueFault, C.MemberOk, RegistrationValue, Begins, NumberKeys;
    RegistrationKeys();
    forall rest, k, v
      ensures AgreeMemberAt(C.MemberOk, C.ValueFault, RegistrationValue, rest, k, v)
    {
      if Begins(rest, v) && k != 0 {
        RegistrationValueAgrees(rest, k, v);
      }
    }
  }

  /** Among the members of a request, an algorithm is offered exactly if its list is there and offers it. */
  lemma OffersInList(x: Item)
    requires C.IsMembers(x)
    ensures C.Meaning(Pairs(x.items)).es256 <==> OffersEs256(x)
  {
    hide Lookup, Obeys, DescsOf, C.MemberOk;
    assert C.ES256 == Nint(6);
  }

  /** To every item of a size it takes, the command answers exactly this status; it goes on exactly with the others. */
  lemma RegistrationAnswered(x: Item, status: int)
    requires Wf(x) && |Enc(x)| <= MAX_BYTES
    ensures RegistrationStatus(x) == 0 <==> C.IsRequest(x) && C.IsSupported(x) && C.Meaning(Pairs(x.items)).es256
    ensures RegistrationStatus(x) != 0 ==> (C.Refuses(Enc(x), status) <==> status == RegistrationStatus(x))
  {
    hide MembersFault, MembersStatus, C.IsMembers, Field, Enc, C.IsSupported, AsksTooMuch, Wf, C.Refuses;
    hide OffersEs256, C.Meaning;
    RegistrationMembersAnswered(x);
    RegistrationRefused(x, RegistrationStatus(x));
    if C.IsMembers(x) {
      TooMuchAsked(x);
      OffersInList(x);
    }
    if RegistrationStatus(x) != 0 && C.Refuses(Enc(x), status) {
      C.RefusesOnce(Enc(x), status, RegistrationStatus(x));
    }
  }

  lemma RegistrationMembersAnswered(x: Item)
    requires Wf(x) && |Enc(x)| <= MAX_BYTES
    ensures var status := MembersStatus(x, RegistrationValue);
            if status == 0 then C.IsMembers(x)
            else !C.IsMembers(x) && MembersFault(Enc(x), C.MemberOk, Known(), C.ValueFault, status)
  {
    RegistrationValuesAgree();
    hide MembersFault, MembersStatus, IsMap, Enc, Wf, AgreeMember, C.MemberOk, C.ValueFault, RegistrationValue;
    MembersStatusIsFault(x, C.MemberOk, C.ValueFault, RegistrationValue);
  }

  lemma RegistrationRefused(x: Item, status: int)
    requires Wf(x) && |Enc(x)| <= MAX_BYTES
    ensures C.Refuses(Enc(x), status) <==>
              if C.IsMembers(x) then status == if !C.IsRequest(x) then 0x14 else if !C.IsSupported(x) then 0x2b else 0x26
              else MembersFault(Enc(x), C.MemberOk, Known(), C.ValueFault, status)
  {
    hide MembersFault, C.IsRequest, C.IsSupported, Enc;
    OnlyThis(x);
    forall y | C.IsMembers(y) && Enc(y) == Enc(x)
      ensures y == x
    {
      MembersAreWellFormed(y);
    }
  }

  lemma TooMuchAsked(x: Item)
    requires C.IsMembers(x)
    ensures C.IsSupported(x) <==> !AsksTooMuch(x)
  {
    hide Lookup, Obeys;
  }
}
