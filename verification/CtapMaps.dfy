/**
  What the hand-written request parsers share: maps in which some keys may occur only once and demand
  a certain kind of value, while every other value is skipped.
*/
module CtapMaps {
  import opened Bytes
  import opened CborItem
  import opened CborReader
  import opened CtapStatus

  datatype Pair = Pair(key: Item, value: Item)

  /** Which key may go with which value. */
  type Rule = (Item, Item) -> bool

  function Flat(ps: seq<Pair>): (xs: seq<Item>)
    ensures |xs| == 2 * |ps|
  {
    if ps == [] then [] else Flat(ps[..|ps| - 1]) + [ps[|ps| - 1].key, ps[|ps| - 1].value]
  }

  function Pairs(xs: seq<Item>): (ps: seq<Pair>)
    ensures |ps| == |xs| / 2
  {
    if |xs| < 2 then [] else Pairs(xs[..|xs| - 2]) + [Pair(xs[|xs| - 2], xs[|xs| - 1])]
  }

  lemma {:induction false} PairsOfFlat(ps: seq<Pair>)
    ensures Pairs(Flat(ps)) == ps
  {
    if ps != [] {
      PairsOfFlat(ps[..|ps| - 1]);
      assert Flat(ps)[..|Flat(ps)| - 2] == Flat(ps[..|ps| - 1]);
    }
  }

  lemma {:induction false} FlatOfPairs(xs: seq<Item>)
    requires |xs| % 2 == 0
    ensures Flat(Pairs(xs)) == xs
  {
    if xs != [] {
      var n := |xs| - 2;
      FlatOfPairs(xs[..n]);
      var ps := Pairs(xs);
      assert ps == Pairs(xs[..n]) + [Pair(xs[n], xs[n + 1])];
      assert ps[..|ps| - 1] == Pairs(xs[..n]);
      assert xs == xs[..n] + [xs[n], xs[n + 1]];
    }
  }

  /** The first value a map gives a key. */
  function Lookup(ps: seq<Pair>, key: Item): Option<Item> {
    if ps == [] then None
    else
      var before, last := Lookup(ps[..|ps| - 1], key), ps[|ps| - 1];
      if before.Some? then before else if last.key == key then Some(last.value) else None
  }

  /** Every pair obeys the rule, and no key of `once` is repeated. */
  predicate Obeys(ps: seq<Pair>, rule: Rule, once: set<Item>) {
    ps == []
    || var before, last := ps[..|ps| - 1], ps[|ps| - 1];
       && Obeys(before, rule, once)
       && Wf(last.key) && Wf(last.value) && rule(last.key, last.value)
       && (last.key in once ==> Lookup(before, last.key).None?)
  }

  /** The keys that may occur once do, and each value obeys the rule for its key. */
  lemma {:induction false} ObeysMeans(ps: seq<Pair>, rule: Rule, once: set<Item>, i: nat, j: nat)
    requires Obeys(ps, rule, once) && i < |ps| && j < |ps|
    ensures rule(ps[i].key, ps[i].value)
    ensures ps[i].key == ps[j].key && ps[i].key in once ==> i == j
    ensures ps[i].key in once ==> Lookup(ps, ps[i].key) == Some(ps[i].value)
  {
    var n := |ps| - 1;
    if i < n && j < n {
      ObeysMeans(ps[..n], rule, once, i, j);
    } else if i < n {
      ObeysMeans(ps[..n], rule, once, i, i);
    } else if j < n {
      ObeysMeans(ps[..n], rule, once, j, j);
    }
  }

  lemma {:induction false} LookupObeys(ps: seq<Pair>, rule: Rule, once: set<Item>, key: Item)
    requires Obeys(ps, rule, once)
    ensures Lookup(ps, key).Some? ==> rule(key, Lookup(ps, key).value) && Wf(Lookup(ps, key).value)
  {
    if ps != [] {
      LookupObeys(ps[..|ps| - 1], rule, once, key);
    }
  }

  // ---- walking through a map

  lemma {:induction false} ObeysWf(ps: seq<Pair>, rule: Rule, once: set<Item>)
    requires Obeys(ps, rule, once)
    ensures forall x :: x in Flat(ps) ==> Wf(x)
  {
    if ps != [] {
      ObeysWf(ps[..|ps| - 1], rule, once);
    }
  }

  /** `s` begins with the contents of a map of `n` pairs that obey the rule. */
  predicate Holds(ps: seq<Pair>, n: nat, rule: Rule, once: set<Item>, s: seq<byte>) {
    |ps| == n && Obeys(ps, rule, once) && (forall x :: x in Flat(ps) ==> Wf(x)) && EncAll(Flat(ps)) <= s
  }

  lemma {:induction false} FlatPrefix(ps: seq<Pair>, n: nat)
    requires n <= |ps|
    ensures Flat(ps)[..2 * n] == Flat(ps[..n])
    ensures n < |ps| ==> Flat(ps)[2 * n] == ps[n].key && Flat(ps)[2 * n + 1] == ps[n].value
  {
    if n < |ps| {
      var m := |ps| - 1;
      if n < m {
        FlatPrefix(ps[..m], n);
        assert ps[..m][..n] == ps[..n];
        assert Flat(ps)[..2 * n] == Flat(ps[..m])[..2 * n];
      }
    } else {
      assert ps[..n] == ps;
    }
  }

  /** What the rule says of the pair at `n`, given those before it. */
  lemma {:induction false} PairAt(ps: seq<Pair>, n: nat, rule: Rule, once: set<Item>)
    requires Obeys(ps, rule, once) && n < |ps|
    ensures rule(ps[n].key, ps[n].value)
    ensures ps[n].key in once ==> Lookup(ps[..n], ps[n].key).None?
  {
    var m := |ps| - 1;
    if n < m {
      PairAt(ps[..m], n, rule, once);
      assert ps[..m][..n] == ps[..n];
    }
  }

  /** The two items that follow where a longer list goes on. */
  lemma NextTwo(xs: seq<Item>, ys: seq<Item>, s: seq<byte>)
    requires forall x :: x in xs ==> Wf(x)
    requires forall y :: y in ys ==> Wf(y)
    requires |xs| + 1 < |ys| && EncAll(xs) <= s && EncAll(ys) <= s
    ensures var n, here := |xs|, s[|EncAll(xs)|..];
            xs == ys[..n] && Begins(here, ys[n]) && Begins(here[|Enc(ys[n])|..], ys[n + 1])
  {
    var n, here := |xs|, s[|EncAll(xs)|..];
    NextItem(xs, ys, s);
    AppendItem(xs, ys[n], s);
    var more := xs + [ys[n]];
    NextItem(more, ys, s);
    assert s[|EncAll(more)|..] == here[|Enc(ys[n])|..];
  }

  /** Where one walk has come to, any longer list of pairs at the same place goes on as the rule says. */
  lemma NextPair(ps: seq<Pair>, qs: seq<Pair>, rule: Rule, once: set<Item>, s: seq<byte>)
    requires Holds(ps, |ps|, rule, once, s) && Holds(qs, |qs|, rule, once, s) && |ps| < |qs|
    ensures var n, here := |ps|, s[|EncAll(Flat(ps))|..];
            && ps == qs[..n] && Begins(here, qs[n].key)
            && Begins(here[|Enc(qs[n].key)|..], qs[n].value)
            && rule(qs[n].key, qs[n].value)
            && (qs[n].key in once ==> Lookup(ps, qs[n].key).None?)
  {
    hide Obeys, Flat, Pairs, EncAll, Enc, Lookup;
    var n := |ps|;
    FlatPrefix(qs, n);
    NextTwo(Flat(ps), Flat(qs), s);
    PairsOfFlat(ps);
    PairsOfFlat(qs[..n]);
    PairAt(qs, n, rule, once);
  }

  /** Extends a walk by one more pair. */
  lemma OnePair(ps: seq<Pair>, p: Pair, rule: Rule, once: set<Item>, s: seq<byte>)
    requires Holds(ps, |ps|, rule, once, s)
    requires var here := s[|EncAll(Flat(ps))|..];
             && Begins(here, p.key) && Begins(here[|Enc(p.key)|..], p.value)
             && rule(p.key, p.value) && (p.key in once ==> Lookup(ps, p.key).None?)
    ensures Holds(ps + [p], |ps| + 1, rule, once, s)
    ensures |EncAll(Flat(ps + [p]))| == |EncAll(Flat(ps))| + |Enc(p.key)| + |Enc(p.value)|
    ensures forall k :: Lookup(ps + [p], k) == if Lookup(ps, k).Some? then Lookup(ps, k)
                                              else if p.key == k then Some(p.value) else None
  {
    assert (ps + [p])[..|ps|] == ps;
    var here := s[|EncAll(Flat(ps))|..];
    AppendItem(Flat(ps), p.key, s);
    var more := Flat(ps) + [p.key];
    assert s[|EncAll(more)|..] == here[|Enc(p.key)|..];
    AppendItem(more, p.value, s);
    assert Flat(ps + [p]) == more + [p.value];
  }

  // ---- maps as items

  predicate IsMap(x: Item, rule: Rule, once: set<Item>) {
    x.Map? && Wf(x) && Obeys(Pairs(x.items), rule, once)
  }

  /** The value an item gives a key if it is a map. */
  function Field(x: Item, key: Item): Option<Item> {
    if x.Map? then Lookup(Pairs(x.items), key) else None
  }

  /** The reader stands behind the pairs `ps` of the map whose contents begin at `start`. */
  ghost predicate At(r: Reader, start: nat, ps: seq<Pair>, rule: Rule, once: set<Item>)
    reads r
  {
    && r.Valid() && !r.failed && start <= |r.data|
    && Holds(ps, |ps|, rule, once, r.data[start..])
    && r.offset == start + |EncAll(Flat(ps))|
  }

  lemma NothingIn(key: Item)
    ensures Lookup([], key) == None
  {
  }

  lemma NoPairs(rule: Rule, once: set<Item>, s: seq<byte>)
    ensures Holds([], 0, rule, once, s) && EncAll(Flat([])) == []
  {
  }

  lemma MapOpens(s: seq<byte>, x: Item, rule: Rule, once: set<Item>)
    requires IsMap(x, rule, once) && Begins(s, x)
    ensures var n := |Pairs(x.items)|;
            n <= MAX_ITEMS && Head(5, n) <= s && Holds(Pairs(x.items), n, rule, once, s[|Head(5, n)|..])
  {
    HeadOfItem(s, x);
    FlatOfPairs(x.items);
  }

  /** Opens a map; a map that obeys the rule is one whose pairs can be walked through from here. */
  method OpenMap(r: Reader, ghost rule: Rule, ghost once: set<Item>) returns (ok: bool, pairs: nat)
    requires r.Valid()
    modifies r
    ensures r.Valid()
    ensures !ok ==> old(r.failed) || forall x | IsMap(x, rule, once) :: !Begins(old(r.Rest()), x)
    ensures !ok ==> old(r.failed) || NoMap(old(r.Rest()))
    ensures ok ==> !NoMap(old(r.Rest()))
    ensures ok ==> !old(r.failed) && pairs <= MAX_ITEMS && Head(5, pairs) <= old(r.Rest())
                   && r.offset == old(r.offset) + |Head(5, pairs)|
                   && At(r, r.offset, [], rule, once)
    ensures ok ==> forall x | IsMap(x, rule, once) && Begins(old(r.Rest()), x) ::
                     Holds(Pairs(x.items), pairs, rule, once, r.Rest())
  {
    hide Obeys, Flat, Pairs, EncAll, Enc, Lookup, Holds, Head;
    ghost var s := r.Rest();
    NoPairs(rule, once, s);
    ok, pairs := r.GetMap();
    forall x | IsMap(x, rule, once) && Begins(s, x)
      ensures Head(5, |Pairs(x.items)|) <= s && |Pairs(x.items)| <= MAX_ITEMS
      ensures ok ==> Holds(Pairs(x.items), pairs, rule, once, r.Rest())
    {
      MapOpens(s, x, rule, once);
      if ok {
        HeadUnique(5, pairs, 5, |Pairs(x.items)|, s);
        assert r.Rest() == s[|Head(5, pairs)|..];
      }
    }
    if ok {
      NoPairs(rule, once, r.Rest());
    }
  }

  /** What is known of every way the walk can go on, once it has read `key` and stands before its value. */
  ghost predicate Expects(r: Reader, start: nat, ps: seq<Pair>, pairs: nat, key: Item, here: seq<byte>,
                          rule: Rule, once: set<Item>)
    reads r
  {
    && r.Valid() && !r.failed && start <= |r.data|
    && Holds(ps, |ps|, rule, once, r.data[start..]) && |ps| < pairs
    && here == r.data[start..][|EncAll(Flat(ps))|..]
    && Begins(here, key) && r.Rest() == here[|Enc(key)|..]
    && r.offset == start + |EncAll(Flat(ps))| + |Enc(key)|
    && forall qs: seq<Pair> | Holds(qs, pairs, rule, once, r.data[start..]) ::
         && Begins(r.Rest(), qs[|ps|].value) && rule(key, qs[|ps|].value)
         && (key in once ==> Lookup(ps, key).None?)
  }

  /** Once a key has been read, what follows is what any list of pairs has there. */
  lemma KeyRead(r: Reader, start: nat, ps: seq<Pair>, pairs: nat, key: Item, here: seq<byte>, rule: Rule, once: set<Item>)
    requires r.Valid() && !r.failed && start <= |r.data| && |ps| < pairs
    requires Holds(ps, |ps|, rule, once, r.data[start..])
    requires here == r.data[start..][|EncAll(Flat(ps))|..] && Begins(here, key)
    requires r.offset == start + |EncAll(Flat(ps))| + |Enc(key)|
    ensures Expects(r, start, ps, pairs, key, here, rule, once)
  {
    hide Obeys, Flat, Pairs, EncAll, Enc, Lookup, Head;
    var s := r.data[start..];
    assert r.Rest() == here[|Enc(key)|..];
    forall qs: seq<Pair> | Holds(qs, pairs, rule, once, s)
      ensures Begins(r.Rest(), qs[|ps|].value) && rule(key, qs[|ps|].value)
      ensures key in once ==> Lookup(ps, key).None?
    {
      NextPair(ps, qs, rule, once, s);
      BeginsUnique(here, key, qs[|ps|].key);
    }
  }

  /** A rule under which all keys are texts. */
  ghost predicate TextKeys(rule: Rule) {
    forall k, v | rule(k, v) :: k.Text?
  }

  lemma IsTextKey(rule: Rule, k: Item, v: Item)
    requires TextKeys(rule) && rule(k, v)
    ensures k == Text(k.data)
  {
  }

  /** Reads the next key of a map with text keys that is being walked through. */
  method ReadKey(r: Reader, ghost start: nat, ghost ps: seq<Pair>, ghost pairs: nat, ghost rule: Rule, ghost once: set<Item>)
    returns (ok: bool, key: seq<byte>)
    requires At(r, start, ps, rule, once) && |ps| < pairs && TextKeys(rule)
    modifies r
    ensures r.Valid()
    ensures !ok ==> forall qs :: !Holds(qs, pairs, rule, once, r.data[start..])
    ensures !ok <==> NoText(old(r.Rest()))
    ensures ok ==> Expects(r, start, ps, pairs, Text(key), old(r.Rest()), rule, once)
  {
    hide Obeys, Flat, Pairs, EncAll, Enc, Lookup, Head;
    ghost var s, here := r.data[start..], r.Rest();
    assert here == s[|EncAll(Flat(ps))|..];
    ok, key := r.GetText();
    if ok {
      KeyRead(r, start, ps, pairs, Text(key), here, rule, once);
    } else {
      forall qs: seq<Pair> | Holds(qs, pairs, rule, once, s)
        ensures false
      {
        NextPair(ps, qs, rule, once, s);
        IsTextKey(rule, qs[|ps|].key, qs[|ps|].value);
      }
    }
  }

  /** A rule under which all keys are unsigned integers. */
  ghost predicate NumberKeys(rule: Rule) {
    forall k, v | rule(k, v) :: k.Uint?
  }

  lemma IsNumberKey(rule: Rule, k: Item, v: Item)
    requires NumberKeys(rule) && rule(k, v)
    ensures k == Uint(k.value)
  {
  }

  /** Reads the next key of a map with integer keys that is being walked through. */
  method ReadNumber(r: Reader, ghost start: nat, ghost ps: seq<Pair>, ghost pairs: nat, ghost rule: Rule, ghost once: set<Item>)
    returns (ok: bool, key: u64)
    requires At(r, start, ps, rule, once) && |ps| < pairs && NumberKeys(rule)
    modifies r
    ensures r.Valid()
    ensures !ok ==> forall qs :: !Holds(qs, pairs, rule, once, r.data[start..])
    ensures !ok <==> NoNumber(old(r.Rest()))
    ensures ok ==> Expects(r, start, ps, pairs, Uint(key), old(r.Rest()), rule, once)
  {
    hide Obeys, Flat, Pairs, EncAll, Enc, Lookup, Head;
    ghost var s, here := r.data[start..], r.Rest();
    assert here == s[|EncAll(Flat(ps))|..];
    ok, key := r.GetUint();
    if ok {
      KeyRead(r, start, ps, pairs, Uint(key), here, rule, once);
    } else {
      forall qs: seq<Pair> | Holds(qs, pairs, rule, once, s)
        ensures false
      {
        NextPair(ps, qs, rule, once, s);
        IsNumberKey(rule, qs[|ps|].key, qs[|ps|].value);
      }
    }
  }

  /** Enters the pair whose key and value were read. */
  lemma TakePair(r: Reader, start: nat, ps: seq<Pair>, key: Item, v: Item, here: seq<byte>, rule: Rule, once: set<Item>)
    requires r.Valid() && !r.failed && start <= |r.data| && Holds(ps, |ps|, rule, once, r.data[start..])
    requires here == r.data[start..][|EncAll(Flat(ps))|..] && Begins(here, key) && Begins(here[|Enc(key)|..], v)
    requires r.offset == start + |EncAll(Flat(ps))| + |Enc(key)| + |Enc(v)|
    requires rule(key, v) && (key in once ==> Lookup(ps, key).None?)
    ensures At(r, start, ps + [Pair(key, v)], rule, once)
    ensures forall k :: Lookup(ps + [Pair(key, v)], k) ==
                        if Lookup(ps, k).Some? then Lookup(ps, k) else if key == k then Some(v) else None
  {
    OnePair(ps, Pair(key, v), rule, once, r.data[start..]);
  }

  /** The map that was walked through. */
  lemma WalkedMap(s: seq<byte>, ps: seq<Pair>, rule: Rule, once: set<Item>)
    requires |ps| <= MAX_ITEMS && Head(5, |ps|) <= s && Holds(ps, |ps|, rule, once, s[|Head(5, |ps|)|..])
    ensures var x := Map(Flat(ps));
            && IsMap(x, rule, once) && Begins(s, x) && Pairs(x.items) == ps
            && |Enc(x)| == |Head(5, |ps|)| + |EncAll(Flat(ps))|
  {
    PairsOfFlat(ps);
    PrefixOfWhole(Head(5, |ps|), EncAll(Flat(ps)), s);
  }

  // ---- where a map first goes wrong

  /** No map of a size the firmware takes begins here. */
  ghost predicate NoMap(s: seq<byte>) {
    forall n: u64 | n <= MAX_ITEMS :: !(Head(5, n) <= s)
  }

  ghost predicate NoText(s: seq<byte>) {
    forall d: seq<byte> :: !Begins(s, Text(d))
  }

  ghost predicate NoNumber(s: seq<byte>) {
    forall n: u64 :: !Begins(s, Uint(n))
  }

  /** A map of `pairs` pairs begins at `s`; the first of them are `ps`, and the rest goes on at `here`. */
  ghost predicate WalksTo(s: seq<byte>, pairs: nat, ps: seq<Pair>, here: seq<byte>, rule: Rule, once: set<Item>) {
    && pairs <= MAX_ITEMS && Head(5, pairs) <= s && |ps| < pairs
    && var t := s[|Head(5, pairs)|..];
    && Holds(ps, |ps|, rule, once, t) && here == t[|EncAll(Flat(ps))|..]
  }

  /** What can be wrong with the value of a key, given the pairs before it. */
  type Fault = (seq<byte>, Item, seq<Pair>, int) -> bool

  /** What is wrong with a pair: a key that is no text, or its value. */
  ghost predicate PairFault(here: seq<byte>, ps: seq<Pair>, fault: Fault, status: int) {
    if NoText(here) then status == UNEXPECTED_TYPE
    else exists key: seq<byte> :: Begins(here, Text(key)) && fault(here[|Enc(Text(key))|..], Text(key), ps, status)
  }

  /** The status of a map that is refused is that of the first thing wrong with it. */
  ghost predicate MapFault(s: seq<byte>, rule: Rule, once: set<Item>, fault: Fault, status: int) {
    if NoMap(s) then status == UNEXPECTED_TYPE
    else exists pairs: nat, ps: seq<Pair>, here: seq<byte> ::
           WalksTo(s, pairs, ps, here, rule, once) && PairFault(here, ps, fault, status)
  }

  /** A fault names one status, and is one: no value that the rule allows stands there. */
  ghost predicate Faithful(rule: Rule, once: set<Item>, fault: Fault) {
    && TextKeys(rule)
    && (forall rest, key, ps, a, b :: fault(rest, key, ps, a) && fault(rest, key, ps, b) ==> a == b)
    && (forall rest, key, ps, a, w :: fault(rest, key, ps, a) && rule(key, w) && Begins(rest, w) ==>
          key in once && Lookup(ps, key).Some?)
  }

  /** The first thing wrong with a map is where the longest walk through it ends. */
  lemma FaultEndsWalk(s: seq<byte>, pairs: nat, ps: seq<Pair>, here: seq<byte>, qs: seq<Pair>,
                      rule: Rule, once: set<Item>, fault: Fault, status: int)
    requires Faithful(rule, once, fault)
    requires WalksTo(s, pairs, ps, here, rule, once) && PairFault(here, ps, fault, status)
    requires Holds(qs, |qs|, rule, once, s[|Head(5, pairs)|..])
    ensures |qs| <= |ps|
  {
    hide Obeys, Flat, Pairs, EncAll, Enc, Lookup, Head;
    if |qs| > |ps| {
      NextPair(ps, qs, rule, once, s[|Head(5, pairs)|..]);
      var next := qs[|ps|];
      IsTextKey(rule, next.key, next.value);
      assert Begins(here, Text(next.key.data));
      var key: seq<byte> :| Begins(here, Text(key)) && fault(here[|Enc(Text(key))|..], Text(key), ps, status);
      BeginsUnique(here, Text(key), next.key);
    }
  }

  /** The status a refused map has is the only one. */
  lemma MapFaultUnique(s: seq<byte>, rule: Rule, once: set<Item>, fault: Fault, a: int, b: int)
    requires Faithful(rule, once, fault) && MapFault(s, rule, once, fault, a) && MapFault(s, rule, once, fault, b)
    ensures a == b
  {
    hide Obeys, Flat, Pairs, EncAll, Enc, Lookup, Head, PairFault, Holds;
    if !NoMap(s) {
      var n: nat, ps, here :| WalksTo(s, n, ps, here, rule, once) && PairFault(here, ps, fault, a);
      var m: nat, qs, there :| WalksTo(s, m, qs, there, rule, once) && PairFault(there, qs, fault, b);
      HeadUnique(5, n, 5, m, s);
      FaultEndsWalk(s, n, ps, here, qs, rule, once, fault, a);
      FaultEndsWalk(s, n, qs, there, ps, rule, once, fault, b);
      SameWalk(ps, qs, |ps|, rule, once, s[|Head(5, n)|..]);
      PairFaultUnique(here, ps, rule, once, fault, a, b);
    }
  }

  lemma PairFaultUnique(here: seq<byte>, ps: seq<Pair>, rule: Rule, once: set<Item>, fault: Fault, a: int, b: int)
    requires Faithful(rule, once, fault) && PairFault(here, ps, fault, a) && PairFault(here, ps, fault, b)
    ensures a == b
  {
    hide Enc, Lookup;
    if !NoText(here) {
      var j: seq<byte> :| Begins(here, Text(j)) && fault(here[|Enc(Text(j))|..], Text(j), ps, a);
      var k: seq<byte> :| Begins(here, Text(k)) && fault(here[|Enc(Text(k))|..], Text(k), ps, b);
      BeginsUnique(here, Text(j), Text(k));
    }
  }

  /** A map that is accepted has no fault. */
  lemma MapFaultExcludes(s: seq<byte>, x: Item, rule: Rule, once: set<Item>, fault: Fault, status: int)
    requires Faithful(rule, once, fault) && IsMap(x, rule, once) && Begins(s, x)
    ensures !MapFault(s, rule, once, fault, status)
  {
    hide Obeys, Flat, Pairs, EncAll, Enc, Lookup, Head, PairFault, Holds;
    MapOpens(s, x, rule, once);
    var qs := Pairs(x.items);
    if MapFault(s, rule, once, fault, status) {
      assert !NoMap(s);
      var n: nat, ps, here :| WalksTo(s, n, ps, here, rule, once) && PairFault(here, ps, fault, status);
      HeadUnique(5, n, 5, |qs|, s);
      FaultEndsWalk(s, n, ps, here, qs, rule, once, fault, status);
    }
  }

  /** Two walks of the same length through the same bytes saw the same pairs. */
  lemma SameWalk(ps: seq<Pair>, qs: seq<Pair>, n: nat, rule: Rule, once: set<Item>, s: seq<byte>)
    requires Holds(ps, n, rule, once, s) && Holds(qs, n, rule, once, s)
    ensures ps == qs
  {
    EncAllUnique(Flat(ps), Flat(qs), s);
    PairsOfFlat(ps);
    PairsOfFlat(qs);
  }

  lemma AnythingFaithful()
    ensures Faithful(Anything, {}, AnythingFault)
  {
  }

  lemma NoMapIsFault(s: seq<byte>, rule: Rule, once: set<Item>, fault: Fault)
    ensures NoMap(s) ==> MapFault(s, rule, once, fault, UNEXPECTED_TYPE)
  {
  }

  lemma KeyIsFault(s: seq<byte>, pairs: nat, ps: seq<Pair>, here: seq<byte>, rule: Rule, once: set<Item>, fault: Fault)
    requires WalksTo(s, pairs, ps, here, rule, once) && NoText(here) && !NoMap(s)
    ensures MapFault(s, rule, once, fault, UNEXPECTED_TYPE)
  {
  }

  lemma ValueIsFault(s: seq<byte>, pairs: nat, ps: seq<Pair>, here: seq<byte>, key: seq<byte>,
                     rule: Rule, once: set<Item>, fault: Fault, status: int)
    requires WalksTo(s, pairs, ps, here, rule, once) && Begins(here, Text(key)) && !NoMap(s)
    requires fault(here[|Enc(Text(key))|..], Text(key), ps, status)
    ensures MapFault(s, rule, once, fault, status)
  {
  }

  ghost predicate NothingFits(s: seq<byte>) {
    forall v :: !(Fits(v, 0) && Begins(s, v))
  }

  lemma AtWalksTo(r: Reader, s: seq<byte>, start: nat, pairs: nat, ps: seq<Pair>, rule: Rule, once: set<Item>)
    requires At(r, start, ps, rule, once) && |ps| < pairs <= MAX_ITEMS
    requires Head(5, pairs) <= s && r.data[start..] == s[|Head(5, pairs)|..]
    ensures WalksTo(s, pairs, ps, r.Rest(), rule, once)
  {
  }

  // ---- what a map holds is part of its bytes

  ghost predicate Occurs(part: seq<byte>, whole: seq<byte>) {
    exists a, b :: whole == a + part + b
  }

  lemma OccursIn(a: seq<byte>, part: seq<byte>, b: seq<byte>, whole: seq<byte>)
    requires whole == a + part + b
    ensures Occurs(part, whole)
  {
  }

  lemma OccursWithin(part: seq<byte>, middle: seq<byte>, whole: seq<byte>)
    requires Occurs(part, middle) && Occurs(middle, whole)
    ensures Occurs(part, whole)
  {
    var a, b :| middle == a + part + b;
    var c, d :| whole == c + middle + d;
    assert whole == (c + a) + part + (b + d);
  }

  lemma {:induction false} MemberOccurs(xs: seq<Item>, x: Item)
    requires (forall y :: y in xs ==> Wf(y)) && x in xs
    ensures Occurs(Enc(x), EncAll(xs))
    decreases xs
  {
    var head, tail := Enc(xs[0]), EncAll(xs[1..]);
    if x == xs[0] {
      OccursIn([], head, tail, EncAll(xs));
    } else {
      MemberOccurs(xs[1..], x);
      OccursIn(head, tail, [], EncAll(xs));
      OccursWithin(Enc(x), tail, EncAll(xs));
    }
  }

  lemma BodyOccurs(x: Item)
    requires Wf(x)
    ensures Occurs(Body(x), Enc(x))
  {
    EncParts(x);
    OccursIn(Head(MajorOf(x), ArgumentOf(x)), Body(x), [], Enc(x));
  }

  lemma {:induction false} LookupIsMember(ps: seq<Pair>, key: Item)
    ensures Lookup(ps, key).Some? ==> Lookup(ps, key).value in Flat(ps)
  {
    if ps != [] {
      LookupIsMember(ps[..|ps| - 1], key);
    }
  }

  /** The value a map gives a key is encoded somewhere in the map's own bytes. */
  lemma FieldOccurs(x: Item, key: Item)
    requires x.Map? && Wf(x) && Field(x, key).Some?
    ensures Wf(Field(x, key).value) && Occurs(Enc(Field(x, key).value), Enc(x))
  {
    LookupIsMember(Pairs(x.items), key);
    FlatOfPairs(x.items);
    var v := Field(x, key).value;
    MemberOccurs(x.items, v);
    BodyOccurs(x);
    OccursWithin(Enc(v), EncAll(x.items), Enc(x));
  }

  // ---- walking through an array

  /** `s` begins with these items, all of which are good ones. */
  predicate HoldsAll(xs: seq<Item>, good: Item -> bool, s: seq<byte>) {
    (forall y :: y in xs ==> Wf(y) && good(y)) && EncAll(xs) <= s
  }

  /** The reader stands behind the items `xs`, the first of which begins at `start`. */
  ghost predicate AtItems(r: Reader, start: nat, xs: seq<Item>, good: Item -> bool)
    reads r
  {
    && r.Valid() && !r.failed && start <= |r.data|
    && HoldsAll(xs, good, r.data[start..]) && r.offset == start + |EncAll(xs)|
  }

  lemma TakeItem(r: Reader, start: nat, xs: seq<Item>, y: Item, good: Item -> bool)
    requires r.Valid() && !r.failed && start <= |r.data| && HoldsAll(xs, good, r.data[start..])
    requires good(y) && Begins(r.data[start..][|EncAll(xs)|..], y)
    requires r.offset == start + |EncAll(xs)| + |Enc(y)|
    ensures AtItems(r, start, xs + [y], good)
  {
    AppendItem(xs, y, r.data[start..]);
  }

  /** No array of a size the firmware takes begins here. */
  ghost predicate NoArray(s: seq<byte>) {
    forall n: u64 | n <= MAX_ITEMS :: !(Head(4, n) <= s)
  }

  /** An array of `count` items begins at `s`; the first of them are `xs`, and the rest goes on at `here`. */
  ghost predicate ItemsTo(s: seq<byte>, count: nat, xs: seq<Item>, here: seq<byte>, good: Item -> bool) {
    && count <= MAX_ITEMS && Head(4, count) <= s && |xs| < count
    && var t := s[|Head(4, count)|..];
    && HoldsAll(xs, good, t) && here == t[|EncAll(xs)|..]
  }

  /** What can be wrong with an item of a list. */
  type ItemFault = (seq<byte>, int) -> bool

  ghost predicate FaithfulItem(good: Item -> bool, fault: ItemFault) {
    && (forall here, a, b :: fault(here, a) && fault(here, b) ==> a == b)
    && (forall here, a, y :: fault(here, a) && good(y) ==> !Begins(here, y))
  }

  /** The status of the first item of a list that is not as it should be. */
  ghost predicate ListFault(s: seq<byte>, good: Item -> bool, fault: ItemFault, status: int) {
    exists count: nat, xs: seq<Item>, here: seq<byte> :: ItemsTo(s, count, xs, here, good) && fault(here, status)
  }

  lemma FaultEndsItems(s: seq<byte>, count: nat, xs: seq<Item>, here: seq<byte>, ys: seq<Item>,
                       good: Item -> bool, fault: ItemFault, status: int)
    requires FaithfulItem(good, fault) && ItemsTo(s, count, xs, here, good) && fault(here, status)
    requires HoldsAll(ys, good, s[|Head(4, count)|..])
    ensures |ys| <= |xs|
  {
    hide EncAll, Enc, Head;
    if |ys| > |xs| {
      NextItem(xs, ys, s[|Head(4, count)|..]);
    }
  }

  lemma ListFaultUnique(s: seq<byte>, good: Item -> bool, fault: ItemFault, a: int, b: int)
    requires FaithfulItem(good, fault) && ListFault(s, good, fault, a) && ListFault(s, good, fault, b)
    ensures a == b
  {
    hide EncAll, Enc, Head;
    var n: nat, xs, here :| ItemsTo(s, n, xs, here, good) && fault(here, a);
    var m: nat, ys, there :| ItemsTo(s, m, ys, there, good) && fault(there, b);
    HeadUnique(4, n, 4, m, s);
    FaultEndsItems(s, n, xs, here, ys, good, fault, a);
    FaultEndsItems(s, n, ys, there, xs, good, fault, b);
    EncAllUnique(xs, ys, s[|Head(4, n)|..]);
  }

  lemma ListFaultExcludes(s: seq<byte>, x: Item, good: Item -> bool, fault: ItemFault, status: int)
    requires FaithfulItem(good, fault) && x.Array? && (forall y :: y in x.items ==> good(y)) && Begins(s, x)
    ensures !ListFault(s, good, fault, status)
  {
    hide EncAll, Enc, Head;
    ArrayOpens(s, x);
    if ListFault(s, good, fault, status) {
      var n: nat, xs, here :| ItemsTo(s, n, xs, here, good) && fault(here, status);
      HeadUnique(4, n, 4, |x.items|, s);
      FaultEndsItems(s, n, xs, here, x.items, good, fault, status);
    }
  }

  lemma AtItemsTo(r: Reader, s: seq<byte>, start: nat, count: nat, xs: seq<Item>, good: Item -> bool)
    requires AtItems(r, start, xs, good) && |xs| < count <= MAX_ITEMS
    requires Head(4, count) <= s && r.data[start..] == s[|Head(4, count)|..]
    ensures ItemsTo(s, count, xs, r.Rest(), good)
  {
  }

  lemma NoItems(s: seq<byte>)
    ensures EncAll([]) == [] && s[0..] == s
  {
  }

  lemma ArrayOpens(s: seq<byte>, x: Item)
    requires x.Array? && Begins(s, x)
    ensures Head(4, |x.items|) <= s && EncAll(x.items) <= s[|Head(4, |x.items|)|..]
  {
    HeadOfItem(s, x);
  }

  /** Behind the head of an array stand the members of any array that begins there. */
  lemma ArrayOpened(s: seq<byte>, count: nat)
    requires count <= MAX_ITEMS && Head(4, count) <= s
    ensures forall x: Item | x.Array? && Begins(s, x) :: |x.items| == count && EncAll(x.items) <= s[|Head(4, count)|..]
    ensures forall n: u64 | Head(4, n) <= s :: n == count
  {
    forall n: u64 | Head(4, n) <= s
      ensures n == count
    {
      HeadUnique(4, n, 4, count, s);
    }
    forall x: Item | x.Array? && Begins(s, x)
      ensures |x.items| == count && EncAll(x.items) <= s[|Head(4, count)|..]
    {
      ArrayOpens(s, x);
    }
  }

  lemma WalkedArray(s: seq<byte>, xs: seq<Item>)
    requires |xs| <= MAX_ITEMS && (forall y :: y in xs ==> Wf(y))
    requires Head(4, |xs|) <= s && EncAll(xs) <= s[|Head(4, |xs|)|..]
    ensures Begins(s, Array(xs)) && |Enc(Array(xs))| == |Head(4, |xs|)| + |EncAll(xs)|
  {
    PrefixOfWhole(Head(4, |xs|), EncAll(xs), s);
  }

  // ---- members of a map nobody looks at

  /** Any item the reader can skip. */
  predicate Anything(key: Item, v: Item) {
    key.Text? && Fits(v, 0)
  }

  ghost predicate AnythingFault(rest: seq<byte>, key: Item, ps: seq<Pair>, status: int) {
    status == INVALID_CBOR && NothingFits(rest)
  }

  method ReadIgnoredMap(r: Reader) returns (status: int, ghost x: Item)
    requires r.Valid()
    modifies r
    ensures r.Valid()
    ensures status == OK <==> !old(r.failed) && exists y :: IsMap(y, Anything, {}) && Begins(old(r.Rest()), y)
    ensures status == OK ==> !r.failed && IsMap(x, Anything, {}) && Begins(old(r.Rest()), x)
                             && r.offset == old(r.offset) + |Enc(x)|
    ensures status != OK && !old(r.failed) ==> MapFault(old(r.Rest()), Anything, {}, AnythingFault, status)
    ensures status in {OK, UNEXPECTED_TYPE, INVALID_CBOR}
  {
    hide Obeys, Flat, Pairs, EncAll, Enc, Lookup, Head, WalksTo;
    x := Bool(false);
    ghost var s := r.Rest();
    var had, pairs := OpenMap(r, Anything, {});
    if !had {
      return UNEXPECTED_TYPE, x;
    }
    ghost var start, ps: seq<Pair> := r.offset, [];
    for i := 0 to pairs
      invariant At(r, start, ps, Anything, {}) && |ps| == i
    {
      ghost var here := r.Rest();
      AtWalksTo(r, s, start, pairs, ps, Anything, {});
      var ok, key := ReadKey(r, start, ps, pairs, Anything, {});
      if !ok {
        return UNEXPECTED_TYPE, x;
      }
      ghost var v: Item;
      ok, v := r.Skip();
      if !ok {
        return INVALID_CBOR, x;
      }
      TakePair(r, start, ps, Text(key), v, here, Anything, {});
      ps := ps + [Pair(Text(key), v)];
    }
    WalkedMap(old(r.Rest()), ps, Anything, {});
    x := Map(Flat(ps));
    status := OK;
  }
}
