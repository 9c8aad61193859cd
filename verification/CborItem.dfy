/**
  CBOR data items and their one canonical encoding, for the subset the firmware uses: integers,
  byte and text strings, arrays, maps and booleans (sections 3 and 4.2.1 of RFC 8949).
*/
module CborItem {
  import opened Bytes

  const MAX_BYTES: int := 2048
  const MAX_ITEMS: int := 32
  const MAX_DEPTH: int := 8

  type Major = m: int | 0 <= m < 8

  /** A map is the list of its keys and values in turn. */
  datatype Item =
    | Uint(value: u64)
    | Nint(value: u64)
    | Bytes(data: seq<byte>)
    | Text(data: seq<byte>)
    | Array(items: seq<Item>)
    | Map(items: seq<Item>)
    | Bool(truth: bool)

  // ---- heads

  /** The shortest encoding of a major type with its argument. */
  function Head(major: Major, value: u64): (h: seq<byte>)
    ensures 1 <= |h| <= 9
  {
    if value < 24 then [major * 0x20 + value]
    else if value < 0x100 then [major * 0x20 + 24] + Encode(value, 1)
    else if value < 0x1_0000 then [major * 0x20 + 25] + Encode(value, 2)
    else if value < 0x1_0000_0000 then [major * 0x20 + 26] + Encode(value, 4)
    else [major * 0x20 + 27] + Encode(value, 8)
  }

  /** How many argument bytes follow a first byte, unless the encoding is reserved. */
  function ArgumentBytes(first: byte): Option<nat> {
    var additional := first % 0x20;
    if additional < 24 then Some(0)
    else if additional == 24 then Some(1)
    else if additional == 25 then Some(2)
    else if additional == 26 then Some(4)
    else if additional == 27 then Some(8)
    else None
  }

  lemma Powers()
    ensures Power256(1) == 0x100 && Power256(2) == 0x1_0000 && Power256(4) == 0x1_0000_0000
    ensures Power256(8) == 0x1_0000_0000_0000_0000
  {
    assert Power256(3) == 0x100_0000;
    assert Power256(4) == 0x1_0000_0000;
    assert Power256(5) == 0x100_0000_0000;
    assert Power256(6) == 0x1_0000_0000_0000;
    assert Power256(7) == 0x100_0000_0000_0000;
  }

  /** What the bytes of a head say about its major type and argument. */
  lemma HeadFields(major: Major, value: u64)
    ensures var h := Head(major, value);
            && h[0] / 0x20 == major && ArgumentBytes(h[0]) == Some(|h| - 1)
            && (|h| == 1 ==> h[0] % 0x20 == value)
            && (|h| > 1 ==> BigEndian(h[1..]) == value)
  {
    Powers();
    var h := Head(major, value);
    if value >= 24 {
      assert h[1..] == Encode(value, |h| - 1);
      BigEndianOfEncode(value, |h| - 1);
    }
  }

  /** No head is the beginning of another. */
  lemma HeadUnique(m1: Major, v1: u64, m2: Major, v2: u64, s: seq<byte>)
    requires Head(m1, v1) <= s && Head(m2, v2) <= s
    ensures m1 == m2 && v1 == v2
  {
    HeadFields(m1, v1);
    HeadFields(m2, v2);
    assert Head(m1, v1) == s[..|Head(m1, v1)|] && Head(m2, v2) == s[..|Head(m2, v2)|];
  }

  // ---- items

  function Enc(i: Item): (r: seq<byte>)
    requires Wf(i)
    ensures |r| >= 1
    decreases i
  {
    match i
    case Uint(v) => Head(0, v)
    case Nint(v) => Head(1, v)
    case Bytes(d) => Head(2, |d|) + d
    case Text(d) => Head(3, |d|) + d
    case Array(xs) => Head(4, |xs|) + EncAll(xs)
    case Map(xs) => Head(5, |xs| / 2) + EncAll(xs)
    case Bool(b) => if b then Head(7, 21) else Head(7, 20)
  }

  function EncAll(xs: seq<Item>): (r: seq<byte>)
    requires forall x :: x in xs ==> Wf(x)
    decreases xs
  {
    if xs == [] then [] else Enc(xs[0]) + EncAll(xs[1..])
  }

  /** Within the firmware's bounds on strings and containers. */
  predicate Wf(i: Item)
    decreases i
  {
    match i
    case Uint(_) => true
    case Nint(_) => true
    case Bytes(d) => |d| <= MAX_BYTES
    case Text(d) => |d| <= MAX_BYTES
    case Array(xs) => |xs| <= MAX_ITEMS && forall x :: x in xs ==> Wf(x)
    case Map(xs) => |xs| <= 2 * MAX_ITEMS && |xs| % 2 == 0 && forall x :: x in xs ==> Wf(x)
    case Bool(_) => true
  }

  /** How deep containers nest below the item. */
  function Height(i: Item): nat
    decreases i
  {
    match i
    case Array(xs) => HeightAll(xs)
    case Map(xs) => HeightAll(xs)
    case _ => 0
  }

  /** The height of a container of these items: zero when it is empty. */
  function HeightAll(xs: seq<Item>): nat
    decreases xs
  {
    if xs == [] then 0
    else
      var h, t := Height(xs[0]) + 1, HeightAll(xs[1..]);
      if h > t then h else t
  }

  /** An item the reader can skip when it stands at nesting depth `depth`. */
  predicate Fits(i: Item, depth: nat) {
    Wf(i) && depth + Height(i) <= MAX_DEPTH
  }

  lemma {:induction false} HeightOfAll(xs: seq<Item>, x: Item)
    requires x in xs
    ensures Height(x) + 1 <= HeightAll(xs)
    decreases xs
  {
    if x != xs[0] {
      HeightOfAll(xs[1..], x);
    }
  }

  lemma {:induction false} HeightAllBound(xs: seq<Item>, bound: nat)
    requires forall x :: x in xs ==> Height(x) + 1 <= bound
    ensures HeightAll(xs) <= bound
    decreases xs
  {
    if xs != [] {
      HeightAllBound(xs[1..], bound);
    }
  }

  lemma {:induction false} EncAllAppend(xs: seq<Item>, ys: seq<Item>)
    requires forall x :: x in xs ==> Wf(x)
    requires forall y :: y in ys ==> Wf(y)
    ensures forall z :: z in xs + ys ==> Wf(z)
    ensures EncAll(xs + ys) == EncAll(xs) + EncAll(ys)
    decreases xs
  {
    if xs == [] {
      assert xs + ys == ys;
    } else {
      EncAllAppend(xs[1..], ys);
      assert (xs + ys)[1..] == xs[1..] + ys;
    }
  }

  lemma EncAllOne(x: Item)
    requires Wf(x)
    ensures EncAll([x]) == Enc(x)
  {
    assert [x][1..] == [];
    assert EncAll([]) == [];
  }

  lemma EncTwo(a: Item, b: Item)
    requires Wf(a) && Wf(b)
    ensures EncAll([a, b]) == Enc(a) + Enc(b)
  {
    EncAllOne(b);
    assert [a, b][1..] == [b];
  }

  lemma EncFour(a: Item, b: Item, c: Item, d: Item)
    requires Wf(a) && Wf(b) && Wf(c) && Wf(d)
    ensures EncAll([a, b, c, d]) == Enc(a) + Enc(b) + Enc(c) + Enc(d)
  {
    EncTwo(a, b);
    EncTwo(c, d);
    EncAllAppend([a, b], [c, d]);
    assert [a, b, c, d] == [a, b] + [c, d];
  }

  /** The item that encodes a 64-bit signed integer. */
  function IntItem(v: i64): Item {
    if v >= 0 then Uint(v) else Nint(-(v + 1))
  }

  function StringItem(text: bool, d: seq<byte>): Item {
    if text then Text(d) else Bytes(d)
  }

  // ---- the encoding is prefix-free

  lemma PrefixOfConcat(a: seq<byte>, b: seq<byte>, s: seq<byte>)
    requires a + b <= s
    ensures a <= s && b <= s[|a|..]
  {
    assert s[..|a|] == (a + b)[..|a|];
    assert s[|a|..][..|b|] == (a + b)[|a|..];
  }

  function MajorOf(i: Item): Major {
    match i
    case Uint(_) => 0
    case Nint(_) => 1
    case Bytes(_) => 2
    case Text(_) => 3
    case Array(_) => 4
    case Map(_) => 5
    case Bool(_) => 7
  }

  function ArgumentOf(i: Item): u64
    requires Wf(i)
  {
    match i
    case Uint(v) => v
    case Nint(v) => v
    case Bytes(d) => |d|
    case Text(d) => |d|
    case Array(xs) => |xs|
    case Map(xs) => |xs| / 2
    case Bool(b) => if b then 21 else 20
  }

  function Body(i: Item): seq<byte>
    requires Wf(i)
  {
    match i
    case Bytes(d) => d
    case Text(d) => d
    case Array(xs) => EncAll(xs)
    case Map(xs) => EncAll(xs)
    case _ => []
  }

  /** Every item is a head and a body. */
  lemma EncParts(i: Item)
    requires Wf(i)
    ensures Enc(i) == Head(MajorOf(i), ArgumentOf(i)) + Body(i)
  {
  }

  /** A byte string begins with at most one item. */
  lemma {:induction false} EncUnique(a: Item, b: Item, s: seq<byte>)
    requires Wf(a) && Wf(b) && Enc(a) <= s && Enc(b) <= s
    ensures a == b
    decreases a
  {
    EncParts(a);
    EncParts(b);
    var ha, hb := Head(MajorOf(a), ArgumentOf(a)), Head(MajorOf(b), ArgumentOf(b));
    PrefixOfConcat(ha, Body(a), s);
    PrefixOfConcat(hb, Body(b), s);
    HeadUnique(MajorOf(a), ArgumentOf(a), MajorOf(b), ArgumentOf(b), s);
    match a
    case Array(xs) => EncAllUnique(xs, b.items, s[|ha|..]);
    case Map(xs) => EncAllUnique(xs, b.items, s[|ha|..]);
    case _ =>
  }

  lemma {:induction false} EncAllUnique(xs: seq<Item>, ys: seq<Item>, s: seq<byte>)
    requires forall x :: x in xs ==> Wf(x)
    requires forall y :: y in ys ==> Wf(y)
    requires |xs| == |ys| && EncAll(xs) <= s && EncAll(ys) <= s
    ensures xs == ys
    decreases xs
  {
    if xs != [] {
      PrefixOfConcat(Enc(xs[0]), EncAll(xs[1..]), s);
      PrefixOfConcat(Enc(ys[0]), EncAll(ys[1..]), s);
      EncUnique(xs[0], ys[0], s);
      EncAllUnique(xs[1..], ys[1..], s[|Enc(xs[0])|..]);
    }
  }
}
