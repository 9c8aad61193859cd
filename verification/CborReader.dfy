/** The bounded canonical CBOR reader, which advances through a request in place. */
module CborReader {
  import opened Bytes
  import opened CborItem

  /** `s` begins with the encoding of `i`. */
  predicate Begins(s: seq<byte>, i: Item) {
    Wf(i) && Enc(i) <= s
  }

  lemma BeginsUnique(s: seq<byte>, a: Item, b: Item)
    requires Begins(s, a) && Begins(s, b)
    ensures a == b
  {
    EncUnique(a, b, s);
  }

  lemma OnlyItem(s: seq<byte>, v: Item)
    requires Begins(s, v)
    ensures forall w | Begins(s, w) :: w == v
  {
    forall w | Begins(s, w)
      ensures w == v
    {
      BeginsUnique(s, v, w);
    }
  }

  lemma HeadOfItem(s: seq<byte>, i: Item)
    requires Begins(s, i)
    ensures var h := Head(MajorOf(i), ArgumentOf(i));
            h <= s && Body(i) <= s[|h|..] && |Enc(i)| == |h| + |Body(i)|
  {
    EncParts(i);
    PrefixOfConcat(Head(MajorOf(i), ArgumentOf(i)), Body(i), s);
  }

  /** A head that stands where an item does is that item's. */
  lemma HeadOfSame(s: seq<byte>, i: Item, major: Major, value: u64)
    requires Begins(s, i) && Head(major, value) <= s
    ensures major == MajorOf(i) && value == ArgumentOf(i)
  {
    HeadOfItem(s, i);
    HeadUnique(major, value, MajorOf(i), ArgumentOf(i), s);
  }

  /** The offset stands behind a string head whose length no request can hold. */
  predicate StoppedAtLongString(data: seq<byte>, start: nat, offset: nat) {
    exists p: nat, m: Major, v: u64 :: start <= p <= offset <= |data| && IsLongString(m, v) && Head(m, v) == data[p..offset]
  }

  predicate IsLongString(major: Major, value: u64) {
    (major == 2 || major == 3) && value > MAX_BYTES
  }

  predicate StartsWithLongString(s: seq<byte>) {
    exists m: Major, v: u64 :: IsLongString(m, v) && Head(m, v) <= s
  }

  /** `s` begins with `count` items that fit one level below `depth`. */
  predicate HoldsItems(xs: seq<Item>, count: nat, depth: nat, s: seq<byte>) {
    |xs| == count && (forall x :: x in xs ==> Fits(x, depth + 1)) && EncAll(xs) <= s
  }

  /** Two lists of items that stand at the same place agree as far as both go. */
  lemma {:induction false} NextItem(xs: seq<Item>, ys: seq<Item>, s: seq<byte>)
    requires forall x :: x in xs ==> Wf(x)
    requires forall y :: y in ys ==> Wf(y)
    requires |xs| < |ys| && EncAll(xs) <= s && EncAll(ys) <= s
    ensures xs == ys[..|xs|] && ys[|xs|] in ys && Begins(s[|EncAll(xs)|..], ys[|xs|])
  {
    var n := |xs|;
    assert ys == ys[..n] + ys[n..];
    EncAllAppend(ys[..n], ys[n..]);
    PrefixOfConcat(EncAll(ys[..n]), EncAll(ys[n..]), s);
    EncAllUnique(xs, ys[..n], s);
    PrefixOfConcat(Enc(ys[n]), EncAll(ys[n + 1..]), s[|EncAll(xs)|..]);
    assert ys[n..][1..] == ys[n + 1..];
  }

  /** Extends a list of items by the item that follows it. */
  lemma AppendItem(xs: seq<Item>, x: Item, s: seq<byte>)
    requires forall y :: y in xs ==> Wf(y)
    requires EncAll(xs) <= s && Begins(s[|EncAll(xs)|..], x)
    ensures forall y :: y in xs + [x] ==> Wf(y)
    ensures EncAll(xs + [x]) == EncAll(xs) + Enc(x) <= s
  {
    EncAllAppend(xs, [x]);
    EncAllOne(x);
    PrefixOfWhole(EncAll(xs), Enc(x), s);
  }

  lemma PrefixOfWhole(a: seq<byte>, b: seq<byte>, s: seq<byte>)
    requires a <= s && b <= s[|a|..]
    ensures a + b <= s
  {
    assert s == a + s[|a|..];
  }

  /** A container fits where its members do one level down. */
  lemma ContainerFits(i: Item, depth: nat)
    requires (i.Array? && |i.items| <= MAX_ITEMS) || (i.Map? && |i.items| <= 2 * MAX_ITEMS && |i.items| % 2 == 0)
    requires depth <= MAX_DEPTH && forall x :: x in i.items ==> Fits(x, depth + 1)
    ensures Fits(i, depth)
  {
    HeightAllBound(i.items, MAX_DEPTH - depth);
  }

  lemma ContainerHolds(i: Item, depth: nat)
    requires (i.Array? || i.Map?) && Fits(i, depth)
    ensures forall x :: x in i.items ==> Fits(x, depth + 1)
  {
    forall x | x in i.items
      ensures Fits(x, depth + 1)
    {
      HeightOfAll(i.items, x);
    }
  }

  class Reader {
    const data: seq<byte>
    var offset: nat
    var failed: bool

    ghost predicate Valid()
      reads this
    {
      offset <= |data|
    }

    ghost function Rest(): seq<byte>
      reads this
      requires Valid()
    {
      data[offset..]
    }

    constructor (data: seq<byte>)
      ensures Valid() && this.data == data && offset == 0
      ensures failed <==> |data| > MAX_BYTES
    {
      this.data := data;
      offset := 0;
      failed := |data| > MAX_BYTES;
    }

    method Take(n: nat) returns (ok: bool, taken: seq<byte>)
      requires Valid()
      modifies this
      ensures Valid()
      ensures ok <==> !old(failed) && n <= |old(Rest())|
      ensures ok ==> taken == old(Rest())[..n] && offset == old(offset) + n && !failed
      ensures !ok ==> failed && offset == old(offset)
    {
      if failed || n > |data| - offset {
        failed := true;
        return false, [];
      }
      taken := data[offset..offset + n];
      offset := offset + n;
      ok := true;
    }

    /** Reads one head; anything but the shortest encoding of its argument is refused. */
    method ReadHead() returns (ok: bool, major: Major, value: u64)
      requires Valid()
      modifies this
      ensures Valid()
      ensures ok ==> !old(failed) && !failed && Head(major, value) <= old(Rest())
                     && offset == old(offset) + |Head(major, value)|
      ensures !ok ==> failed && (!old(failed) ==> forall m: Major, v: u64 :: !(Head(m, v) <= old(Rest())))
      ensures old(failed) ==> offset == old(offset)
    {
      major, value := 0, 0;
      ghost var rest, wasFailed := Rest(), failed;
      var had, first := Take(1);
      if !had {
        return false, 0, 0;
      }
      var bytes := ArgumentBytes(first[0]);
      forall m: Major, v: u64 | Head(m, v) <= rest
        ensures bytes == Some(|Head(m, v)| - 1) && (bytes.value > 0 ==> BigEndian(rest[1..1 + bytes.value]) == v)
      {
        HeadFields(m, v);
        assert Head(m, v) == rest[..|Head(m, v)|];
        assert Head(m, v)[1..] == rest[1..|Head(m, v)|];
      }
      if bytes.None? {
        failed := true;
        return false, 0, 0;
      }
      major := first[0] / 0x20;
      if bytes.value == 0 {
        value := first[0] % 0x20;
        assert Head(major, value) == rest[..1];
        return true, major, value;
      }
      assert Rest() == rest[1..];
      var got, encoded := Take(bytes.value);
      if !got {
        return false, 0, 0;
      }
      assert encoded == rest[1..][..bytes.value] == rest[1..1 + bytes.value];
      var decoded := Decode(encoded);
      if decoded < Least(bytes.value) {
        forall m: Major, v: u64 | Head(m, v) <= rest
          ensures false
        {
        }
        failed := true;
        return false, 0, 0;
      }
      value := decoded;
      DecodedHead(first[0], encoded);
      assert Head(major, value) == rest[..1 + bytes.value];
      ok := true;
    }

    // ---- containers and scalars

    method GetContainer(expected: Major) returns (ok: bool, count: nat)
      requires Valid()
      modifies this
      ensures Valid()
      ensures ok <==> !old(failed) && exists n: u64 :: n <= MAX_ITEMS && Head(expected, n) <= old(Rest())
      ensures ok ==> !failed && count <= MAX_ITEMS && Head(expected, count) <= old(Rest())
                     && offset == old(offset) + |Head(expected, count)|
      ensures !ok ==> failed
      ensures old(failed) ==> offset == old(offset)
    {
      ghost var rest := Rest();
      var had, major, value := ReadHead();
      if !had || major != expected || value > MAX_ITEMS {
        if had {
          forall n: u64 | n <= MAX_ITEMS && Head(expected, n) <= rest
            ensures false
          {
            HeadUnique(expected, n, major, value, rest);
          }
        }
        failed := true;
        return false, 0;
      }
      return true, value;
    }

    method GetMap() returns (ok: bool, pairs: nat)
      requires Valid()
      modifies this
      ensures Valid()
      ensures ok <==> !old(failed) && exists n: u64 :: n <= MAX_ITEMS && Head(5, n) <= old(Rest())
      ensures ok ==> !failed && pairs <= MAX_ITEMS && Head(5, pairs) <= old(Rest())
                     && offset == old(offset) + |Head(5, pairs)|
      ensures !ok ==> failed
      ensures old(failed) ==> offset == old(offset)
    {
      ok, pairs := GetContainer(5);
    }

    method GetArray() returns (ok: bool, items: nat)
      requires Valid()
      modifies this
      ensures Valid()
      ensures ok <==> !old(failed) && exists n: u64 :: n <= MAX_ITEMS && Head(4, n) <= old(Rest())
      ensures ok ==> !failed && items <= MAX_ITEMS && Head(4, items) <= old(Rest())
                     && offset == old(offset) + |Head(4, items)|
      ensures !ok ==> failed
      ensures old(failed) ==> offset == old(offset)
    {
      ok, items := GetContainer(4);
    }

    method GetUint() returns (ok: bool, value: u64)
      requires Valid()
      modifies this
      ensures Valid()
      ensures ok <==> !old(failed) && exists v: u64 :: Begins(old(Rest()), Uint(v))
      ensures ok ==> !failed && Begins(old(Rest()), Uint(value)) && offset == old(offset) + |Enc(Uint(value))|
      ensures !ok ==> failed
      ensures old(failed) ==> offset == old(offset)
    {
      ghost var rest := Rest();
      var had, major, v := ReadHead();
      if !had || major != 0 {
        forall w: u64 | had && Begins(rest, Uint(w))
          ensures false
        {
          HeadOfSame(rest, Uint(w), major, v);
        }
        failed := true;
        return false, 0;
      }
      assert Begins(rest, Uint(v));
      return true, v;
    }

    method GetInt() returns (ok: bool, value: i64)
      requires Valid()
      modifies this
      ensures Valid()
      ensures ok <==> !old(failed) && exists v: i64 :: Begins(old(Rest()), IntItem(v))
      ensures ok ==> !failed && Begins(old(Rest()), IntItem(value)) && offset == old(offset) + |Enc(IntItem(value))|
      ensures !ok ==> failed
      ensures old(failed) ==> offset == old(offset)
    {
      ghost var rest := Rest();
      var had, major, encoded := ReadHead();
      if !had || (major != 0 && major != 1) || encoded > 0x7fff_ffff_ffff_ffff {
        forall v: i64 | had && Begins(rest, IntItem(v))
          ensures false
        {
          HeadOfSame(rest, IntItem(v), major, encoded);
        }
        failed := true;
        return false, 0;
      }
      var narrow: i64 := encoded;
      value := if major == 0 then narrow else -1 - narrow;
      assert Begins(rest, IntItem(value));
      ok := true;
    }

    method GetBool() returns (ok: bool, value: bool)
      requires Valid()
      modifies this
      ensures Valid()
      ensures ok <==> !old(failed) && exists v: bool :: Begins(old(Rest()), Bool(v))
      ensures ok ==> !failed && Begins(old(Rest()), Bool(value)) && offset == old(offset) + |Enc(Bool(value))|
      ensures !ok ==> failed
      ensures old(failed) ==> offset == old(offset)
    {
      ghost var rest := Rest();
      var had, major, encoded := ReadHead();
      if !had || major != 7 || (encoded != 20 && encoded != 21) {
        forall v: bool | had && Begins(rest, Bool(v))
          ensures false
        {
          HeadOfSame(rest, Bool(v), major, encoded);
        }
        failed := true;
        return false, false;
      }
      value := encoded == 21;
      assert Begins(rest, Bool(value));
      ok := true;
    }

    method GetString(text: bool) returns (ok: bool, d: seq<byte>)
      requires Valid()
      modifies this
      ensures Valid()
      ensures ok <==> !old(failed) && exists x: seq<byte> :: Begins(old(Rest()), StringItem(text, x))
      ensures ok ==> !failed && Begins(old(Rest()), StringItem(text, d))
                     && offset == old(offset) + |Enc(StringItem(text, d))|
      ensures !ok ==> failed
      ensures old(failed) ==> offset == old(offset)
    {
      ghost var rest := Rest();
      var had, major, len := ReadHead();
      if !had || major != (if text then 3 else 2) || len > MAX_BYTES {
        forall x: seq<byte> | had && Begins(rest, StringItem(text, x))
          ensures false
        {
          HeadOfSame(rest, StringItem(text, x), major, len);
        }
        failed := true;
        return false, [];
      }
      ghost var h := Head(major, len);
      ok, d := Take(len);
      if ok {
        assert Enc(StringItem(text, d)) == h + d == rest[..|h| + len];
      } else {
        forall x: seq<byte> | Begins(rest, StringItem(text, x))
          ensures false
        {
          HeadOfSame(rest, StringItem(text, x), major, len);
          HeadOfItem(rest, StringItem(text, x));
        }
      }
    }

    method GetBytes() returns (ok: bool, d: seq<byte>)
      requires Valid()
      modifies this
      ensures Valid()
      ensures ok <==> !old(failed) && exists x: seq<byte> :: Begins(old(Rest()), Bytes(x))
      ensures ok ==> !failed && Begins(old(Rest()), Bytes(d)) && offset == old(offset) + |Enc(Bytes(d))|
      ensures !ok ==> failed
      ensures old(failed) ==> offset == old(offset)
    {
      ghost var rest := Rest();
      ok, d := GetString(false);
      assert forall x: seq<byte> :: Begins(rest, Bytes(x)) <==> Begins(rest, StringItem(false, x));
    }

    method GetText() returns (ok: bool, d: seq<byte>)
      requires Valid()
      modifies this
      ensures Valid()
      ensures ok <==> !old(failed) && exists x: seq<byte> :: Begins(old(Rest()), Text(x))
      ensures ok ==> !failed && Begins(old(Rest()), Text(d)) && offset == old(offset) + |Enc(Text(d))|
      ensures !ok ==> failed
      ensures old(failed) ==> offset == old(offset)
    {
      ghost var rest := Rest();
      ok, d := GetString(true);
      assert forall x: seq<byte> :: Begins(rest, Text(x)) <==> Begins(rest, StringItem(true, x));
    }

    // ---- skipping

    /** Stands right behind a head that was read from `rest`. */
    ghost predicate Behind(rest: seq<byte>, major: Major, value: u64)
      reads this
    {
      var n := |Head(major, value)|;
      Valid() && !failed && n <= offset && rest == data[offset - n..]
      && Head(major, value) <= rest && Rest() == rest[n..]
    }

    /**
      Skips one item of any supported kind that fits at this nesting depth, and nothing else.
      A refusal latches, except that of a string longer than a request can hold.
    */
    method SkipAt(depth: nat) returns (ok: bool, ghost item: Item)
      requires Valid()
      modifies this
      ensures Valid()
      ensures ok <==> !old(failed) && exists i :: Fits(i, depth) && Begins(old(Rest()), i)
      ensures ok ==> !failed && Fits(item, depth) && Begins(old(Rest()), item) && offset == old(offset) + |Enc(item)|
      ensures !ok && !failed ==> StoppedAtLongString(data, old(offset), offset)
      ensures !old(failed) && depth <= MAX_DEPTH && StartsWithLongString(old(Rest())) ==> !ok && !failed
      ensures old(failed) ==> failed && offset == old(offset)
      decreases MAX_DEPTH - depth
    {
      item := Bool(false);
      if depth > MAX_DEPTH {
        failed := true;
        return false, item;
      }
      ghost var start, rest := offset, Rest();
      var had, major, value := ReadHead();
      if !had {
        forall i | !old(failed) && Begins(rest, i)
          ensures false
        {
          HeadOfItem(rest, i);
        }
        return false, item;
      }
      assert Behind(rest, major, value);
      forall m: Major, v: u64 | Head(m, v) <= rest
        ensures m == major && v == value
      {
        HeadUnique(m, v, major, value, rest);
      }
      forall i | Begins(rest, i)
        ensures MajorOf(i) == major && ArgumentOf(i) == value
      {
        HeadOfSame(rest, i, major, value);
      }
      if major == 0 || major == 1 {
        item := if major == 0 then Uint(value) else Nint(value);
        assert Fits(item, depth) && Begins(rest, item);
        return true, item;
      }
      if major == 2 || major == 3 {
        ok, item := SkipString(rest, major, value);
        return ok, item;
      }
      if major == 4 || major == 5 {
        ok, item := SkipContainer(rest, major, value, depth);
        return ok, item;
      }
      if major == 7 && (value == 20 || value == 21) {
        item := Bool(value == 21);
        assert Fits(item, depth) && Begins(rest, item);
        return true, item;
      }
      failed := true;
      ok := false;
    }

    method SkipString(ghost rest: seq<byte>, major: Major, value: u64) returns (ok: bool, ghost item: Item)
      requires Behind(rest, major, value) && (major == 2 || major == 3)
      modifies this
      ensures Valid()
      ensures !ok ==> forall i :: !Begins(rest, i)
      ensures ok ==> !failed && Height(item) == 0 && Begins(rest, item)
                     && offset == old(offset) - |Head(major, value)| + |Enc(item)|
      ensures !ok && !failed ==> StoppedAtLongString(data, old(offset) - |Head(major, value)|, offset)
      ensures !ok && !failed <==> value > MAX_BYTES
    {
      item := Bool(false);
      ghost var h := Head(major, value);
      forall i | Begins(rest, i)
        ensures ArgumentOf(i) == value && |Body(i)| == value <= |Rest()| && value <= MAX_BYTES
      {
        HeadOfItem(rest, i);
        HeadOfSame(rest, i, major, value);
      }
      if value > MAX_BYTES {
        assert h == data[offset - |h|..offset];
        return false, item;
      }
      var taken: seq<byte>;
      ok, taken := Take(value);
      if ok {
        item := StringItem(major == 3, taken);
        assert Enc(item) == h + taken == rest[..|h| + value];
      }
    }

    method SkipContainer(ghost rest: seq<byte>, major: Major, value: u64, depth: nat)
      returns (ok: bool, ghost item: Item)
      requires Behind(rest, major, value) && (major == 4 || major == 5) && depth <= MAX_DEPTH
      modifies this
      ensures Valid()
      ensures !ok ==> forall i :: !(Fits(i, depth) && Begins(rest, i))
      ensures ok ==> !failed && Fits(item, depth) && Begins(rest, item)
                     && offset == old(offset) - |Head(major, value)| + |Enc(item)|
      ensures !ok && !failed ==> StoppedAtLongString(data, old(offset), offset)
      decreases MAX_DEPTH - depth, 1
    {
      item := Bool(false);
      ghost var h := Head(major, value);
      forall i | Fits(i, depth) && Begins(rest, i)
        ensures (i.Array? || i.Map?) && ArgumentOf(i) == value <= MAX_ITEMS
        ensures HoldsItems(i.items, if major == 5 then 2 * value else value, depth, Rest())
      {
        HeadOfItem(rest, i);
        HeadOfSame(rest, i, major, value);
        ContainerHolds(i, depth);
      }
      if value > MAX_ITEMS {
        failed := true;
        return false, item;
      }
      var count := if major == 5 then 2 * value else value;
      ghost var items: seq<Item>;
      ok, items := SkipItems(count, depth);
      if ok {
        item := if major == 4 then Array(items) else Map(items);
        ContainerFits(item, depth);
        PrefixOfWhole(h, EncAll(items), rest);
      }
    }

    /** Skips this many items one nesting level down. */
    method SkipItems(count: nat, depth: nat) returns (ok: bool, ghost items: seq<Item>)
      requires Valid() && !failed && depth <= MAX_DEPTH
      modifies this
      ensures Valid()
      ensures ok <==> exists xs :: HoldsItems(xs, count, depth, old(Rest()))
      ensures ok ==> !failed && HoldsItems(items, count, depth, old(Rest())) && offset == old(offset) + |EncAll(items)|
      ensures !ok && !failed ==> StoppedAtLongString(data, old(offset), offset)
      decreases MAX_DEPTH - depth, 0
    {
      items := [];
      ghost var rest := Rest();
      for i := 0 to count
        invariant Valid() && !failed
        invariant HoldsItems(items, i, depth, rest)
        invariant offset == old(offset) + |EncAll(items)|
      {
        ghost var item: Item;
        ghost var here := Rest();
        assert here == rest[|EncAll(items)|..];
        ok, item := SkipAt(depth + 1);
        if !ok {
          forall xs | HoldsItems(xs, count, depth, rest)
            ensures false
          {
            NextItem(items, xs, rest);
          }
          return false, items;
        }
        AppendItem(items, item, rest);
        items := items + [item];
      }
      ok := true;
    }

    method Skip() returns (ok: bool, ghost item: Item)
      requires Valid()
      modifies this
      ensures Valid()
      ensures ok <==> !old(failed) && exists i :: Fits(i, 0) && Begins(old(Rest()), i)
      ensures ok ==> !failed && Fits(item, 0) && Begins(old(Rest()), item) && offset == old(offset) + |Enc(item)|
      ensures !ok && !failed ==> StoppedAtLongString(data, old(offset), offset)
      ensures !old(failed) && StartsWithLongString(old(Rest())) ==> !ok && !failed
      ensures old(failed) ==> failed && offset == old(offset)
    {
      ok, item := SkipAt(0);
    }

    /** Everything was read and nothing was refused. */
    function Done(): (r: bool)
      reads this
      requires Valid()
      ensures r <==> !failed && Rest() == []
    {
      !failed && offset == |data|
    }
  }

  /** The least argument that needs this many bytes. */
  function Least(bytes: nat): nat {
    if bytes == 1 then 24
    else if bytes == 2 then 0x100
    else if bytes == 4 then 0x1_0000
    else if bytes == 8 then 0x1_0000_0000
    else 0
  }

  method Decode(encoded: seq<byte>) returns (decoded: u64)
    requires |encoded| in {1, 2, 4, 8}
    ensures decoded == BigEndian(encoded)
  {
    Powers();
    BigEndianBound(encoded);
    var total: nat := 0;
    for i := 0 to |encoded|
      invariant total == BigEndian(encoded[..i])
    {
      assert encoded[..i + 1][..i] == encoded[..i];
      total := total * 0x100 + encoded[i];
    }
    assert encoded[..|encoded|] == encoded;
    decoded := total;
  }

  lemma DecodedHead(first: byte, encoded: seq<byte>)
    requires ArgumentBytes(first) == Some(|encoded|) && |encoded| > 0 && BigEndian(encoded) >= Least(|encoded|)
    ensures BigEndian(encoded) < 0x1_0000_0000_0000_0000
    ensures Head(first / 0x20, BigEndian(encoded)) == [first] + encoded
  {
    Powers();
    BigEndianBound(encoded);
    EncodeOfBigEndian(encoded);
  }
}
