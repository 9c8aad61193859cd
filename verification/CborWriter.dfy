/** The bounded canonical CBOR writer, which fills part of a buffer in place. */
module CborWriter {
  import opened Bytes
  import opened CborItem
  import opened CborReader

  lemma DivideTwice(v: nat, b: nat)
    requires b > 0
    ensures v / 0x100 / b == v / (0x100 * b)
  {
    var q, r := v / 0x100 / b, v / 0x100 % b;
    assert v / 0x100 == b * q + r;
    assert v == 0x100 * (b * q + r) + v % 0x100;
    assert 0x100 * (b * q) == 0x100 * b * q;
    var low := 0x100 * r + v % 0x100;
    assert v == 0x100 * b * q + low;
    QuotientIs(v, 0x100 * b, q, low);
  }

  lemma QuotientIs(v: nat, d: nat, q: nat, r: nat)
    requires d > 0 && r < d && v == d * q + r
    ensures v / d == q
  {
    var k := v / d;
    if k < q {
      Monotone(d, k + 1, q);
    } else if k > q {
      Monotone(d, q + 1, k);
    }
  }

  lemma Monotone(d: nat, a: nat, b: nat)
    requires a <= b
    ensures d * a <= d * b
  {
  }

  /** Every byte of a big-endian encoding is the value shifted down and cut off. */
  lemma {:induction false} EncodedByte(v: nat, n: nat, i: nat)
    requires i < n
    ensures Encode(v, n)[i] == v / Power256(n - 1 - i) % 0x100
  {
    if i != n - 1 {
      EncodedByte(v / 0x100, n - 1, i);
      DivideTwice(v, Power256(n - 2 - i));
    }
  }

  /** Builds a head byte by byte: it is the shortest encoding. */
  method EncodeHead(major: Major, value: u64) returns (encoded: seq<byte>)
    ensures encoded == Head(major, value)
  {
    var first := major * 0x20;
    if value < 24 {
      return [first + value];
    }
    if value <= 0xff {
      return [first + 24, value];
    }
    if value <= 0xffff {
      assert Encode(value, 2) == Encode(value / 0x100, 1) + [value % 0x100];
      return [first + 25, value / 0x100 % 0x100, value % 0x100];
    }
    var n := if value <= 0xffff_ffff then 4 else 8;
    encoded := [first + if n == 4 then 26 else 27];
    for i := 0 to n
      invariant encoded == [first + if n == 4 then 26 else 27] + Encode(value, n)[..i]
    {
      EncodedByte(value, n, i);
      assert Encode(value, n)[..i + 1] == Encode(value, n)[..i] + [Encode(value, n)[i]];
      encoded := encoded + [value / Power256(n - 1 - i) % 0x100];
    }
    assert Encode(value, n)[..n] == Encode(value, n);
  }

  class Writer {
    const data: array<byte>
    const base: nat
    const cap: nat
    var len: nat
    var failed: bool

    ghost predicate Valid()
      reads this
    {
      base + cap <= data.Length && len <= cap
    }

    ghost function Contents(): seq<byte>
      reads this, data
      requires Valid()
    {
      data[base..base + len]
    }

    /** The effect of every writing operation: all of `bytes` is added, or the writer has failed for good. */
    twostate predicate Added(ok: bool, bytes: seq<byte>)
      reads this, data
    {
      && old(Valid()) && Valid()
      && (ok <==> !old(failed) && |bytes| <= cap - old(len))
      && (ok ==> !failed && Contents() == old(Contents()) + bytes)
      && Fails(ok)
    }

    /** A refused operation latches and leaves what was written before; nothing past the end is touched. */
    twostate predicate Fails(ok: bool)
      reads this, data
    {
      && old(Valid()) && Valid() && old(len) <= len
      && (!ok ==> failed)
      && (old(failed) ==> len == old(len))
      && (forall k :: 0 <= k < data.Length && !(base + old(len) <= k < base + len) ==> data[k] == old(data[k]))
    }

    constructor (data: array<byte>, base: nat, cap: nat)
      requires base + cap <= data.Length
      ensures Valid() && this.data == data && this.base == base && this.cap == cap
      ensures len == 0 && (failed <==> cap > MAX_BYTES)
    {
      this.data := data;
      this.base := base;
      this.cap := cap;
      len := 0;
      failed := cap > MAX_BYTES;
    }

    method Add(bytes: seq<byte>) returns (ok: bool)
      requires Valid()
      modifies this, data
      ensures Added(ok, bytes)
      ensures !ok ==> len == old(len)
    {
      if failed || |bytes| > cap - len {
        failed := true;
        return false;
      }
      ghost var before := data[..];
      var start := base + len;
      for i := 0 to |bytes|
        modifies data
        invariant data[start..start + i] == bytes[..i]
        invariant forall k :: 0 <= k < data.Length && !(start <= k < start + i) ==> data[k] == before[k]
      {
        data[start + i] := bytes[i];
      }
      len := len + |bytes|;
      assert data[base..base + len] == data[base..start] + data[start..start + |bytes|];
      assert data[base..start] == before[base..start];
      ok := true;
    }

    method PutHead(major: Major, value: u64) returns (ok: bool)
      requires Valid()
      modifies this, data
      ensures Added(ok, Head(major, value))
      ensures !ok ==> len == old(len)
    {
      var encoded := EncodeHead(major, value);
      ok := Add(encoded);
    }

    method PutContainer(major: Major, count: nat) returns (ok: bool)
      requires Valid()
      modifies this, data
      ensures count <= MAX_ITEMS ==> Added(ok, Head(major, count))
      ensures count > MAX_ITEMS ==> !ok && Fails(ok)
    {
      if count > MAX_ITEMS {
        failed := true;
        return false;
      }
      ok := PutHead(major, count);
    }

    method PutMap(pairs: nat) returns (ok: bool)
      requires Valid()
      modifies this, data
      ensures pairs <= MAX_ITEMS ==> Added(ok, Head(5, pairs))
      ensures pairs > MAX_ITEMS ==> !ok && Fails(ok)
    {
      ok := PutContainer(5, pairs);
    }

    method PutArray(items: nat) returns (ok: bool)
      requires Valid()
      modifies this, data
      ensures items <= MAX_ITEMS ==> Added(ok, Head(4, items))
      ensures items > MAX_ITEMS ==> !ok && Fails(ok)
    {
      ok := PutContainer(4, items);
    }

    method PutUint(value: u64) returns (ok: bool)
      requires Valid()
      modifies this, data
      ensures Added(ok, Enc(Uint(value)))
    {
      ok := PutHead(0, value);
    }

    /** The negation never overflows: it is applied to one more than the value. */
    method PutInt(value: i64) returns (ok: bool)
      requires Valid()
      modifies this, data
      ensures Added(ok, Enc(IntItem(value)))
    {
      if value >= 0 {
        ok := PutHead(0, value);
        return ok;
      }
      var above: i64 := value + 1;
      var magnitude: i64 := -above;
      ok := PutHead(1, magnitude);
    }

    method PutString(text: bool, d: seq<byte>) returns (ok: bool)
      requires Valid()
      modifies this, data
      ensures |d| <= MAX_BYTES ==> Added(ok, Enc(StringItem(text, d)))
      ensures |d| > MAX_BYTES ==> !ok && Fails(ok)
    {
      if |d| > MAX_BYTES {
        failed := true;
        return false;
      }
      ghost var major: Major := if text then 3 else 2;
      ok := PutHead(if text then 3 else 2, |d|);
      if ok {
        ok := Add(d);
        if ok {
          assert Contents() == old(Contents()) + Head(major, |d|) + d;
          assert Contents() == old(Contents()) + Enc(StringItem(text, d));
        }
      }
    }

    method PutBytes(d: seq<byte>) returns (ok: bool)
      requires Valid()
      modifies this, data
      ensures |d| <= MAX_BYTES ==> Added(ok, Enc(Bytes(d)))
      ensures |d| > MAX_BYTES ==> !ok && Fails(ok)
    {
      ok := PutString(false, d);
    }

    method PutText(d: seq<byte>) returns (ok: bool)
      requires Valid()
      modifies this, data
      ensures |d| <= MAX_BYTES ==> Added(ok, Enc(Text(d)))
      ensures |d| > MAX_BYTES ==> !ok && Fails(ok)
    {
      ok := PutString(true, d);
    }

    method PutBool(value: bool) returns (ok: bool)
      requires Valid()
      modifies this, data
      ensures Added(ok, Enc(Bool(value)))
    {
      ok := Add([if value then 0xf5 else 0xf4]);
    }

    function Ok(): (r: bool)
      reads this
    {
      !failed
    }

    function Len(): (n: nat)
      reads this
    {
      if Ok() then len else 0
    }
  }

  // ---- whole items

  /** Puts an item, whatever it is made of, piece by piece. */
  method PutItem(w: Writer, i: Item) returns (ok: bool)
    requires w.Valid() && Wf(i)
    modifies w, w.data
    ensures w.Added(ok, Enc(i))
    decreases i
  {
    hide EncAll, Head;
    match i
    case Uint(v) => ok := w.PutUint(v);
    case Nint(v) => ok := w.PutHead(1, v);
    case Bytes(d) => ok := w.PutBytes(d);
    case Text(d) => ok := w.PutText(d);
    case Bool(b) => ok := w.PutBool(b);
    case Array(xs) => ok := PutMembers(w, xs, false);
    case Map(xs) => ok := PutMembers(w, xs, true);
  }

  /** Puts the head of a container and its members. */
  method PutMembers(w: Writer, xs: seq<Item>, paired: bool) returns (ok: bool)
    requires w.Valid() && Wf(if paired then Map(xs) else Array(xs))
    modifies w, w.data
    ensures w.Added(ok, Enc(if paired then Map(xs) else Array(xs)))
    decreases xs, 1
  {
    hide EncAll, Head;
    if paired {
      ok := w.PutMap(|xs| / 2);
    } else {
      ok := w.PutArray(|xs|);
    }
    if ok {
      ok := PutItems(w, xs);
    }
  }

  method PutItems(w: Writer, xs: seq<Item>) returns (ok: bool)
    requires w.Valid() && !w.failed && forall x :: x in xs ==> Wf(x)
    modifies w, w.data
    ensures w.Added(ok, EncAll(xs))
    decreases xs, 0
  {
    hide Enc, EncAll;
    ghost var start := w.len;
    ok := true;
    FirstItems(xs, 0);
    for k := 0 to |xs|
      invariant w.Valid() && !w.failed && ok
      invariant w.len == start + |EncAll(xs[..k])| && w.Contents() == old(w.Contents()) + EncAll(xs[..k])
      invariant forall j :: 0 <= j < w.data.Length && !(w.base + start <= j < w.base + w.len) ==> w.data[j] == old(w.data[j])
    {
      FirstItems(xs, k);
      ok := PutItem(w, xs[k]);
      if !ok {
        return;
      }
    }
    assert xs[..|xs|] == xs;
  }

  lemma {:induction false} FirstItems(xs: seq<Item>, k: nat)
    requires (forall x :: x in xs ==> Wf(x)) && k <= |xs|
    ensures EncAll(xs[..0]) == [] && |EncAll(xs[..k])| <= |EncAll(xs)|
    ensures k < |xs| ==> EncAll(xs[..k + 1]) == EncAll(xs[..k]) + Enc(xs[k])
    ensures k < |xs| ==> |EncAll(xs[..k])| + |Enc(xs[k])| <= |EncAll(xs)|
  {
    hide Enc, EncAll;
    NoItem();
    SplitItems(xs, k);
    if k < |xs| {
      SplitItems(xs, k + 1);
      SplitItems(xs[..k + 1], k);
      EncAllOne(xs[k]);
      assert xs[..k + 1][..k] == xs[..k] && xs[..k + 1][k..] == [xs[k]];
    }
  }

  lemma {:induction false} SplitItems(xs: seq<Item>, k: nat)
    requires (forall x :: x in xs ==> Wf(x)) && k <= |xs|
    ensures EncAll(xs) == EncAll(xs[..k]) + EncAll(xs[k..])
  {
    hide Enc, EncAll;
    EncAllAppend(xs[..k], xs[k..]);
    assert xs == xs[..k] + xs[k..];
  }

  lemma NoItem()
    ensures EncAll([]) == []
  {
  }

  // ---- the writer and the reader agree

  /** Whatever the writer writes for an integer, the least 64-bit one included, the reader reads back. */
  method IntegerRoundTrip(value: i64) returns (written: bool, got: bool, back: i64)
    ensures written && got && back == value
  {
    var buffer := new byte[9];
    var writer := new Writer(buffer, 0, 9);
    written := writer.PutInt(value);
    var reader := new Reader(buffer[..writer.len]);
    assert reader.Rest() == Enc(IntItem(value));
    got, back := reader.GetInt();
    IntItemUnique(value, back, Enc(IntItem(value)));
  }

  lemma IntItemUnique(v: i64, w: i64, s: seq<byte>)
    requires Begins(s, IntItem(v)) && Begins(s, IntItem(w))
    ensures v == w
  {
    BeginsUnique(s, IntItem(v), IntItem(w));
  }

  /** Every head is read back as it was written, and what is read is what would be written. */
  method HeadRoundTrip(major: Major, value: u64)
    returns (ok: bool, readMajor: Major, readValue: u64)
    ensures ok && readMajor == major && readValue == value
  {
    var buffer := new byte[9];
    var writer := new Writer(buffer, 0, 9);
    var written := writer.PutHead(major, value);
    var reader := new Reader(buffer[..writer.len]);
    assert reader.Rest() == Head(major, value);
    ok, readMajor, readValue := reader.ReadHead();
    HeadUnique(major, value, readMajor, readValue, Head(major, value));
  }

  /** Bytes the reader accepts as a head are the ones the writer emits for what it read. */
  method HeadRewritten(s: seq<byte>) returns (ok: bool, length: nat, again: seq<byte>)
    ensures ok <==> |s| <= MAX_BYTES && exists m: Major, v: u64 :: Head(m, v) <= s
    ensures ok ==> length <= |s| && again == s[..length]
  {
    var reader := new Reader(s);
    var major, value;
    ok, major, value := reader.ReadHead();
    length := reader.offset;
    again := [];
    if ok {
      var buffer := new byte[9];
      var writer := new Writer(buffer, 0, 9);
      var written := writer.PutHead(major, value);
      again := buffer[..writer.len];
      assert again == Head(major, value);
    }
  }
}
