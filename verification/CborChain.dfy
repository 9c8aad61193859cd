/** Writing one thing after another for as long as everything goes well, as the response builders do. */
module CborChain {
  import opened Bytes
  import opened CborItem
  import opened CborWriter
  import opened Memory

  /**
    So far `written` has been put into a buffer that held `before`, unless the room in it is larger than a
    writer takes, in which case nothing is.
  */
  ghost predicate Wrote(w: Writer, ok: bool, written: seq<byte>, before: seq<byte>)
    reads w, w.data
  {
    && w.Valid() && |written| <= w.cap && |before| == w.data.Length
    && (ok <==> w.cap <= MAX_BYTES)
    && (ok ==> !w.failed && w.len == |written| && w.data[..] == Copied(before, w.base, written))
    && (!ok ==> w.failed && w.len == 0 && w.data[..] == before)
  }

  /** Appending to what was copied is copying more. */
  lemma Extends(before: seq<byte>, base: nat, written: seq<byte>, bytes: seq<byte>, was: seq<byte>, now: seq<byte>)
    requires base + |written + bytes| <= |before| == |now|
    requires was == Copied(before, base, written)
    requires now[base..base + |written + bytes|] == was[base..base + |written|] + bytes
    requires forall k :: 0 <= k < |now| && !(base + |written| <= k < base + |written + bytes|) ==> now[k] == was[k]
    ensures now == Copied(before, base, written + bytes)
  {
    assert was[base..base + |written|] == written;
    assert now == now[..base] + now[base..base + |written + bytes|] + now[base + |written + bytes|..];
    assert now[..base] == before[..base];
    assert now[base + |written + bytes|..] == before[base + |written + bytes|..];
  }

  method StartMap(w: Writer, pairs: nat, ghost before: seq<byte>) returns (ok: bool)
    requires w.Valid() && w.len == 0 && (w.failed <==> w.cap > MAX_BYTES) && before == w.data[..]
    requires pairs <= MAX_ITEMS && |Head(5, pairs)| <= w.cap
    modifies w, w.data
    ensures Wrote(w, ok, Head(5, pairs), before)
  {
    ok := w.PutMap(pairs);
    if ok {
      assert before == Copied(before, w.base, []) && [] + Head(5, pairs) == Head(5, pairs);
      Extends(before, w.base, [], Head(5, pairs), before, w.data[..]);
    }
  }

  method AndMap(w: Writer, sofar: bool, pairs: nat, ghost written: seq<byte>, ghost before: seq<byte>) returns (ok: bool)
    requires Wrote(w, sofar, written, before) && pairs <= MAX_ITEMS && |written + Head(5, pairs)| <= w.cap
    modifies w, w.data
    ensures Wrote(w, ok, written + Head(5, pairs), before)
  {
    ok := sofar;
    if ok {
      ok := w.PutMap(pairs);
      Extends(before, w.base, written, Head(5, pairs), old(w.data[..]), w.data[..]);
    }
  }

  method AndUint(w: Writer, sofar: bool, value: u64, ghost written: seq<byte>, ghost before: seq<byte>) returns (ok: bool)
    requires Wrote(w, sofar, written, before) && |written + Enc(Uint(value))| <= w.cap
    modifies w, w.data
    ensures Wrote(w, ok, written + Enc(Uint(value)), before)
  {
    ok := sofar;
    if ok {
      ok := w.PutUint(value);
      Extends(before, w.base, written, Enc(Uint(value)), old(w.data[..]), w.data[..]);
    }
  }

  method AndInt(w: Writer, sofar: bool, value: i64, ghost written: seq<byte>, ghost before: seq<byte>) returns (ok: bool)
    requires Wrote(w, sofar, written, before) && |written + Enc(IntItem(value))| <= w.cap
    modifies w, w.data
    ensures Wrote(w, ok, written + Enc(IntItem(value)), before)
  {
    ok := sofar;
    if ok {
      ok := w.PutInt(value);
      Extends(before, w.base, written, Enc(IntItem(value)), old(w.data[..]), w.data[..]);
    }
  }

  method AndBytes(w: Writer, sofar: bool, d: seq<byte>, ghost written: seq<byte>, ghost before: seq<byte>) returns (ok: bool)
    requires Wrote(w, sofar, written, before) && |d| <= MAX_BYTES && |written + Enc(Bytes(d))| <= w.cap
    modifies w, w.data
    ensures Wrote(w, ok, written + Enc(Bytes(d)), before)
  {
    ok := sofar;
    if ok {
      ok := w.PutBytes(d);
      Extends(before, w.base, written, Enc(Bytes(d)), old(w.data[..]), w.data[..]);
    }
  }

  method AndText(w: Writer, sofar: bool, d: seq<byte>, ghost written: seq<byte>, ghost before: seq<byte>) returns (ok: bool)
    requires Wrote(w, sofar, written, before) && |d| <= MAX_BYTES && |written + Enc(Text(d))| <= w.cap
    modifies w, w.data
    ensures Wrote(w, ok, written + Enc(Text(d)), before)
  {
    ok := sofar;
    if ok {
      ok := w.PutText(d);
      Extends(before, w.base, written, Enc(Text(d)), old(w.data[..]), w.data[..]);
    }
  }
}
