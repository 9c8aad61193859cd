/** Copying into and clearing parts of a buffer in place. */
module Memory {
  import opened Bytes

  /** A buffer's contents once `src` has been copied to `at`. */
  function Copied(before: seq<byte>, at: nat, src: seq<byte>): (after: seq<byte>)
    requires at + |src| <= |before|
    ensures |after| == |before|
  {
    before[..at] + src + before[at + |src|..]
  }

  method Copy(dst: array<byte>, at: nat, src: seq<byte>)
    requires at + |src| <= dst.Length
    modifies dst
    ensures dst[..] == Copied(old(dst[..]), at, src)
  {
    forall i | 0 <= i < |src| {
      dst[at + i] := src[i];
    }
    assert forall k :: 0 <= k < dst.Length ==> dst[k] == Copied(old(dst[..]), at, src)[k];
  }

  /** Zeroes a stretch of the buffer. */
  method Clear(dst: array<byte>, at: nat, n: nat)
    requires at + n <= dst.Length
    modifies dst
    ensures dst[..] == Copied(old(dst[..]), at, Zeros(n))
  {
    forall i | 0 <= i < n {
      dst[at + i] := 0;
    }
    assert forall k :: 0 <= k < dst.Length ==> dst[k] == Copied(old(dst[..]), at, Zeros(n))[k];
  }

  lemma AllOfIt(before: seq<byte>, src: seq<byte>)
    requires |src| == |before|
    ensures Copied(before, 0, src) == src
  {
  }

  predicate Blank(s: seq<byte>) {
    forall i :: 0 <= i < |s| ==> s[i] == 0
  }

  method ClearAll(a: array<byte>)
    modifies a
    ensures Blank(a[..])
  {
    Clear(a, 0, a.Length);
  }

  lemma BlankIsZeros(s: seq<byte>)
    requires Blank(s)
    ensures s == Zeros(|s|)
  {
  }
}
