/** Machine integers and the big-endian encodings used on every wire format here. */
module Bytes {

  type byte = x: int | 0 <= x < 0x100
  type u16 = x: int | 0 <= x < 0x1_0000
  type u32 = x: int | 0 <= x < 0x1_0000_0000
  type u64 = x: int | 0 <= x < 0x1_0000_0000_0000_0000
  type i64 = x: int | -0x8000_0000_0000_0000 <= x < 0x8000_0000_0000_0000

  const U32_SPAN: int := 0x1_0000_0000

  datatype Option<+T> = None | Some(value: T)

  /** A 32-bit counter increment, which wraps. */
  function Bump(g: u32): u32 {
    (g + 1) % U32_SPAN
  }

  function Zeros(n: nat): (r: seq<byte>)
    ensures |r| == n
  {
    seq(n, _ => 0)
  }

  function Min(a: int, b: int): int {
    if a < b then a else b
  }

  function LoadU16(s: seq<byte>): u16
    requires |s| >= 2
  {
    s[0] as int * 0x100 + s[1] as int
  }

  function LoadU32(s: seq<byte>): u32
    requires |s| >= 4
  {
    s[0] as int * 0x100_0000 + s[1] as int * 0x1_0000 + s[2] as int * 0x100 + s[3] as int
  }

  function StoreU16(v: u16): (r: seq<byte>)
    ensures |r| == 2
  {
    [v / 0x100, v % 0x100]
  }

  function StoreU32(v: u32): (r: seq<byte>)
    ensures |r| == 4
  {
    [v / 0x100_0000, v / 0x1_0000 % 0x100, v / 0x100 % 0x100, v % 0x100]
  }

  /** The number a byte string denotes, most significant byte first. */
  function BigEndian(s: seq<byte>): (v: nat) {
    if s == [] then 0 else BigEndian(s[..|s| - 1]) * 0x100 + s[|s| - 1]
  }

  function Power256(n: nat): (p: nat)
    ensures p > 0
  {
    if n == 0 then 1 else 0x100 * Power256(n - 1)
  }

  /** The low `n` bytes of `v`, most significant byte first. */
  function Encode(v: nat, n: nat): (r: seq<byte>)
    ensures |r| == n
  {
    if n == 0 then [] else Encode(v / 0x100, n - 1) + [v % 0x100]
  }

  lemma {:induction false} BigEndianBound(s: seq<byte>)
    ensures BigEndian(s) < Power256(|s|)
  {
    if s != [] {
      BigEndianBound(s[..|s| - 1]);
    }
  }

  lemma {:induction false} BigEndianOfEncode(v: nat, n: nat)
    requires v < Power256(n)
    ensures BigEndian(Encode(v, n)) == v
  {
    if n != 0 {
      BigEndianOfEncode(v / 0x100, n - 1);
      assert Encode(v, n)[..n - 1] == Encode(v / 0x100, n - 1);
    }
  }

  lemma {:induction false} EncodeOfBigEndian(s: seq<byte>)
    ensures Encode(BigEndian(s), |s|) == s
  {
    if s != [] {
      EncodeOfBigEndian(s[..|s| - 1]);
      assert s == s[..|s| - 1] + [s[|s| - 1]];
    }
  }

  lemma LoadOfStoreU32(v: u32)
    ensures LoadU32(StoreU32(v)) == v
  {
    assert v / 0x100_0000 == v / 0x1_0000 / 0x100;
    assert v / 0x1_0000 == v / 0x100 / 0x100;
  }
}
