/** Checks on scalars and signatures of P-256 that need no curve arithmetic. */
module P256Util {
  import opened Bytes
  import opened Bits

  const ORDER: seq<byte> := [
    0xff, 0xff, 0xff, 0xff, 0x00, 0x00, 0x00, 0x00, 0xff, 0xff, 0xff, 0xff, 0xff, 0xff, 0xff, 0xff,
    0xbc, 0xe6, 0xfa, 0xad, 0xa7, 0x17, 0x9e, 0x84, 0xf3, 0xb9, 0xca, 0xc2, 0xfc, 0x63, 0x25, 0x51]

  /** The order of the base point (section 3.2.1.3 of NIST SP 800-186). */
  const N: nat := 0xffffffff_00000000_ffffffff_ffffffff_bce6faad_a7179e84_f3b9cac2_fc632551

  // ---- numbers and their bytes

  lemma {:induction false} BigEndianConcat(a: seq<byte>, b: seq<byte>)
    ensures BigEndian(a + b) == BigEndian(a) * Power256(|b|) + BigEndian(b)
  {
    if b == [] {
      assert a + b == a;
    } else {
      var m := |b| - 1;
      BigEndianConcat(a, b[..m]);
      assert (a + b)[..|a + b| - 1] == a + b[..m];
      var p := Power256(m);
      assert BigEndian(a + b) == (BigEndian(a) * p + BigEndian(b[..m])) * 0x100 + b[m];
      OneMoreDigit(BigEndian(a), p, BigEndian(b[..m]), b[m]);
    }
  }

  lemma OneMoreDigit(high: nat, p: nat, low: nat, digit: nat)
    ensures (high * p + low) * 0x100 + digit == high * (0x100 * p) + (low * 0x100 + digit)
  {
  }

  lemma FourBytes(a: byte, b: byte, c: byte, d: byte)
    ensures BigEndian([a, b, c, d]) == a * 0x100_0000 + b * 0x1_0000 + c * 0x100 + d
  {
    assert [a][..0] == [] && BigEndian([a]) == a;
    assert [a, b][..1] == [a] && BigEndian([a, b]) == a * 0x100 + b;
    assert [a, b, c][..2] == [a, b] && BigEndian([a, b, c]) == a * 0x1_0000 + b * 0x100 + c;
    assert [a, b, c, d][..3] == [a, b, c];
  }

  /** The table of bytes is the group order. */
  lemma OrderIsN()
    ensures |ORDER| == 32 && BigEndian(ORDER) == N
  {
    hide BigEndian, ORDER;
    var w1 := [0xff, 0xff, 0xff, 0xff];
    FourBytes(0xff, 0xff, 0xff, 0xff);
    var w2 := NextValue(w1, 0xffffffff, 0, 0, 0, 0);
    var w3 := NextValue(w2, 0xffffffff_00000000, 0xff, 0xff, 0xff, 0xff);
    var w4 := NextValue(w3, 0xffffffff_00000000_ffffffff, 0xff, 0xff, 0xff, 0xff);
    var w5 := NextValue(w4, 0xffffffff_00000000_ffffffff_ffffffff, 0xbc, 0xe6, 0xfa, 0xad);
    var w6 := NextValue(w5, 0xffffffff_00000000_ffffffff_ffffffff_bce6faad, 0xa7, 0x17, 0x9e, 0x84);
    var w7 := NextValue(w6, 0xffffffff_00000000_ffffffff_ffffffff_bce6faad_a7179e84, 0xf3, 0xb9, 0xca, 0xc2);
    var w8 := NextValue(w7, 0xffffffff_00000000_ffffffff_ffffffff_bce6faad_a7179e84_f3b9cac2, 0xfc, 0x63, 0x25, 0x51);
    OrderWords();
  }

  lemma OrderWords()
    ensures |ORDER| == 32
    ensures ORDER == [0xff, 0xff, 0xff, 0xff] + [0, 0, 0, 0] + [0xff, 0xff, 0xff, 0xff] + [0xff, 0xff, 0xff, 0xff]
                     + [0xbc, 0xe6, 0xfa, 0xad] + [0xa7, 0x17, 0x9e, 0x84] + [0xf3, 0xb9, 0xca, 0xc2] + [0xfc, 0x63, 0x25, 0x51]
  {
  }

  lemma NextValue(high: seq<byte>, value: nat, a: byte, b: byte, c: byte, d: byte) returns (s: seq<byte>)
    requires BigEndian(high) == value
    ensures s == high + [a, b, c, d]
    ensures BigEndian(s) == value * 0x1_0000_0000 + (a * 0x100_0000 + b * 0x1_0000 + c * 0x100 + d)
  {
    s := high + [a, b, c, d];
    BigEndianConcat(high, [a, b, c, d]);
    FourBytes(a, b, c, d);
    assert Power256(3) == 0x100_0000;
    assert Power256(4) == 0x1_0000_0000;
  }

  // ---- scalars

  /** A 32-bit subtraction, which wraps. */
  function Minus(a: u32, b: u32): u32 {
    (a - b) % U32_SPAN
  }

  /** The top bit of a wrapped difference of bytes is the borrow. */
  lemma BorrowBit(a: byte, b: byte)
    ensures Minus(a, b) / 0x8000_0000 == if a < b then 1 else 0
  {
  }

  lemma OneBit()
    ensures forall a, b | 0 <= a <= 1 && 0 <= b <= 1 ::
              && Or(a, b) == (if a == 1 || b == 1 then 1 else 0)
              && And(a, b) == (if a == 1 && b == 1 then 1 else 0)
              && Xor(a, b) == (if a == b then 0 else 1)
  {
  }

  /** One more byte decides between numbers that were equal so far, and changes nothing between others. */
  lemma NextByte(s: seq<byte>, t: seq<byte>, i: nat)
    requires i < |s| == |t|
    ensures var x, y := BigEndian(s[..i]), BigEndian(t[..i]);
            && (BigEndian(s[..i + 1]) < BigEndian(t[..i + 1]) <==> x < y || (x == y && s[i] < t[i]))
            && (BigEndian(s[..i + 1]) == 0 <==> x == 0 && s[i] == 0)
  {
    assert s[..i + 1][..i] == s[..i] && t[..i + 1][..i] == t[..i];
  }

  /** Whether a scalar is a private key, by a comparison that takes the same steps for every scalar. */
  method ScalarValid(scalar: seq<byte>) returns (valid: bool)
    requires |scalar| == 32
    ensures valid <==> 0 < BigEndian(scalar) < N
  {
    hide N, ORDER, And, Or, Xor, Minus, BigEndian;
    var nonzero: nat, less: nat, greater: nat := 0, 0, 0;
    OrderIsN();
    Nothing(scalar, ORDER);
    for i := 0 to 32
      invariant less <= 1 && greater <= 1
      invariant less == 1 <==> BigEndian(scalar[..i]) < BigEndian(ORDER[..i])
      invariant greater == 1 <==> BigEndian(ORDER[..i]) < BigEndian(scalar[..i])
      invariant nonzero == 0 <==> BigEndian(scalar[..i]) == 0
    {
      var a, b := scalar[i], ORDER[i];
      OneBit();
      BorrowBit(a, b);
      BorrowBit(b, a);
      OrIsZero(nonzero, a);
      NextByte(scalar, ORDER, i);
      NextByte(ORDER, scalar, i);
      var undecided := Xor(1, Or(less, greater));
      var aLess := Minus(a, b) / 0x8000_0000;
      var aGreater := Minus(b, a) / 0x8000_0000;
      nonzero := Or(nonzero, a);
      less := Or(less, And(undecided, aLess));
      greater := Or(greater, And(undecided, aGreater));
    }
    assert scalar[..32] == scalar && ORDER[..32] == ORDER;
    valid := nonzero != 0 && less != 0;
  }

  lemma Nothing(s: seq<byte>, t: seq<byte>)
    ensures BigEndian(s[..0]) == 0 == BigEndian(t[..0])
  {
  }

  // ---- signatures

  /** The shortest big-endian bytes of a number. */
  function MinBytes(v: nat): seq<byte> {
    if v == 0 then [] else MinBytes(v / 0x100) + [v % 0x100]
  }

  /** The contents of a DER INTEGER that is not negative (section 8.3 of X.690). */
  function Content(v: nat): seq<byte> {
    var m := MinBytes(v);
    if m == [] || m[0] >= 0x80 then [0] + m else m
  }

  /** The DER INTEGER of a number below 2^256. */
  function DerInteger(v: nat): seq<byte>
    requires v < TWO_256
  {
    ContentLength(v);
    [0x02, |Content(v)|] + Content(v)
  }

  lemma DerLength(v: nat)
    requires v < TWO_256
    ensures 3 <= |DerInteger(v)| <= 35
  {
    ContentLength(v);
  }

  /** The DER SEQUENCE of two integers that an ECDSA signature is (section 2.2.3 of RFC 3279). */
  function DerSignature(r: nat, s: nat): seq<byte>
    requires r < TWO_256 && s < TWO_256
  {
    var body := DerInteger(r) + DerInteger(s);
    DerLength(r);
    DerLength(s);
    [0x30, |body|] + body
  }

  const TWO_256: nat := 0x1_00000000_00000000_00000000_00000000_00000000_00000000_00000000_00000000

  /** In bytes: the tags, the lengths, the zero byte in front of a high bit and the one byte of a zero. */
  lemma DerExamples()
    ensures 0x80 < TWO_256
    ensures DerSignature(1, 0x80) == [0x30, 0x07, 0x02, 0x01, 0x01, 0x02, 0x02, 0x00, 0x80]
    ensures DerSignature(0, 0x7f) == [0x30, 0x06, 0x02, 0x01, 0x00, 0x02, 0x01, 0x7f]
  {
    assert MinBytes(0) == [] && MinBytes(1) == [1] && MinBytes(0x80) == [0x80] && MinBytes(0x7f) == [0x7f];
    hide MinBytes;
  }

  lemma {:induction false} MinBytesLength(v: nat, n: nat)
    requires v < Power256(n)
    ensures |MinBytes(v)| <= n
  {
    if v > 0 {
      MinBytesLength(v / 0x100, n - 1);
    }
  }

  lemma PowersOf256()
    ensures Power256(32) == TWO_256
  {
    assert Power256(4) == 0x1_0000_0000;
    assert Power256(8) == 0x1_00000000_00000000;
    assert Power256(12) == 0x1_00000000_00000000_00000000;
    assert Power256(16) == 0x1_00000000_00000000_00000000_00000000;
    assert Power256(20) == 0x1_00000000_00000000_00000000_00000000_00000000;
    assert Power256(24) == 0x1_00000000_00000000_00000000_00000000_00000000_00000000;
    assert Power256(28) == 0x1_00000000_00000000_00000000_00000000_00000000_00000000_00000000;
  }

  lemma ContentLength(v: nat)
    requires v < TWO_256
    ensures 1 <= |Content(v)| <= 33
  {
    PowersOf256();
    MinBytesLength(v, 32);
  }

  lemma {:induction false} MinBytesOfBigEndian(s: seq<byte>)
    requires s != [] && s[0] != 0
    ensures MinBytes(BigEndian(s)) == s && BigEndian(s) > 0
  {
    var m := |s| - 1;
    assert s == s[..m] + [s[m]];
    if m > 0 {
      MinBytesOfBigEndian(s[..m]);
    } else {
      assert s[..0] == [];
    }
  }

  lemma {:induction false} BigEndianOfMinBytes(v: nat)
    ensures BigEndian(MinBytes(v)) == v
    ensures v > 0 ==> MinBytes(v) != [] && MinBytes(v)[0] != 0
  {
    if v > 0 {
      BigEndianOfMinBytes(v / 0x100);
      assert MinBytes(v)[..|MinBytes(v)| - 1] == MinBytes(v / 0x100);
    }
  }

  /** Contents that a strict reader takes: not negative, no byte more than needed, a number below 2^256. */
  predicate IsContent(c: seq<byte>) {
    && 1 <= |c| <= 33 && c[0] < 0x80
    && (|c| == 33 ==> c[0] == 0)
    && (|c| > 1 && c[0] == 0 ==> c[1] >= 0x80)
  }

  /** They are exactly the contents of the numbers below 2^256, one for each. */
  lemma ContentOf(c: seq<byte>)
    requires IsContent(c)
    ensures BigEndian(c) < TWO_256 && Content(BigEndian(c)) == c
  {
    hide TWO_256, Power256, BigEndian, MinBytes;
    var m := if c[0] == 0 then c[1..] else c;
    PowersOf256();
    Zeroes(m);
    if c[0] == 0 {
      assert c == [0] + m;
    }
    BigEndianBound(m);
    Power256Grows(|m|, 32);
    if m != [] {
      MinBytesOfBigEndian(m);
    }
  }

  lemma Zeroes(m: seq<byte>)
    ensures BigEndian([0] + m) == BigEndian(m)
    ensures BigEndian([]) == 0 && MinBytes(0) == []
  {
    BigEndianConcat([0], m);
    assert [0][..0] == [] && BigEndian([0]) == 0;
  }

  lemma {:induction false} Power256Grows(n: nat, m: nat)
    requires n <= m
    ensures Power256(n) <= Power256(m)
  {
    if n < m {
      Power256Grows(n, m - 1);
    }
  }

  lemma ContentIsStrict(v: nat)
    requires v < TWO_256
    ensures IsContent(Content(v)) && BigEndian(Content(v)) == v
  {
    PowersOf256();
    MinBytesLength(v, 32);
    BigEndianOfMinBytes(v);
    Zeroes(MinBytes(v));
  }

  /** A byte string begins with at most one integer. */
  lemma DerIntegerUnique(v: nat, w: nat, s: seq<byte>)
    requires v < TWO_256 && w < TWO_256 && DerInteger(v) <= s && DerInteger(w) <= s
    ensures v == w
  {
    hide TWO_256, Content, BigEndian;
    ContentIsStrict(v);
    ContentIsStrict(w);
    assert s[1] == |Content(v)| == |Content(w)|;
    assert Content(v) == s[2..2 + s[1] as int] == Content(w);
  }

  lemma HighBit(b: byte)
    ensures And(b, 0x80) != 0 <==> b >= 0x80
  {
    AndShifted(b, 7);
    assert Shifted(7) == 0x80;
    assert Bit(b, 7) <==> Bit(b / 2, 6);
    assert b / 2 / 2 == b / 4 && (Bit(b, 7) <==> Bit(b / 4, 5));
    assert b / 4 / 2 == b / 8 && (Bit(b, 7) <==> Bit(b / 8, 4));
    assert b / 8 / 2 == b / 16 && (Bit(b, 7) <==> Bit(b / 16, 3));
    assert b / 16 / 2 == b / 32 && (Bit(b, 7) <==> Bit(b / 32, 2));
    assert b / 32 / 2 == b / 64 && (Bit(b, 7) <==> Bit(b / 64, 1));
    assert b / 64 / 2 == b / 128 && (Bit(b, 7) <==> Bit(b / 128, 0));
  }

  /** Reads one strict integer and moves past it. */
  method StrictInteger(der: seq<byte>, offset: nat) returns (ok: bool, next: nat, ghost v: nat)
    ensures ok <==> offset <= |der| && exists w: nat :: w < TWO_256 && DerInteger(w) <= der[offset..]
    ensures ok ==> v < TWO_256 && DerInteger(v) <= der[offset..] && next == offset + |DerInteger(v)|
    ensures !ok ==> next == offset
  {
    hide TWO_256, Content, BigEndian, And;
    next, v := offset, 0;
    forall w: nat | offset <= |der| && w < TWO_256 && DerInteger(w) <= der[offset..]
      ensures |der| - offset >= 2 && der[offset] == 0x02
      ensures der[offset + 1] as int <= |der| - offset - 2
      ensures IsContent(der[offset + 2..offset + 2 + der[offset + 1] as int])
    {
      ContentIsStrict(w);
      var d := DerInteger(w);
      assert d == der[offset..][..|d|];
      assert Content(w) == d[2..];
    }
    if offset > |der| || |der| - offset < 2 || der[offset] != 0x02 {
      return false, offset, 0;
    }
    var len: nat := der[offset + 1];
    var pos := offset + 2;
    if len == 0 || len > 33 || len > |der| - pos {
      return false, offset, 0;
    }
    ghost var c := der[pos..pos + len];
    HighBit(der[pos]);
    if And(der[pos], 0x80) != 0 {
      return false, offset, 0;
    }
    if len == 33 {
      HighBit(der[pos + 1]);
      if der[pos] != 0 || And(der[pos + 1], 0x80) == 0 {
        return false, offset, 0;
      }
    } else if len > 1 && der[pos] == 0 {
      HighBit(der[pos + 1]);
      if And(der[pos + 1], 0x80) == 0 {
        return false, offset, 0;
      }
    }
    ContentOf(c);
    v := BigEndian(c);
    assert DerInteger(v) == der[offset..][..2 + len];
    return true, pos + len, v;
  }

  predicate IsSignature(der: seq<byte>, r: nat, s: nat) {
    r < TWO_256 && s < TWO_256 && der == DerSignature(r, s)
  }

  /** What a signature looks like, piece by piece. */
  lemma SignatureParts(der: seq<byte>, r: nat, s: nat)
    requires IsSignature(der, r, s)
    ensures 8 <= |der| <= 72 && der[0] == 0x30 && der[1] < 0x80 && der[1] as int == |der| - 2
    ensures r < TWO_256 && s < TWO_256 && 2 + |DerInteger(r)| + |DerInteger(s)| == |der|
    ensures DerInteger(r) <= der[2..] && DerInteger(s) <= der[2 + |DerInteger(r)|..]
  {
    hide TWO_256, DerInteger;
    DerLength(r);
    DerLength(s);
  }

  lemma SignatureOfParts(der: seq<byte>, r: nat, s: nat)
    requires |der| >= 2 && der[0] == 0x30 && der[1] as int == |der| - 2
    requires r < TWO_256 && s < TWO_256 && 2 + |DerInteger(r)| + |DerInteger(s)| == |der|
    requires DerInteger(r) <= der[2..] && DerInteger(s) <= der[2 + |DerInteger(r)|..]
    ensures IsSignature(der, r, s)
  {
    hide TWO_256, DerInteger;
    var first := 2 + |DerInteger(r)|;
    assert der == [0x30, der[1]] + der[2..first] + der[first..];
    assert DerInteger(r) == der[2..][..first - 2] == der[2..first];
    assert DerInteger(s) == der[first..];
  }

  /** Accepts exactly the DER encodings of two numbers below 2^256. */
  method DerStrict(der: seq<byte>) returns (ok: bool, ghost r: nat, ghost s: nat)
    ensures ok <==> exists a: nat, b: nat :: IsSignature(der, a, b)
    ensures ok ==> IsSignature(der, r, s)
  {
    hide TWO_256, DerInteger, And, IsSignature;
    r, s := 0, 0;
    forall a: nat, b: nat | IsSignature(der, a, b)
      ensures 8 <= |der| <= 72 && der[0] == 0x30 && der[1] < 0x80 && der[1] as int == |der| - 2
      ensures a < TWO_256 && b < TWO_256 && 2 + |DerInteger(a)| + |DerInteger(b)| == |der|
      ensures DerInteger(a) <= der[2..] && DerInteger(b) <= der[2 + |DerInteger(a)|..]
    {
      SignatureParts(der, a, b);
    }
    if |der| < 8 || |der| > 72 {
      return false, 0, 0;
    }
    HighBit(der[1]);
    if der[0] != 0x30 || And(der[1], 0x80) != 0 || der[1] as int != |der| - 2 {
      return false, 0, 0;
    }
    var offset;
    ok, offset, r := StrictInteger(der, 2);
    if !ok {
      return false, 0, 0;
    }
    ghost var first := offset;
    forall a: nat, b: nat | IsSignature(der, a, b)
      ensures a == r
    {
      DerIntegerUnique(a, r, der[2..]);
    }
    ok, offset, s := StrictInteger(der, offset);
    if !ok {
      return false, 0, 0;
    }
    forall a: nat, b: nat | IsSignature(der, a, b)
      ensures b == s
    {
      DerIntegerUnique(b, s, der[first..]);
    }
    ok := offset == |der|;
    if ok {
      SignatureOfParts(der, r, s);
    }
  }

  /** No two pairs of numbers have the same encoding. */
  lemma DerSignatureUnique(der: seq<byte>, r: nat, s: nat, a: nat, b: nat)
    requires IsSignature(der, r, s) && IsSignature(der, a, b)
    ensures r == a && s == b
  {
    hide TWO_256, DerInteger, IsSignature;
    SignatureParts(der, r, s);
    SignatureParts(der, a, b);
    DerIntegerUnique(r, a, der[2..]);
    DerIntegerUnique(s, b, der[2 + |DerInteger(r)|..]);
  }
}
