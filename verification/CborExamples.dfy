/** The encoding agrees with the examples of Appendix A of RFC 8949, within the subset the firmware uses. */
module CborExamples {
  import opened Bytes
  import opened CborItem

  lemma OneMore(v: nat, n: nat)
    ensures Encode(v, n + 1) == Encode(v / 0x100, n) + [v % 0x100]
    ensures Encode(v, 0) == []
  {
  }

  /** Bytes one by one: `a` is the value, `b`, `c` and `d` what is left of it each time a byte is taken off. */
  lemma Unfolded(a: nat, b: nat, c: nat, d: nat)
    requires b == a / 0x100 && c == b / 0x100 && d == c / 0x100
    ensures Encode(a, 1) == [a % 0x100]
    ensures Encode(a, 2) == [b % 0x100, a % 0x100]
    ensures Encode(a, 4) == [d % 0x100, c % 0x100, b % 0x100, a % 0x100]
  {
    hide Encode;
    OneMore(a, 0);
    OneMore(b, 0);
    OneMore(c, 0);
    OneMore(d, 0);
    OneMore(a, 1);
    OneMore(c, 1);
    OneMore(b, 2);
    OneMore(a, 3);
  }

  lemma Integers()
    ensures Enc(Uint(0)) == [0x00] && Enc(Uint(10)) == [0x0a] && Enc(Uint(23)) == [0x17]
    ensures Enc(Uint(24)) == [0x18, 0x18] && Enc(Uint(100)) == [0x18, 0x64]
    ensures Enc(Uint(1000)) == [0x19, 0x03, 0xe8] && Enc(Uint(1000000)) == [0x1a, 0x00, 0x0f, 0x42, 0x40]
    ensures Enc(IntItem(-1)) == [0x20] && Enc(IntItem(-10)) == [0x29]
    ensures Enc(IntItem(-100)) == [0x38, 0x63] && Enc(IntItem(-1000)) == [0x39, 0x03, 0xe7]
  {
    Unfolded(24, 0, 0, 0);
    Unfolded(100, 0, 0, 0);
    Unfolded(1000, 3, 0, 0);
    Unfolded(1000000, 3906, 15, 0);
    Unfolded(99, 0, 0, 0);
    Unfolded(999, 3, 0, 0);
  }

  lemma LongInteger()
    ensures Enc(Uint(1000000000000)) == [0x1b, 0x00, 0x00, 0x00, 0xe8, 0xd4, 0xa5, 0x10, 0x00]
  {
    Unfolded(232, 0, 0, 0);
    assert Encode(59604, 5) == Encode(232, 4) + [0xd4];
    assert Encode(15258789, 6) == Encode(59604, 5) + [0xa5];
    assert Encode(3906250000, 7) == Encode(15258789, 6) + [0x10];
    assert Encode(1000000000000, 8) == Encode(3906250000, 7) + [0x00];
  }

  lemma Simple()
    ensures Enc(Bool(false)) == [0xf4] && Enc(Bool(true)) == [0xf5]
    ensures Enc(Bytes([])) == [0x40] && Enc(Bytes([1, 2, 3, 4])) == [0x44, 0x01, 0x02, 0x03, 0x04]
    ensures Enc(Text([])) == [0x60] && Enc(Text([0x49, 0x45, 0x54, 0x46])) == [0x64, 0x49, 0x45, 0x54, 0x46]
  {
  }

  lemma Containers()
    ensures Enc(Array([])) == [0x80] && Enc(Map([])) == [0xa0]
    ensures Enc(Array([Uint(1), Uint(2), Uint(3), Uint(4)])) == [0x84, 0x01, 0x02, 0x03, 0x04]
    ensures Enc(Map([Uint(1), Uint(2), Uint(3), Uint(4)])) == [0xa2, 0x01, 0x02, 0x03, 0x04]
  {
    assert EncAll([]) == [];
    EncFour(Uint(1), Uint(2), Uint(3), Uint(4));
  }

  /** A text key with an integer, and a text key with an array. */
  lemma Nested()
    ensures Enc(Map([Text([0x61]), Uint(1), Text([0x62]), Array([Uint(2), Uint(3)])])) ==
              [0xa2, 0x61, 0x61, 0x01, 0x61, 0x62, 0x82, 0x02, 0x03]
  {
    EncTwo(Uint(2), Uint(3));
    assert Enc(Array([Uint(2), Uint(3)])) == [0x82, 0x02, 0x03];
    EncFour(Text([0x61]), Uint(1), Text([0x62]), Array([Uint(2), Uint(3)]));
  }
}
