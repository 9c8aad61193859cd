/** The mask of map keys a request parser has already met. */
module CborKeys {
  import opened Bits
  import opened Bytes

  /** The keys a mask holds: bit `k - 1` stands for key `k`. */
  ghost predicate Has(seen: u32, key: int) {
    1 <= key <= 32 && Bit(seen, key - 1)
  }

  lemma Width()
    ensures Shifted(32) == U32_SPAN
  {
    assert Shifted(8) == 0x100;
    assert Shifted(16) == 0x1_0000;
    assert Shifted(24) == 0x100_0000;
  }

  /** Enters a key that is not yet there; keys the mask has no bit for are refused. */
  method KnownKeyOnce(seen: u32, key: byte) returns (ok: bool, next: u32)
    ensures ok <==> 1 <= key <= 32 && !Has(seen, key)
    ensures forall k :: Has(next, k) <==> Has(seen, k) || (ok && k == key)
  {
    if key == 0 || key > 32 {
      return false, seen;
    }
    var bit := Shifted(key - 1);
    AndShifted(seen, key - 1);
    if And(seen, bit) != 0 {
      return false, seen;
    }
    Width();
    OrStaysBelow(seen, key - 1, 32);
    next := Or(seen, bit);
    forall k | 1 <= k <= 32
      ensures Has(next, k) <==> Has(seen, k) || k == key
    {
      BitOfOr(seen, bit, k - 1);
      BitOfShifted(key - 1, k - 1);
    }
    ok := true;
  }

  predicate LowBits(seen: nat, n: nat) {
    forall k :: 0 <= k < n ==> Bit(seen, k)
  }

  /** The test for the keys 1 to `n` all being there. */
  lemma {:induction false} MaskTest(seen: nat, n: nat)
    ensures And(seen, Shifted(n) - 1) == Shifted(n) - 1 <==> LowBits(seen, n)
  {
    if n != 0 {
      var low := Shifted(n - 1) - 1;
      assert Shifted(n) - 1 == 2 * low + 1 && (2 * low + 1) / 2 == low && (2 * low + 1) % 2 == 1;
      MaskTest(seen / 2, n - 1);
      assert And(seen, 2 * low + 1) == 2 * And(seen / 2, low) + seen % 2;
      assert Bit(seen, 0) <==> seen % 2 == 1;
      if And(seen, 2 * low + 1) == 2 * low + 1 {
        forall k | 0 <= k < n
          ensures Bit(seen, k)
        {
          assert k == 0 || Bit(seen / 2, k - 1);
        }
      } else if LowBits(seen, n) {
        forall k | 0 <= k < n - 1
          ensures Bit(seen / 2, k)
        {
          assert Bit(seen, k + 1);
        }
        assert false;
      }
    }
  }
}
