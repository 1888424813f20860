/** 64-bit unsigned words as numbers, and their bits as binary digits. */
module Words {
  const WORD_BITS: nat := 64

  type Word = w: nat | w < 0x1_0000_0000_0000_0000

  const ALL_ONES: Word := 0xFFFF_FFFF_FFFF_FFFF

  function Pow2(n: nat): (p: nat)
    ensures p > 0
  {
    if n == 0 then 1 else 2 * Pow2(n - 1)
  }

  /** w & (1ULL << i) is not zero. */
  predicate Bit(w: nat, i: nat) {
    if i == 0 then w % 2 == 1 else Bit(w / 2, i - 1)
  }

  /** w & ~(1ULL << i): the digit's weight is taken off when it is there. */
  function ClearBit(w: nat, i: nat): (r: nat)
    ensures r <= w
  {
    BitWeight(w, i);
    if Bit(w, i) then w - Pow2(i) else w
  }

  /** w | (1ULL << i). */
  function SetBit(w: nat, i: nat): nat {
    if Bit(w, i) then w else w + Pow2(i)
  }

  lemma {:induction false} BitWeight(w: nat, i: nat)
    ensures Bit(w, i) ==> Pow2(i) <= w
    decreases i
  {
    if i > 0 {
      BitWeight(w / 2, i - 1);
    }
  }

  lemma {:induction false} ClearBitAt(w: nat, i: nat, k: nat)
    ensures Bit(ClearBit(w, i), k) <==> Bit(w, k) && k != i
    decreases i
  {
    BitWeight(w, i);
    if i > 0 {
      assert ClearBit(w, i) / 2 == ClearBit(w / 2, i - 1);
      if k > 0 {
        ClearBitAt(w / 2, i - 1, k - 1);
      }
    } else if k > 0 {
      assert ClearBit(w, i) / 2 == w / 2;
    }
  }

  lemma {:induction false} SetBitAt(w: nat, i: nat, k: nat)
    ensures Bit(SetBit(w, i), k) <==> Bit(w, k) || k == i
    decreases i
  {
    if i > 0 {
      assert SetBit(w, i) / 2 == SetBit(w / 2, i - 1);
      if k > 0 {
        SetBitAt(w / 2, i - 1, k - 1);
      }
    } else if k > 0 {
      assert SetBit(w, i) / 2 == w / 2;
    }
  }

  lemma {:induction false} SetBitBound(w: nat, i: nat, n: nat)
    requires w < Pow2(n) && i < n
    ensures SetBit(w, i) < Pow2(n)
    decreases n
  {
    if i > 0 {
      assert Pow2(n) == 2 * Pow2(n - 1) && Pow2(i) == 2 * Pow2(i - 1);
      assert w / 2 < Pow2(n - 1) && Bit(w, i) == Bit(w / 2, i - 1);
      SetBitBound(w / 2, i - 1, n - 1);
    } else {
      assert Pow2(n) == 2 * Pow2(n - 1) && Pow2(0) == 1;
    }
  }

  lemma {:induction false} OnesHaveAllBits(n: nat, i: nat)
    ensures Bit(Pow2(n) - 1, i) <==> i < n
    decreases n
  {
    if n == 0 {
      ZeroHasNoBits(i);
    } else if i > 0 {
      assert (Pow2(n) - 1) / 2 == Pow2(n - 1) - 1;
      OnesHaveAllBits(n - 1, i - 1);
    }
  }

  lemma {:induction false} ZeroHasNoBits(i: nat)
    ensures !Bit(0, i)
    decreases i
  {
    if i > 0 {
      ZeroHasNoBits(i - 1);
    }
  }

  /** _BitScanForward64: the position of the lowest set bit. */
  function ScanForward(w: nat): nat
    requires w > 0
  {
    if w % 2 == 1 then 0 else 1 + ScanForward(w / 2)
  }

  lemma {:induction false} ScanFindsLowestBit(w: nat, n: nat)
    requires 0 < w < Pow2(n)
    ensures ScanForward(w) < n && Bit(w, ScanForward(w))
    ensures forall k :: 0 <= k < ScanForward(w) ==> !Bit(w, k)
    decreases n
  {
    if w % 2 == 0 {
      ScanFindsLowestBit(w / 2, n - 1);
      forall k | 0 <= k < ScanForward(w) ensures !Bit(w, k) {
        if k > 0 {
          assert !Bit(w / 2, k - 1);
        }
      }
    }
  }

  lemma WordRange()
    ensures Pow2(WORD_BITS) == 0x1_0000_0000_0000_0000
  {
    assert Pow2(8) == 0x100;
    assert Pow2(16) == 0x1_0000;
    assert Pow2(24) == 0x100_0000;
    assert Pow2(32) == 0x1_0000_0000;
    assert Pow2(40) == 0x100_0000_0000;
    assert Pow2(48) == 0x1_0000_0000_0000;
    assert Pow2(56) == 0x100_0000_0000_0000;
  }
}
