/** The 64-bit words of the relay port bitmap and the bit operations the allocator uses on them. */
module BitWord {
  import opened Bytes

  const FULL: int := 0xFFFF_FFFF_FFFF_FFFF
  type Word = w: int | 0 <= w <= FULL

  /** `w & (1 << i) != 0`. */
  predicate Bit(w: nat, i: nat) {
    if i == 0 then w % 2 == 1 else Bit(w / 2, i - 1)
  }

  /** `w | (1 << i)`. */
  function WithBit(w: nat, i: nat): nat {
    if i == 0 then 2 * (w / 2) + 1 else 2 * WithBit(w / 2, i - 1) + w % 2
  }

  /** `w & !(1 << i)`. */
  function WithoutBit(w: nat, i: nat): nat {
    if i == 0 then 2 * (w / 2) else 2 * WithoutBit(w / 2, i - 1) + w % 2
  }

  lemma WordBound()
    ensures Pow2(64) == FULL + 1
  {
    assert Pow2(8) == 0x100;
    assert Pow2(16) == 0x1_0000;
    assert Pow2(24) == 0x100_0000;
    assert Pow2(32) == 0x1_0000_0000;
    assert Pow2(40) == 0x100_0000_0000;
    assert Pow2(48) == 0x1_0000_0000_0000;
    assert Pow2(56) == 0x100_0000_0000_0000;
  }

  /** Setting a bit sets that bit and no other. */
  lemma {:induction false} SetBit(w: nat, i: nat, j: nat)
    ensures Bit(WithBit(w, i), j) <==> Bit(w, j) || i == j
  {
    if i > 0 && j > 0 { SetBit(w / 2, i - 1, j - 1); }
  }

  /** Clearing a bit clears that bit and no other. */
  lemma {:induction false} ClearBit(w: nat, i: nat, j: nat)
    ensures Bit(WithoutBit(w, i), j) <==> Bit(w, j) && i != j
  {
    if i > 0 && j > 0 { ClearBit(w / 2, i - 1, j - 1); }
  }

  lemma {:induction false} StaysBelow(w: nat, i: nat, n: nat)
    requires w < Pow2(n) && i < n
    ensures WithBit(w, i) < Pow2(n) && WithoutBit(w, i) < Pow2(n)
  {
    if i > 0 { StaysBelow(w / 2, i - 1, n - 1); }
  }

  function Or(w: Word, i: nat): (r: Word)
    requires i < 64
  {
    WordBound();
    StaysBelow(w, i, 64);
    WithBit(w, i)
  }

  function AndNot(w: Word, i: nat): (r: Word)
    requires i < 64
  {
    WordBound();
    StaysBelow(w, i, 64);
    WithoutBit(w, i)
  }

  /** `!w`. */
  function Not(w: Word): Word {
    FULL - w
  }

  lemma {:induction false} ComplementBelow(w: nat, i: nat, n: nat)
    requires w < Pow2(n) && i < n
    ensures Bit(Pow2(n) - 1 - w, i) <==> !Bit(w, i)
  {
    if i > 0 {
      ComplementBelow(w / 2, i - 1, n - 1);
      assert (Pow2(n) - 1 - w) / 2 == Pow2(n - 1) - 1 - w / 2;
    }
  }

  /** The complement has exactly the bits the word lacks. */
  lemma NotBit(w: Word, i: nat)
    requires i < 64
    ensures Bit(Not(w), i) <==> !Bit(w, i)
  {
    WordBound();
    ComplementBelow(w, i, 64);
  }

  lemma {:induction false} ZeroBelow(w: nat, n: nat)
    requires w < Pow2(n)
    requires forall i: nat :: i < n ==> !Bit(w, i)
    ensures w == 0
  {
    if n > 0 {
      assert !Bit(w, 0);
      forall i: nat | i < n - 1 ensures !Bit(w / 2, i) { assert !Bit(w, i + 1); }
      ZeroBelow(w / 2, n - 1);
    }
  }

  /** `trailing_zeros`: the index of the lowest set bit. */
  method TrailingZeros(m: Word) returns (i: nat)
    requires m != 0
    ensures i < 64 && Bit(m, i) && forall j: nat :: j < i ==> !Bit(m, j)
  {
    i := 0;
    while i < 64 && !Bit(m, i)
      invariant i <= 64
      invariant forall j: nat :: j < i ==> !Bit(m, j)
    {
      i := i + 1;
    }
    WordBound();
    if i == 64 { ZeroBelow(m, 64); }
  }

  lemma {:induction false} ZeroHasNoBits(i: nat)
    ensures !Bit(0, i)
  {
    if i > 0 { ZeroHasNoBits(i - 1); }
  }

  /** A word of all ones has every one of its 64 bits set. */
  lemma FullHasAllBits(i: nat)
    requires i < 64
    ensures Bit(FULL, i)
  {
    NotBit(FULL, i);
    ZeroHasNoBits(i);
  }
}
