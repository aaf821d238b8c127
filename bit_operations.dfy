/** Single-bit helpers on a 32-bit word (src/BitOperations.h).
    The C++ helpers take the word by reference and update it; here each one
    returns the updated word. Bit positions are 32-bit unsigned values, and a
    position must be below 32 for the shift `1 << bit` to address a bit of the
    word. */
module BitOps {

  /** `(bitField >> bit) & 1` is non-zero. */
  function IsBitSet(bitField: bv32, bit: bv32): bool
    requires bit < 32
  {
    (bitField >> bit) & 1 == 1
  }

  /** `bitField |= 1 << bit`: bit `bit` becomes 1, every other bit is kept. */
  function SetBit(bitField: bv32, bit: bv32): (r: bv32)
    requires bit < 32
    ensures forall j: bv32 :: j < 32 ==> IsBitSet(r, j) == (j == bit || IsBitSet(bitField, j))
  {
    var r := bitField | (1 << bit);
    assert forall j: bv32 :: j < 32 ==> IsBitSet(r, j) == (j == bit || IsBitSet(bitField, j)) by {
      forall j: bv32 | j < 32 { SetBitAt(bitField, bit, j); }
    }
    r
  }

  lemma SetBitAt(bitField: bv32, bit: bv32, j: bv32)
    requires bit < 32 && j < 32
    ensures IsBitSet(bitField | (1 << bit), j) == (j == bit || IsBitSet(bitField, j))
  {
  }

  /** `bitField &= ~(1 << bit)`: bit `bit` becomes 0, every other bit is kept. */
  function ClearBit(bitField: bv32, bit: bv32): (r: bv32)
    requires bit < 32
    ensures forall j: bv32 :: j < 32 ==> IsBitSet(r, j) == (j != bit && IsBitSet(bitField, j))
  {
    var r := bitField & !(1 << bit);
    assert forall j: bv32 :: j < 32 ==> IsBitSet(r, j) == (j != bit && IsBitSet(bitField, j)) by {
      forall j: bv32 | j < 32 { ClearBitAt(bitField, bit, j); }
    }
    r
  }

  lemma ClearBitAt(bitField: bv32, bit: bv32, j: bv32)
    requires bit < 32 && j < 32
    ensures IsBitSet(bitField & !(1 << bit), j) == (j != bit && IsBitSet(bitField, j))
  {
  }

  /** Clears the bit when it is set, sets it otherwise: exactly bit `bit` toggles. */
  function FlipBit(bitField: bv32, bit: bv32): (r: bv32)
    requires bit < 32
    ensures forall j: bv32 :: j < 32 ==> IsBitSet(r, j) == (if j == bit then !IsBitSet(bitField, j) else IsBitSet(bitField, j))
  {
    if IsBitSet(bitField, bit) then ClearBit(bitField, bit) else SetBit(bitField, bit)
  }

  /** A word is determined by its 32 bits. */
  lemma BitsDetermineWord(a: bv32, b: bv32)
    requires forall j: bv32 :: j < 32 ==> IsBitSet(a, j) == IsBitSet(b, j)
    ensures a == b
  {
    var d := a ^ b;
    forall j: bv32 | j < 32
      ensures !IsBitSet(d, j)
    {
      XorBitAt(a, b, j);
    }
    LowBitsZero(d);
  }

  lemma XorBitAt(a: bv32, b: bv32, j: bv32)
    requires j < 32
    ensures IsBitSet(a ^ b, j) == (IsBitSet(a, j) != IsBitSet(b, j))
  {
  }

  /** A word none of whose 32 bits is set is zero. */
  lemma LowBitsZero(d: bv32)
    requires forall j: bv32 :: j < 32 ==> !IsBitSet(d, j)
    ensures d == 0
  {
    assert !IsBitSet(d, 0) && !IsBitSet(d, 1) && !IsBitSet(d, 2) && !IsBitSet(d, 3);
    assert !IsBitSet(d, 4) && !IsBitSet(d, 5) && !IsBitSet(d, 6) && !IsBitSet(d, 7);
    assert !IsBitSet(d, 8) && !IsBitSet(d, 9) && !IsBitSet(d, 10) && !IsBitSet(d, 11);
    assert !IsBitSet(d, 12) && !IsBitSet(d, 13) && !IsBitSet(d, 14) && !IsBitSet(d, 15);
    assert !IsBitSet(d, 16) && !IsBitSet(d, 17) && !IsBitSet(d, 18) && !IsBitSet(d, 19);
    assert !IsBitSet(d, 20) && !IsBitSet(d, 21) && !IsBitSet(d, 22) && !IsBitSet(d, 23);
    assert !IsBitSet(d, 24) && !IsBitSet(d, 25) && !IsBitSet(d, 26) && !IsBitSet(d, 27);
    assert !IsBitSet(d, 28) && !IsBitSet(d, 29) && !IsBitSet(d, 30) && !IsBitSet(d, 31);
  }

  /** Flipping the same bit twice restores the word. */
  lemma FlipBitTwice(bitField: bv32, bit: bv32)
    requires bit < 32
    ensures FlipBit(FlipBit(bitField, bit), bit) == bitField
  {
    var once := FlipBit(bitField, bit);
    var twice := FlipBit(once, bit);
    forall j: bv32 | j < 32
      ensures IsBitSet(twice, j) == IsBitSet(bitField, j)
    {
      assert IsBitSet(once, j) == (if j == bit then !IsBitSet(bitField, j) else IsBitSet(bitField, j));
    }
    BitsDetermineWord(twice, bitField);
  }

  /** Setting a bit and then testing it answers true; clearing it answers false. */
  lemma SetClearThenTest(bitField: bv32, bit: bv32)
    requires bit < 32
    ensures IsBitSet(SetBit(bitField, bit), bit)
    ensures !IsBitSet(ClearBit(bitField, bit), bit)
  {
  }
}
