/** The static 32-bit helpers of BitMask.cs, over bv32 (C# uint). */
module BitMask {

  const MaxValue: bv32 := 0xFFFF_FFFF

  /** getBitsNotSet(value): the bitwise complement of value. */
  function GetBitsNotSet(value: bv32): (r: bv32)
    ensures r & value == 0
    ensures r | value == MaxValue
  {
    !(MaxValue & value)
  }

  /** getBitsNotSet(value, mask) as written: (mask & value) | mask, which is mask whatever value is. */
  function GetBitsNotSetMasked(value: bv32, mask: bv32): (r: bv32)
    ensures r == mask
  {
    (mask & value) | mask
  }

  /** What the doc comment of getBitsNotSet(value, mask) describes: the 1 bits of mask that are 0 in value. */
  function MaskBitsNotSet(value: bv32, mask: bv32): (r: bv32)
    ensures r & value == 0
    ensures r | (mask & value) == mask
  {
    mask & !value
  }

  /** The as-written overload disagrees with its description as soon as value and mask share a bit. */
  lemma GetBitsNotSetMaskedDiffers()
    ensures GetBitsNotSetMasked(1, 1) == 1
    ensures MaskBitsNotSet(1, 1) == 0
  {
  }

  /** The two agree exactly when value and mask share no bit. */
  lemma GetBitsNotSetMaskedAgreesIffDisjoint(value: bv32, mask: bv32)
    ensures GetBitsNotSetMasked(value, mask) == MaskBitsNotSet(value, mask) <==> mask & value == 0
  {
    if mask & value == 0 {
      assert mask & !value == mask;
    } else {
      assert (mask & !value) & value == 0;
    }
  }

  /** setBits: every bit of value and every bit of mask ... */
  function SetBits(value: bv32, mask: bv32): (r: bv32)
    ensures r & value == value && r & mask == mask
  {
    value | mask
  }

  /** ... and no other bit. */
  lemma SetBitsAddsNothingElse(value: bv32, mask: bv32)
    ensures SetBits(value, mask) & !(value | mask) == 0
  {
  }

  lemma SetBitsIdempotent(value: bv32, mask: bv32)
    ensures SetBits(SetBits(value, mask), mask) == SetBits(value, mask)
  {
  }

  /** clearBits as written: value - (value & mask), in wrapping uint arithmetic; it equals value & ~mask. */
  function ClearBits(value: bv32, mask: bv32): (r: bv32)
    ensures r == value & !mask
  {
    SubtractSharedBits(value, mask);
    value - (value & mask)
  }

  lemma SubtractSharedBits(value: bv32, mask: bv32)
    ensures value - (value & mask) == value & !mask
  {
  }

  /** After clearBits no bit of mask is set, and every bit outside mask is as it was. */
  lemma ClearBitsClearsOnlyMask(value: bv32, mask: bv32)
    ensures ClearBits(value, mask) & mask == 0
    ensures ClearBits(value, mask) & !mask == value & !mask
  {
  }

  /** The subtraction in clearBits never wraps: the bits subtracted are a subset of value. */
  lemma ClearBitsNoUnderflow(value: bv32, mask: bv32)
    ensures value & mask <= value
    ensures (value & mask) | value == value
  {
  }

  /** containsBits: true iff no bit of mask is missing from value. */
  function ContainsBits(value: bv32, mask: bv32): (r: bool)
    ensures r <==> mask & !value == 0
  {
    value & mask == mask
  }

  lemma ContainsSetBits(value: bv32, mask: bv32)
    ensures ContainsBits(SetBits(value, mask), mask)
  {
  }

  lemma ContainsClearedBitsIffEmpty(value: bv32, mask: bv32)
    ensures ContainsBits(ClearBits(value, mask), mask) <==> mask == 0
  {
  }

  /** C#'s `1 << position` on an int: the shift count is taken modulo 32 (its low five bits). The int result
      is widened to long before the & with a uint, which keeps its low 32 bits as they are. */
  function ShiftedOne(position: int): bv32
  {
    (1 as bv32) << (position % 32)
  }

  /** getIsBitSet as written: false outside 1..32. */
  function GetIsBitSet(value: bv32, position: int): (r: bool)
    ensures position < 1 || position > 32 ==> !r
  {
    if position < 1 || position > 32 then false
    else value & ShiftedOne(position) != 0
  }

  /** What the range check 1..32 of getIsBitSet describes: a 1-based bit index, `value & (1 << (position - 1))`.
      It is the as-written test one position lower, except at position 1, where it reads bit 0. */
  function IsBitSetOneBased(value: bv32, position: int): (r: bool)
    ensures position < 1 || position > 32 ==> !r
    ensures position == 1 ==> (r <==> value & 1 != 0)
  {
    if position < 1 || position > 32 then false
    else value & ShiftedOne(position - 1) != 0
  }

  /** From position 2 on, the corrected test answers what the as-written test answers one position lower. */
  lemma IsBitSetOneBasedShiftsAsWritten(value: bv32, position: int)
    requires 2 <= position <= 32
    ensures IsBitSetOneBased(value, position) == GetIsBitSet(value, position - 1)
  {
    assert (position - 1) % 32 == position - 1;
  }

  /** For 1 <= position <= 31 getIsBitSet tests the 0-based bit numbered position, which is one-based bit
      position + 1. */
  lemma GetIsBitSetReadsZeroBasedBit(value: bv32, position: int)
    requires 1 <= position <= 31
    ensures GetIsBitSet(value, position) <==> (value >> position) & 1 == 1
    ensures GetIsBitSet(value, position) == IsBitSetOneBased(value, position + 1)
  {
    assert ShiftedOne(position) == (1 as bv32) << position;
    IsBitSetOneBasedShiftsAsWritten(value, position + 1);
  }

  /** Position 32 passes the range check, and the masked shift count makes it test bit 0. */
  lemma GetIsBitSetPosition32ReadsBitZero(value: bv32)
    ensures GetIsBitSet(value, 32) <==> value & 1 == 1
    ensures GetIsBitSet(value, 32) == IsBitSetOneBased(value, 1)
  {
  }

  /** The as-written test reads the wrong bit: value 1 has its first bit set, position 1 says it is not, and
      position 32 says it is. */
  lemma GetIsBitSetOffByOne()
    ensures !GetIsBitSet(1, 1) && IsBitSetOneBased(1, 1)
    ensures GetIsBitSet(1, 32) && !IsBitSetOneBased(1, 32)
  {
  }

  /** The one-based test sees exactly the bit a single-bit mask sets. */
  lemma IsBitSetOneBasedSingleBit(p: int, q: int)
    requires 1 <= p <= 32 && 1 <= q <= 32
    ensures IsBitSetOneBased((1 as bv32) << (p - 1), q) <==> p == q
  {
  }
}
