/** Bit tests and bit-field extraction (include/internal/bit_utils.h) and the hardware-capability
    test built on masks (src/hwcaps.c).
  */
module Bits {
  predicate IsBitSet(reg: bv32, bit: bv32)
    requires bit < 32
  {
    (reg >> bit) & 1 == 1
  }

  function ExtractBitRange(reg: bv32, msb: bv32, lsb: bv32): bv32
    requires lsb <= msb < 32
  {
    LowHalf((reg >> lsb) as bv64 & FieldMask(msb, lsb))
  }

  /** The mask is computed in 64 bits, so that the full 32-bit range does not overflow it. */
  function FieldMask(msb: bv32, lsb: bv32): bv64
    requires lsb <= msb < 32
  {
    var bits: bv64 := (msb - lsb) as bv64 + 1;
    (1 << bits) - 1
  }

  /** Conversion of a uint64_t to uint32_t. */
  function LowHalf(x: bv64): bv32 {
    (x & 0xFFFF_FFFF) as bv32
  }

  /** Bit lsb+i of the register, false beyond its end. */
  predicate Above(reg: bv32, lsb: bv32, i: bv32)
    requires lsb < 32 && i < 32
  {
    lsb + i < 32 && IsBitSet(reg, lsb + i)
  }

  /** Bit i of an extracted field is bit lsb+i of the register; above the field there is nothing. */
  lemma ExtractedBit(reg: bv32, msb: bv32, lsb: bv32, i: bv32)
    requires lsb <= msb < 32 && i < 32
    ensures IsBitSet(ExtractBitRange(reg, msb, lsb), i) <==> i <= msb - lsb && Above(reg, lsb, i)
  {
    MaskBit(msb, lsb, i);
    MaskedBit(reg, lsb, FieldMask(msb, lsb), i);
  }

  lemma MaskedBit(reg: bv32, lsb: bv32, mask: bv64, i: bv32)
    requires lsb < 32 && i < 32
    ensures IsBitSet(LowHalf((reg >> lsb) as bv64 & mask), i) <==> Above(reg, lsb, i) && HasBit(mask, i as bv64)
  {
    var shifted := reg >> lsb;
    ShiftedBit(reg, lsb, i);
    FieldBit(shifted, mask, i);
  }

  lemma MaskBit(msb: bv32, lsb: bv32, i: bv32)
    requires lsb <= msb < 32 && i < 32
    ensures HasBit(FieldMask(msb, lsb), i as bv64) <==> i <= msb - lsb
  {
  }

  lemma FieldBit(shifted: bv32, mask: bv64, i: bv32)
    requires i < 32
    ensures IsBitSet(LowHalf(shifted as bv64 & mask), i) <==> IsBitSet(shifted, i) && HasBit(mask, i as bv64)
  {
  }

  lemma ShiftedBit(reg: bv32, lsb: bv32, i: bv32)
    requires lsb < 32 && i < 32
    ensures IsBitSet(reg >> lsb, i) <==> Above(reg, lsb, i)
  {
  }

  datatype HardwareCapabilities = HardwareCapabilities(hwcaps: bv64, hwcaps2: bv64)

  predicate IsSet(mask: bv64, value: bv64) {
    mask != 0 && value & mask == mask
  }

  predicate IsHwCapsSet(mask: HardwareCapabilities, hwcaps: HardwareCapabilities) {
    IsSet(mask.hwcaps, hwcaps.hwcaps) || IsSet(mask.hwcaps2, hwcaps.hwcaps2)
  }

  predicate HasBit(x: bv64, bit: bv64)
    requires bit < 64
  {
    (x >> bit) & 1 == 1
  }

  /** Every bit of the mask is a bit of the value. */
  ghost predicate Contained(mask: bv64, value: bv64) {
    forall j: bv64 :: j < 64 && HasBit(mask, j) ==> HasBit(value, j)
  }

  /** A mask is set in a value exactly when it has a bit and all its bits are the value's. */
  lemma IsSetIff(mask: bv64, value: bv64)
    ensures IsSet(mask, value) <==> mask != 0 && Contained(mask, value)
    ensures mask != 0 <==> exists j: bv64 :: j < 64 && HasBit(mask, j)
  {
    HasSomeBit(mask);
    if value & mask == mask {
      forall j: bv64 | j < 64 && HasBit(mask, j)
        ensures HasBit(value, j)
      {
        SubMaskBit(mask, value, j);
      }
    }
    if Contained(mask, value) {
      var missing := mask & !value;
      forall j: bv64 | j < 64
        ensures !HasBit(missing, j)
      {
        BitOfDifference(mask, value, j);
      }
      HasSomeBit(missing);
      NoDifference(mask, value);
    }
  }

  /** One word whose mask is not empty and wholly in the value is enough. */
  lemma IsHwCapsSetIff(mask: HardwareCapabilities, hwcaps: HardwareCapabilities)
    ensures IsHwCapsSet(mask, hwcaps) <==>
            || (mask.hwcaps != 0 && Contained(mask.hwcaps, hwcaps.hwcaps))
            || (mask.hwcaps2 != 0 && Contained(mask.hwcaps2, hwcaps.hwcaps2))
  {
    hide IsSet, Contained;
    IsSetIff(mask.hwcaps, hwcaps.hwcaps);
    IsSetIff(mask.hwcaps2, hwcaps.hwcaps2);
  }

  lemma HasSomeBit(x: bv64)
    ensures x != 0 <==> exists j: bv64 :: j < 64 && HasBit(x, j)
  {
    if forall j: bv64 :: j < 64 ==> !HasBit(x, j) {
      NoLowBits(x, 64);
    }
    assert forall j: bv64 :: j < 64 ==> !HasBit(0, j);
  }

  lemma BitOfDifference(mask: bv64, value: bv64, j: bv64)
    requires j < 64
    ensures HasBit(mask & !value, j) <==> HasBit(mask, j) && !HasBit(value, j)
  {
  }

  lemma SubMaskBit(mask: bv64, value: bv64, j: bv64)
    requires j < 64 && value & mask == mask && HasBit(mask, j)
    ensures HasBit(value, j)
  {
  }

  lemma NoDifference(mask: bv64, value: bv64)
    requires mask & !value == 0
    ensures value & mask == mask
  {
  }

  /** A word with its n low bits clear vanishes when shifted up by the other bits. */
  lemma {:induction false} NoLowBits(x: bv64, n: bv64)
    requires n <= 64 && forall j: bv64 :: j < n ==> !HasBit(x, j)
    ensures n == 64 ==> x == 0
    ensures n < 64 ==> x << (64 - n) == 0
    decreases n
  {
    if n > 0 {
      NoLowBits(x, n - 1);
      ClearNext(x, n);
    }
  }

  lemma ClearNext(x: bv64, n: bv64)
    requires 0 < n <= 64 && !HasBit(x, n - 1)
    requires n == 1 || x << (65 - n) == 0
    ensures n == 64 ==> x == 0
    ensures n < 64 ==> x << (64 - n) == 0
  {
  }
}
