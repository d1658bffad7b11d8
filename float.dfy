/**
 * Rust's `f32`, reduced to what the crate inspects: `classify()` and the
 * sign bit. A value is its IEEE 754 binary32 bit pattern, so that `get()`
 * returning "the same float" means the same bits.
 */
module Float {

  /** `std::num::FpCategory`. */
  datatype FpCategory = Nan | Infinite | Zero | Subnormal | Normal

  datatype F32 = F32(bits: bv32) {

    function Exponent(): bv32 { (bits >> 23) & 0xFF }

    function Mantissa(): bv32 { bits & 0x7F_FFFF }

    /** `f32::classify`. */
    function Classify(): FpCategory {
      if Exponent() == 0xFF then
        (if Mantissa() == 0 then Infinite else Nan)
      else if Exponent() == 0 then
        (if Mantissa() == 0 then Zero else Subnormal)
      else
        Normal
    }

    /** `f32::is_sign_positive`: the sign bit is clear (true for +0.0, false for -0.0). */
    predicate IsSignPositive() { bits & 0x8000_0000 == 0 }
  }

  /** The classes the crate accepts as well-formed geometry. */
  predicate IsZeroOrNormal(n: F32) {
    n.Classify() == Zero || n.Classify() == Normal
  }

  const POS_ZERO: F32 := F32(0x0000_0000)
  const NEG_ZERO: F32 := F32(0x8000_0000)
  const POS_ONE: F32 := F32(0x3F80_0000)
  const NEG_ONE: F32 := F32(0xBF80_0000)
}
