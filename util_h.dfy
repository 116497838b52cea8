/** The inline helpers of util.h: the qsort comparator for uint32_t values
    and the tick-to-nanosecond conversion through a 128-bit product. */
module UtilH {
  import opened Common

  /** cmp_u32: -1, 0 or 1 as a is below, equal to or above b. */
  function CmpU32(a: u32, b: u32): (r: int)
    ensures r == -1 || r == 0 || r == 1
    ensures r == -1 <==> a < b
    ensures r == 0 <==> a == b
    ensures r == 1 <==> a > b
  {
    if a < b then -1 else if a > b then 1 else 0
  }

  /** The comparator is antisymmetric and zero on equal arguments, so it is
      a valid qsort ordering. */
  lemma CmpU32Antisymmetric(a: u32, b: u32)
    ensures CmpU32(a, b) == -CmpU32(b, a)
    ensures CmpU32(a, a) == 0
  {
  }

  lemma CmpU32Transitive(a: u32, b: u32, c: u32)
    requires CmpU32(a, b) <= 0 && CmpU32(b, c) <= 0
    ensures CmpU32(a, c) <= 0
  {
  }

  /** mul_u64_u32_shr: the 128-bit product cyc * mult shifted right by
      shift, returned as uint64_t. The shift of a 128-bit value must be
      below 128. The product never wraps in 128 bits, so the result is
      floor(cyc * mult / 2^shift) taken modulo 2^64. */
  function MulU64U32Shr(cyc: u64, mult: u32, shift: nat): (r: u64)
    requires shift < 128
    ensures r == Shr(cyc * mult, shift) % U64_LIMIT
  {
    ProductFits(cyc, mult);
    var x := (cyc * mult) % U128_LIMIT;
    ToU64(Shr(x, shift))
  }

  /** The halvings are floor division by 2^shift. */
  lemma MulU64U32ShrIsFloorDiv(cyc: u64, mult: u32, shift: nat)
    requires shift < 128
    ensures MulU64U32Shr(cyc, mult, shift) == (cyc * mult / Pow2(shift)) % U64_LIMIT
  {
    ShrIsDiv(cyc * mult, shift);
  }

  lemma ProductFits(cyc: u64, mult: u32)
    ensures cyc * mult < U96_LIMIT
    ensures (cyc * mult) % U128_LIMIT == cyc * mult
  {
    MulStrict(cyc, U64_LIMIT, mult, U32_LIMIT);
    ModSmall(cyc * mult, U128_LIMIT);
  }

  /** With a shift of at least 32 the shifted product fits in 64 bits, so
      nothing is lost to the final truncation. */
  lemma MulU64U32ShrExact(cyc: u64, mult: u32, shift: nat)
    requires 32 <= shift < 128
    ensures MulU64U32Shr(cyc, mult, shift) == Shr(cyc * mult, shift)
  {
    var x := cyc * mult;
    ProductFits(cyc, mult);
    Pow2At32();
    ShlIsMul(U64_LIMIT, 32);
    ShlMonotone(U64_LIMIT, 32, shift);
    ShrBelow(x, U64_LIMIT, shift);
    ModSmall(Shr(x, shift), U64_LIMIT);
  }

  /** Where the result is not truncated, the conversion is monotone in the
      tick count. */
  lemma MulU64U32ShrMonotone(c1: u64, c2: u64, mult: u32, shift: nat)
    requires shift < 128 && c1 <= c2
    requires Shr(c2 * mult, shift) < U64_LIMIT
    ensures MulU64U32Shr(c1, mult, shift) <= MulU64U32Shr(c2, mult, shift)
  {
    MulMono(c1, c2, mult, mult);
    ShrMonotone(c1 * mult, c2 * mult, shift);
    ModSmall(Shr(c2 * mult, shift), U64_LIMIT);
    ModSmall(Shr(c1 * mult, shift), U64_LIMIT);
  }

  /** Zero ticks convert to zero nanoseconds. */
  lemma MulU64U32ShrZero(mult: u32, shift: nat)
    requires shift < 128
    ensures MulU64U32Shr(0, mult, shift) == 0
  {
    assert 0 * mult == 0;
    ShrZero(shift);
  }
}
