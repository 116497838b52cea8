/** clocks_calc_mult_shift from util.c (after Linux's clocksource code):
    choosing a multiplier and a shift so that ticks * mult >> shift
    converts ticks of frequency `from` to units of frequency `to` with the
    best accuracy that keeps ticks * mult inside 64 bits for maxsec
    seconds. */
module Calibration {
  import opened Common

  /** Number of significant bits of x (0 for 0). */
  function BitLen(x: nat): (r: nat)
    ensures x < Pow2(r)
    ensures x > 0 ==> r > 0 && Pow2(r - 1) <= x
  {
    if x == 0 then 0 else 1 + BitLen(x / 2)
  }

  /** A value below 2^k has at most k significant bits. */
  lemma {:induction false} BitLenBelow(x: nat, k: nat)
    requires x < Pow2(k)
    ensures BitLen(x) <= k
  {
    if x > 0 {
      BitLenBelow(x / 2, k - 1);
    }
  }

  /** x >> k < q ==> x < q << k */
  lemma {:induction false} ShrBelowShl(x: nat, q: nat, k: nat)
    requires Shr(x, k) < q
    ensures x < Shl(q, k)
  {
    if k > 0 {
      ShrBelowShl(x / 2, q, k - 1);
    }
  }

  /** The high 32 bits of the 64-bit product maxsec * from. */
  function RangeHigh(from: u32, maxsec: u32): (r: nat)
    ensures r < U32_LIMIT
  {
    MulStrict(maxsec, U32_LIMIT, from, U32_LIMIT);
    DivLt(maxsec * from, U32_LIMIT, U32_LIMIT);
    (maxsec * from) / U32_LIMIT
  }

  /** sftacc: 32 minus the bit length of the high half of maxsec * from,
      i.e. the number of bits mult may use so that any tick count up to
      maxsec * from times mult stays below 2^64. */
  function SftAcc(from: u32, maxsec: u32): (r: nat)
    ensures r <= 32
    ensures r + BitLen(RangeHigh(from, maxsec)) == 32
  {
    Pow2At32();
    BitLenBelow(RangeHigh(from, maxsec), 32);
    32 - BitLen(RangeHigh(from, maxsec))
  }

  /** The candidate multiplier for a shift: to * 2^sft / from rounded half
      up, (to << sft + from / 2) / from. */
  function MultAt(from: u32, to: u32, sft: nat): (r: nat)
    requires from > 0
    ensures r * from <= Shl(to, sft) + from / 2 < r * from + from
  {
    (Shl(to, sft) + from / 2) / from
  }

  /** A shift qualifies when its multiplier has no bit at or above sftacc. */
  predicate Qualifies(from: u32, to: u32, maxsec: u32, sft: nat)
    requires from > 0
  {
    Shr(MultAt(from, to, sft), SftAcc(from, maxsec)) == 0
  }

  /** For sft <= 32 the C computation (uint64_t)to << sft, plus from / 2,
      cannot wrap in 64 bits. */
  lemma MultInputFits(from: u32, to: u32, sft: nat)
    requires sft <= 32
    ensures Shl(to, sft) + from / 2 < U64_LIMIT
  {
    ShlMonotone(to, sft, 32);
    ShlIsMul(to, 32);
    Pow2At32();
    MulMono(to, UINT32_MAX, U32_LIMIT, U32_LIMIT);
  }

  /** clocks_calc_mult_shift: the first loop strips the high half of
      maxsec * from bit by bit, the second tries shifts 32, 31, ..., 1 and
      stops at the first whose multiplier fits in sftacc bits. */
  method ClocksCalcMultShift(from: u32, to: u32, maxsec: u32) returns (mult: u32, shift: u32)
    requires from > 0
    ensures shift <= 32
    ensures shift > 0 ==> Qualifies(from, to, maxsec, shift) && mult == MultAt(from, to, shift)
    ensures forall s :: shift < s <= 32 ==> !Qualifies(from, to, maxsec, s)
    ensures shift == 0 ==> mult == ToU32(MultAt(from, to, 1))
  {
    var tmp: nat := RangeHigh(from, maxsec);
    var sftacc: nat := 32;
    assert BitLen(tmp) <= 32 by {
      Pow2At32();
      BitLenBelow(tmp, 32);
    }
    while tmp != 0
      invariant sftacc >= BitLen(tmp)
      invariant sftacc - BitLen(tmp) == SftAcc(from, maxsec)
    {
      tmp := tmp / 2;
      sftacc := sftacc - 1;
    }
    var sft: nat := 32;
    var m: nat := 0;
    while sft > 0
      invariant sft <= 32
      invariant forall s :: sft < s <= 32 ==> !Qualifies(from, to, maxsec, s)
      invariant sft < 32 ==> m == MultAt(from, to, sft + 1)
    {
      MultInputFits(from, to, sft);
      m := MultAt(from, to, sft);
      if Shr(m, sftacc) == 0 {
        assert Qualifies(from, to, maxsec, sft);
        QualifiedFits(from, to, maxsec, sft);
        return m, sft;
      }
      sft := sft - 1;
    }
    return ToU32(m), 0;
  }

  /** A qualifying multiplier is below 2^sftacc, hence fits in 32 bits. */
  lemma QualifiedFits(from: u32, to: u32, maxsec: u32, sft: nat)
    requires from > 0 && Qualifies(from, to, maxsec, sft)
    ensures MultAt(from, to, sft) < Pow2(SftAcc(from, maxsec))
    ensures MultAt(from, to, sft) < U32_LIMIT
  {
    var acc := SftAcc(from, maxsec);
    ShrBelowShl(MultAt(from, to, sft), 1, acc);
    ShlIsMul(1, acc);
    Pow2Monotone(acc, 32);
    Pow2At32();
  }

  /** The guarantee of the doc comment: with a qualifying multiplier, every
      tick count up to maxsec * from can be multiplied by mult without
      overflowing 64 bits. */
  lemma ConversionNoOverflow(from: u32, to: u32, maxsec: u32, sft: nat, ticks: nat)
    requires from > 0 && Qualifies(from, to, maxsec, sft)
    requires ticks <= maxsec * from
    ensures ticks * MultAt(from, to, sft) < U64_LIMIT
  {
    var high := RangeHigh(from, maxsec);
    var b := BitLen(high);
    var acc := SftAcc(from, maxsec);
    QualifiedFits(from, to, maxsec, sft);
    assert Shr(maxsec * from, 32) < Pow2(b) by {
      ShrIsDiv(maxsec * from, 32);
      Pow2At32();
    }
    ShrBelowShl(maxsec * from, Pow2(b), 32);
    ShlIsMul(Pow2(b), 32);
    Pow2Add(b, 32);
    MulStrict(ticks, Pow2(b + 32), MultAt(from, to, sft), Pow2(acc));
    Pow2Add(b + 32, acc);
    Pow2Values();
  }

  /** The multiplier is to * 2^sft / from to the nearest integer: it is off
      by at most half a unit of from. */
  lemma MultRoundsToNearest(from: u32, to: u32, sft: nat)
    requires from > 0
    ensures var m := MultAt(from, to, sft);
      m * from - from / 2 <= to * Pow2(sft) && to * Pow2(sft) < m * from + (from - from / 2)
  {
    ShlIsMul(to, sft);
  }

  /** With maxsec = 0, as osjitter and pingpong call it, sftacc is 32 and
      every multiplier below 2^32 qualifies. */
  lemma ZeroRangeSftAcc(from: u32, to: u32, sft: nat)
    requires from > 0
    ensures SftAcc(from, 0) == 32
    ensures Qualifies(from, to, 0, sft) <==> MultAt(from, to, sft) < U32_LIMIT
  {
    assert RangeHigh(from, 0) == 0;
    var m := MultAt(from, to, sft);
    Pow2At32();
    ShlIsMul(1, 32);
    if m < U32_LIMIT {
      ShrBelow(m, 1, 32);
    } else {
      ShrAtLeast(m, 1, 32);
    }
  }
}
