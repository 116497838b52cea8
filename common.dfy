/** Fixed-width unsigned integers as the C sources use them, and the
    Option/Result wrappers used for error returns. */
module Common {

  const U32_LIMIT: nat := 0x1_0000_0000
  const U64_LIMIT: nat := 0x1_0000_0000_0000_0000
  const U96_LIMIT: nat := 0x1_0000_0000_0000_0000_0000_0000
  const U128_LIMIT: nat := 0x1_0000_0000_0000_0000_0000_0000_0000_0000
  const UINT32_MAX: nat := 0xFFFF_FFFF
  const UINT64_MAX: nat := 0xFFFF_FFFF_FFFF_FFFF

  type u32 = x: int | 0 <= x < 0x1_0000_0000
  type u64 = x: int | 0 <= x < 0x1_0000_0000_0000_0000

  datatype Option<T> = None | Some(value: T)

  datatype Result<T, E> = Ok(value: T) | Err(error: E)

  /** Conversion of any integer to uint32_t (C's modular conversion). */
  function ToU32(x: int): (r: u32)
    ensures 0 <= x < U32_LIMIT ==> r == x
  {
    x % U32_LIMIT
  }

  /** Conversion of any integer to uint64_t (C's modular conversion). */
  function ToU64(x: int): (r: u64)
    ensures 0 <= x < U64_LIMIT ==> r == x
  {
    x % U64_LIMIT
  }

  function Pow2(k: nat): (r: nat)
    ensures r >= 1
    ensures k >= 1 ==> r >= 2
  {
    if k == 0 then 1 else 2 * Pow2(k - 1)
  }

  lemma {:induction false} Pow2Add(a: nat, b: nat)
    ensures Pow2(a + b) == Pow2(a) * Pow2(b)
  {
    if b > 0 {
      Pow2Add(a, b - 1);
      assert Pow2(a + b) == 2 * Pow2(a + b - 1);
      MulTwice(Pow2(a), Pow2(b - 1));
    }
  }

  lemma {:induction false} Pow2Monotone(a: nat, b: nat)
    requires a <= b
    ensures Pow2(a) <= Pow2(b)
  {
    if a < b {
      Pow2Monotone(a, b - 1);
    }
  }

  lemma Pow2At32()
    ensures Pow2(32) == U32_LIMIT
  {
    assert Pow2(2) == 4;
    Pow2Add(2, 2);
    assert Pow2(4) == 16;
    Pow2Add(4, 4);
    assert Pow2(8) == 256;
    Pow2Add(8, 8);
    assert Pow2(16) == 0x1_0000;
    Pow2Add(16, 16);
  }

  lemma Pow2Values()
    ensures Pow2(31) == 0x8000_0000
    ensures Pow2(32) == U32_LIMIT
    ensures Pow2(64) == U64_LIMIT
  {
    Pow2At32();
    Pow2Add(32, 32);
    assert Pow2(32) == 2 * Pow2(31);
  }

  /** x >> k: k halvings, each rounding down. */
  function Shr(x: nat, k: nat): nat
  {
    if k == 0 then x else Shr(x / 2, k - 1)
  }

  /** x << k over unbounded integers: k doublings. */
  function Shl(x: nat, k: nat): nat
  {
    if k == 0 then x else 2 * Shl(x, k - 1)
  }

  lemma {:induction false} ShlIsMul(x: nat, k: nat)
    ensures Shl(x, k) == x * Pow2(k)
  {
    if k > 0 {
      ShlIsMul(x, k - 1);
      var p := Pow2(k - 1);
      assert Pow2(k) == 2 * p;
      MulTwice(x, p);
    }
  }

  lemma MulTwice(x: nat, p: nat)
    ensures 2 * (x * p) == x * (2 * p)
  {
  }

  lemma {:induction false} ShlMonotone(x: nat, a: nat, b: nat)
    requires a <= b
    ensures Shl(x, a) <= Shl(x, b)
  {
    if a < b {
      ShlMonotone(x, a, b - 1);
    }
  }

  lemma {:induction false} ShrMonotone(x: nat, y: nat, k: nat)
    requires x <= y
    ensures Shr(x, k) <= Shr(y, k)
  {
    if k > 0 {
      ShrMonotone(x / 2, y / 2, k - 1);
    }
  }

  /** x < q << k ==> (x >> k) < q */
  lemma {:induction false} ShrBelow(x: nat, q: nat, k: nat)
    requires x < Shl(q, k)
    ensures Shr(x, k) < q
  {
    if k > 0 {
      ShrBelow(x / 2, q, k - 1);
    }
  }

  /** q << k <= x ==> q <= (x >> k) */
  lemma {:induction false} ShrAtLeast(x: nat, q: nat, k: nat)
    requires Shl(q, k) <= x
    ensures q <= Shr(x, k)
  {
    if k > 0 {
      ShrAtLeast(x / 2, q, k - 1);
    }
  }

  lemma {:induction false} ShrZero(k: nat)
    ensures Shr(0, k) == 0
  {
    if k > 0 {
      ShrZero(k - 1);
    }
  }

  lemma DivUnique(x: nat, d: nat, q: nat, r: nat)
    requires d > 0 && r < d && x == d * q + r
    ensures x / d == q
  {
    var q' := x / d;
    assert x == d * q' + x % d;
    assert d * q < d * (q' + 1);
    MulCancelLt(d, q, q' + 1);
    assert d * q' < d * (q + 1);
    MulCancelLt(d, q', q + 1);
  }
  lemma HalveThenDiv(x: nat, p: nat)
    requires p > 0
    ensures (x / 2) / p == x / (2 * p)
  {
    var q := x / 2;
    var q2 := q / p;
    var r2 := q % p;
    assert q == p * q2 + r2;
    assert x == 2 * q + x % 2;
    assert x == (2 * p) * q2 + (2 * r2 + x % 2);
    DivUnique(x, 2 * p, q2, 2 * r2 + x % 2);
  }
  lemma {:induction false} ShrIsDiv(x: nat, k: nat)
    ensures Shr(x, k) == x / Pow2(k)
  {
    if k > 0 {
      ShrIsDiv(x / 2, k - 1);
      HalveThenDiv(x, Pow2(k - 1));
    }
  }

  function Min(a: int, b: int): int { if a < b then a else b }

  lemma MulStrict(a: nat, x: nat, b: nat, y: nat)
    requires a < x && b < y
    ensures a * b < x * y
  {
    assert a * b <= a * y;
    assert a * y < x * y;
  }

  lemma MulMono(a: nat, x: nat, b: nat, y: nat)
    requires a <= x && b <= y
    ensures a * b <= x * y
  {
    assert a * b <= a * y;
    assert a * y <= x * y;
  }

  lemma MulCancelLt(d: nat, a: nat, b: nat)
    requires d > 0 && d * a < d * b
    ensures a < b
  {
  }

  lemma DivLt(x: nat, d: nat, q: nat)
    requires d > 0 && x < q * d
    ensures x / d < q
  {
    assert d * (x / d) <= x;
    MulCancelLt(d, x / d, q);
  }

  lemma DivMono(x: nat, y: nat, d: nat)
    requires d > 0 && x <= y
    ensures x / d <= y / d
  {
    assert d * (x / d) <= x;
    assert y < d * (y / d) + d;
    assert d * (x / d) < d * (y / d + 1);
    MulCancelLt(d, x / d, y / d + 1);
  }

  lemma ModUnique(x: nat, d: nat, q: nat, r: nat)
    requires d > 0 && r < d && x == d * q + r
    ensures x % d == r
  {
    DivUnique(x, d, q, r);
  }

  /** Reducing the left operand first does not change a sum's residue. */
  lemma ModAddLeft(a: nat, b: nat, m: nat)
    requires m > 0
    ensures (a % m + b) % m == (a + b) % m
  {
    var q := a / m;
    var r := a % m;
    var q2 := (r + b) / m;
    var r2 := (r + b) % m;
    assert m * (q + q2) == m * q + m * q2;
    ModUnique(a + b, m, q + q2, r2);
  }

  lemma ModSmall(x: nat, m: nat)
    requires x < m
    ensures x % m == x
  {
  }
}
