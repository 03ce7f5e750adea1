/**
 * The PLL arithmetic shared by the two PM drivers: the coefficient fields
 * of a PLL register pair (nouveau_parse_clock_regs in pscnv/nouveau_pm.c
 * and the identical pscnv_parse_clock_regs in pscnv/pscnv_pm.c) and the
 * frequency they give, (n * refclk / m) >> p in uint32_t arithmetic.
 */
module Pll {
  import opened Common

  /** The PLL coefficients: divider m, multiplier n, post-divider shift p. */
  datatype Coefs = Coefs(m: int, n: int, p: int)

  /** The remainder by 2^16 of q * 2^16 + r, for r below 2^16, is r. */
  lemma ModHalf(a: int, q: int, r: int)
    requires a == q * 0x1_0000 + r && 0 <= r < 0x1_0000
    ensures a % 0x1_0000 == r
  {
  }

  /** reg1's low half is n * 256 + m. */
  lemma LowHalf(reg1: nat)
    ensures reg1 % 0x1_0000 == ((reg1 / 256) % 256) * 256 + reg1 % 256
  {
    var q, m := reg1 / 256, reg1 % 256;
    var s, n := q / 256, q % 256;
    assert reg1 == q * 256 + m;
    assert q == s * 256 + n;
    assert reg1 == s * 0x1_0000 + (n * 256 + m);
    ModHalf(reg1, s, n * 256 + m);
  }

  /**
   * p is bits 16..18 of reg0 ((reg0 & 0x70000) >> 16); m is bits 0..7 of
   * reg1 (reg1 & 0xff) and n its bits 8..15 ((reg1 & 0xff00) >> 8).
   */
  function ParseClockRegs(reg0: u32, reg1: u32): (c: Coefs)
    ensures 0 <= c.m < 256 && 0 <= c.n < 256 && 0 <= c.p < 8
    ensures reg1 % 0x1_0000 == c.n * 256 + c.m
    ensures c.p == (reg0 / 0x1_0000) % 8
  {
    LowHalf(reg1);
    Coefs(reg1 % 256, (reg1 / 256) % 256, (reg0 / 0x1_0000) % 8)
  }

  function Pow2(k: nat): (r: nat)
    ensures r >= 1
  {
    if k == 0 then 1 else 2 * Pow2(k - 1)
  }

  /** n * refclk in uint32_t arithmetic, divided by m. */
  function Divided(refclk: u32, c: Coefs): (x: nat)
    requires 0 < c.m && 0 <= c.n
    ensures x * c.m <= (c.n * refclk) % TWO_32 < (x + 1) * c.m
  {
    var prod := (c.n * refclk) % TWO_32;
    DivBounds(prod, c.m);
    prod / c.m
  }

  /**
   * The PLL output frequency: n * refclk wraps at 2^32, is divided by m
   * and shifted right by p. m == 0 is a division by zero the driver does
   * not guard against.
   */
  function Frequency(refclk: u32, reg0: u32, reg1: u32): (r: nat)
    requires ParseClockRegs(reg0, reg1).m != 0
    ensures var c := ParseClockRegs(reg0, reg1);
      r * Pow2(c.p) <= Divided(refclk, c) < (r + 1) * Pow2(c.p)
  {
    var c := ParseClockRegs(reg0, reg1);
    var x := Divided(refclk, c);
    var scale := Pow2(c.p);
    DivBounds(x, scale);
    x / scale
  }

  lemma DivBounds(x: nat, d: nat)
    requires d > 0
    ensures 0 <= x / d <= x
    ensures (x / d) * d <= x < (x / d + 1) * d
  {
    var q := x / d;
    assert x == q * d + x % d;
    MulAboveMinus(q, d);
    MulGrows(q, d);
  }

  lemma MulAboveMinus(k: int, d: int)
    requires d > 0 && k * d > -d
    ensures k >= 0
  {
  }

  lemma MulGrows(k: nat, d: int)
    requires d > 0
    ensures k <= k * d
  {
  }

  lemma DivDiv(x: nat, a: nat, b: nat)
    requires a > 0 && b > 0
    ensures x / a / b == x / (a * b)
  {
    var q := x / a / b;
    var r1 := x % a;
    var r2 := (x / a) % b;
    assert x / a == q * b + r2;
    assert x == (x / a) * a + r1;
    assert x == (q * b + r2) * a + r1;
    assert (q * b + r2) * a == q * (a * b) + r2 * a;
    assert r2 * a <= (b - 1) * a by { assert r2 <= b - 1; }
    assert (b - 1) * a == a * b - a;
    assert 0 <= r2 * a + r1 < a * b;
    DivUnique(x, a * b, q, r2 * a + r1);
  }

  lemma DivUnique(x: nat, d: nat, q: nat, r: nat)
    requires d > 0 && r < d && x == q * d + r
    ensures x / d == q
  {
    var k: int := x / d - q;
    assert x == (x / d) * d + x % d;
    assert k * d == r - x % d;
    MulSmall(k, d);
  }

  lemma MulSmall(k: int, d: int)
    requires d > 0 && -d < k * d < d
    ensures k == 0
  {
  }

  /**
   * Without wrap-around the frequency is refclk * n / (m * 2^p), the
   * formula of a PLL with divider m and post-divider 2^p.
   */
  lemma FrequencyClosedForm(refclk: u32, reg0: u32, reg1: u32)
    requires ParseClockRegs(reg0, reg1).m != 0
    requires ParseClockRegs(reg0, reg1).n * refclk < TWO_32
    ensures var c := ParseClockRegs(reg0, reg1);
      Frequency(refclk, reg0, reg1) == c.n * refclk / (c.m * Pow2(c.p))
  {
    var c := ParseClockRegs(reg0, reg1);
    var prod: nat := c.n * refclk;
    assert prod % TWO_32 == prod;
    assert Divided(refclk, c) == prod / c.m;
    DivDiv(c.n * refclk, c.m, Pow2(c.p));
  }
}
