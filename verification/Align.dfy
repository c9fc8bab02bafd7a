/** The address arithmetic of `include/align.h`, on addresses small enough not to wrap around. */
module Align {

  function Pow2(n: nat): (r: nat)
    ensures r > 0
  {
    if n == 0 then 1 else 2 * Pow2(n - 1)
  }

  lemma MulAtLeast(m: nat, d: int)
    ensures d >= 1 ==> m * d >= m
    ensures d <= -1 ==> m * d + m <= 0
  {
  }

  /** The quotient and the remainder are the only ones. */
  lemma Quotient(m: nat, q: int, r: int)
    requires 0 <= r < m
    ensures (m * q + r) / m == q && (m * q + r) % m == r
  {
    var x := m * q + r;
    var d := x / m - q;
    assert x == m * (x / m) + x % m;
    assert m * d == r - x % m;
    MulAtLeast(m, d);
  }

  predicate IsAligned(addr: nat, bits: nat) {
    addr % Pow2(bits) == 0
  }

  function AlignDown(addr: nat, bits: nat): int {
    addr - addr % Pow2(bits)
  }

  function AlignUp(addr: nat, bits: nat): int {
    AlignDown(addr + Pow2(bits) - 1, bits)
  }

  lemma {:induction false} Pow2Sum(a: nat, b: nat)
    ensures Pow2(a + b) == Pow2(a) * Pow2(b)
  {
    if a > 0 {
      Pow2Sum(a - 1, b);
      assert a + b - 1 == a - 1 + b;
      assert Pow2(a + b) == 2 * (Pow2(a - 1) * Pow2(b)) == Pow2(a) * Pow2(b);
    }
  }

  lemma Powers()
    ensures Pow2(8) == 0x100 && Pow2(16) == 0x1_0000 && Pow2(32) == 0x1_0000_0000 && Pow2(64) == 0x1_0000_0000_0000_0000
  {
    assert Pow2(4) == 0x10;
    Pow2Sum(4, 4);
    Pow2Sum(8, 8);
    Pow2Sum(16, 16);
    Pow2Sum(32, 32);
  }

  /** `align_down` gives the greatest aligned address that is not above. */
  lemma AlignDownIs(addr: nat, bits: nat)
    ensures 0 <= AlignDown(addr, bits) <= addr < AlignDown(addr, bits) + Pow2(bits)
    ensures IsAligned(AlignDown(addr, bits), bits)
  {
    hide Pow2;
    var m := Pow2(bits);
    var q := addr / m;
    assert addr == m * q + addr % m;
    MulAtLeast(m, q);
    Quotient(m, q, 0);
    assert AlignDown(addr, bits) == m * q + 0;
  }

  /** `align_up` gives the least aligned address that is not below. */
  lemma AlignUpIs(addr: nat, bits: nat)
    ensures addr <= AlignUp(addr, bits) < addr + Pow2(bits)
    ensures IsAligned(AlignUp(addr, bits), bits)
  {
    AlignDownIs(addr + Pow2(bits) - 1, bits);
  }

  /** Something aligned to more bits is aligned to fewer. */
  lemma AlignedToFewer(addr: nat, bits: nat, fewer: nat)
    requires IsAligned(addr, bits) && fewer <= bits
    ensures IsAligned(addr, fewer)
  {
    hide Pow2;
    Pow2Sum(fewer, bits - fewer);
    var m, u := Pow2(fewer), Pow2(bits - fewer);
    var q := addr / Pow2(bits);
    assert addr == (m * u) * q;
    assert addr == m * (u * q) + 0;
    Quotient(m, u * q, 0);
  }
}
