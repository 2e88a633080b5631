/** Machine integers: widths, wrap-around and the bitwise mask, written out over `nat`. */
module Bits {

  const TWO_32: nat := 0x1_0000_0000
  const TWO_64: nat := 0x1_0000_0000_0000_0000

  type byte = x: int | 0 <= x < 256
  type u32 = x: int | 0 <= x < 0x1_0000_0000
  type u64 = x: int | 0 <= x < 0x1_0000_0000_0000_0000

  function Wrap32(x: nat): (r: u32) {
    x % TWO_32
  }

  function Wrap64(x: nat): (r: u64) {
    x % TWO_64
  }

  /** `a * b` by repeated addition: the size of `a` slots of `b` bytes each. */
  function Times(a: nat, b: nat): (r: nat) {
    if a == 0 then 0 else Times(a - 1, b) + b
  }

  lemma {:induction false} TimesIsProduct(a: nat, b: nat)
    ensures Times(a, b) == a * b
  {
    if a > 0 {
      TimesIsProduct(a - 1, b);
    }
  }

  lemma {:induction false} TimesSteps(a: nat, c: nat, b: nat)
    requires a < c
    ensures Times(a, b) + b <= Times(c, b)
  {
    if a + 1 < c {
      TimesSteps(a, c - 1, b);
    }
  }

  function Pow2(k: nat): (r: nat)
    ensures r > 0
  {
    if k == 0 then 1 else 2 * Pow2(k - 1)
  }

  function BitAnd(a: nat, b: nat): (r: nat) {
    if a == 0 || b == 0 then 0 else 2 * BitAnd(a / 2, b / 2) + (if a % 2 == 1 && b % 2 == 1 then 1 else 0)
  }

  lemma {:induction false} AndOnes(v: nat, k: nat)
    requires v < Pow2(k)
    ensures BitAnd(v, Pow2(k) - 1) == v
  {
    if v != 0 {
      assert k > 0;
      AndOnes(v / 2, k - 1);
      assert (Pow2(k) - 1) / 2 == Pow2(k - 1) - 1 && (Pow2(k) - 1) % 2 == 1;
    }
  }

  lemma HalveThenDivide(v: nat, p: nat)
    requires p > 0
    ensures v / (2 * p) == (v / 2) / p
  {
    var q, r := v / (2 * p), v % (2 * p);
    assert v == 2 * (p * q) + r by {
      assert v == (2 * p) * q + r;
      assert (2 * p) * q == 2 * (p * q);
    }
    assert v / 2 == p * q + r / 2;
    assert 0 <= r / 2 < p;
    QuotientIs(v / 2, p, q);
  }

  lemma QuotientIs(v: nat, p: nat, q: nat)
    requires p > 0 && p * q <= v < p * q + p
    ensures v / p == q
  {
    var d := v / p;
    assert v == p * d + v % p;
    assert d < q ==> p * (d + 1) <= p * q;
    assert q < d ==> p * (q + 1) <= p * d;
  }

  /** Masking off the `lo` low bits of a `lo + hi`-bit word rounds it down to a
      multiple of `2^lo`. */
  lemma {:induction false} AndHighOnes(v: nat, lo: nat, hi: nat)
    requires v < Pow2(lo + hi)
    ensures Pow2(lo) <= Pow2(lo + hi)
    ensures BitAnd(v, Pow2(lo + hi) - Pow2(lo)) == v / Pow2(lo) * Pow2(lo)
  {
    if lo == 0 {
      AndOnes(v, hi);
    } else {
      AndHighOnes(v / 2, lo - 1, hi);
      var m := Pow2(lo - 1 + hi) - Pow2(lo - 1);
      assert Pow2(lo + hi) - Pow2(lo) == 2 * m;
      HalveThenDivide(v, Pow2(lo - 1));
      if v == 0 || m == 0 {
        assert BitAnd(v, 2 * m) == 0;
        assert BitAnd(v / 2, m) == 0;
      } else {
        assert BitAnd(v, 2 * m) == 2 * BitAnd(v / 2, m);
      }
      MulShuffle(v / Pow2(lo), Pow2(lo - 1));
    }
  }

  lemma MulShuffle(q: nat, p: nat)
    ensures 2 * (q * p) == q * (2 * p)
  {
  }
}
