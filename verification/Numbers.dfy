/** Machine integers and the little division they are used with. */
module Numbers {
  const TWO_64: nat := 0x1_0000_0000_0000_0000

  type I32 = x: int | -0x8000_0000 <= x < 0x8000_0000
  type U64 = x: int | 0 <= x < 0x1_0000_0000_0000_0000
  type U128 = x: int | 0 <= x < 0x1_0000_0000_0000_0000_0000_0000_0000_0000

  lemma {:induction false} Multiples(a: nat, b: nat, factor: nat)
    requires a <= b
    ensures a * factor <= b * factor
    decreases b
  {
    if a < b {
      Multiples(a, b - 1, factor);
      assert (b - 1) * factor + factor == b * factor;
    }
  }

  lemma DivMod(n: nat, divisor: nat)
    requires divisor > 0
    ensures n / divisor * divisor + n % divisor == n
  {
  }

  lemma QuotientAtLeast(k: nat, n: nat, divisor: nat)
    requires divisor > 0 && k * divisor <= n
    ensures k <= n / divisor
  {
    var q := n / divisor;
    assert (q + 1) * divisor == q * divisor + divisor;
    if q < k {
      Multiples(q + 1, k, divisor);
    }
  }

  lemma QuotientBelow(k: nat, n: nat, divisor: nat)
    requires divisor > 0 && n < k * divisor
    ensures n / divisor < k
  {
    DivMod(n, divisor);
    if k <= n / divisor {
      Multiples(k, n / divisor, divisor);
    }
  }
}
