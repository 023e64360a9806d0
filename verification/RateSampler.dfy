/** Deterministic sampling by trace id: the low 64 bits are scrambled by a
    wrapping multiplication and compared with a threshold. */
module RateSampler {
  import opened Numbers

  const MAX_UINT_64BITS: nat := TWO_64 - 1
  const KNUTH_FACTOR: nat := 1_111_111_111_111_111_111
  // The inverse of KNUTH_FACTOR modulo 2^64; it exists because the factor is odd.
  const KNUTH_INVERSE: nat := 3_396_998_997_810_348_023

  function Clamp(rate: real): (r: real)
    ensures 0.0 <= r <= 1.0
    ensures 0.0 <= rate <= 1.0 ==> r == rate
  {
    if rate < 0.0 then 0.0 else if rate > 1.0 then 1.0 else rate
  }

  /** The float nearest to 2^64 - 1 is 2^64, and multiplying a float below 1 by
      it is exact, so real arithmetic computes the source's threshold. */
  function CalculateThreshold(rate: real): (t: U64)
    requires 0.0 <= rate <= 1.0
    ensures rate < 1.0 ==> t as real <= rate * TWO_64 as real < t as real + 1.0
    ensures rate >= 1.0 ==> t == MAX_UINT_64BITS
  {
    if rate >= 1.0 then MAX_UINT_64BITS
    else
      assert rate * TWO_64 as real < TWO_64 as real;
      (rate * TWO_64 as real).Floor
  }

  function Hash(id: U64): U64 {
    id * KNUTH_FACTOR % TWO_64
  }

  datatype RateSampler = RateSampler(sampleRate: real, threshold: U64) {
    predicate Sample(traceId: U128) {
      if sampleRate <= 0.0 then false
      else if sampleRate >= 1.0 then true
      else Hash(traceId % TWO_64) <= threshold
    }
  }

  function New(sampleRate: real): RateSampler {
    var clamped := Clamp(sampleRate);
    RateSampler(clamped, CalculateThreshold(clamped))
  }

  // ----- The scrambling is a bijection -----

  function Unhash(h: U64): U64 {
    h * KNUTH_INVERSE % TWO_64
  }

  lemma ModTimes(x: int, y: int)
    ensures (x % TWO_64) * y % TWO_64 == x * y % TWO_64
  {
    var q := x / TWO_64;
    assert x == q * TWO_64 + x % TWO_64;
    assert x * y == (x % TWO_64) * y + (q * y) * TWO_64 by {
      Distribute(q, x % TWO_64, y);
    }
    AddMultiple((x % TWO_64) * y, q * y);
  }

  lemma Distribute(q: int, r: int, y: int)
    ensures (q * TWO_64 + r) * y == r * y + (q * y) * TWO_64
  {
  }

  lemma AddMultiple(r: int, k: int)
    ensures (r + k * TWO_64) % TWO_64 == r % TWO_64
  {
    var q := r / TWO_64;
    assert r + k * TWO_64 == (q + k) * TWO_64 + r % TWO_64;
  }

  lemma InverseOfFactor()
    ensures KNUTH_FACTOR * KNUTH_INVERSE % TWO_64 == 1
  {
  }

  lemma HashUnhash(h: U64)
    ensures Hash(Unhash(h)) == h && Unhash(Hash(h)) == h
  {
    ModTimes(h * KNUTH_INVERSE, KNUTH_FACTOR);
    ModTimes(h * KNUTH_FACTOR, KNUTH_INVERSE);
    InverseOfFactor();
    var one := KNUTH_FACTOR * KNUTH_INVERSE;
    assert h * KNUTH_INVERSE * KNUTH_FACTOR == h * one == h * KNUTH_FACTOR * KNUTH_INVERSE;
    ModTimes(one, h);
  }

  // ----- What is kept -----

  ghost function HashedBelow(n: nat): set<int> {
    set x: int | 0 <= x < TWO_64 && Hash(x) < n
  }

  lemma {:induction false} CountHashedBelow(n: nat)
    requires n <= TWO_64
    ensures |HashedBelow(n)| == n
  {
    if n == 0 {
      assert HashedBelow(0) == {};
    } else {
      CountHashedBelow(n - 1);
      var last := Unhash(n - 1);
      HashUnhash(n - 1);
      forall x: int | 0 <= x < TWO_64 && Hash(x) == n - 1 ensures x == last {
        HashUnhash(x);
      }
      assert HashedBelow(n) == HashedBelow(n - 1) + {last};
    }
  }

  /** The low halves of trace ids that a sampler built with this rate keeps. */
  ghost function KeptLowHalves(rate: real): set<int> {
    set x: int | 0 <= x < TWO_64 && New(rate).Sample(x)
  }

  /** For a rate strictly between 0 and 1, exactly `threshold + 1` low halves are
      kept: the kept fraction exceeds the rate, by at most 2^-64. */
  lemma KeptFraction(rate: real)
    requires 0.0 < rate < 1.0
    ensures |KeptLowHalves(rate)| == New(rate).threshold + 1
    ensures 0.0 < |KeptLowHalves(rate)| as real - rate * TWO_64 as real <= 1.0
  {
    var t: nat := New(rate).threshold;
    CountHashedBelow(t + 1);
    assert KeptLowHalves(rate) == HashedBelow(t + 1);
  }

  /** Outside that interval everything or nothing is kept, negative rates and
      rates above 1 included. */
  lemma KeptAtTheEnds(rate: real, traceId: U128)
    ensures rate <= 0.0 ==> !New(rate).Sample(traceId)
    ensures rate >= 1.0 ==> New(rate).Sample(traceId)
  {
  }

  /** The decision depends on the low half alone, so services that see only the
      low 64 bits of the id agree with those that see all 128. */
  lemma OnlyLowHalfMatters(rate: real, a: U128, b: U128)
    requires a % TWO_64 == b % TWO_64
    ensures New(rate).Sample(a) == New(rate).Sample(b)
    ensures New(rate).Sample(a) <==> a % TWO_64 in KeptLowHalves(rate)
  {
    var low := a % TWO_64;
    assert low < TWO_64 * TWO_64 && low % TWO_64 == low;
  }

  /** An id is kept exactly if its low half times 1111111111111111111, modulo 2^64,
      does not exceed the rate as a share of 2^64. */
  lemma KeptExactly(rate: real, traceId: U128)
    requires 0.0 < rate < 1.0
    ensures New(rate).Sample(traceId) <==>
      ((traceId % 0x1_0000_0000_0000_0000) * 1_111_111_111_111_111_111 % 0x1_0000_0000_0000_0000) as real
        <= rate * 0x1_0000_0000_0000_0000 as real
  {
    var hash, exact := Hash(traceId % TWO_64), rate * TWO_64 as real;
    assert hash <= exact.Floor <==> hash as real <= exact;
  }

  /** Samplers with different rates are nested: whatever the smaller rate keeps
      the larger rate keeps too. */
  lemma LargerRateKeepsMore(small: real, large: real, traceId: U128)
    requires small <= large
    ensures New(small).Sample(traceId) ==> New(large).Sample(traceId)
  {
    var s, l := Clamp(small), Clamp(large);
    if 0.0 < s && l < 1.0 {
      assert s * TWO_64 as real <= l * TWO_64 as real;
      assert New(small).threshold <= New(large).threshold;
    }
  }
}
