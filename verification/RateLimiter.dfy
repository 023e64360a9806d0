/** A token bucket that is refilled lazily, and the request counters from which
    the effective sampling rate is computed. Times are nanoseconds on one clock. */
module RateLimiter {
  import opened Numbers
  import opened Options

  const I64_MAX: nat := 0x7FFF_FFFF_FFFF_FFFF

  datatype Bucket = Bucket(tokens: int, lastUpdate: nat)
  datatype Counts = Counts(start: Option<nat>, allowed: nat, total: nat, prev: Option<real>)

  /** Elapsed time saturates at zero for a timestamp older than the reference. */
  function Elapsed(since: nat, now: nat): nat {
    if now < since then 0 else now - since
  }

  /** The float product cast to a 64-bit integer: truncated, saturating, and 0
      for the NaN of an empty window over no time. */
  function TokensToAdd(rate: I32, window: nat, elapsed: nat): (r: nat)
    requires rate > 0
    ensures window > 0 ==>
      r == if elapsed * rate / window > I64_MAX then I64_MAX else elapsed * rate / window
    ensures window == 0 ==> r == if elapsed == 0 then 0 else I64_MAX
  {
    if window == 0 then
      if elapsed == 0 then 0 else I64_MAX
    else
      FloorIsDivision(rate, window, elapsed);
      var precise := (elapsed as real / window as real * rate as real).Floor;
      if precise > I64_MAX then I64_MAX else precise
  }

  lemma FloorIsDivision(rate: nat, window: nat, elapsed: nat)
    requires window > 0
    ensures (elapsed as real / window as real * rate as real).Floor == elapsed * rate / window
  {
    var exact := elapsed as real / window as real * rate as real;
    var n := elapsed * rate;
    var q := n / window;
    assert n == q * window + n % window;
    assert exact * window as real == n as real by {
      var e, w, r := elapsed as real, window as real, rate as real;
      assert e / w * w == e;
      assert e / w * r * w == e / w * w * r;
    }
    BetweenMultiples(exact, window, q, n);
  }

  lemma RealScale(a: real, b: real, w: real)
    requires w > 0.0
    ensures a <= b <==> a * w <= b * w
  {
    assert (b - a) * w == b * w - a * w;
  }

  lemma {:induction false} RealProduct(q: int, window: nat)
    ensures (q * window) as real == q as real * window as real
    decreases window
  {
    if window > 0 {
      RealProduct(q, window - 1);
      assert q * window == q * (window - 1) + q;
      var a, b := q as real, (window - 1) as real;
      assert window as real == b + 1.0;
      assert a * (b + 1.0) == a * b + a;
    }
  }

  lemma BetweenMultiples(exact: real, window: nat, q: int, n: nat)
    requires window > 0 && exact * window as real == n as real
    requires q * window <= n < q * window + window
    ensures exact.Floor == q
  {
    var w, low, high := window as real, q as real, (q + 1) as real;
    assert (q * window) as real == low * w by {
      RealProduct(q, window);
    }
    assert high * w == low * w + w by {
      assert high == low + 1.0;
      assert (low + 1.0) * w == low * w + w;
    }
    assert low * w <= exact * w && exact * w < high * w;
    RealScale(low, exact, w);
    RealScale(high, exact, w);
    assert low <= exact && exact < high;
  }

  /** Whole shares of two amounts never exceed the whole shares of their sum. */
  lemma SharesAdd(m: nat, n: nat, window: nat)
    requires window > 0
    ensures m / window + n / window <= (m + n) / window
  {
    var a, b := m / window, n / window;
    assert (a + b) * window == a * window + b * window;
    QuotientAtLeast(a + b, m + n, window);
  }

  // ----- The bucket -----

  // How many tokens an elapsed time buys.
  type Refill = nat -> nat

  function Refills(rate: I32, window: nat): Refill
    requires rate > 0
  {
    elapsed => TokensToAdd(rate, window, elapsed)
  }

  function Replenished(cap: nat, buys: Refill, b: Bucket, now: nat): Bucket {
    var tokens := b.tokens + buys(Elapsed(b.lastUpdate, now));
    // The timestamp moves even when no whole token was added.
    Bucket(if tokens > cap then cap else tokens, now)
  }

  /** One request at a positive limit: spend a token, refilling only if there is none. */
  function Request(cap: nat, buys: Refill, b: Bucket, now: nat): (Bucket, bool) {
    var ready := if b.tokens >= 1 then b else Replenished(cap, buys, b, now);
    if ready.tokens >= 1 then (ready.(tokens := ready.tokens - 1), true) else (ready, false)
  }

  function Run(cap: nat, buys: Refill, b: Bucket, times: seq<nat>): Bucket
    decreases |times|
  {
    if times == [] then b else Run(cap, buys, Request(cap, buys, b, times[0]).0, times[1..])
  }

  function Grants(cap: nat, buys: Refill, b: Bucket, times: seq<nat>): nat
    decreases |times|
  {
    if times == [] then 0
    else
      var (next, granted) := Request(cap, buys, b, times[0]);
      (if granted then 1 else 0) + Grants(cap, buys, next, times[1..])
  }

  /** `last <= times[0] <= times[1] <= ... <= end`. */
  ghost predicate Ordered(last: nat, times: seq<nat>, end: nat)
    decreases |times|
  {
    if times == [] then last <= end else last <= times[0] && Ordered(times[0], times[1..], end)
  }

  lemma {:induction false} OrderedFromEarlier(last: nat, next: nat, times: seq<nat>, end: nat)
    requires last <= next && Ordered(next, times, end)
    ensures Ordered(last, times, end) && last <= end
    decreases |times|
  {
    if times != [] {
      OrderedFromEarlier(next, times[0], times[1..], end);
    }
  }

  /** Tokens stay between 0 and the limit, whatever the timestamps do. */
  lemma {:induction false} TokensInRange(cap: nat, buys: Refill, b: Bucket, times: seq<nat>)
    requires 0 <= b.tokens <= cap
    ensures 0 <= Run(cap, buys, b, times).tokens <= cap
    decreases |times|
  {
    if times != [] {
      TokensInRange(cap, buys, Request(cap, buys, b, times[0]).0, times[1..]);
    }
  }

  /** With clocks that do not go back, the bucket's own timestamp stays behind. */
  lemma {:induction false} LastUpdateBehind(cap: nat, buys: Refill, b: Bucket, times: seq<nat>, end: nat)
    requires Ordered(b.lastUpdate, times, end)
    ensures Run(cap, buys, b, times).lastUpdate <= end
    decreases |times|
  {
    if times != [] {
      OrderedFromEarlier(b.lastUpdate, times[0], times[1..], end);
      LastUpdateBehind(cap, buys, Request(cap, buys, b, times[0]).0, times[1..], end);
    }
  }

  /** A refill that buys no more than `share`, which two periods together earn
      at least as much of as they do apart. */
  ghost predicate Fair(buys: Refill, share: Refill) {
    && (forall e :: buys(e) <= share(e))
    && (forall d: nat, e: nat :: Adds(share, d, e))
  }

  ghost predicate Adds(share: Refill, d: nat, e: nat) {
    share(d) + share(e) <= share(d + e)
  }

  function Share(rate: I32, window: nat): Refill
    requires rate > 0 && window > 0
  {
    elapsed => elapsed * rate / window
  }

  lemma ShareAdds(rate: I32, window: nat, d: nat, e: nat)
    requires rate > 0 && window > 0
    ensures d * rate / window + e * rate / window <= (d + e) * rate / window
  {
    assert d * rate + e * rate == (d + e) * rate;
    SharesAdd(d * rate, e * rate, window);
  }

  lemma RefillsAreFair(rate: I32, window: nat)
    requires rate > 0 && window > 0
    ensures Fair(Refills(rate, window), Share(rate, window))
  {
    var share := Share(rate, window);
    forall d: nat, e: nat ensures Adds(share, d, e) {
      ShareAdds(rate, window, d, e);
    }
  }

  /** Grants never exceed the tokens in the bucket plus what the time since its
      last update can buy. */
  lemma {:induction false} GrantsFrom(cap: nat, buys: Refill, share: Refill, b: Bucket, times: seq<nat>, end: nat)
    requires Fair(buys, share) && 0 <= b.tokens
    requires b.lastUpdate <= end && Ordered(b.lastUpdate, times, end)
    ensures Grants(cap, buys, b, times) <= b.tokens + share(end - b.lastUpdate)
    decreases |times|
  {
    if times != [] {
      var now := times[0];
      var (next, granted) := Request(cap, buys, b, now);
      OrderedFromEarlier(b.lastUpdate, now, times[1..], end);
      OrderedFromEarlier(now, now, times[1..], end);
      GrantsFrom(cap, buys, share, next, times[1..], end);
      assert Adds(share, now - b.lastUpdate, end - now);
    }
  }

  /** The first refill inside an interval may bring a whole bucket for the time
      before it; all later refills only bring what accrued since. */
  lemma {:induction false} GrantsWithin(cap: nat, buys: Refill, share: Refill, b: Bucket, times: seq<nat>, start: nat, end: nat)
    requires Fair(buys, share) && 0 <= b.tokens
    requires start <= end && Ordered(start, times, end) && Ordered(b.lastUpdate, times, end)
    ensures Grants(cap, buys, b, times) <= b.tokens + cap + share(end - start)
    decreases |times|
  {
    if times != [] {
      var now := times[0];
      var (next, granted) := Request(cap, buys, b, now);
      OrderedFromEarlier(start, now, times[1..], end);
      OrderedFromEarlier(now, now, times[1..], end);
      if b.tokens >= 1 {
        OrderedFromEarlier(b.lastUpdate, now, times[1..], end);
        GrantsWithin(cap, buys, share, next, times[1..], start, end);
      } else {
        GrantsFrom(cap, buys, share, next, times[1..], end);
        assert Adds(share, now - start, end - now);
      }
    }
  }

  function Full(rate: nat, created: nat): Bucket {
    Bucket(rate, created)
  }

  /** From creation up to any later moment: at most a full bucket plus the
      tokens that accrue. */
  lemma GrantsSinceCreation(rate: I32, window: nat, created: nat, times: seq<nat>, end: nat)
    requires rate > 0 && window > 0 && created <= end && Ordered(created, times, end)
    ensures Grants(rate, Refills(rate, window), Full(rate, created), times)
         <= rate + (end - created) * rate / window
  {
    RefillsAreFair(rate, window);
    GrantsFrom(rate, Refills(rate, window), Share(rate, window), Full(rate, created), times, end);
  }

  /** Inside any interval `[start, end]` of a run, after any earlier requests: at
      most two full buckets plus the tokens that accrue within the interval. */
  lemma GrantsInInterval(rate: I32, window: nat, created: nat, earlier: seq<nat>, inside: seq<nat>, start: nat, end: nat)
    requires rate > 0 && window > 0 && start <= end
    requires Ordered(created, earlier, start) && Ordered(start, inside, end)
    ensures Grants(rate, Refills(rate, window), Run(rate, Refills(rate, window), Full(rate, created), earlier), inside)
         <= 2 * rate + (end - start) * rate / window
  {
    var buys := Refills(rate, window);
    var b := Run(rate, buys, Full(rate, created), earlier);
    RefillsAreFair(rate, window);
    TokensInRange(rate, buys, Full(rate, created), earlier);
    LastUpdateBehind(rate, buys, Full(rate, created), earlier, start);
    OrderedFromEarlier(b.lastUpdate, start, inside, end);
    GrantsWithin(rate, buys, Share(rate, window), b, inside, start, end);
  }

  lemma {:induction false} GrantsAppend(cap: nat, buys: Refill, b: Bucket, first: seq<nat>, second: seq<nat>)
    ensures Grants(cap, buys, b, first + second)
         == Grants(cap, buys, b, first) + Grants(cap, buys, Run(cap, buys, b, first), second)
    decreases |first|
  {
    if first == [] {
      assert first + second == second;
    } else {
      assert (first + second)[1..] == first[1..] + second;
      GrantsAppend(cap, buys, Request(cap, buys, b, first[0]).0, first[1..], second);
    }
  }

  function Copies(n: nat, now: nat): (r: seq<nat>)
    ensures |r| == n && forall i :: 0 <= i < n ==> r[i] == now
  {
    seq(n, i => now)
  }

  lemma {:induction false} Drain(cap: nat, buys: Refill, b: Bucket, now: nat, n: nat)
    requires b.tokens >= n
    ensures Grants(cap, buys, b, Copies(n, now)) == n
    ensures Run(cap, buys, b, Copies(n, now)) == b.(tokens := b.tokens - n)
    decreases n
  {
    if n > 0 {
      assert Copies(n, now)[1..] == Copies(n - 1, now);
      Drain(cap, buys, b.(tokens := b.tokens - 1), now, n - 1);
    }
  }

  lemma QuotientExact(rate: nat, window: nat)
    requires window > 0
    ensures window * rate / window == rate
  {
    QuotientAtLeast(rate, window * rate, window);
    assert (rate + 1) * window == window * rate + window;
    QuotientBelow(rate + 1, window * rate, window);
  }

  /** The interval bound is attained: after one idle window, `2 * rate` requests
      at a single instant are all granted. */
  lemma BurstIsTight(rate: I32, window: nat, created: nat)
    requires rate > 0 && window > 0
    ensures Grants(rate, Refills(rate, window), Full(rate, created), Copies(2 * rate, created + window)) == 2 * rate
  {
    var buys, now := Refills(rate, window), created + window;
    assert Copies(2 * rate, now) == Copies(rate, now) + Copies(rate, now);
    GrantsAppend(rate, buys, Full(rate, created), Copies(rate, now), Copies(rate, now));
    Drain(rate, buys, Full(rate, created), now, rate);
    QuotientExact(rate, window);
    assert buys(window) == rate;
    var (next, granted) := Request(rate, buys, Bucket(0, created), now);
    assert next == Bucket(rate - 1, now) && granted;
    assert Copies(rate, now)[1..] == Copies(rate - 1, now);
    Drain(rate, buys, next, now, rate - 1);
  }

  /** With an empty bucket a request is granted exactly when the time since the
      last refill attempt buys a whole token by itself. */
  lemma EmptyBucketGrant(rate: I32, window: nat, b: Bucket, now: nat)
    requires rate > 0 && window > 0 && b.tokens == 0 && b.lastUpdate <= now
    ensures Request(rate, Refills(rate, window), b, now).1 <==> (now - b.lastUpdate) * rate >= window
  {
    BuysWholeToken(rate, window, now - b.lastUpdate);
  }

  /** A clock that went back buys nothing, and no window is over. */
  lemma NothingIsBoughtBackwards(rate: I32, window: nat, b: Bucket, now: nat)
    requires rate > 0 && window > 0 && b.tokens == 0 && now <= b.lastUpdate
    ensures Request(rate, Refills(rate, window), b, now) == (Bucket(0, now), false)
    ensures !WindowOver(window, b.lastUpdate, now)
  {
    BuysWholeToken(rate, window, 0);
  }

  lemma BuysWholeToken(rate: I32, window: nat, elapsed: nat)
    requires rate > 0 && window > 0
    ensures TokensToAdd(rate, window, elapsed) >= 1 <==> elapsed * rate >= window
  {
    var n := elapsed * rate;
    if n >= window {
      QuotientAtLeast(1, n, window);
    } else {
      QuotientBelow(1, n, window);
    }
  }

  /** Every gap, the first one from `last` on, buys less than a whole token. */
  ghost predicate ShortGaps(rate: I32, window: nat, last: nat, times: seq<nat>)
    decreases |times|
  {
    times != [] ==>
      && last <= times[0] && (times[0] - last) * rate < window
      && ShortGaps(rate, window, times[0], times[1..])
  }

  /** Fractions of a token are lost: on an empty bucket a stream gets nothing at
      all, however long it lasts, exactly if its gaps each buy less than a token. */
  lemma {:induction false} StarvesExactly(rate: I32, window: nat, b: Bucket, times: seq<nat>, end: nat)
    requires rate > 0 && window > 0 && b.tokens == 0 && Ordered(b.lastUpdate, times, end)
    ensures Grants(rate, Refills(rate, window), b, times) == 0 <==> ShortGaps(rate, window, b.lastUpdate, times)
    decreases |times|
  {
    if times != [] {
      EmptyBucketGrant(rate, window, b, times[0]);
      if (times[0] - b.lastUpdate) * rate < window {
        StarvesExactly(rate, window, Bucket(0, times[0]), times[1..], end);
      }
    }
  }

  // ----- The counters behind the effective rate -----

  function WindowRate(c: Counts): real {
    if c.total == 0 then 1.0 else c.allowed as real / c.total as real
  }

  function EffectiveRate(c: Counts): real {
    match c.prev
    case Some(prev) => (WindowRate(c) + prev) / 2.0
    case None => WindowRate(c)
  }

  ghost predicate CountsValid(c: Counts) {
    && c.allowed <= c.total
    && (c.prev.Some? ==> 0.0 <= c.prev.value <= 1.0)
  }

  /** A full window, as the code measures it, between two moments. */
  predicate WindowOver(window: nat, begin: nat, now: nat) {
    Elapsed(begin, now) % TWO_64 >= window
  }

  /** A window is over once that much time has passed since it began, told on a
      clock of 64 bits: after 2^64 nanoseconds it counts from zero again. */
  lemma WindowOverExactly(window: nat, begin: nat, now: nat, rounds: nat)
    requires window < TWO_64 && rounds * TWO_64 <= now - begin < (rounds + 1) * TWO_64
    ensures WindowOver(window, begin, now) <==> now >= begin + rounds * TWO_64 + window
  {
    var rest := now - begin - rounds * TWO_64;
    assert now - begin == rest + rounds * TWO_64;
  }

  function Counted(c: Counts, window: nat, allowed: bool, now: nat): Counts {
    var current := match c.start
      case None => c.(start := Some(now))
      case Some(begin) =>
        if WindowOver(window, begin, now)
        then Counts(Some(now), 0, 0, Some(WindowRate(c)))
        else c;
    current.(allowed := current.allowed + (if allowed then 1 else 0), total := current.total + 1)
  }

  lemma RatesAreFractions(c: Counts)
    requires CountsValid(c)
    ensures 0.0 <= WindowRate(c) <= 1.0 && 0.0 <= EffectiveRate(c) <= 1.0
    ensures c.allowed < c.total ==> EffectiveRate(c) < 1.0
    ensures c.prev.Some? ==> EffectiveRate(c) - WindowRate(c) == c.prev.value - EffectiveRate(c)
    ensures c.prev.None? ==> EffectiveRate(c) == WindowRate(c)
    ensures WindowRate(c) * c.total as real == c.allowed as real && (c.total == 0 ==> WindowRate(c) == 1.0)
  {
    if c.total > 0 {
      var a, t := c.allowed as real, c.total as real;
      RealScale(a / t, 1.0, t);
      RealScale(1.0, a / t, t);
      RealScale(0.0, a / t, t);
      assert a / t * t == a;
    }
  }

  lemma CountedStaysValid(c: Counts, window: nat, allowed: bool, now: nat)
    requires CountsValid(c)
    ensures CountsValid(Counted(c, window, allowed, now))
    ensures !allowed ==> var r := Counted(c, window, allowed, now); r.allowed < r.total
  {
    RatesAreFractions(c);
  }

  /** The counters after a run of requests, oldest first. */
  function CountedAll(window: nat, requests: seq<(nat, bool)>): Counts
    decreases |requests|
  {
    if requests == [] then Counts(None, 0, 0, None)
    else
      var n := |requests| - 1;
      Counted(CountedAll(window, requests[..n]), window, requests[n].1, requests[n].0)
  }

  function AllowedIn(requests: seq<(nat, bool)>): nat
    decreases |requests|
  {
    if requests == [] then 0
    else
      var n := |requests| - 1;
      AllowedIn(requests[..n]) + (if requests[n].1 then 1 else 0)
  }

  /** The counters of any run of requests count exactly its last requests from
      some request `k` on: the window starts with `k`, and all later ones fall
      into it. Request `k` is the first one, or it came when the window before it
      was over; the previous rate is then the rate of that window. */
  lemma {:induction false} CountersDescribeWindow(window: nat, requests: seq<(nat, bool)>) returns (k: nat)
    requires requests != []
    ensures k < |requests|
    ensures var c := CountedAll(window, requests);
      && c.start == Some(requests[k].0)
      && c.total == |requests| - k
      && c.allowed == AllowedIn(requests[k..])
      && c.prev == (if k == 0 then None else Some(WindowRate(CountedAll(window, requests[..k]))))
    ensures forall i :: k < i < |requests| ==> !WindowOver(window, requests[k].0, requests[i].0)
    ensures k > 0 ==>
      var before := CountedAll(window, requests[..k]);
      before.start.Some? && WindowOver(window, before.start.value, requests[k].0)
    decreases |requests|
  {
    hide WindowOver, WindowRate;
    var n := |requests| - 1;
    var before, last := requests[..n], requests[n..];
    assert AllowedIn(last) == if requests[n].1 then 1 else 0 by {
      assert last[..0] == [];
    }
    if n == 0 {
      k := 0;
      assert requests[0..] == last;
    } else {
      k := CountersDescribeWindow(window, before);
      assert requests[k] == before[k];
      if WindowOver(window, requests[k].0, requests[n].0) {
        k := n;
      } else {
        assert requests[k..][..n - k] == before[k..];
        assert requests[..k] == before[..k];
        forall i | k < i < |requests| ensures !WindowOver(window, requests[k].0, requests[i].0) {
          assert i < n ==> requests[i] == before[i];
        }
      }
    }
  }

  // ----- The limiter object -----

  class RateLimiter {
    const rateLimit: I32
    const window: nat
    var bucket: Bucket
    var counts: Counts

    ghost predicate Valid()
      reads this
    {
      && window < TWO_64
      && CountsValid(counts)
      && (rateLimit > 0 ==> 0 <= bucket.tokens <= rateLimit)
    }

    /** The window defaults to one second. */
    constructor (rateLimit: I32, timeWindow: Option<U64>, now: nat)
      ensures Valid() && this.rateLimit == rateLimit
      ensures window == if timeWindow.Some? then timeWindow.value else 1_000_000_000
      ensures bucket == Bucket(rateLimit, now) && counts == CountedAll(window, [])
    {
      this.rateLimit := rateLimit;
      window := if timeWindow.Some? then timeWindow.value else 1_000_000_000;
      bucket := Bucket(rateLimit, now);
      counts := Counts(None, 0, 0, None);
    }

    method Replenish(now: nat)
      requires Valid() && rateLimit > 0 && bucket.tokens < 1
      modifies this`bucket
      ensures Valid() && bucket == Replenished(rateLimit, Refills(rateLimit, window), old(bucket), now)
    {
      var toAdd := TokensToAdd(rateLimit, window, Elapsed(bucket.lastUpdate, now));
      var tokens := bucket.tokens;
      if toAdd > 0 {
        tokens := tokens + toAdd;
        if tokens > rateLimit {
          tokens := rateLimit;
        }
      }
      bucket := Bucket(tokens, now);
    }

    /** Limit 0 refuses everything, a negative limit allows everything, and a
        positive limit spends one token of the bucket for each allowed request. */
    method IsAllowedAt(now: nat) returns (allowed: bool)
      requires Valid()
      modifies this`bucket
      ensures Valid()
      ensures rateLimit <= 0 ==> allowed == (rateLimit < 0) && bucket == old(bucket)
      ensures rateLimit > 0 ==>
        (bucket, allowed) == Request(rateLimit, Refills(rateLimit, window), old(bucket), now)
    {
      if rateLimit == 0 {
        return false;
      }
      if rateLimit < 0 {
        return true;
      }
      if bucket.tokens >= 1 {
        bucket := bucket.(tokens := bucket.tokens - 1);
        return true;
      }
      Replenish(now);
      if bucket.tokens >= 1 {
        bucket := bucket.(tokens := bucket.tokens - 1);
        return true;
      }
      return false;
    }

    method UpdateRateCounts(allowed: bool, now: nat)
      requires Valid()
      modifies this`counts
      ensures Valid() && counts == Counted(old(counts), window, allowed, now)
    {
      CountedStaysValid(counts, window, allowed, now);
      if counts.start == None {
        counts := counts.(start := Some(now));
      } else if WindowOver(window, counts.start.value, now) {
        counts := Counts(Some(now), 0, 0, Some(WindowRate(counts)));
      }
      if allowed {
        counts := counts.(allowed := counts.allowed + 1);
      }
      counts := counts.(total := counts.total + 1);
    }

    /** A refused request leaves an effective rate strictly below 1. */
    method IsAllowed(now: nat) returns (allowed: bool)
      requires Valid()
      modifies this
      ensures Valid()
      ensures rateLimit <= 0 ==> allowed == (rateLimit < 0) && bucket == old(bucket)
      ensures rateLimit > 0 ==>
        (bucket, allowed) == Request(rateLimit, Refills(rateLimit, window), old(bucket), now)
      ensures counts == Counted(old(counts), window, allowed, now)
      ensures 0.0 <= EffectiveRate(counts) <= 1.0 && (!allowed ==> EffectiveRate(counts) < 1.0)
    {
      allowed := IsAllowedAt(now);
      UpdateRateCounts(allowed, now);
      CountedStaysValid(old(counts), window, allowed, now);
      RatesAreFractions(counts);
    }
  }
}
