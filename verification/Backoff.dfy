/**
 The three waits that double after each failure: the webhook's `retryDelay`, the
 HTTP caller's `backoff` and the sync manager's `backoff`.

 Go durations are 64-bit, so doubling wraps; the loops below keep that wrap, and
 the lemmas say for exactly which settings it never shows.
 */
module Backoff {

  const INT64_BOUND: int := 0x8000_0000_0000_0000

  /** The value a Go `int64` holds after computing `x`. */
  function Wrap(x: int): int {
    (x + INT64_BOUND) % (2 * INT64_BOUND) - INT64_BOUND
  }

  predicate IsInt64(x: int) {
    -INT64_BOUND <= x < INT64_BOUND
  }

  function Min(a: int, b: int): int {
    if a <= b then a else b
  }

  function Pow2(n: nat): nat {
    if n == 0 then 1 else 2 * Pow2(n - 1)
  }

  /** How many doublings the attempt asks for: none for the first one. */
  function Doublings(attempt: int): nat {
    if attempt <= 1 then 0 else attempt - 1
  }

  /** The documented wait: min(max, base * 2^(attempt - 1)). */
  function DocumentedWait(base: int, max: int, attempt: int): int {
    Min(max, base * Pow2(Doublings(attempt)))
  }

  /** What the loops reach: at most `steps` wrapping doublings, cut off once `max` is met. */
  function Doubled(d: int, max: int, steps: nat): int
    decreases steps
  {
    if steps == 0 || d >= max then d else Doubled(Wrap(2 * d), max, steps - 1)
  }

  /** The wait the loops compute before any jitter. */
  function Wait(base: int, max: int, attempt: int): int {
    Min(max, Doubled(base, max, Doublings(attempt)))
  }

  /** The first value of the doubling, without wrap, that meets `max`. */
  function Reach(base: int, max: int): int
    requires base > 0
    decreases max - base
  {
    if base >= max then base else Reach(2 * base, max)
  }

  lemma {:induction false} Pow2Scales(d: int, n: nat)
    requires d >= 0
    ensures d * Pow2(n) >= d
    ensures n > 0 ==> d * Pow2(n) == (2 * d) * Pow2(n - 1)
  {
    if n > 0 {
      Pow2Scales(d, n - 1);
    }
  }

  lemma {:induction false} ReachBounds(base: int, max: int)
    requires base > 0
    ensures base <= Reach(base, max)
    ensures max <= Reach(base, max)
    ensures base < max ==> 2 * base <= Reach(base, max) < 2 * max
    decreases max - base
  {
    if base < max {
      ReachBounds(2 * base, max);
    }
  }

  lemma {:induction false} DoublingIsExact(d: int, max: int, steps: nat)
    requires d > 0 && Reach(d, max) < INT64_BOUND
    ensures Min(max, Doubled(d, max, steps)) == Min(max, d * Pow2(steps))
    decreases steps
  {
    Pow2Scales(d, steps);
    if steps > 0 && d < max {
      ReachBounds(d, max);
      assert Wrap(2 * d) == 2 * d;
      DoublingIsExact(2 * d, max, steps - 1);
    }
  }

  /** If the doubling leaves int64, some attempt gets a negative wait. */
  lemma {:induction false} DoublingWraps(d: int, max: int) returns (steps: nat)
    requires 0 < d < INT64_BOUND && max < INT64_BOUND <= Reach(d, max)
    ensures Doubled(d, max, steps) < 0
    decreases max - d
  {
    assert d < max;
    if 2 * d >= INT64_BOUND {
      steps := 1;
      assert Wrap(2 * d) == 2 * d - 2 * INT64_BOUND;
      assert Doubled(d, max, 1) == Doubled(Wrap(2 * d), max, 0);
    } else {
      assert Wrap(2 * d) == 2 * d;
      var rest := DoublingWraps(2 * d, max);
      steps := rest + 1;
    }
  }

  /**
   The loops compute the documented wait for every attempt exactly when the first
   doubling that meets `max` still fits in 64 bits.
   */
  lemma WaitIsDocumentedIff(base: int, max: int)
    requires base > 0 && max > 0 && IsInt64(base) && IsInt64(max)
    ensures (forall n: int :: Wait(base, max, n) == DocumentedWait(base, max, n))
       <==> Reach(base, max) < INT64_BOUND
  {
    if Reach(base, max) < INT64_BOUND {
      forall n: int
        ensures Wait(base, max, n) == DocumentedWait(base, max, n)
      {
        DoublingIsExact(base, max, Doublings(n));
      }
    } else {
      var steps := DoublingWraps(base, max);
      Pow2Scales(base, steps);
      assert Doublings(steps + 1) == steps;
      assert Wait(base, max, steps + 1) != DocumentedWait(base, max, steps + 1);
    }
  }

  /** Every cap of at most 2^62 ns (146 years) is inside that condition. */
  lemma ModestCapsAreExact(base: int, max: int, attempt: int)
    requires 0 < base <= max <= INT64_BOUND / 2
    ensures Wait(base, max, attempt) == DocumentedWait(base, max, attempt)
    ensures base <= Wait(base, max, attempt) <= max
    ensures Wait(base, max, attempt) <= Wait(base, max, attempt + 1)
  {
    ReachBounds(base, max);
    DoublingIsExact(base, max, Doublings(attempt));
    DoublingIsExact(base, max, Doublings(attempt + 1));
    Pow2Scales(base, Doublings(attempt));
    DocumentedGrows(base, Doublings(attempt), Doublings(attempt + 1));
  }

  lemma {:induction false} DocumentedGrows(base: int, m: nat, n: nat)
    requires base >= 0 && m <= n <= m + 1
    ensures base * Pow2(m) <= base * Pow2(n)
  {
    if n == m + 1 {
      assert base * Pow2(n) == base * (2 * Pow2(m)) == 2 * (base * Pow2(m));
      Pow2Scales(base, m);
    }
  }

  /** The valid settings whose waits are all the documented ones. */
  predicate HasDocumentedWaits(base: int, max: int) {
    0 <= base <= max && (base == 0 || Reach(base, max) < INT64_BOUND)
  }

  lemma {:induction false} ZeroStaysZero(max: int, steps: nat)
    ensures Doubled(0, max, steps) == 0
  {
    if steps > 0 && 0 < max {
      assert Wrap(0) == 0;
      ZeroStaysZero(max, steps - 1);
    }
  }

  /** Each of them lies between nothing and the cap. */
  lemma DocumentedWaitsFit(base: int, max: int, attempt: int)
    requires HasDocumentedWaits(base, max)
    ensures 0 <= Wait(base, max, attempt) <= max && Wait(base, max, attempt) == DocumentedWait(base, max, attempt)
    ensures base == 0 ==> Doubled(base, max, Doublings(attempt)) == 0
  {
    if base == 0 {
      ZeroStaysZero(max, Doublings(attempt));
      assert base * Pow2(Doublings(attempt)) == 0;
    } else {
      DoublingIsExact(base, max, Doublings(attempt));
      Pow2Scales(base, Doublings(attempt));
    }
  }

  /** A cap above 2^62 can make the second attempt wait a negative time. */
  lemma LargeCapsWrap()
    ensures exists base, max ::
      0 < base <= max && IsInt64(base) && IsInt64(max) && Wait(base, max, 2) < 0
  {
    var base, max := INT64_BOUND / 2 + 1, INT64_BOUND / 2 + 2;
    assert Wrap(2 * base) == 2 - INT64_BOUND;
    assert Doubled(base, max, 1) == Doubled(Wrap(2 * base), max, 0);
    assert Wait(base, max, 2) < 0;
  }

  /** Go's `d / 2`, which truncates toward zero. */
  function Half(d: int): int {
    if d >= 0 then d / 2 else -((-d) / 2)
  }

  /** `retryDelay` of the webhook service: no jitter. */
  method RetryDelay(base: int, max: int, attempt: int) returns (d: int)
    ensures d == Wait(base, max, attempt)
  {
    d := base;
    var i := 1;
    while i < attempt && d < max
      invariant 1 <= i && (i <= attempt || i == 1)
      invariant Doubled(d, max, Doublings(attempt - i + 1)) == Doubled(base, max, Doublings(attempt))
      decreases attempt - i
    {
      d := Wrap(d * 2);
      i := i + 1;
    }
    if d > max {
      d := max;
    }
  }

  /** A random source: asked for a bound, it answers with a number from 0 to that bound. */
  ghost predicate IsRandomSource(jitter: int -> int) {
    forall bound: int :: bound >= 0 ==> 0 <= jitter(bound) <= bound
  }

  /** `backoff` of the HTTP caller. A cap that is not positive is no cap. */
  method CallerBackoff(base: int, max: int, attempt: int, jitter: int -> int) returns (r: int)
    requires IsRandomSource(jitter)
    ensures var full := if max > 0 then Wait(base, max, attempt) else Doubled(base, max, Doublings(attempt));
            if full >= 0 then full - 1 <= 2 * r && r <= full else full <= 2 * r <= full + 1
    ensures max <= 0 <= base ==> base - 1 <= 2 * r && r <= base
  {
    var delay := base;
    var i := 1;
    while i < attempt && delay < max
      invariant 1 <= i && (i <= attempt || i == 1)
      invariant Doubled(delay, max, Doublings(attempt - i + 1)) == Doubled(base, max, Doublings(attempt))
      decreases attempt - i
    {
      delay := Wrap(delay * 2);
      i := i + 1;
    }
    if max > 0 && delay > max {
      delay := max;
    }
    var half := Half(delay);
    var spread := delay - half;
    r := half + (if spread <= 0 then 0 else jitter(spread));
  }

  datatype RetryPolicy = RetryPolicy(maxAttempts: int, baseDelay: int, maxDelay: int)

  predicate IsNormalized(p: RetryPolicy) {
    p.maxAttempts >= 1 && 0 <= p.baseDelay <= p.maxDelay
  }

  /** `normalized` of the manager's policy: valid settings stay, the others move the least they can. */
  method Normalized(policy: RetryPolicy) returns (p: RetryPolicy)
    ensures IsNormalized(p)
    ensures IsNormalized(policy) ==> p == policy
    ensures forall q: RetryPolicy :: IsNormalized(q) && q.maxAttempts >= policy.maxAttempts
              && q.baseDelay >= policy.baseDelay && q.maxDelay >= policy.maxDelay
              ==> q.maxAttempts >= p.maxAttempts && q.baseDelay >= p.baseDelay && q.maxDelay >= p.maxDelay
    ensures p.maxAttempts >= policy.maxAttempts && p.baseDelay >= policy.baseDelay && p.maxDelay >= policy.maxDelay
  {
    p := policy;
    if p.maxAttempts < 1 {
      p := p.(maxAttempts := 1);
    }
    if p.baseDelay < 0 {
      p := p.(baseDelay := 0);
    }
    if p.maxDelay < p.baseDelay {
      p := p.(maxDelay := p.baseDelay);
    }
  }

  /** `backoff` of the manager's policy. */
  method PolicyBackoff(p: RetryPolicy, attempt: int, jitter: int -> int) returns (r: int)
    requires IsRandomSource(jitter)
    ensures var full := Wait(p.baseDelay, p.maxDelay, attempt);
            if full >= 0 then full - 1 <= 2 * r && r <= full else r == full
  {
    var d := RetryDelay(p.baseDelay, p.maxDelay, attempt);
    if d <= 1 {
      return d;
    }
    var half := Half(d);
    r := half + jitter(d - half);
  }
}
