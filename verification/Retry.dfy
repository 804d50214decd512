/** internal/retry: when to give up, and how long to wait, with Go's 64-bit durations in nanoseconds. */
module Retry {

  const SECOND := 1_000_000_000
  const INT64_MAX := 0x7fff_ffff_ffff_ffff
  const TWO_62 := 0x4000_0000_0000_0000
  const TWO_64 := 0x1_0000_0000_0000_0000

  datatype Policy = Policy(maxAttempts: int, maxElapsed: int, baseBackoff: int, maxBackoff: int)

  const DEFAULT_POLICY := Policy(5, 120 * SECOND, SECOND, 30 * SECOND)

  predicate ShouldRetry(p: Policy, attemptCount: int, elapsed: int) {
    !(p.maxAttempts > 0 && attemptCount >= p.maxAttempts) && !(p.maxElapsed > 0 && elapsed >= p.maxElapsed)
  }

  function Base(p: Policy): (d: int) {
    if p.baseBackoff <= 0 then SECOND else p.baseBackoff
  }

  function Cap(p: Policy): int {
    if p.maxBackoff <= 0 then 30 * SECOND else p.maxBackoff
  }

  /** Two's-complement wrap-around of a 64-bit result. */
  function Wrap64(n: int): int {
    (n + INT64_MAX + 1) % TWO_64 - INT64_MAX - 1
  }

  function Pow2(k: nat): (r: nat)
    ensures r >= 1
  {
    if k == 0 then 1 else 2 * Pow2(k - 1)
  }

  function Min(a: int, b: int): int {
    if a < b then a else b
  }

  /** The number of doublings that the 1-indexed attempt number asks for. */
  function Doublings(attemptCount: int): nat {
    if attemptCount <= 1 then 0 else attemptCount - 1
  }

  /** What the loop in NextBackoff leaves after k more doublings of b, wrap-around included. */
  function Doubled(b: int, cap: int, k: nat): int
    decreases k
  {
    if k == 0 then Min(b, cap)
    else if Wrap64(b * 2) >= cap then cap
    else Doubled(Wrap64(b * 2), cap, k - 1)
  }

  method NextBackoff(p: Policy, attemptCount: int) returns (d: int)
    ensures d == Doubled(Base(p), Cap(p), Doublings(attemptCount))
  {
    var base := p.baseBackoff;
    if base <= 0 {
      base := SECOND;
    }
    var maxBackoff := p.maxBackoff;
    if maxBackoff <= 0 {
      maxBackoff := 30 * SECOND;
    }
    var backoff := base;
    var i := 1;
    while i < attemptCount
      invariant 1 <= i <= Doublings(attemptCount) + 1
      invariant Doubled(base, maxBackoff, Doublings(attemptCount))
             == Doubled(backoff, maxBackoff, Doublings(attemptCount) + 1 - i)
    {
      backoff := Wrap64(backoff * 2);
      if backoff >= maxBackoff {
        return maxBackoff;
      }
      i := i + 1;
    }
    if backoff > maxBackoff {
      return maxBackoff;
    }
    return backoff;
  }

  /** The first doubling of b that reaches the cap: the largest number the loop can compute. */
  function Peak(b: int, cap: int): int
    requires b > 0
    decreases cap - b
  {
    if b * 2 >= cap then b * 2 else Peak(b * 2, cap)
  }

  /** b * 2^k, as k doublings; always at least b. */
  lemma Doubling(b: int, k: nat)
    requires b > 0
    ensures b * Pow2(k) >= b
    ensures b * Pow2(k + 1) == 2 * (b * Pow2(k)) == (2 * b) * Pow2(k)
  {
    var r := Pow2(k);
    assert b * (r - 1) >= 0;
    assert b * (2 * r) == 2 * (b * r);
  }

  lemma AtLeast(b: int, k: nat)
    requires b > 0
    ensures b * Pow2(k) >= b
  {
    Doubling(b, k);
  }

  lemma {:induction false} DoubledIsCapped(b: int, cap: int, k: nat)
    requires b > 0 && cap > 0 && Peak(b, cap) <= INT64_MAX
    ensures Doubled(b, cap, k) == Min(b * Pow2(k), cap)
    decreases k
  {
    if k > 0 {
      PeakAbove(b, cap);
      assert Wrap64(b * 2) == b * 2;
      if b * 2 < cap {
        DoubledIsCapped(b * 2, cap, k - 1);
      }
      Doubling(b, k - 1);
      AtLeast(b * 2, k - 1);
    }
  }

  lemma {:induction false} PeakAbove(b: int, cap: int)
    requires b > 0
    ensures Peak(b, cap) >= b * 2 && Peak(b, cap) >= cap
    decreases cap - b
  {
    if b * 2 < cap {
      PeakAbove(b * 2, cap);
    }
  }

  /** If the peak does not fit, the doubling that reaches it goes negative. */
  lemma {:induction false} PeakWraps(b: int, cap: int) returns (k: nat)
    requires 0 < b <= INT64_MAX && 0 < cap <= INT64_MAX && Peak(b, cap) > INT64_MAX
    ensures Doubled(b, cap, k) < 0
    decreases cap - b
  {
    if b * 2 >= cap {
      k := 1;
      assert Wrap64(b * 2) == b * 2 - TWO_64;
      assert Doubled(b * 2 - TWO_64, cap, 0) == b * 2 - TWO_64;
    } else {
      var j := PeakWraps(b * 2, cap);
      k := j + 1;
      assert Wrap64(b * 2) == b * 2;
    }
  }

  // ----- main results -----

  /** The loop computes min(base * 2^(n-1), cap) for every n, exactly when its largest doubling fits 64 bits. */
  lemma BackoffIsExponential(p: Policy)
    requires Base(p) <= INT64_MAX && Cap(p) <= INT64_MAX
    ensures (forall k: nat :: Doubled(Base(p), Cap(p), k) == Min(Base(p) * Pow2(k), Cap(p)))
       <==> Peak(Base(p), Cap(p)) <= INT64_MAX
  {
    if Peak(Base(p), Cap(p)) <= INT64_MAX {
      forall k: nat
        ensures Doubled(Base(p), Cap(p), k) == Min(Base(p) * Pow2(k), Cap(p))
      {
        DoubledIsCapped(Base(p), Cap(p), k);
      }
    } else {
      var k := PeakWraps(Base(p), Cap(p));
      assert Base(p) * Pow2(k) > 0;
    }
  }

  /** A base or cap that is not set counts as one second or thirty; the attempts are counted from 1. */
  lemma BackoffOfPolicy(p: Policy, attemptCount: int)
    requires Peak(Base(p), Cap(p)) <= INT64_MAX
    ensures var base := if p.baseBackoff <= 0 then 1_000_000_000 else p.baseBackoff;
      var cap := if p.maxBackoff <= 0 then 30_000_000_000 else p.maxBackoff;
      Doubled(Base(p), Cap(p), Doublings(attemptCount))
      == Min(if attemptCount <= 1 then base else base * Pow2(attemptCount - 1), cap)
  {
    DoubledIsCapped(Base(p), Cap(p), Doublings(attemptCount));
  }

  /** Base and cap below 2^62 ns (146 years) are enough. */
  lemma {:induction false} ModestPolicyFits(b: int, cap: int)
    requires 0 < b < TWO_62 && cap <= TWO_62
    ensures Peak(b, cap) <= INT64_MAX
    decreases cap - b
  {
    if b * 2 < cap {
      ModestPolicyFits(b * 2, cap);
    }
  }

  /** A policy whose second backoff is negative. */
  lemma BackoffCanWrap()
    ensures Doubled(TWO_62, INT64_MAX, Doublings(2)) == -INT64_MAX - 1
  {
    assert Doubled(Wrap64(TWO_62 * 2), INT64_MAX, 0) == -INT64_MAX - 1;
  }

  /** The n-th backoff never shrinks as n grows. */
  lemma BackoffGrows(p: Policy, n: int)
    requires Peak(Base(p), Cap(p)) <= INT64_MAX
    ensures 0 < Doubled(Base(p), Cap(p), Doublings(n)) <= Doubled(Base(p), Cap(p), Doublings(n + 1)) <= Cap(p)
  {
    DoubledIsCapped(Base(p), Cap(p), Doublings(n));
    DoubledIsCapped(Base(p), Cap(p), Doublings(n + 1));
    Doubling(Base(p), Doublings(n));
  }

  /** The sleep before n counted retries in a row. */
  function TotalSleep(p: Policy, n: nat): int {
    if n == 0 then 0 else TotalSleep(p, n - 1) + Doubled(Base(p), Cap(p), Doublings(n))
  }

  lemma {:induction false} TotalSleepBounds(p: Policy, n: nat)
    requires Peak(Base(p), Cap(p)) <= INT64_MAX
    ensures TotalSleep(p, n) <= Base(p) * (Pow2(n) - 1)
    ensures TotalSleep(p, n) <= n * Cap(p)
  {
    if n > 0 {
      TotalSleepBounds(p, n - 1);
      DoubledIsCapped(Base(p), Cap(p), n - 1);
      Doubling(Base(p), n - 1);
      assert Base(p) * (Pow2(n) - 1) == Base(p) * Pow2(n) - Base(p);
      assert Base(p) * (Pow2(n - 1) - 1) == Base(p) * Pow2(n - 1) - Base(p);
      assert n * Cap(p) == (n - 1) * Cap(p) + Cap(p);
    }
  }

  /** The default policy's five retries sleep 31 seconds in all. */
  lemma DefaultSleepsThirtyOneSeconds()
    ensures TotalSleep(DEFAULT_POLICY, 5) == 31 * SECOND
  {
    var p := DEFAULT_POLICY;
    ModestPolicyFits(SECOND, 30 * SECOND);
    assert Pow2(1) == 2 && Pow2(2) == 4 && Pow2(3) == 8 && Pow2(4) == 16;
    forall n: nat | n <= 4
      ensures Doubled(Base(p), Cap(p), n) == SECOND * Pow2(n)
    {
      DoubledIsCapped(SECOND, 30 * SECOND, n);
    }
    assert TotalSleep(p, 1) == SECOND;
    assert TotalSleep(p, 2) == 3 * SECOND;
    assert TotalSleep(p, 3) == 7 * SECOND;
    assert TotalSleep(p, 4) == 15 * SECOND;
  }
}
