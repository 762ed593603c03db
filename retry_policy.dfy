/** ContainerBeingDeletedRetryPolicy: retry a request that failed because its container is
    still being deleted, waiting a randomised, exponentially growing, bounded interval.
    Intervals are whole milliseconds; the random draw is a parameter. */
module RetryPolicies {
  import opened Wrappers
  import opened Exceptions

  const DefaultClientBackoffMs := 5000
  const MinBackoffMs := 5000
  const MaxBackoffMs := 120000
  const DefaultMaxRetryAttempts := 5
  const Conflict := 409
  const IntMin := -0x8000_0000
  const IntMax := 0x7FFF_FFFF
  const ContainerBeingDeleted := "ContainerBeingDeleted"

  /** The policy's two properties, set only by its constructors. */
  datatype ContainerBeingDeletedRetryPolicy = Policy(deltaBackoffMs: int, maxRetryAttempts: int)

  /** The exception a failed request reported. `StorageException(code)` is an exception whose
      type is exactly StorageException, with `code` its extended error code (None when the
      extended error information or its code is null); `OtherException` is any other type,
      subclasses of StorageException included. */
  datatype LastException = StorageException(errorCode: Option<string>) | OtherException

  /** ShouldRetry's return value and its `retryInterval` out-parameter. */
  datatype Decision = Decision(retry: bool, intervalMs: int)

  /** The parameterless constructor: a 5-second delta back-off and 5 attempts. */
  function DefaultPolicy(): (p: ContainerBeingDeletedRetryPolicy)
    ensures p.deltaBackoffMs == 5000 && p.maxRetryAttempts == 5
  {
    Policy(DefaultClientBackoffMs, DefaultMaxRetryAttempts)
  }

  /** CreateInstance ignores the policy it is called on and returns a default one. */
  function CreateInstance(self: ContainerBeingDeletedRetryPolicy): (p: ContainerBeingDeletedRetryPolicy)
    ensures p.deltaBackoffMs == DefaultClientBackoffMs && p.maxRetryAttempts == DefaultMaxRetryAttempts
  {
    DefaultPolicy()
  }

  function Pow2(n: nat): (r: nat)
    ensures r >= 1
  {
    if n == 0 then 1 else 2 * Pow2(n - 1)
  }

  /** C#'s integer cast of a quotient: truncation toward zero. */
  function TruncDiv(a: int, b: int): int
    requires b > 0
  {
    if a >= 0 then a / b else -((-a) / b)
  }

  /** An unchecked (int) conversion of a whole number of milliseconds: the value itself
      inside the int range, int.MinValue outside it (the x86/x64 conversion result). */
  function ToInt32(x: int): (r: int)
    ensures IntMin <= r <= IntMax
    ensures IntMin <= x <= IntMax <==> r == x
    ensures r != x ==> r == IntMin
  {
    if IntMin <= x <= IntMax then x else IntMin
  }

  /** DeltaBackoff.TotalMilliseconds * 0.8, truncated toward zero. */
  function LowBound(p: ContainerBeingDeletedRetryPolicy): int {
    TruncDiv(p.deltaBackoffMs * 4, 5)
  }

  /** DeltaBackoff.TotalMilliseconds * 1.2, truncated toward zero. */
  function HighBound(p: ContainerBeingDeletedRetryPolicy): int {
    TruncDiv(p.deltaBackoffMs * 6, 5)
  }

  /** (int)(DeltaBackoff.TotalMilliseconds * 0.8). */
  function DrawLow(p: ContainerBeingDeletedRetryPolicy): int {
    ToInt32(LowBound(p))
  }

  /** (int)(DeltaBackoff.TotalMilliseconds * 1.2). */
  function DrawHigh(p: ContainerBeingDeletedRetryPolicy): int {
    ToInt32(HighBound(p))
  }

  /** Both bounds of the draw fit in an int, so the casts keep their values. */
  predicate BoundsInRange(p: ContainerBeingDeletedRetryPolicy) {
    IntMin <= LowBound(p) <= IntMax && IntMin <= HighBound(p) <= IntMax
  }

  /** What Random.Next(lo, hi) can return: lo when lo == hi, else a value in [lo, hi).
      With lo > hi it throws, and any draw is allowed. */
  predicate ValidDraw(p: ContainerBeingDeletedRetryPolicy, draw: int) {
    var lo, hi := DrawLow(p), DrawHigh(p);
    lo > hi || (lo == hi && draw == lo) || (lo < hi && lo <= draw < hi)
  }

  function Min(a: int, b: int): int {
    if a <= b then a else b
  }

  /** ShouldRetry(currentRetryCount, statusCode, lastException, out retryInterval, _). */
  function ShouldRetry(p: ContainerBeingDeletedRetryPolicy, currentRetryCount: nat, statusCode: int,
                       lastException: LastException, draw: int): (r: Result<Decision, Error>)
    requires ValidDraw(p, draw)
    ensures currentRetryCount >= p.maxRetryAttempts ==> r == Ok(Decision(false, 0))
    ensures statusCode != Conflict ==> r.Ok? && !r.value.retry
    ensures lastException.OtherException? ==> r.Ok? && !r.value.retry
    ensures (lastException.StorageException? && lastException.errorCode.Some?
             && lastException.errorCode.value != ContainerBeingDeleted) ==> r.Ok? && !r.value.retry
    ensures r.Ok? && !r.value.retry ==> r.value.intervalMs == 0
    ensures r.Ok? && r.value.retry ==> MinBackoffMs <= r.value.intervalMs <= MaxBackoffMs
    ensures (r.Ok? && r.value.retry) <==>
            && currentRetryCount < p.maxRetryAttempts && statusCode == Conflict
            && lastException == StorageException(Some(ContainerBeingDeleted))
            && DrawLow(p) <= DrawHigh(p)
    ensures r.Ok? && r.value.retry && currentRetryCount == 0 ==> r.value.intervalMs == MinBackoffMs
  {
    if currentRetryCount >= p.maxRetryAttempts then Ok(Decision(false, 0))
    else if statusCode != Conflict then Ok(Decision(false, 0))
    else if lastException.OtherException? then Ok(Decision(false, 0))
    else if lastException.errorCode.None? then Err(NullReference)
    else if lastException.errorCode.value != ContainerBeingDeleted then Ok(Decision(false, 0))
    else if DrawLow(p) > DrawHigh(p) then Err(ArgumentOutOfRange)
    else
      var num := (Pow2(currentRetryCount) - 1) * draw;
      Ok(Decision(true, if num < 0 then MaxBackoffMs else Min(MaxBackoffMs, MinBackoffMs + num)))
  }

  /** When both bounds fit in an int, Random.Next cannot be called for a negative delta
      back-off (its lower bound exceeds its upper bound), so every draw used is non-negative. */
  lemma DrawIsNonNegative(p: ContainerBeingDeletedRetryPolicy, draw: int)
    requires ValidDraw(p, draw) && DrawLow(p) <= DrawHigh(p) && BoundsInRange(p)
    ensures draw >= 0
  {
    if p.deltaBackoffMs < 0 {
      assert false;
    }
  }

  /** The interval a retry waits when the bounds fit in an int: the branch for a negative
      term is not taken. */
  lemma {:induction false} RetryInterval(p: ContainerBeingDeletedRetryPolicy, n: nat, e: LastException, draw: int)
    requires ValidDraw(p, draw) && BoundsInRange(p)
    requires ShouldRetry(p, n, Conflict, e, draw).Ok? && ShouldRetry(p, n, Conflict, e, draw).value.retry
    ensures ShouldRetry(p, n, Conflict, e, draw).value.intervalMs == Min(MaxBackoffMs, MinBackoffMs + (Pow2(n) - 1) * draw)
  {
    DrawIsNonNegative(p, draw);
    ProductNonNegative(Pow2(n) - 1, draw);
  }

  /** A non-negative draw gives the capped interval. */
  lemma NonNegativeDrawInterval(p: ContainerBeingDeletedRetryPolicy, n: nat, e: LastException, draw: int)
    requires ValidDraw(p, draw) && draw >= 0
    requires ShouldRetry(p, n, Conflict, e, draw).Ok? && ShouldRetry(p, n, Conflict, e, draw).value.retry
    ensures ShouldRetry(p, n, Conflict, e, draw).value.intervalMs == Min(MaxBackoffMs, MinBackoffMs + (Pow2(n) - 1) * draw)
  {
    ProductNonNegative(Pow2(n) - 1, draw);
  }

  /** A delta back-off whose upper bound overflows an int but whose lower bound does not
      turns the upper bound into int.MinValue: Random.Next throws on every retry. */
  lemma UpperBoundOverflowThrows(p: ContainerBeingDeletedRetryPolicy, n: nat, draw: int)
    requires LowBound(p) <= IntMax < HighBound(p)
    requires n < p.maxRetryAttempts
    ensures ValidDraw(p, draw)
    ensures ShouldRetry(p, n, Conflict, StorageException(Some(ContainerBeingDeleted)), draw) == Err(ArgumentOutOfRange)
  {
    assert p.deltaBackoffMs > 0;
    assert LowBound(p) >= 0;
  }

  /** A delta back-off whose bounds both overflow draws int.MinValue: the first retry waits
      the minimum and every later one the maximum, through the negative-term branch. */
  lemma OverflowedBoundsWaitLongest(p: ContainerBeingDeletedRetryPolicy, n: nat, draw: int)
    requires LowBound(p) > IntMax && ValidDraw(p, draw)
    requires n < p.maxRetryAttempts
    ensures draw == IntMin
    ensures ShouldRetry(p, n, Conflict, StorageException(Some(ContainerBeingDeleted)), draw)
            == Ok(Decision(true, if n == 0 then MinBackoffMs else MaxBackoffMs))
  {
    assert HighBound(p) >= LowBound(p);
    if n > 0 {
      Pow2Monotone(1, n);
      ProductNegative(Pow2(n) - 1, draw);
    }
  }

  lemma ProductNegative(a: int, b: int)
    requires a >= 1 && b < 0
    ensures a * b < 0
  {
  }

  lemma ProductNonNegative(a: nat, b: int)
    requires b >= 0
    ensures a * b >= 0
  {
  }

  lemma {:induction false} Pow2Monotone(n: nat, m: nat)
    requires n <= m
    ensures Pow2(n) <= Pow2(m)
    decreases m
  {
    if n < m {
      Pow2Monotone(n, m - 1);
    }
  }

  /** A larger multiplier of the same non-negative draw gives a capped interval no shorter. */
  lemma CappedIntervalMonotone(a: nat, b: nat, draw: int)
    requires a <= b && draw >= 0
    ensures Min(MaxBackoffMs, MinBackoffMs + a * draw) <= Min(MaxBackoffMs, MinBackoffMs + b * draw)
  {
    assert b * draw - a * draw == (b - a) * draw;
  }

  /** With the same draw, a later retry never waits less than an earlier one. */
  lemma IntervalGrows(p: ContainerBeingDeletedRetryPolicy, n: nat, m: nat, e: LastException, draw: int)
    requires ValidDraw(p, draw) && n <= m
    requires ShouldRetry(p, m, Conflict, e, draw).Ok? && ShouldRetry(p, m, Conflict, e, draw).value.retry
    ensures ShouldRetry(p, n, Conflict, e, draw).Ok? && ShouldRetry(p, n, Conflict, e, draw).value.retry
    ensures ShouldRetry(p, n, Conflict, e, draw).value.intervalMs <= ShouldRetry(p, m, Conflict, e, draw).value.intervalMs
  {
    if draw >= 0 {
      NonNegativeDrawInterval(p, n, e, draw);
      NonNegativeDrawInterval(p, m, e, draw);
      Pow2Monotone(n, m);
      CappedIntervalMonotone(Pow2(n) - 1, Pow2(m) - 1, draw);
    } else if n > 0 {
      Pow2Monotone(1, n);
      Pow2Monotone(1, m);
      ProductNegative(Pow2(n) - 1, draw);
      ProductNegative(Pow2(m) - 1, draw);
    }
  }

  /** The default policy retries at most five times after the first error: the sixth error
      (count 5) is given up, whatever it is. */
  lemma DefaultGivesUpAfterFive(n: nat, statusCode: int, e: LastException, draw: int)
    requires ValidDraw(DefaultPolicy(), draw) && n >= 5
    ensures ShouldRetry(DefaultPolicy(), n, statusCode, e, draw) == Ok(Decision(false, 0))
  {
  }

  /** Under the default policy the draw lies in [4000, 6000) and the k-th retry waits
      5 s plus (2^k - 1) draws, capped at 120 s. */
  lemma DefaultIntervalRange(n: nat, draw: int)
    requires ValidDraw(DefaultPolicy(), draw) && n < 5
    ensures 4000 <= draw < 6000
    ensures var r := ShouldRetry(DefaultPolicy(), n, Conflict, StorageException(Some(ContainerBeingDeleted)), draw);
      r.Ok? && r.value.retry
      && r.value.intervalMs == Min(MaxBackoffMs, MinBackoffMs + (Pow2(n) - 1) * draw)
  {
    assert DrawLow(DefaultPolicy()) == 4000 && DrawHigh(DefaultPolicy()) == 6000;
    assert BoundsInRange(DefaultPolicy());
    RetryInterval(DefaultPolicy(), n, StorageException(Some(ContainerBeingDeleted)), draw);
  }
}
