/**
 What a process did, and how often and how soon it may be tried again.

 DelayGrows: the delay before a retry never shrinks from one attempt to the next, starts at
 nothing and stays under its ceiling.
 */
module ProcessResults {
  import opened Results

  const MAX_RETRY_ATTEMPTS := 100
  const MAX_EXIT_CODE := 255

  datatype Cause = NotTerminated | RunTimeout | CancellationRequested | Superseded | External

  datatype Termination = Exited | Signalled | NotStarted | Abandoned

  datatype ProcessResult = ProcessResult(
    termination: Termination, duration: nat, exitCode: Option<int>, signal: Option<int>, cause: Cause,
    launchError: Option<string>)

  predicate ValidResult(r: ProcessResult) {
    && (if r.termination.Exited? then r.exitCode.Some? && 0 <= r.exitCode.value <= MAX_EXIT_CODE else r.exitCode.None?)
    && (r.termination.Signalled? <==> r.signal.Some?)
    && (r.termination.NotStarted? ==> r.launchError.Some? && r.launchError.value != "")
  }

  datatype Backoff = Fixed | Linear | Exponential

  datatype RetryPolicy = RetryPolicy(
    maxAttempts: int, backoff: Backoff, baseDelay: nat, maxDelay: nat, retryOutcomeFailures: bool, retryTimeouts: bool)

  predicate ValidPolicy(p: RetryPolicy) {
    1 <= p.maxAttempts <= MAX_RETRY_ATTEMPTS && p.baseDelay <= p.maxDelay
  }

  function Pow2(n: nat): (p: nat)
    ensures p >= 1
  {
    if n == 0 then 1 else 2 * Pow2(n - 1)
  }

  function Raw(p: RetryPolicy, retry: nat): nat {
    match p.backoff
    case Fixed => p.baseDelay
    case Linear => p.baseDelay * (retry + 1)
    case Exponential => p.baseDelay * Pow2(retry)
  }

  /** The delay before an attempt, the first of which is never delayed. */
  function DelayBefore(p: RetryPolicy, attempt: int): Option<nat> {
    if attempt < 1 then None
    else if attempt == 1 then Some(0)
    else
      var seconds := Raw(p, attempt - 2);
      Some(if seconds < p.maxDelay then seconds else p.maxDelay)
  }

  lemma RawGrows(p: RetryPolicy, retry: nat)
    ensures Raw(p, retry) <= Raw(p, retry + 1)
    ensures p.baseDelay <= Raw(p, retry)
  {
    assert p.baseDelay * (retry + 1) <= p.baseDelay * (retry + 2);
    var b, w := p.baseDelay, Pow2(retry);
    assert Pow2(retry + 1) == 2 * w;
    assert b * (2 * w) == b * w + b * w;
    assert b * w >= b;
    assert p.baseDelay * (retry + 1) == p.baseDelay * retry + p.baseDelay;
  }

  function AtMost(seconds: nat, ceiling: nat): nat {
    if seconds < ceiling then seconds else ceiling
  }

  /**
   Each delay by the one before it: the second attempt waits the base, and from then on a fixed
   backoff waits as long again, a linear one the base longer and an exponential one twice as
   long, all up to the ceiling.
   */
  lemma BackoffMeans(p: RetryPolicy, attempt: int)
    requires ValidPolicy(p)
    ensures DelayBefore(p, attempt).None? <==> attempt < 1
    ensures DelayBefore(p, 1) == Some(0) && DelayBefore(p, 2) == Some(p.baseDelay)
    ensures attempt >= 2 ==>
              var delay, next := DelayBefore(p, attempt).value, DelayBefore(p, attempt + 1).value;
              match p.backoff
              case Fixed => next == delay
              case Linear => next == AtMost(delay + p.baseDelay, p.maxDelay)
              case Exponential => next == AtMost(2 * delay, p.maxDelay)
  {
    assert Pow2(0) == 1;
    if attempt >= 2 {
      var b, w := p.baseDelay, Pow2(attempt - 2);
      assert Pow2(attempt - 1) == 2 * w;
      assert b * (2 * w) == 2 * (b * w);
      assert b * (attempt - 2 + 1) + b == b * (attempt - 1 + 1);
      RawGrows(p, attempt - 2);
    }
  }

  lemma DelayGrows(p: RetryPolicy, attempt: int)
    requires ValidPolicy(p) && 1 <= attempt
    ensures DelayBefore(p, attempt).value <= DelayBefore(p, attempt + 1).value <= p.maxDelay
    ensures attempt >= 2 ==> p.baseDelay <= DelayBefore(p, attempt).value
    ensures DelayBefore(p, 1) == Some(0) && DelayBefore(p, 2) == Some(p.baseDelay)
  {
    if attempt >= 2 {
      RawGrows(p, attempt - 2);
    }
    assert Pow2(0) == 1;
  }
}
