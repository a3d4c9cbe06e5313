/**
 Turning what a process did into an outcome, and an outcome into a retry or not.

 SucceedsWhen: exiting zero is not sufficient.  OutcomesMean, ReasonsMean, SentencesMean: what
 each outcome, reason and sentence takes, for every result.  ReasonsFit: a classification
 always carries a reason its outcome accepts.  RetriesWhen: eligibility and permission must agree.
 */
module Classifications {
  import opened Results
  import opened Vocabulary
  import opened ProcessResults

  datatype Evidence = Evidence(requiredTotal: int, requiredFailed: int, evaluationErrored: bool)

  const NO_EVIDENCE := Evidence(0, 0, false)

  /** Why an execution ended as it did, before it is put into words. */
  datatype Explanation =
    | LaunchError(message: string)
    | LostTrack
    | Terminated(result: ProcessResult)
    | ForeignSignal(signal: int)
    | BadExit(status: int)
    | Unconfirmed
    | Unmet(status: int, failed: int, total: int)
    | AllMet(status: int)
    | GoodExit(status: int)

  datatype Classification = Classification(outcome: Outcome, reason: Option<Reason>, explanation: Explanation)

  function Digits(n: nat): string {
    if n < 10 then [('0' as int + n) as char] else Digits(n / 10) + [('0' as int + n % 10) as char]
  }

  /** The number a run of digits stands for. */
  function Value(s: string): nat
    requires forall c | c in s :: '0' <= c <= '9'
  {
    if s == "" then 0
    else
      var front, last := s[..|s| - 1], s[|s| - 1];
      assert last in s && forall c | c in front :: c in s;
      10 * Value(front) + (last as int - '0' as int)
  }

  lemma {:induction false} DigitsRead(n: nat)
    ensures Digits(n) != "" && (forall c | c in Digits(n) :: '0' <= c <= '9') && Value(Digits(n)) == n
    ensures n > 0 ==> Digits(n)[0] != '0'
    decreases n
  {
    if n >= 10 {
      DigitsRead(n / 10);
      var s := Digits(n);
      assert s[..|s| - 1] == Digits(n / 10);
    }
  }

  function Decimal(n: int): string {
    if n < 0 then "-" + Digits(-n) else Digits(n)
  }

  /** A span of seconds as hours, minutes and seconds, leaving out what is zero. */
  function Span(seconds: nat): string {
    if seconds == 0 then "0s"
    else
      (if seconds / 3600 != 0 then Digits(seconds / 3600) + "h" else "")
      + (if seconds % 3600 / 60 != 0 then Digits(seconds % 3600 / 60) + "m" else "")
      + (if seconds % 60 != 0 then Digits(seconds % 60) + "s" else "")
  }

  function TerminationReason(cause: Cause): (Outcome, Reason)
    requires !cause.NotTerminated?
  {
    match cause
    case RunTimeout => (TimedOut, RunTimeoutExceeded())
    case CancellationRequested => (Cancelled, RequestedByUser())
    case Superseded => (Cancelled, SupersededByNewer())
    case External => (Failed, TerminatedExternally())
  }

  function TerminationWords(r: ProcessResult): string {
    var signal := if r.signal.Some? && r.signal.value != 0 then " (signal " + Decimal(r.signal.value) + ")" else "";
    match r.cause
    case RunTimeout => "The process exceeded its timeout after " + Span(r.duration) + signal + "."
    case CancellationRequested => "The process was cancelled after " + Span(r.duration) + signal + "."
    case Superseded => "The process was superseded by a newer run after " + Span(r.duration) + "."
    case External => "The process was terminated by something outside TaskControl after " + Span(r.duration) + signal + "."
    case NotTerminated => "The process was not terminated."
  }

  function Words(e: Explanation): string {
    match e
    case LaunchError(message) => message
    case LostTrack =>
      "The runtime lost track of the process, "
      + "so its result cannot be proven. This execution requires reconciliation."
    case Terminated(result) => TerminationWords(result)
    case ForeignSignal(signal) =>
      "The process was terminated by signal " + Decimal(signal) + ", which TaskControl did not send."
    case BadExit(status) => "The process exited with status " + Decimal(status) + "."
    case Unconfirmed =>
      "The process succeeded, but an expected-outcome evaluator failed, so success could not be confirmed."
    case Unmet(status, failed, total) =>
      "The process exited with status " + Decimal(status) + ", but " + Decimal(failed) + " of " + Decimal(total)
      + " required expected outcomes did not pass."
    case AllMet(status) =>
      "The process exited with status " + Decimal(status) + " and every required expected outcome passed."
    case GoodExit(status) => "The process exited with status " + Decimal(status) + "."
  }

  function Classify(r: ProcessResult, evidence: Evidence, successCodes: set<int>): Classification
    requires ValidResult(r)
  {
    if r.termination.NotStarted? then Classification(LaunchFailed, None, LaunchError(r.launchError.value))
    else if r.termination.Abandoned? then Classification(Unknown, None, LostTrack)
    else if !r.cause.NotTerminated? then
      var (outcome, reason) := TerminationReason(r.cause);
      Classification(outcome, Some(reason), Terminated(r))
    else if r.termination.Signalled? then
      Classification(Failed, Some(TerminatedExternally()), ForeignSignal(r.signal.value))
    else if r.exitCode.value !in successCodes then Classification(Failed, None, BadExit(r.exitCode.value))
    else if evidence.evaluationErrored then Classification(OutcomeFailed, None, Unconfirmed)
    else if evidence.requiredFailed > 0 then
      Classification(OutcomeFailed, None, Unmet(r.exitCode.value, evidence.requiredFailed, evidence.requiredTotal))
    else Classification(Succeeded, None, if evidence.requiredTotal != 0 then AllMet(r.exitCode.value) else GoodExit(r.exitCode.value))
  }

  /** Success takes an undisturbed exit with an accepted code and nothing required failing or unjudged. */
  lemma SucceedsWhen(r: ProcessResult, evidence: Evidence, successCodes: set<int>)
    requires ValidResult(r)
    ensures Classify(r, evidence, successCodes).outcome.Succeeded? <==>
              && r.exitCode.Some? && r.exitCode.value in successCodes && r.cause.NotTerminated?
              && !evidence.evaluationErrored && evidence.requiredFailed <= 0
    ensures Classify(r, evidence, successCodes).outcome.Unknown? <==> r.termination.Abandoned?
    ensures Classify(r, evidence, successCodes).outcome.LaunchFailed? <==> r.termination.NotStarted?
  {
    hide RunTimeoutExceeded, RequestedByUser, SupersededByNewer, TerminatedExternally;
  }

  /** A process that ended by itself: it exited, and nothing that TaskControl or anybody else did ended it. */
  predicate Undisturbed(r: ProcessResult) {
    r.termination.Exited? && r.cause.NotTerminated?
  }

  /** What each of the other outcomes takes: of what the process did, in the order in which it is asked. */
  lemma OutcomesMean(r: ProcessResult, evidence: Evidence, successCodes: set<int>)
    requires ValidResult(r)
    ensures var o, started := Classify(r, evidence, successCodes).outcome, !r.termination.NotStarted? && !r.termination.Abandoned?;
            && (o.TimedOut? <==> started && r.cause.RunTimeout?)
            && (o.Cancelled? <==> started && (r.cause.CancellationRequested? || r.cause.Superseded?))
            && (o.Failed? <==> started && (r.cause.External? || (r.termination.Signalled? && r.cause.NotTerminated?)
                                           || (Undisturbed(r) && r.exitCode.value !in successCodes)))
            && (o.OutcomeFailed? <==> Undisturbed(r) && r.exitCode.value in successCodes
                                      && (evidence.evaluationErrored || evidence.requiredFailed > 0))
            && (o.Succeeded? <==> Undisturbed(r) && r.exitCode.value in successCodes
                                  && !evidence.evaluationErrored && evidence.requiredFailed <= 0)
            && (o.LaunchFailed? <==> r.termination.NotStarted?) && (o.Unknown? <==> r.termination.Abandoned?)
  {
    hide RunTimeoutExceeded, RequestedByUser, SupersededByNewer, TerminatedExternally;
  }

  /** Which reason each outcome carries: one for each cause of an end, none where the process ended by itself. */
  lemma ReasonsMean(r: ProcessResult, evidence: Evidence, successCodes: set<int>)
    requires ValidResult(r)
    ensures var c, started := Classify(r, evidence, successCodes), !r.termination.NotStarted? && !r.termination.Abandoned?;
            && (c.reason.None? <==> !started || Undisturbed(r))
            && (started && r.cause.RunTimeout? ==> c.reason == Some(Code(TimedOut, "run_timeout_exceeded")))
            && (started && r.cause.CancellationRequested? ==> c.reason == Some(Code(Cancelled, "requested_by_user")))
            && (started && r.cause.Superseded? ==> c.reason == Some(Code(Cancelled, "superseded")))
            && (started && (r.cause.External? || (r.cause.NotTerminated? && r.termination.Signalled?)) ==>
                  c.reason == Some(Code(Failed, "terminated_externally")))
  {
    hide Code;
  }

  /** Which sentence is told: the launch error itself, how it was ended, or with which status it exited. */
  lemma SentencesMean(r: ProcessResult, evidence: Evidence, successCodes: set<int>)
    requires ValidResult(r)
    ensures var c, e := Classify(r, evidence, successCodes), Classify(r, evidence, successCodes).explanation;
            && (e.LaunchError? <==> c.outcome.LaunchFailed?) && (e.LaunchError? ==> Some(e.message) == r.launchError)
            && (e.LostTrack? <==> c.outcome.Unknown?)
            && (e.Terminated? <==> c.reason.Some? && !r.cause.NotTerminated?) && (e.Terminated? ==> e.result == r)
            && (e.ForeignSignal? <==> c.outcome.Failed? && c.reason.Some? && r.cause.NotTerminated?)
            && (e.ForeignSignal? ==> Some(e.signal) == r.signal)
            && (e.BadExit? <==> c.outcome.Failed? && c.reason.None?)
            && (e.Unconfirmed? <==> c.outcome.OutcomeFailed? && evidence.evaluationErrored)
            && (e.Unmet? <==> c.outcome.OutcomeFailed? && !evidence.evaluationErrored)
            && (e.Unmet? ==> e.failed == evidence.requiredFailed && e.total == evidence.requiredTotal)
            && (e.AllMet? <==> c.outcome.Succeeded? && evidence.requiredTotal != 0)
            && (e.GoodExit? <==> c.outcome.Succeeded? && evidence.requiredTotal == 0)
            && (e.BadExit? || e.Unmet? || e.AllMet? || e.GoodExit? ==> Some(e.status) == r.exitCode)
  {
    hide RunTimeoutExceeded, RequestedByUser, SupersededByNewer, TerminatedExternally;
  }

  /** A required reason is there and matches; a reason that is there matches; seven outcomes are all there are. */
  lemma ReasonsFit(r: ProcessResult, evidence: Evidence, successCodes: set<int>)
    requires ValidResult(r)
    ensures var c := Classify(r, evidence, successCodes);
            && (RequiresReason(c.outcome) ==> c.reason.Some?)
            && (c.reason.Some? ==> ValidReason(c.reason.value) && Matches(c.reason.value, c.outcome))
            && !c.outcome.Skipped? && !c.outcome.Blocked? && !c.outcome.ConditionError? && !c.outcome.InfrastructureFailed?
  {
    hide Matches, ValidReason, RunTimeoutExceeded, RequestedByUser, SupersededByNewer, TerminatedExternally;
  }

  datatype RetryReason =
    | NeverRetried(outcome: Outcome)
    | SingleAttempt
    | Exhausted(made: int, allowed: int)
    | NotOptedIn(outcome: Outcome)
    | TryAgain(outcome: Outcome, next: int, allowed: int)

  function RetryWords(r: RetryReason): string {
    match r
    case NeverRetried(o) => Name(o) + " is never retried."
    case SingleAttempt => "The task's retry policy allows a single attempt."
    case Exhausted(made, allowed) => "Retries exhausted after " + Decimal(made) + " of " + Decimal(allowed) + " attempts."
    case NotOptedIn(o) =>
      Name(o) + " is retried only when the task opts in, because the work may have partially applied its effects."
    case TryAgain(o, next, allowed) => Name(o) + " is retryable; attempt " + Decimal(next) + " of " + Decimal(allowed) + "."
  }

  datatype RetryDecision = RetryDecision(shouldRetry: bool, reason: RetryReason, next: Option<int>)

  function DecideRetry(o: Outcome, p: RetryPolicy, attemptsMade: int): RetryDecision {
    var eligibility := EligibilityOf(o);
    if eligibility.Never? then RetryDecision(false, NeverRetried(o), None)
    else if p.maxAttempts <= 1 then RetryDecision(false, SingleAttempt, None)
    else if attemptsMade >= p.maxAttempts then RetryDecision(false, Exhausted(attemptsMade, p.maxAttempts), None)
    else if eligibility.ByPolicy? && !(if o.OutcomeFailed? then p.retryOutcomeFailures else p.retryTimeouts) then
      RetryDecision(false, NotOptedIn(o), None)
    else RetryDecision(true, TryAgain(o, attemptsMade + 1, p.maxAttempts), Some(attemptsMade + 1))
  }

  /** The outcome allows a retry under the policy, whatever the count. */
  predicate Retryable(o: Outcome, p: RetryPolicy) {
    o.Failed? || o.LaunchFailed? || o.ConditionError? || o.InfrastructureFailed?
    || (o.OutcomeFailed? && p.retryOutcomeFailures) || (o.TimedOut? && p.retryTimeouts)
  }

  lemma RetriesWhen(o: Outcome, p: RetryPolicy, attemptsMade: int)
    requires ValidPolicy(p) && 1 <= attemptsMade
    ensures DecideRetry(o, p, attemptsMade).shouldRetry <==> Retryable(o, p) && attemptsMade < p.maxAttempts
    ensures var reason := DecideRetry(o, p, attemptsMade).reason;
            && (reason == TryAgain(o, attemptsMade + 1, p.maxAttempts) <==> Retryable(o, p) && attemptsMade < p.maxAttempts)
            && (reason == NeverRetried(o) <==> o.Succeeded? || o.Unknown? || o.Cancelled? || o.Skipped? || o.Blocked?)
            && (reason.SingleAttempt? <==> !reason.NeverRetried? && p.maxAttempts == 1)
            && (reason.Exhausted? <==> !reason.NeverRetried? && 1 < p.maxAttempts <= attemptsMade)
            && (reason.Exhausted? ==> reason.made == attemptsMade && reason.allowed == p.maxAttempts)
            && (reason.NotOptedIn? ==> reason.outcome == o && !Retryable(o, p) && (o.OutcomeFailed? || o.TimedOut?))
    ensures DecideRetry(o, p, attemptsMade).next == if DecideRetry(o, p, attemptsMade).shouldRetry then Some(attemptsMade + 1) else None
  {
  }
}
