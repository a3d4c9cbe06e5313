/**
 The runtime: one execution taken from pending to terminal, every call it makes free to fail.

 Execute: when it is over, however it is over, the stored execution is finished, given that
 the lock release and the cleanup's own calls work, whatever failed before them; the stored
 states follow the transition table, a stored outcome stays, and an acquired lock is released
 exactly once.
 When no call fails and the lock is granted, it tells the story of its attempts exactly when the
 last sentence fits (LaunchErrorIsNotTold is a run where it does not), and a finished execution
 with attempts lacks a start time exactly when a failure outside its attempts ended it.
 RunAttempts: its attempts are those the retry policy makes of the executor's reports.
 */
module Runtimes {
  import opened Results
  import opened Vocabulary
  import opened ProcessResults
  import opened Classifications
  import opened Executions
  import Markers

  /** An error the runtime knows, with its message; any other ordinary error; or an interrupt. */
  datatype Failure = Known(message: string) | Unexpected | Interrupted

  datatype Verdict = Fine | Fails(failure: Failure)

  function Message(e: DomainError): string {
    match e
    case Invalid => "The execution would be inconsistent."
    case RuleViolation => "An execution rule was broken."
  }

  // -- what a save leaves in storage -----------------------------------------------------------

  function PositionOf(attempts: seq<Attempt>, id: nat): (i: nat)
    ensures i <= |attempts|
    ensures i < |attempts| ==> attempts[i].id == id
    ensures forall j | 0 <= j < i :: attempts[j].id != id
  {
    if attempts == [] || attempts[0].id == id then 0 else 1 + PositionOf(attempts[1..], id)
  }

  /** Stored attempts are updated in place, new ones added; none is ever dropped. */
  function MergeAttempts(stored: seq<Attempt>, given: seq<Attempt>): seq<Attempt>
    decreases |given|
  {
    if given == [] then stored
    else
      var i := PositionOf(stored, given[0].id);
      MergeAttempts(if i < |stored| then stored[i := given[0]] else stored + [given[0]], given[1..])
  }

  function Merge(stored: Execution, given: Execution): Execution {
    given.(id := stored.id, attempts := MergeAttempts(stored.attempts, given.attempts))
  }

  predicate DistinctAttempts(attempts: seq<Attempt>) {
    forall i, j | 0 <= i < j < |attempts| :: attempts[i].id != attempts[j].id
  }

  /** Saving a record whose stored attempts it continues stores its own attempts. */
  lemma {:induction false} MergeContinues(stored: seq<Attempt>, given: seq<Attempt>, k: nat)
    requires DistinctAttempts(given) && k <= |given|
    requires |stored| <= |given| && k <= |stored|
    requires stored[..k] == given[..k] && forall i | 0 <= i < |stored| :: stored[i].id == given[i].id
    ensures MergeAttempts(stored, given[k..]) == given
    decreases |given| - k
  {
    if k == |given| {
      assert stored == given;
    } else {
      var i := PositionOf(stored, given[k].id);
      assert given[k..][0] == given[k] && given[k..][1..] == given[k + 1..];
      if k < |stored| {
        assert i == k;
        MergeContinues(stored[k := given[k]], given, k + 1);
      } else {
        assert i == |stored|;
        MergeContinues(stored + [given[k]], given, k + 1);
      }
    }
  }

  lemma SavedContinues(stored: Execution, given: Execution)
    requires DistinctAttempts(given.attempts) && stored.id == given.id
    requires |stored.attempts| <= |given.attempts|
    requires forall i | 0 <= i < |stored.attempts| :: stored.attempts[i].id == given.attempts[i].id
    ensures Merge(stored, given) == given
  {
    hide MergeAttempts;
    MergeContinues(stored.attempts, given.attempts, 0);
    assert given.attempts[0..] == given.attempts;
  }

  // -- the runtime's collaborators -------------------------------------------------------------

  /** States follow the table up to stuttering, and a stored outcome stays. */
  predicate Follows(e: Execution, next: Execution) {
    && (e.state == next.state || IsLegal(e.state, next.state))
    && (e.state.Finished? ==> next == e)
  }

  predicate Chain(trace: seq<Execution>) {
    forall i | 0 <= i < |trace| - 1 :: Follows(trace[i], trace[i + 1])
  }

  class World {
    var stored: Execution
    var calls: nat
    var nextId: nat
    var acquired: nat
    var released: nat
    ghost var trace: seq<Execution>
    ghost var releasedAt: nat
    ghost var loads: nat
    ghost var loadedAt: nat
    const verdicts: nat -> Verdict
    const times: nat -> int
    const grants: nat -> bool
    const reports: nat -> ProcessResult

    constructor (stored: Execution, verdicts: nat -> Verdict, times: nat -> int, grants: nat -> bool, reports: nat -> ProcessResult)
      requires forall n :: ValidResult(reports(n))
      ensures this.stored == stored && trace == [stored] && calls == 0 && acquired == 0 && released == 0
      ensures this.verdicts == verdicts && this.times == times && this.grants == grants && this.reports == reports && Valid()
    {
      this.stored := stored;
      this.verdicts := verdicts;
      this.times := times;
      this.grants := grants;
      this.reports := reports;
      calls, nextId, acquired, released := 0, 0, 0, 0;
      trace := [stored];
      releasedAt, loads, loadedAt := 0, 0, 0;
    }

    /** The trace ends in what is stored. */
    ghost predicate Valid()
      reads this
    {
      && trace != [] && trace[|trace| - 1] == stored && Chain(trace)
      && (forall n :: ValidResult(reports(n)))
    }

    /** Every call from one to another went through. */
    ghost predicate AllFine(from: nat, to: nat)
      reads this
    {
      forall i | from <= i < to :: verdicts(i).Fine?
    }

    /** A save that fails has no effect. */
    method Save(e: Execution) returns (r: Result<Execution, Failure>)
      requires Valid() && Follows(stored, Merge(stored, e))
      modifies this`stored, this`calls, this`trace
      ensures Valid() && calls == old(calls) + 1
      ensures r == match verdicts(old(calls)) case Fine => Ok(e) case Fails(f) => Err(f)
      ensures stored == if r.Ok? then Merge(old(stored), e) else old(stored)
      ensures trace == if r.Ok? then old(trace) + [stored] else old(trace)
    {
      calls := calls + 1;
      match verdicts(calls - 1) {
        case Fails(f) =>
          r := Err(f);
        case Fine =>
          stored := Merge(stored, e);
          trace := trace + [stored];
          r := Ok(e);
      }
    }

    /** Only the cleanup loads. */
    method Load() returns (r: Result<Execution, Failure>)
      modifies this`calls, this`loads, this`loadedAt
      ensures calls == old(calls) + 1 && loads == old(loads) + 1 && loadedAt == old(calls)
      ensures r == match verdicts(old(calls)) case Fine => Ok(stored) case Fails(f) => Err(f)
    {
      r := match verdicts(calls) case Fine => Ok(stored) case Fails(f) => Err(f);
      loads, loadedAt := loads + 1, calls;
      calls := calls + 1;
    }

    method Now() returns (r: Result<int, Failure>)
      modifies this`calls
      ensures calls == old(calls) + 1
      ensures r == match verdicts(old(calls)) case Fine => Ok(times(old(calls))) case Fails(f) => Err(f)
    {
      r := match verdicts(calls) case Fine => Ok(times(calls)) case Fails(f) => Err(f);
      calls := calls + 1;
    }

    method FindExecutor() returns (r: Result<(), Failure>)
      modifies this`calls
      ensures calls == old(calls) + 1
      ensures r == match verdicts(old(calls)) case Fine => Ok(()) case Fails(f) => Err(f)
    {
      r := match verdicts(calls) case Fine => Ok(()) case Fails(f) => Err(f);
      calls := calls + 1;
    }

    method RunProcess() returns (r: Result<ProcessResult, Failure>)
      requires Valid()
      modifies this`calls
      ensures calls == old(calls) + 1
      ensures r == match verdicts(old(calls)) case Fine => Ok(reports(old(calls))) case Fails(f) => Err(f)
      ensures r.Ok? ==> ValidResult(r.value)
    {
      r := match verdicts(calls) case Fine => Ok(reports(calls)) case Fails(f) => Err(f);
      calls := calls + 1;
    }

    method TryAcquire() returns (r: Result<bool, Failure>)
      modifies this`calls, this`acquired
      ensures calls == old(calls) + 1
      ensures r == match verdicts(old(calls)) case Fine => Ok(grants(old(calls))) case Fails(f) => Err(f)
      ensures acquired == old(acquired) + if r == Ok(true) then 1 else 0
    {
      r := match verdicts(calls) case Fine => Ok(grants(calls)) case Fails(f) => Err(f);
      acquired := acquired + if r == Ok(true) then 1 else 0;
      calls := calls + 1;
    }

    method Release() returns (r: Result<(), Failure>)
      modifies this`calls, this`released, this`releasedAt
      ensures calls == old(calls) + 1 && released == old(released) + 1 && releasedAt == old(calls)
      ensures r == match verdicts(old(calls)) case Fine => Ok(()) case Fails(f) => Err(f)
    {
      r := match verdicts(calls) case Fine => Ok(()) case Fails(f) => Err(f);
      released, releasedAt := released + 1, calls;
      calls := calls + 1;
    }

    method NewId() returns (id: nat)
      modifies this`nextId
      ensures id == old(nextId) && nextId == old(nextId) + 1
    {
      id := nextId;
      nextId := nextId + 1;
    }
  }

  // -- the service -----------------------------------------------------------------------------

  /** Attempts numbered from one, each over, and each with an outcome the policy lets be tried again. */
  predicate Retried(attempts: seq<Attempt>, p: RetryPolicy) {
    forall i | 0 <= i < |attempts| ::
      && attempts[i].number == i + 1
      && attempts[i].result.Some? && ValidResult(attempts[i].result.value)
      && Retryable(OutcomeOf(attempts[i].result.value), p)
  }

  function OutcomeOf(r: ProcessResult): Outcome
    requires ValidResult(r)
  {
    Classify(r, NO_EVIDENCE, {0}).outcome
  }

  /** The sentence kept of an execution: how its last attempt ended, and why there is no other. */
  function Told(result: ProcessResult, p: RetryPolicy, made: nat): string
    requires ValidResult(result)
  {
    Markers.Strip(Words(Classify(result, NO_EVIDENCE, {0}).explanation) + " " + RetryWords(DecideRetry(OutcomeOf(result), p, made).reason))
  }

  /** Both sentences are told, but for space at either end. */
  lemma ToldMeans(result: ProcessResult, p: RetryPolicy, made: nat)
    requires ValidResult(result)
    ensures Markers.AgreeInside(Told(result, p, made),
              Words(Classify(result, NO_EVIDENCE, {0}).explanation) + " " + RetryWords(DecideRetry(OutcomeOf(result), p, made).reason))
  {
    hide Words, RetryWords, Classify, DecideRetry, Markers.Strip, Markers.AgreeInside;
    var s := Words(Classify(result, NO_EVIDENCE, {0}).explanation) + " " + RetryWords(DecideRetry(OutcomeOf(result), p, made).reason);
    Markers.StripTwice(s);
    Markers.StripMeans(Told(result, p, made), s);
  }

  /** Between one attempt's report and the next the runtime makes this many calls. */
  const CALLS_PER_ATTEMPT := 5

  /** Every attempt holds what the executor reported when it was asked for that attempt. */
  ghost predicate Reported(attempts: seq<Attempt>, reports: nat -> ProcessResult, first: nat) {
    forall i | 0 <= i < |attempts| :: attempts[i].result == Some(reports(first + CALLS_PER_ATTEMPT * i))
  }

  /** Every attempt began and ended when the clock said so around its report. */
  ghost predicate Dated(attempts: seq<Attempt>, times: nat -> int, first: nat)
    requires first >= 2
  {
    forall i | 0 <= i < |attempts| ::
      && attempts[i].startedAt == times(first - 2 + CALLS_PER_ATTEMPT * i)
      && attempts[i].finishedAt == Some(times(first + 1 + CALLS_PER_ATTEMPT * i))
  }

  /** How many attempts are made if those reports come back: up to the first that may not be tried again. */
  ghost function AttemptsMade(reports: nat -> ProcessResult, first: nat, p: RetryPolicy, from: nat): (n: nat)
    requires forall i :: ValidResult(reports(i))
    ensures n > from
    decreases p.maxAttempts - from
  {
    if p.maxAttempts <= from + 1 || !Retryable(OutcomeOf(reports(first + CALLS_PER_ATTEMPT * from)), p) then from + 1
    else AttemptsMade(reports, first, p, from + 1)
  }

  /** The sentence those reports end in. */
  ghost function FinalWords(reports: nat -> ProcessResult, first: nat, p: RetryPolicy): string
    requires forall i :: ValidResult(reports(i))
  {
    var n := AttemptsMade(reports, first, p, 0);
    Told(reports(first + CALLS_PER_ATTEMPT * (n - 1)), p, n)
  }

  /** All the attempts there are to make, each with its own report. */
  ghost predicate Complete(attempts: seq<Attempt>, reports: nat -> ProcessResult, first: nat, p: RetryPolicy)
    requires forall i :: ValidResult(reports(i))
  {
    |attempts| == AttemptsMade(reports, first, p, 0) && Reported(attempts, reports, first)
  }

  /** A finished execution whose attempts are what the retry policy called for. */
  predicate Story(e: Execution, p: RetryPolicy) {
    var n := |e.attempts|;
    && 1 <= n <= p.maxAttempts
    && Retried(e.attempts[..n - 1], p)
    && e.attempts[n - 1].number == n
    && e.attempts[n - 1].result.Some? && ValidResult(e.attempts[n - 1].result.value)
    && (n < p.maxAttempts ==> !Retryable(OutcomeOf(e.attempts[n - 1].result.value), p))
    && e.state.Finished?
    && e.outcome == Some(OutcomeOf(e.attempts[n - 1].result.value))
    && e.reason == Classify(e.attempts[n - 1].result.value, NO_EVIDENCE, {0}).reason
    && e.explanation == Told(e.attempts[n - 1].result.value, p, n)
  }

  datatype Exit = Returned(execution: Execution) | Raised(failure: Failure)

  class RuntimeService {
    const world: World

    constructor (world: World)
      ensures this.world == world
    {
      this.world := world;
    }

    /** Bring an execution to its terminal state and save it. */
    method Finish(e: Execution, outcome: Outcome, reason: Option<Reason>, explanation: string) returns (r: Result<Execution, Failure>)
      requires world.Valid() && !world.stored.state.Finished? && !e.state.Finished?
      modifies world`stored, world`calls, world`trace
      ensures world.Valid() && old(world.calls) <= world.calls && old(world.trace) <= world.trace
      ensures r.Ok? ==>
                && r.value.state.Finished? && r.value.outcome == Some(outcome) && r.value.reason == reason
                && r.value.explanation == explanation && world.calls == old(world.calls) + 2
                && r.value.finishedAt == Some(world.times(old(world.calls)))
                && r.value.attempts == e.attempts && r.value.id == e.id && Consistent(r.value) && r.value.startedAt == e.startedAt
                && world.stored == Merge(old(world.stored), r.value)
                && world.stored.state.Finished? && world.stored.outcome == Some(outcome) && world.stored.reason == reason
                && Consistent(world.stored) && world.stored.startedAt == e.startedAt && world.stored.explanation == explanation
                && (e.attempts == [] ==> world.stored.attempts == old(world.stored.attempts))
      ensures r.Err? ==> world.stored == old(world.stored)
      ensures r.Err? && world.AllFine(old(world.calls), world.calls) ==>
                !Acceptable(outcome, reason, explanation) && r.error.Known? && |r.error.message| <= MAX_EXPLANATION_LENGTH
    {
      NothingToMerge(world.stored.attempts);
      hide MergeAttempts, Matches, Chain;
      var at := world.Now();
      if at.Err? {
        return Err(at.error);
      }
      var finished := Executions.Finish(e, outcome, at.value, reason, explanation);
      if finished.Err? {
        return Err(Known(Message(finished.error)));
      }
      r := world.Save(finished.value);
    }

    /** One attempt: saved as begun, run, saved as ended. */
    method RunAttempt(e: Execution) returns (r: Result<Execution, Failure>)
      requires world.Valid() && world.stored == e && Continuing(e, world.nextId)
      modifies world`stored, world`calls, world`trace, world`nextId
      ensures world.Valid() && old(world.calls) <= world.calls && old(world.trace) <= world.trace
      ensures r.Ok? ==> world.stored == r.value && Attempted(e, r.value) && Continuing(r.value, world.nextId)
      ensures r.Ok? ==> world.calls == old(world.calls) + CALLS_PER_ATTEMPT && r.value.startedAt.Some?
      ensures r.Ok? ==> r.value.attempts[|e.attempts|].result == Some(world.reports(old(world.calls) + 2))
      ensures r.Ok? ==>
                && r.value.attempts[|e.attempts|].startedAt == world.times(old(world.calls))
                && r.value.attempts[|e.attempts|].finishedAt == Some(world.times(old(world.calls) + 3))
                && r.value.startedAt == if e.startedAt.Some? then e.startedAt else Some(world.times(old(world.calls)))
      ensures r.Err? ==> Unfinished(world.stored)
      ensures r.Err? ==> !world.AllFine(old(world.calls), world.calls)
    {
      hide MergeAttempts, Merge, Matches, ValidResult, Chain;
      var startedAt := world.Now();
      if startedAt.Err? {
        return Err(startedAt.error);
      }
      var id := world.NewId();
      var attempt := Attempt(id, |e.attempts| + 1, startedAt.value, None, None, "", "");
      var begun := BeginAttempt(e, attempt, startedAt.value);
      SavedContinues(e, begun.value);
      r := world.Save(begun.value);
      if r.Err? {
        return;
      }
      var report := world.RunProcess();
      if report.Err? {
        return Err(report.error);
      }
      var at := world.Now();
      if at.Err? {
        return Err(at.error);
      }
      var ended := FinishAttempt(attempt, report.value, at.value, "", "");
      var recorded := RecordAttempt(begun.value, ended.value);
      assert recorded.value.attempts == e.attempts + [ended.value];
      SavedContinues(begun.value, recorded.value);
      r := world.Save(recorded.value);
    }

    /** Run the action, retrying while the policy and the outcome both allow it. */
    method RunAttempts(e: Execution, policy: RetryPolicy, needsSecrets: bool) returns (r: Result<Execution, Failure>)
      requires ValidPolicy(policy)
      requires world.Valid() && world.stored == e
      requires e.state.Evaluating? && e.attempts == [] && Consistent(e) && e.startedAt.None?
      modifies world`stored, world`calls, world`trace, world`nextId
      ensures world.Valid() && old(world.calls) <= world.calls && old(world.trace) <= world.trace
      ensures r.Ok? ==> world.stored == r.value && Story(r.value, policy) && r.value.startedAt.Some?
      ensures r.Ok? ==> Complete(r.value.attempts, world.reports, old(world.calls) + 3, policy) && !needsSecrets
      ensures r.Ok? ==> |FinalWords(world.reports, old(world.calls) + 3, policy)| <= MAX_EXPLANATION_LENGTH
      ensures r.Ok? ==>
                && Dated(r.value.attempts, world.times, old(world.calls) + 3)
                && r.value.startedAt == Some(world.times(old(world.calls) + 1))
                && r.value.finishedAt == Some(world.times(old(world.calls) + 1 + CALLS_PER_ATTEMPT * |r.value.attempts|))
      ensures r.Err? ==> Unfinished(world.stored)
      ensures r.Err? && world.AllFine(old(world.calls), world.calls) ==>
                && r.error.Known? && |r.error.message| <= MAX_EXPLANATION_LENGTH
                && (needsSecrets ==> world.stored == e)
                && (!needsSecrets ==> Complete(world.stored.attempts, world.reports, old(world.calls) + 3, policy)
                                      && |FinalWords(world.reports, old(world.calls) + 3, policy)| > MAX_EXPLANATION_LENGTH)
    {
      hide MergeAttempts, Merge, Matches, Classify, DecideRetry, Told, Retryable, ValidResult, Retried, Story, Chain, EligibilityOf,
           Reported, Dated, NoSecrets, AttemptsMade, FinalWords, Complete;
      ghost var first := world.calls + 3;
      NoneRetried(policy);
      NoneDated(world.times, first);
      NoneReported(world.reports, first);
      var found := world.FindExecutor();
      if found.Err? {
        return Err(found.error);
      }
      if needsSecrets {
        return Err(Known(NoSecrets()));
      }
      var execution := e;
      while true
        invariant world.Valid() && old(world.trace) <= world.trace
        invariant world.calls == first - 2 + CALLS_PER_ATTEMPT * |execution.attempts|
        invariant world.stored == execution && Continuing(execution, world.nextId)
        invariant |execution.attempts| < policy.maxAttempts
        invariant Retried(execution.attempts, policy)
        invariant Reported(execution.attempts, world.reports, first) && Dated(execution.attempts, world.times, first)
        invariant execution.attempts != [] ==> execution.startedAt == Some(world.times(first - 2))
        invariant execution.attempts == [] ==> execution.startedAt.None?
        decreases policy.maxAttempts - |execution.attempts|
      {
        ghost var before := execution;
        r := RunAttempt(execution);
        if r.Err? {
          return;
        }
        execution := r.value;
        OneMoreReport(before, execution, world.reports, first);
        OneMoreDate(before, execution, world.times, first);
        var result := execution.attempts[|execution.attempts| - 1].result.value;
        var classification := Classify(result, NO_EVIDENCE, {0});
        var retry := DecideRetry(classification.outcome, policy, |execution.attempts|);
        RetriesWhen(classification.outcome, policy, |execution.attempts|);
        if retry.shouldRetry {
          OneMoreAttempt(before, execution, policy);
        } else {
          AllAttempts(before, execution, world.reports, first, policy);
          r := Conclude(before, execution, policy);
          return;
        }
      }
    }

    /** The last attempt's classification becomes the outcome. */
    method Conclude(ghost before: Execution, execution: Execution, policy: RetryPolicy) returns (r: Result<Execution, Failure>)
      requires ValidPolicy(policy) && world.Valid() && world.stored == execution
      requires Retried(before.attempts, policy) && Attempted(before, execution) && |before.attempts| < policy.maxAttempts
      requires Continuing(execution, world.nextId) && execution.startedAt.Some?
      requires Retryable(OutcomeOf(execution.attempts[|before.attempts|].result.value), policy) ==> policy.maxAttempts <= |execution.attempts|
      modifies world`stored, world`calls, world`trace
      ensures world.Valid() && old(world.calls) <= world.calls && old(world.trace) <= world.trace
      ensures r.Ok? ==>
                && world.stored == r.value && Story(r.value, policy) && r.value.attempts == execution.attempts
                && r.value.startedAt == execution.startedAt && r.value.finishedAt == Some(world.times(old(world.calls)))
                && |Told(execution.attempts[|before.attempts|].result.value, policy, |execution.attempts|)| <= MAX_EXPLANATION_LENGTH
      ensures r.Err? ==> world.stored == execution
      ensures r.Err? && world.AllFine(old(world.calls), world.calls) ==>
                && |Told(execution.attempts[|before.attempts|].result.value, policy, |execution.attempts|)| > MAX_EXPLANATION_LENGTH
                && r.error.Known? && |r.error.message| <= MAX_EXPLANATION_LENGTH
    {
      hide MergeAttempts, Merge, Matches, Classify, DecideRetry, Words, RetryWords, Markers.Strip, Retryable, ValidResult, Retried,
           Story, Chain, EligibilityOf;
      var result := execution.attempts[|execution.attempts| - 1].result.value;
      var classification := Classify(result, NO_EVIDENCE, {0});
      var retry := DecideRetry(classification.outcome, policy, |execution.attempts|);
      var explanation := Markers.Strip(Words(classification.explanation) + " " + RetryWords(retry.reason));
      r := Finish(execution, classification.outcome, classification.reason, explanation);
      ReasonsFit(result, NO_EVIDENCE, {0});
      if r.Ok? {
        SavedContinues(execution, r.value);
        StoryEnds(before, execution, r.value, policy);
      }
    }

    /** Finish an execution that escaped every other path; no ordinary failure of its own is raised. */
    method ForceTerminal() returns (unwound: Option<Failure>)
      requires world.Valid() && Consistent(world.stored)
      modifies world`stored, world`calls, world`trace, world`loads, world`loadedAt
      ensures world.Valid() && old(world.calls) <= world.calls && old(world.trace) <= world.trace
      ensures world.loads == old(world.loads) + 1 && world.loadedAt == old(world.calls) < world.calls <= world.loadedAt + 3
      ensures world.AllFine(old(world.calls), world.calls) ==>
                unwound.None? && world.stored.state.Finished? && world.stored.outcome.Some?
      ensures old(world.stored.state.Finished?) || !world.stored.state.Finished? ==> world.stored == old(world.stored)
      ensures world.stored.state.Finished? && !old(world.stored.state.Finished?) ==>
                && world.stored.outcome == Some(Unknown) && world.stored.explanation == Forced()
                && world.stored.startedAt == old(world.stored.startedAt)
                && (old(world.stored.attempts) == [] ==> world.stored.attempts == [])
      ensures unwound == if world.verdicts(world.calls - 1) == Fails(Interrupted) then Some(Interrupted) else None
    {
      NothingToMerge([]);
      hide Matches, Forced, Chain, MergeAttempts;
      var current := world.Load();
      if current.Err? {
        return Masked(current.error);
      }
      if current.value.state.Finished? {
        return None;
      }
      var at := world.Now();
      if at.Err? {
        return Masked(at.error);
      }
      var finished := Executions.Finish(current.value, Unknown, at.value, None, Forced());
      var saved := world.Save(finished.value);
      if saved.Err? {
        return Masked(saved.error);
      }
      unwound := None;
    }

    /** Evaluate, lock and run: what the cleanup surrounds.  `current` is the execution as its caller knows it. */
    method EvaluateAndRun(e: Execution, policy: RetryPolicy, needsSecrets: bool)
      returns (r: Result<Execution, Failure>, current: Execution, held: bool)
      requires ValidPolicy(policy)
      requires world.Valid() && world.stored == e
      requires e.state.Pending? && e.attempts == [] && Consistent(e) && e.startedAt.None?
      modifies world`stored, world`calls, world`trace, world`nextId, world`acquired
      ensures world.Valid() && old(world.calls) <= world.calls && old(world.trace) <= world.trace
      ensures world.acquired == old(world.acquired) + if held then 1 else 0
      ensures r.Ok? ==>
                && world.stored.state.Finished? && world.stored.outcome.Some? && r.value.outcome == world.stored.outcome
                && (if held then Story(world.stored, policy) && world.stored.startedAt.Some? else Refused(world.stored))
      ensures r.Err? ==> Unfinished(world.stored)
      ensures Consistent(current) && !current.state.Finished? && current.attempts == [] && current.startedAt.None?
      ensures world.AllFine(old(world.calls), world.calls) ==>
                && held == world.grants(old(world.calls) + 1)
                && (!held ==> r.Ok?)
                && (r.Err? ==> r.error.Known? && |r.error.message| <= MAX_EXPLANATION_LENGTH)
                && (held && needsSecrets ==> r.Err? && world.stored.attempts == [])
                && (held && !needsSecrets ==>
                      && Complete(world.stored.attempts, world.reports, old(world.calls) + 5, policy)
                      && (r.Ok? <==> |FinalWords(world.reports, old(world.calls) + 5, policy)| <= MAX_EXPLANATION_LENGTH)
                      && (r.Ok? ==> Dated(world.stored.attempts, world.times, old(world.calls) + 5)
                                    && world.stored.startedAt == Some(world.times(old(world.calls) + 3))))
    {
      NothingToMerge([]);
      hide MergeAttempts, Matches, Story, Chain, AlreadyRunning, OverlapLockHeld, Complete, FinalWords, Dated;
      current, held := e, false;
      var evaluating := TransitionTo(e, Evaluating);
      SavedContinues(e, evaluating.value);
      r := world.Save(evaluating.value);
      if r.Err? {
        return;
      }
      current := r.value;
      var lock := world.TryAcquire();
      if lock.Err? {
        return Err(lock.error), current, held;
      }
      held := lock.value;
      if !held {
        r := Finish(current, Blocked, Some(OverlapLockHeld()), AlreadyRunning());
        return;
      }
      r := RunAttempts(current, policy, needsSecrets);
      if r.Ok? {
        StoryIsFinished(r.value, policy);
      }
    }

    /**
     What went wrong becomes the outcome: a known failure is returned, anything else raised
     again.  Stored attempts stay, but the start time becomes that of `current`, which knows of
     no attempt.
     */
    method RecordFailure(current: Execution, failure: Failure) returns (exit: Exit, finished: bool)
      requires world.Valid() && Unfinished(world.stored)
      requires Consistent(current) && !current.state.Finished? && current.attempts == [] && current.startedAt.None?
      modifies world`stored, world`calls, world`trace
      ensures world.Valid() && old(world.calls) <= world.calls && old(world.trace) <= world.trace
      ensures if finished then world.stored.state.Finished? && Records(world.stored, failure) && world.stored.startedAt.None?
              else world.stored == old(world.stored)
      ensures exit.Returned? ==> finished && failure.Known? && exit.execution.outcome == world.stored.outcome
      ensures world.stored.attempts == old(world.stored.attempts)
      ensures world.AllFine(old(world.calls), world.calls) && failure.Known? && |failure.message| <= MAX_EXPLANATION_LENGTH ==> exit.Returned?
      ensures world.AllFine(old(world.calls), world.calls) && !failure.Known? ==> finished && exit == Raised(failure)
    {
      hide Merge, Matches, Chain, Unproven, ExecutorUnavailable, Consistent;
      match failure {
        case Known(message) =>
          var failed := Finish(current, InfrastructureFailed, Some(ExecutorUnavailable()), message);
          finished := failed.Ok?;
          exit := if failed.Ok? then Returned(failed.value) else Raised(failed.error);
        case _ =>
          var unproven := Finish(current, Unknown, None, Unproven());
          finished := unproven.Ok?;
          exit := Raised(if unproven.Ok? then failure else unproven.error);
      }
    }

    /** What every path ends in: the lock goes, and what nothing has finished is finished. */
    method CleanUp(held: bool, finished: bool) returns (unwound: Option<Failure>)
      requires world.Valid() && (finished <==> world.stored.state.Finished?) && (!finished ==> Consistent(world.stored))
      modifies world`stored, world`calls, world`trace, world`released, world`releasedAt, world`loads, world`loadedAt
      ensures world.Valid() && old(world.calls) <= world.calls && old(world.trace) <= world.trace
      ensures world.released == old(world.released) + if held then 1 else 0
      ensures held ==> world.releasedAt == old(world.calls) < world.calls <= world.releasedAt + 4
      ensures world.loads > old(world.loads) ==>
                && !finished && world.loads == old(world.loads) + 1
                && world.loadedAt == old(world.calls) + (if held then 1 else 0) < world.calls <= world.loadedAt + 3
      ensures finished || !world.stored.state.Finished? ==> world.stored == old(world.stored)
      ensures !world.stored.state.Finished? ==>
                || (held && !world.verdicts(world.releasedAt).Fine?)
                || (world.loads > old(world.loads) && !world.AllFine(world.loadedAt, world.calls))
      ensures !finished && world.stored.state.Finished? ==>
                && world.stored.outcome == Some(Unknown) && world.stored.explanation == Forced()
                && world.stored.startedAt == old(world.stored.startedAt)
                && (old(world.stored.attempts) == [] ==> world.stored.attempts == [])
      ensures world.AllFine(old(world.calls), world.calls) ==> unwound.None?
    {
      hide Forced, Chain, Consistent, IsLegal;
      unwound := None;
      if held {
        var released := world.Release();
        if released.Err? {
          return Some(released.error);
        }
      }
      if !finished {
        unwound := ForceTerminal();
      }
    }

    /**
     Take an execution from pending to terminal, whatever happens.  It is left unfinished only
     when the release failed, or the cleanup loaded it and one of its own calls failed.
     */
    method Execute(e: Execution, policy: RetryPolicy, needsSecrets: bool) returns (exit: Exit)
      requires ValidPolicy(policy)
      requires world.Valid() && world.stored == e
      requires e.state.Pending? && e.attempts == [] && Consistent(e) && e.startedAt.None?
      modifies world
      ensures world.Valid() && old(world.calls) <= world.calls && old(world.trace) <= world.trace
      ensures world.stored.state.Finished? ==> world.stored.outcome.Some?
      ensures !world.stored.state.Finished? ==>
                || (world.released > old(world.released) && !world.verdicts(world.releasedAt).Fine?)
                || (world.loads > old(world.loads) && !world.AllFine(world.loadedAt, world.calls))
      ensures world.released > old(world.released) ==> old(world.calls) <= world.releasedAt < world.calls <= world.releasedAt + 4
      ensures world.loads > old(world.loads) ==>
                && world.loads == old(world.loads) + 1
                && old(world.calls) <= world.loadedAt < world.calls <= world.loadedAt + 3
                && (world.released > old(world.released) ==> world.releasedAt < world.loadedAt)
      ensures world.acquired - old(world.acquired) <= 1
      ensures world.released - old(world.released) == world.acquired - old(world.acquired)
      ensures exit.Returned? ==> world.stored.state.Finished? && exit.execution.outcome == world.stored.outcome
      ensures world.stored.state.Finished? && world.stored.attempts != [] ==>
                (world.stored.startedAt.None? <==> EndedByFailure(world.stored))
      ensures world.AllFine(old(world.calls), world.calls) ==>
                && exit.Returned? && world.acquired == old(world.acquired) + (if world.grants(old(world.calls) + 1) then 1 else 0)
                && (!world.grants(old(world.calls) + 1) ==> Refused(world.stored))
      ensures world.AllFine(old(world.calls), world.calls) && world.grants(old(world.calls) + 1) && needsSecrets ==>
                world.stored.outcome == Some(InfrastructureFailed) && world.stored.attempts == []
      ensures world.AllFine(old(world.calls), world.calls) && world.grants(old(world.calls) + 1) && !needsSecrets ==>
                var fits := |FinalWords(world.reports, old(world.calls) + 5, policy)| <= MAX_EXPLANATION_LENGTH;
                && Complete(world.stored.attempts, world.reports, old(world.calls) + 5, policy)
                && (Story(world.stored, policy) <==> fits)
                && (world.stored.outcome == Some(InfrastructureFailed) <==> !fits)
                && (fits ==> Dated(world.stored.attempts, world.times, old(world.calls) + 5)
                             && world.stored.startedAt == Some(world.times(old(world.calls) + 3)))
    {
      hide MergeAttempts, Matches, Chain, Story, Complete, FinalWords, Dated, EndedByFailure, Records, Forced, OverlapLockHeld, Consistent, IsLegal;
      var ran, current, held := EvaluateAndRun(e, policy, needsSecrets);
      var finished := ran.Ok?;
      if ran.Ok? {
        if held {
          NotByFailure(world.stored, policy);
        }
        exit := Returned(ran.value);
      } else {
        exit, finished := RecordFailure(current, ran.error);
        if finished {
          ByFailure(world.stored, ran.error, policy);
        }
      }
      var unwound := CleanUp(held, finished);
      if !finished && world.stored.state.Finished? {
        ForcedIsNoFailure(world.stored);
      }
      if unwound.Some? {
        exit := Raised(unwound.value);
      }
    }
  }

  /** Not over yet, and started if anything was attempted. */
  predicate Unfinished(e: Execution) {
    !e.state.Finished? && Consistent(e) && (e.attempts != [] ==> e.startedAt.Some?)
  }

  /** Finished as having failed outside its attempts. */
  predicate EndedByFailure(e: Execution) {
    e.outcome == Some(InfrastructureFailed) || (e.outcome == Some(Unknown) && e.explanation == Unproven())
  }

  /** How a failure is recorded. */
  predicate Records(e: Execution, failure: Failure) {
    match failure
    case Known(message) => e.outcome == Some(InfrastructureFailed) && e.reason == Some(ExecutorUnavailable()) && e.explanation == message
    case _ => e.outcome == Some(Unknown) && e.reason == None && e.explanation == Unproven()
  }

  /** What is said of a process lost track of is not what is said of a runtime interrupted. */
  lemma LostIsNotInterrupted(result: ProcessResult, p: RetryPolicy, made: nat)
    requires ValidResult(result) && OutcomeOf(result).Unknown?
    ensures Told(result, p, made) != Unproven()
  {
    hide RetryWords, DecideRetry;
    SucceedsWhen(result, NO_EVIDENCE, {0});
    var words, why := Words(LostTrack), RetryWords(DecideRetry(OutcomeOf(result), p, made).reason);
    assert words[0] == 'T' && words[|words| - 1] == '.' && |Unproven()| < |words|;
    Markers.StripKeeps(words + " " + why, |words| - 1);
  }

  /** No execution that tells its own story looks as if it had failed outside its attempts. */
  lemma NotByFailure(e: Execution, p: RetryPolicy)
    requires Story(e, p)
    ensures e.outcome != Some(InfrastructureFailed) && !EndedByFailure(e)
  {
    hide Told, Classify, Unproven, Retried, Retryable, ValidResult, OverlapLockHeld, ExecutorUnavailable;
    var result := e.attempts[|e.attempts| - 1].result.value;
    ReasonsFit(result, NO_EVIDENCE, {0});
    if OutcomeOf(result).Unknown? {
      LostIsNotInterrupted(result, p, |e.attempts|);
    }
  }

  lemma ByFailure(e: Execution, failure: Failure, p: RetryPolicy)
    requires Records(e, failure)
    ensures e.outcome.Some? && EndedByFailure(e) && !Story(e, p) && (failure.Known? ==> e.outcome == Some(InfrastructureFailed))
  {
    hide Story, Unproven, ExecutorUnavailable;
    if Story(e, p) {
      NotByFailure(e, p);
      assert false;
    }
  }

  lemma ForcedIsNoFailure(e: Execution)
    requires e.outcome == Some(Unknown) && e.explanation == Forced()
    ensures !EndedByFailure(e)
  {
    assert |Forced()| < |Unproven()|;
  }

  /** An end an unfinished execution accepts. */
  predicate Acceptable(outcome: Outcome, reason: Option<Reason>, explanation: string) {
    && |explanation| <= MAX_EXPLANATION_LENGTH
    && (RequiresReason(outcome) ==> reason.Some? && Matches(reason.value, outcome))
  }

  // -- a run no call of which fails and which is not told -----------------------------------------

  function LongError(): (s: string)
    ensures |s| == MAX_EXPLANATION_LENGTH + 1 && forall c | c in s :: c == 'x'
  {
    seq(MAX_EXPLANATION_LENGTH + 1, _ => 'x')
  }

  function NeverStarted(): (r: ProcessResult)
    ensures ValidResult(r) && r.termination.NotStarted?
  {
    ProcessResult(NotStarted, 0, None, None, NotTerminated, Some(LongError()))
  }

  const ONE_ATTEMPT := RetryPolicy(1, Fixed, 0, 0, false, false)

  lemma TooLongToTell(first: nat)
    ensures |FinalWords(_ => NeverStarted(), first, ONE_ATTEMPT)| > MAX_EXPLANATION_LENGTH
    ensures AttemptsMade(_ => NeverStarted(), first, ONE_ATTEMPT, 0) == 1
  {
    hide RetryWords, DecideRetry, LongError, Markers.Strip;
    var why := RetryWords(DecideRetry(LaunchFailed, ONE_ATTEMPT, 1).reason);
    var told := LongError() + (" " + why);
    assert told == LongError() + " " + why;
    assert told[0] == LongError()[0] == 'x' && told[MAX_EXPLANATION_LENGTH] == LongError()[MAX_EXPLANATION_LENGTH] == 'x';
    Markers.StripKeeps(told, MAX_EXPLANATION_LENGTH);
  }

  /**
   The lock is granted and no call fails, yet what is stored is that the infrastructure failed:
   the launch error of the one attempt is too long to be kept.  The attempt is stored, and the
   execution has no start time.
   */
  method LaunchErrorIsNotTold() returns (world: World, exit: Exit)
    ensures world.acquired == world.released == 1 && forall n :: world.verdicts(n).Fine?
    ensures world.stored.outcome == Some(InfrastructureFailed) && exit.Returned?
    ensures |world.stored.attempts| == 1 && world.stored.attempts[0].result == Some(NeverStarted())
    ensures world.stored.startedAt.None?
  {
    hide LongError, FinalWords, AttemptsMade, Story, Refused;
    world := new World(Requested("1"), _ => Fine, _ => 0, _ => true, _ => NeverStarted());
    var runtime := new RuntimeService(world);
    exit := runtime.Execute(world.stored, ONE_ATTEMPT, false);
    TooLongToTell(5);
  }

  lemma NothingToMerge(stored: seq<Attempt>)
    ensures MergeAttempts(stored, []) == stored
  {
  }

  lemma StoryIsFinished(e: Execution, p: RetryPolicy)
    requires Story(e, p)
    ensures e.state.Finished? && e.outcome.Some?
  {
  }

  function Forced(): (s: string)
    ensures |s| <= MAX_EXPLANATION_LENGTH
  {
    "The runtime exited without recording an outcome. " + "This execution requires reconciliation."
  }

  function NoSecrets(): (s: string)
    ensures |s| <= MAX_EXPLANATION_LENGTH
  {
    "This revision references secrets, and secret resolution is not available in this build."
  }

  function Unproven(): (s: string)
    ensures |s| <= MAX_EXPLANATION_LENGTH
  {
    "The runtime was interrupted and cannot prove what happened. " + "This execution requires reconciliation."
  }

  function AlreadyRunning(): (s: string)
    ensures |s| <= MAX_EXPLANATION_LENGTH
  {
    "Another execution of this task is already running in this lock's scope."
  }

  /** What cleanup lets through: it swallows every ordinary error. */
  function Masked(f: Failure): Option<Failure> {
    if f.Interrupted? then Some(f) else None
  }

  /** Refused because somebody else runs: nothing was tried. */
  predicate Refused(e: Execution) {
    e.outcome == Some(Blocked) && e.reason == Some(OverlapLockHeld()) && e.attempts == []
  }

  lemma NoneReported(reports: nat -> ProcessResult, first: nat)
    ensures Reported([], reports, first)
  {
  }

  lemma NoneDated(times: nat -> int, first: nat)
    requires first >= 2
    ensures Dated([], times, first)
  {
  }

  lemma OneMoreDate(e: Execution, later: Execution, times: nat -> int, first: nat)
    requires first >= 2 && Dated(e.attempts, times, first) && Attempted(e, later)
    requires var a := later.attempts[|e.attempts|];
             && a.startedAt == times(first - 2 + CALLS_PER_ATTEMPT * |e.attempts|)
             && a.finishedAt == Some(times(first + 1 + CALLS_PER_ATTEMPT * |e.attempts|))
    ensures Dated(later.attempts, times, first)
  {
    hide ValidResult;
    forall i | 0 <= i < |later.attempts|
      ensures later.attempts[i].startedAt == times(first - 2 + CALLS_PER_ATTEMPT * i)
              && later.attempts[i].finishedAt == Some(times(first + 1 + CALLS_PER_ATTEMPT * i))
    {
      if i < |e.attempts| {
        assert later.attempts[..|e.attempts|][i] == e.attempts[i];
      }
    }
  }

  lemma OneMoreReport(e: Execution, later: Execution, reports: nat -> ProcessResult, first: nat)
    requires Reported(e.attempts, reports, first) && Attempted(e, later)
    requires later.attempts[|e.attempts|].result == Some(reports(first + CALLS_PER_ATTEMPT * |e.attempts|))
    ensures Reported(later.attempts, reports, first)
  {
    hide ValidResult;
    forall i | 0 <= i < |later.attempts| ensures later.attempts[i].result == Some(reports(first + CALLS_PER_ATTEMPT * i)) {
      if i < |e.attempts| {
        assert later.attempts[..|e.attempts|][i] == e.attempts[i];
      }
    }
  }

  /** Every attempt but the last may be tried again, and the last may not: that is how many there are. */
  lemma {:induction false} MadeFrom(attempts: seq<Attempt>, reports: nat -> ProcessResult, first: nat, p: RetryPolicy, from: nat)
    requires (forall i :: ValidResult(reports(i))) && Reported(attempts, reports, first)
    requires from < |attempts| <= p.maxAttempts && Retried(attempts[..|attempts| - 1], p)
    requires Retryable(OutcomeOf(attempts[|attempts| - 1].result.value), p) ==> p.maxAttempts <= |attempts|
    ensures AttemptsMade(reports, first, p, from) == |attempts|
    decreases |attempts| - from
  {
    hide Retryable, OutcomeOf, ValidResult;
    assert attempts[from].result == Some(reports(first + CALLS_PER_ATTEMPT * from));
    if from + 1 < |attempts| {
      assert attempts[..|attempts| - 1][from] == attempts[from];
      MadeFrom(attempts, reports, first, p, from + 1);
    }
  }

  lemma AllAttempts(e: Execution, later: Execution, reports: nat -> ProcessResult, first: nat, p: RetryPolicy)
    requires (forall i :: ValidResult(reports(i))) && Reported(later.attempts, reports, first)
    requires Retried(e.attempts, p) && Attempted(e, later) && |e.attempts| < p.maxAttempts
    requires Retryable(OutcomeOf(later.attempts[|e.attempts|].result.value), p) ==> p.maxAttempts <= |later.attempts|
    ensures Complete(later.attempts, reports, first, p)
    ensures FinalWords(reports, first, p) == Told(later.attempts[|e.attempts|].result.value, p, |later.attempts|)
  {
    hide Retryable, OutcomeOf, ValidResult, Retried, Told, AttemptsMade;
    assert later.attempts[..|later.attempts| - 1] == e.attempts;
    MadeFrom(later.attempts, reports, first, p, 0);
    assert later.attempts[|e.attempts|].result == Some(reports(first + CALLS_PER_ATTEMPT * |e.attempts|));
  }

  lemma NoneRetried(p: RetryPolicy)
    ensures Retried([], p)
  {
  }

  lemma OneMoreAttempt(e: Execution, later: Execution, p: RetryPolicy)
    requires Retried(e.attempts, p) && Attempted(e, later)
    requires Retryable(OutcomeOf(later.attempts[|e.attempts|].result.value), p)
    ensures Retried(later.attempts, p)
  {
    hide ValidResult, Retryable, OutcomeOf;
    forall i | 0 <= i < |later.attempts|
      ensures later.attempts[i].number == i + 1 && later.attempts[i].result.Some? && ValidResult(later.attempts[i].result.value)
              && Retryable(OutcomeOf(later.attempts[i].result.value), p)
    {
      if i < |e.attempts| {
        assert later.attempts[..|e.attempts|][i] == e.attempts[i];
      }
    }
  }

  lemma StoryEnds(e: Execution, later: Execution, ended: Execution, p: RetryPolicy)
    requires Retried(e.attempts, p) && Attempted(e, later) && |e.attempts| < p.maxAttempts
    requires ended.attempts == later.attempts && ended.state.Finished?
    requires var c := Classify(later.attempts[|e.attempts|].result.value, NO_EVIDENCE, {0});
             && ended.outcome == Some(c.outcome) && ended.reason == c.reason
             && ended.explanation == Told(later.attempts[|e.attempts|].result.value, p, |later.attempts|)
             && (!Retryable(c.outcome, p) || p.maxAttempts <= |later.attempts|)
    ensures Story(ended, p)
  {
    hide ValidResult, Retryable, Classify, Told;
    assert ended.attempts[..|ended.attempts| - 1] == e.attempts;
  }

  /** An unfinished execution in the middle of its attempts, with identifiers left to give. */
  predicate Continuing(e: Execution, nextId: nat) {
    && Consistent(e) && (e.attempts != [] ==> e.startedAt.Some?) && e.state == (if |e.attempts| == 0 then Evaluating else Running)
    && DistinctAttempts(e.attempts)
    && forall i | 0 <= i < |e.attempts| :: e.attempts[i].id < nextId
  }

  /** One more attempt, numbered next and over. */
  predicate Attempted(e: Execution, later: Execution) {
    var n := |e.attempts|;
    && |later.attempts| == n + 1 && later.attempts[..n] == e.attempts
    && later.attempts[n].number == n + 1
    && later.attempts[n].result.Some? && ValidResult(later.attempts[n].result.value)
  }
}
