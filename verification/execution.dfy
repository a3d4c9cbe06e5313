/**
 The execution record and everything that may be done to it.

 HistoryHolds: over every sequence of operations, an outcome is there exactly when the
 execution is finished, its reason fits, attempts are never lost, and once finished it keeps
 its state, outcome, reason, explanation and finish time.  HistoryTells: all of these are what
 an operation gave it.  AcceptedWhen: what each operation takes, and what it comes to.
 LegalUnlessBegun: the only operation that can leave the transition table is beginning an
 attempt.
 */
module Executions {
  import opened Results
  import opened Vocabulary
  import opened ProcessResults
  import opened Classifications

  const MAX_EXPLANATION_LENGTH := 4000

  datatype DomainError = Invalid | RuleViolation

  datatype Attempt = Attempt(
    id: nat, number: int, startedAt: int, finishedAt: Option<int>, result: Option<ProcessResult>, stdout: string, stderr: string)

  predicate ValidAttempt(a: Attempt) {
    a.number >= 1 && (a.finishedAt.None? <==> a.result.None?)
  }

  function FinishAttempt(a: Attempt, result: ProcessResult, at: int, stdout: string, stderr: string): Result<Attempt, DomainError> {
    if a.result.Some? then Err(RuleViolation)
    else
      var finished := a.(result := Some(result), finishedAt := Some(at), stdout := stdout, stderr := stderr);
      if ValidAttempt(finished) then Ok(finished) else Err(Invalid)
  }

  datatype Execution = Execution(
    id: string, state: ExecutionState, outcome: Option<Outcome>, reason: Option<Reason>, explanation: string,
    attempts: seq<Attempt>, startedAt: Option<int>, finishedAt: Option<int>)

  /** What every execution is checked for as it is built. */
  predicate Consistent(e: Execution) {
    && (e.state.Finished? <==> e.outcome.Some?)
    && (e.outcome.Some? && RequiresReason(e.outcome.value) ==> e.reason.Some? && Matches(e.reason.value, e.outcome.value))
    && |e.explanation| <= MAX_EXPLANATION_LENGTH
  }

  function Checked(e: Execution): Result<Execution, DomainError> {
    if Consistent(e) then Ok(e) else Err(Invalid)
  }

  function Requested(id: string): (e: Execution)
    ensures Consistent(e)
  {
    Execution(id, Pending, None, None, "", [], None, None)
  }

  function TransitionTo(e: Execution, state: ExecutionState): Result<Execution, DomainError> {
    if !IsLegal(e.state, state) || state.Finished? then Err(RuleViolation) else Checked(e.(state := state))
  }

  function BeginAttempt(e: Execution, a: Attempt, startedAt: int): Result<Execution, DomainError> {
    if e.state.Finished? || a.number != |e.attempts| + 1 then Err(RuleViolation)
    else
      Checked(e.(state := Running, attempts := e.attempts + [a],
                 startedAt := if e.startedAt.Some? then e.startedAt else Some(startedAt)))
  }

  function RecordAttempt(e: Execution, a: Attempt): Result<Execution, DomainError> {
    var n := |e.attempts|;
    if n == 0 || e.attempts[n - 1].id != a.id then Err(RuleViolation)
    else Checked(e.(attempts := e.attempts[..n - 1] + [a]))
  }

  function RequestCancellation(e: Execution): Result<Execution, DomainError> {
    if IsLegal(e.state, Cancelling) then Checked(e.(state := Cancelling)) else Err(RuleViolation)
  }

  function Finish(e: Execution, outcome: Outcome, at: int, reason: Option<Reason>, explanation: string): Result<Execution, DomainError> {
    if e.state.Finished? || !IsLegal(e.state, ExecutionState.Finished) then Err(RuleViolation)
    else
      Checked(e.(state := ExecutionState.Finished, outcome := Some(outcome), reason := reason, explanation := explanation,
                 finishedAt := Some(at)))
  }

  // -- histories -------------------------------------------------------------------------------

  datatype Operation =
    | Transition(state: ExecutionState)
    | Begin(attempt: Attempt, at: int)
    | Record(attempt: Attempt)
    | Cancel
    | End(outcome: Outcome, at: int, reason: Option<Reason>, explanation: string)

  function Do(e: Execution, op: Operation): Result<Execution, DomainError> {
    match op
    case Transition(state) => TransitionTo(e, state)
    case Begin(attempt, at) => BeginAttempt(e, attempt, at)
    case Record(attempt) => RecordAttempt(e, attempt)
    case Cancel => RequestCancellation(e)
    case End(outcome, at, reason, explanation) => Finish(e, outcome, at, reason, explanation)
  }

  /** An operation that raises leaves the record as it was. */
  function After(e: Execution, ops: seq<Operation>): Execution
    decreases |ops|
  {
    if ops == [] then e
    else After(match Do(e, ops[0]) case Ok(next) => next case Err(_) => e, ops[1..])
  }

  /** What holds of the record all along: consistent, and a finish time with the outcome and not before. */
  predicate Sound(e: Execution) {
    Consistent(e) && (e.finishedAt.Some? <==> e.state.Finished?)
  }

  /** What a later record keeps of an earlier one. */
  predicate Keeps(e: Execution, later: Execution) {
    && |e.attempts| <= |later.attempts|
    && (e.startedAt.Some? ==> later.startedAt == e.startedAt)
    && (e.state.Finished? ==>
          && later.state == e.state && later.outcome == e.outcome && later.reason == e.reason
          && later.explanation == e.explanation && later.finishedAt == e.finishedAt
          && |later.attempts| == |e.attempts|)
  }

  lemma OneOperation(e: Execution, op: Operation)
    requires Sound(e) && Do(e, op).Ok?
    ensures Sound(Do(e, op).value) && Keeps(e, Do(e, op).value)
  {
    hide Matches;
  }

  lemma {:induction false} AllOperations(e: Execution, ops: seq<Operation>)
    requires Sound(e)
    ensures Sound(After(e, ops)) && Keeps(e, After(e, ops))
    decreases |ops|
  {
    hide Do, Sound;
    if ops != [] {
      match Do(e, ops[0]) {
        case Ok(next) =>
          OneOperation(e, ops[0]);
          AllOperations(next, ops[1..]);
        case Err(_) =>
          AllOperations(e, ops[1..]);
      }
    }
  }

  lemma {:induction false} AfterMore(e: Execution, ops: seq<Operation>, more: seq<Operation>)
    ensures After(e, ops + more) == After(After(e, ops), more)
    decreases |ops|
  {
    if ops == [] {
      assert ops + more == more;
    } else {
      assert (ops + more)[1..] == ops[1..] + more;
      AfterMore(match Do(e, ops[0]) case Ok(next) => next case Err(_) => e, ops[1..], more);
    }
  }

  /** At any point of any history from a request, and from that point to any later one. */
  lemma HistoryHolds(id: string, ops: seq<Operation>, more: seq<Operation>)
    ensures var e, later := After(Requested(id), ops), After(Requested(id), ops + more);
            && (e.outcome.Some? <==> e.state.Finished?)
            && (e.finishedAt.Some? <==> e.state.Finished?)
            && (e.outcome.Some? && RequiresReason(e.outcome.value) ==> e.reason.Some? && Matches(e.reason.value, e.outcome.value))
            && Keeps(e, later)
  {
    hide Keeps, Matches, Do;
    AllOperations(Requested(id), ops);
    AllOperations(After(Requested(id), ops), more);
    AfterMore(Requested(id), ops, more);
  }

  /**
   What the operations of a history say of the record: its end, its start and its attempts are
   those some operation gave it.
   */
  ghost predicate ToldBy(e: Execution, ops: seq<Operation>) {
    && (e.state.Finished? ==> exists op | op in ops ::
          op.End? && e.outcome == Some(op.outcome) && e.finishedAt == Some(op.at) && e.reason == op.reason && e.explanation == op.explanation)
    && (e.startedAt.Some? <==> e.attempts != [])
    && (e.startedAt.Some? ==> exists op | op in ops :: op.Begin? && e.startedAt == Some(op.at))
    && (forall a | a in e.attempts :: GivenBy(a, ops))
  }

  ghost predicate GivenBy(a: Attempt, ops: seq<Operation>) {
    exists op | op in ops :: (op.Begin? || op.Record?) && op.attempt == a
  }

  lemma ToldLonger(e: Execution, ops: seq<Operation>, op: Operation)
    requires ToldBy(e, ops)
    ensures ToldBy(e, ops + [op])
  {
    assert forall o | o in ops :: o in ops + [op];
    forall a | a in e.attempts ensures GivenBy(a, ops + [op]) {
      assert GivenBy(a, ops);
      var o :| o in ops && (o.Begin? || o.Record?) && o.attempt == a;
      assert o in ops + [op];
    }
  }

  lemma ToldNext(e: Execution, ops: seq<Operation>, op: Operation)
    requires ToldBy(e, ops) && Do(e, op).Ok?
    ensures ToldBy(Do(e, op).value, ops + [op])
  {
    hide Matches, IsLegal;
    ToldLonger(e, ops, op);
    var next := Do(e, op).value;
    assert (ops + [op])[|ops|] == op;
    assert op in ops + [op];
    forall a | a in next.attempts ensures GivenBy(a, ops + [op]) {
      if a !in e.attempts {
        assert op.Begin? || op.Record?;
        assert op.attempt == a;
      }
    }
  }

  lemma {:induction false} HistoryTells(id: string, ops: seq<Operation>)
    ensures ToldBy(After(Requested(id), ops), ops) && After(Requested(id), ops).id == id
    decreases |ops|
  {
    hide Do, ToldBy;
    if ops == [] {
      RequestTells(id);
    } else {
      var front, op := ops[..|ops| - 1], ops[|ops| - 1];
      assert ops == front + [op];
      HistoryTells(id, front);
      var e := After(Requested(id), front);
      AfterMore(Requested(id), front, [op]);
      AfterOne(e, op);
      ToldLonger(e, front, op);
      if Do(e, op).Ok? {
        ToldNext(e, front, op);
        KeepsId(e, op);
      }
    }
  }

  lemma RequestTells(id: string)
    ensures ToldBy(Requested(id), [])
  {
  }

  lemma AfterOne(e: Execution, op: Operation)
    ensures After(e, [op]) == match Do(e, op) case Ok(next) => next case Err(_) => e
  {
    hide Do;
    assert [op][1..] == [];
  }

  lemma KeepsId(e: Execution, op: Operation)
    requires Do(e, op).Ok?
    ensures Do(e, op).value.id == e.id
  {
  }

  /** What is accepted of a consistent record, and the state it is then in. */
  lemma AcceptedWhen(e: Execution, op: Operation)
    requires Consistent(e)
    ensures var n := |e.attempts|;
            Do(e, op).Ok? <==>
              match op
              case Transition(state) =>
                || (e.state.Pending? && state.Evaluating?) || (e.state.Evaluating? && state.Running?)
                || (e.state.Running? && state.Cancelling?)
              case Begin(attempt, _) => !e.state.Finished? && attempt.number == n + 1
              case Record(attempt) => n > 0 && e.attempts[n - 1].id == attempt.id
              case Cancel => e.state.Running?
              case End(outcome, _, reason, explanation) =>
                && !e.state.Finished? && |explanation| <= MAX_EXPLANATION_LENGTH
                && (RequiresReason(outcome) ==> reason.Some? && Matches(reason.value, outcome))
    ensures Do(e, op).Ok? ==>
              Do(e, op).value.state ==
                match op
                case Transition(state) => state
                case Begin(_, _) => Running
                case Record(_) => e.state
                case Cancel => Cancelling
                case End(_, _, _, _) => ExecutionState.Finished
    ensures Do(e, op).Ok? ==>
              Do(e, op).value.attempts ==
                match op
                case Begin(attempt, _) => e.attempts + [attempt]
                case Record(attempt) => e.attempts[..|e.attempts| - 1] + [attempt]
                case _ => e.attempts
  {
    hide Matches;
  }

  /** Every change of state is in the table, but for an attempt begun before evaluation or after a cancellation request. */
  lemma LegalUnlessBegun(e: Execution, op: Operation)
    requires Do(e, op).Ok?
    ensures e.state == Do(e, op).value.state || IsLegal(e.state, Do(e, op).value.state) <==>
              !(op.Begin? && (e.state.Pending? || e.state.Cancelling?))
  {
    hide Consistent;
  }

  /** Finishing accepts the classification of any valid result, unless its explanation is too long to keep. */
  lemma ClassifiedFinishes(e: Execution, r: ProcessResult, evidence: Evidence, successCodes: set<int>, at: int)
    requires Consistent(e) && !e.state.Finished? && ValidResult(r)
    ensures var c := Classify(r, evidence, successCodes);
            Finish(e, c.outcome, at, c.reason, Words(c.explanation)).Ok? <==> |Words(c.explanation)| <= MAX_EXPLANATION_LENGTH
  {
    hide Words, Classify, Matches, ValidReason;
    ReasonsFit(r, evidence, successCodes);
  }
}
