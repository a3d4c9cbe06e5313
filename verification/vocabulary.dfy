/**
 Execution states, outcomes and reason codes.

 A reason code is text namespaced by an outcome.  OneOutcomePerReason: a code belongs to
 exactly one outcome.  CodeIsValid: a code made for an outcome that permits reasons is valid;
 the codes the runtime gives are made so.
 */
module Vocabulary {
  import opened Results

  datatype ExecutionState = Pending | Evaluating | Running | Cancelling | Finished

  datatype Outcome =
    | Succeeded | Failed | LaunchFailed | OutcomeFailed | TimedOut | Cancelled | Skipped | Blocked
    | ConditionError | InfrastructureFailed | Unknown

  datatype Eligibility = Never | Always | ByPolicy

  predicate IsLegal(from: ExecutionState, to: ExecutionState) {
    match from
    case Pending => to.Evaluating? || to.Finished?
    case Evaluating => to.Running? || to.Finished?
    case Running => to.Cancelling? || to.Finished?
    case Cancelling => to.Finished?
    case Finished => false
  }

  function Name(o: Outcome): string {
    match o
    case Succeeded => "succeeded"
    case Failed => "failed"
    case LaunchFailed => "launch_failed"
    case OutcomeFailed => "outcome_failed"
    case TimedOut => "timed_out"
    case Cancelled => "cancelled"
    case Skipped => "skipped"
    case Blocked => "blocked"
    case ConditionError => "condition_error"
    case InfrastructureFailed => "infrastructure_failed"
    case Unknown => "unknown"
  }

  predicate RequiresReason(o: Outcome) {
    o.Skipped? || o.Blocked? || o.ConditionError? || o.InfrastructureFailed? || o.TimedOut? || o.Cancelled?
  }

  predicate PermitsReason(o: Outcome) {
    RequiresReason(o) || o.Failed?
  }

  function EligibilityOf(o: Outcome): Eligibility {
    match o
    case Failed => Always
    case LaunchFailed => Always
    case ConditionError => Always
    case InfrastructureFailed => Always
    case OutcomeFailed => ByPolicy
    case TimedOut => ByPolicy
    case _ => Never
  }

  // -- reason codes ----------------------------------------------------------------------------

  type Reason = string

  /** Everything before the first dot. */
  function Namespace(code: Reason): string {
    if code == "" || code[0] == '.' then "" else [code[0]] + Namespace(code[1..])
  }

  predicate Matches(code: Reason, o: Outcome) {
    Namespace(code) == Name(o)
  }

  predicate ValidReason(code: Reason) {
    && |Namespace(code)| + 1 < |code|
    && exists o :: PermitsReason(o) && Matches(code, o)
  }

  lemma NamesDiffer(a: Outcome, b: Outcome)
    requires a != b
    ensures Name(a) != Name(b)
  {
    var x, y := Name(a), Name(b);
    assert |x| == |y| ==> x[0] != y[0];
  }

  lemma OneOutcomePerReason(code: Reason, a: Outcome, b: Outcome)
    requires Matches(code, a) && Matches(code, b)
    ensures a == b
  {
    if a != b {
      NamesDiffer(a, b);
    }
  }

  lemma {:induction false} NamespaceOf(name: string, detail: string)
    requires '.' !in name
    ensures Namespace(name + "." + detail) == name
  {
    var code := name + "." + detail;
    if name != "" {
      assert code[1..] == name[1..] + "." + detail;
      NamespaceOf(name[1..], detail);
    }
  }

  lemma NamesHaveNoDot(o: Outcome)
    ensures '.' !in Name(o)
  {
  }

  function Code(o: Outcome, detail: string): Reason {
    Name(o) + "." + detail
  }

  /** A code made for an outcome that permits reasons is valid, and matches that outcome and no other. */
  lemma CodeIsValid(o: Outcome, detail: string)
    requires PermitsReason(o) && detail != ""
    ensures ValidReason(Code(o, detail))
    ensures forall other :: Matches(Code(o, detail), other) <==> other == o
  {
    NamesHaveNoDot(o);
    NamespaceOf(Name(o), detail);
    assert Matches(Code(o, detail), o);
    forall other | Matches(Code(o, detail), other) ensures other == o {
      OneOutcomePerReason(Code(o, detail), o, other);
    }
  }

  // -- the codes the runtime gives -------------------------------------------------------------

  function OverlapLockHeld(): (code: Reason)
    ensures ValidReason(code) && Matches(code, Blocked)
  {
    CodeIsValid(Blocked, "overlap_lock_held");
    Code(Blocked, "overlap_lock_held")
  }

  function ExecutorUnavailable(): (code: Reason)
    ensures ValidReason(code) && Matches(code, InfrastructureFailed)
  {
    CodeIsValid(InfrastructureFailed, "executor_unavailable");
    Code(InfrastructureFailed, "executor_unavailable")
  }

  function RunTimeoutExceeded(): (code: Reason)
    ensures ValidReason(code) && Matches(code, TimedOut)
  {
    CodeIsValid(TimedOut, "run_timeout_exceeded");
    Code(TimedOut, "run_timeout_exceeded")
  }

  function RequestedByUser(): (code: Reason)
    ensures ValidReason(code) && Matches(code, Cancelled)
  {
    CodeIsValid(Cancelled, "requested_by_user");
    Code(Cancelled, "requested_by_user")
  }

  function SupersededByNewer(): (code: Reason)
    ensures ValidReason(code) && Matches(code, Cancelled)
  {
    CodeIsValid(Cancelled, "superseded");
    Code(Cancelled, "superseded")
  }

  function TerminatedExternally(): (code: Reason)
    ensures ValidReason(code) && Matches(code, Failed)
  {
    CodeIsValid(Failed, "terminated_externally");
    Code(Failed, "terminated_externally")
  }

  /** The codes as they are stored, each in the namespace of its own outcome. */
  lemma CodesAre()
    ensures OverlapLockHeld() == "blocked.overlap_lock_held"
    ensures ExecutorUnavailable() == "infrastructure_failed.executor_unavailable"
    ensures RunTimeoutExceeded() == "timed_out.run_timeout_exceeded"
    ensures RequestedByUser() == "cancelled.requested_by_user"
    ensures SupersededByNewer() == "cancelled.superseded"
    ensures TerminatedExternally() == "failed.terminated_externally"
  {
    RunCodesAre();
    EndCodesAre();
    hide OverlapLockHeld, ExecutorUnavailable, RunTimeoutExceeded, RequestedByUser, SupersededByNewer, TerminatedExternally;
  }

  lemma RunCodesAre()
    ensures OverlapLockHeld() == "blocked.overlap_lock_held"
    ensures ExecutorUnavailable() == "infrastructure_failed.executor_unavailable"
  {
    hide Matches, ValidReason;
  }

  lemma EndCodesAre()
    ensures RunTimeoutExceeded() == "timed_out.run_timeout_exceeded"
    ensures RequestedByUser() == "cancelled.requested_by_user"
    ensures SupersededByNewer() == "cancelled.superseded"
    ensures TerminatedExternally() == "failed.terminated_externally"
  {
    hide Matches, ValidReason;
  }
}
