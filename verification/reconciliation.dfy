/**
 Taking what ran while the control plane was away from the local journal into the record.

 IngestMeans: the record gains one execution for each new id, just as its first entry has it
 (Recorded), and loses and changes none.  CrashSafe: crashing at any step any number of times and then running
 to completion comes to the same.  ReplayIngestsNone and IngestInParts: so does replaying a
 journal, and journalling more in between.  NothingLost: a journal with an entry that cannot be
 taken in blocks itself for good, and LegalButNeverTakenIn is one.
 */
module Reconciliation {
  import opened Results
  import opened Vocabulary
  import opened Executions

  datatype Entry = Entry(
    id: string, startedAt: int, finishedAt: int, outcome: Outcome, reason: Option<Reason>, explanation: string)

  type Record = map<string, Execution>

  datatype Error = Unbuildable(error: DomainError) | Crashed

  /** How much is added to every explanation taken in. */
  const PROVENANCE_LENGTH := 128

  function ExplanationFor(entry: Entry): string {
    (if entry.explanation != "" then entry.explanation else "Outcome " + Name(entry.outcome) + ".")
    + " Reconciled from a local journal: this ran while TaskControl's control "
    + "state was unreachable, so no attempt detail was captured."
  }

  /** A record created already finished, with no attempts. */
  function ExecutionFrom(entry: Entry): Result<Execution, Error> {
    var e := Execution(entry.id, Finished, Some(entry.outcome), entry.reason, ExplanationFor(entry), [],
                       Some(entry.startedAt), Some(entry.finishedAt));
    match Checked(e)
    case Ok(checked) => Ok(checked)
    case Err(error) => Err(Unbuildable(error))
  }

  /** An entry with room for what is added to its explanation, and with a reason of its own outcome where one is required. */
  predicate Ingestible(entry: Entry) {
    && |entry.explanation| + PROVENANCE_LENGTH <= MAX_EXPLANATION_LENGTH
    && (RequiresReason(entry.outcome) ==> entry.reason.Some? && Matches(entry.reason.value, entry.outcome))
  }

  lemma NamesAreShort(o: Outcome)
    ensures |Name(o)| < 30
  {
  }

  lemma BuiltWhen(entry: Entry)
    ensures ExecutionFrom(entry).Ok? <==> Ingestible(entry)
  {
    hide Matches, Name;
    NamesAreShort(entry.outcome);
  }

  /**
   A run that is over as its entry has it, with no attempts; its explanation is the entry's, or
   names the outcome when there is none, and then says where it came from.
   */
  predicate Recorded(e: Execution, entry: Entry) {
    && e.id == entry.id && e.state.Finished? && e.outcome == Some(entry.outcome) && e.reason == entry.reason
    && e.startedAt == Some(entry.startedAt) && e.finishedAt == Some(entry.finishedAt) && e.attempts == []
    && var told := if entry.explanation == "" then "Outcome " + Name(entry.outcome) + "." else entry.explanation;
       && told <= e.explanation
       && e.explanation[|told|..] == " Reconciled from a local journal: this ran while TaskControl's control "
                                     + "state was unreachable, so no attempt detail was captured."
  }

  lemma BuiltAsEntered(entry: Entry)
    ensures ExecutionFrom(entry).Ok? ==> Recorded(ExecutionFrom(entry).value, entry)
  {
    hide Matches, Name;
    var told := if entry.explanation == "" then "Outcome " + Name(entry.outcome) + "." else entry.explanation;
    var e := ExplanationFor(entry);
    assert e[..|told|] == told;
  }

  /** That is all there is to say of it. */
  lemma RecordedOnce(a: Execution, b: Execution, entry: Entry)
    requires Recorded(a, entry) && Recorded(b, entry)
    ensures a == b
  {
    hide Name;
    var told := if entry.explanation == "" then "Outcome " + Name(entry.outcome) + "." else entry.explanation;
    assert a.explanation == told + a.explanation[|told|..];
    assert b.explanation == told + b.explanation[|told|..];
  }

  datatype Ingested = Ingested(record: Record, added: nat, known: nat)

  /** Entry by entry: a known id is counted, a new one recorded, and nothing stands if one cannot be built. */
  function Ingest(record: Record, entries: seq<Entry>): Result<Ingested, Error>
    decreases |entries|
  {
    hide ExecutionFrom;
    if entries == [] then Ok(Ingested(record, 0, 0))
    else if entries[0].id in record then
      match Ingest(record, entries[1..])
      case Ok(rest) => Ok(rest.(known := rest.known + 1))
      case Err(e) => Err(e)
    else
      match ExecutionFrom(entries[0])
      case Err(e) => Err(e)
      case Ok(e) =>
        match Ingest(record[entries[0].id := e], entries[1..])
        case Ok(rest) => Ok(rest.(added := rest.added + 1))
        case Err(error) => Err(error)
  }

  // -- what ingesting means --------------------------------------------------------------------

  /** The first entry of an id, if it has one. */
  function FirstOf(entries: seq<Entry>, id: string): Option<Entry> {
    if entries == [] then None
    else if entries[0].id == id then Some(entries[0])
    else FirstOf(entries[1..], id)
  }

  /** The record with, for each new id, the run its first entry tells of. */
  ghost predicate Extended(record: Record, entries: seq<Entry>, result: Record) {
    && (forall id | id in record :: id in result && result[id] == record[id])
    && (forall id :: id in result <==> id in record || FirstOf(entries, id).Some?)
    && (forall id | id in result && id !in record :: Recorded(result[id], FirstOf(entries, id).value))
  }

  /** Every id that is new has a first entry that can be taken in. */
  ghost predicate Buildable(record: Record, entries: seq<Entry>) {
    forall id | id !in record && FirstOf(entries, id).Some? :: Ingestible(FirstOf(entries, id).value)
  }

  lemma {:induction false} IngestCounts(record: Record, entries: seq<Entry>)
    requires Ingest(record, entries).Ok?
    ensures var r := Ingest(record, entries).value;
            && record.Keys <= r.record.Keys
            && r.added + r.known == |entries|
            && r.added == |r.record.Keys| - |record.Keys|
    decreases |entries|
  {
    hide ExecutionFrom;
    if entries != [] {
      if entries[0].id in record {
        IngestCounts(record, entries[1..]);
      } else {
        var next := record[entries[0].id := ExecutionFrom(entries[0]).value];
        IngestCounts(next, entries[1..]);
        assert next.Keys == record.Keys + {entries[0].id};
      }
    }
  }

  lemma {:induction false} IngestMeans(record: Record, entries: seq<Entry>)
    ensures Ingest(record, entries).Ok? <==> Buildable(record, entries)
    ensures Ingest(record, entries).Ok? ==>
              var r := Ingest(record, entries).value;
              && Extended(record, entries, r.record)
              && r.added + r.known == |entries|
              && r.added == |r.record.Keys| - |record.Keys|
    decreases |entries|
  {
    hide ExecutionFrom;
    if Ingest(record, entries).Ok? {
      IngestCounts(record, entries);
    }
    hide Extended, Buildable, Ingestible, Recorded;
    if entries == [] {
      NothingToIngest(record);
    } else if entries[0].id in record {
      var rest := Ingest(record, entries[1..]);
      IngestMeans(record, entries[1..]);
      KnownFirst(record, entries, if rest.Ok? then rest.value.record else record);
    } else if ExecutionFrom(entries[0]).Ok? {
      var first := ExecutionFrom(entries[0]).value;
      var rest := Ingest(record[entries[0].id := first], entries[1..]);
      IngestMeans(record[entries[0].id := first], entries[1..]);
      NewFirst(record, entries, first, if rest.Ok? then rest.value.record else record);
    } else {
      FirstUnbuildable(record, entries);
    }
  }

  lemma NothingToIngest(record: Record)
    ensures Buildable(record, []) && Extended(record, [], record)
  {
  }

  lemma KnownFirst(record: Record, entries: seq<Entry>, result: Record)
    requires entries != [] && entries[0].id in record
    ensures Buildable(record, entries) <==> Buildable(record, entries[1..])
    ensures Extended(record, entries[1..], result) ==> Extended(record, entries, result)
  {
    hide ExecutionFrom, Ingestible, Recorded;
    assert forall id | id !in record :: FirstOf(entries, id) == FirstOf(entries[1..], id);
  }

  lemma NewFirst(record: Record, entries: seq<Entry>, first: Execution, result: Record)
    requires entries != [] && entries[0].id !in record && ExecutionFrom(entries[0]) == Ok(first)
    ensures Buildable(record, entries) <==> Buildable(record[entries[0].id := first], entries[1..])
    ensures Extended(record[entries[0].id := first], entries[1..], result) ==> Extended(record, entries, result)
  {
    hide ExecutionFrom, Ingestible, Recorded;
    BuiltWhen(entries[0]);
    BuiltAsEntered(entries[0]);
    assert FirstOf(entries, entries[0].id) == Some(entries[0]);
    assert forall id | id != entries[0].id :: FirstOf(entries, id) == FirstOf(entries[1..], id);
  }

  lemma FirstUnbuildable(record: Record, entries: seq<Entry>)
    requires entries != [] && entries[0].id !in record && ExecutionFrom(entries[0]).Err?
    ensures !Buildable(record, entries)
  {
    hide ExecutionFrom, Ingestible;
    BuiltWhen(entries[0]);
    assert FirstOf(entries, entries[0].id) == Some(entries[0]);
  }

  /** Two records that extend one by the same entries are the same. */
  lemma ExtendedIsUnique(record: Record, entries: seq<Entry>, a: Record, b: Record)
    requires Extended(record, entries, a) && Extended(record, entries, b)
    ensures a == b
  {
    hide ExecutionFrom, FirstOf, Recorded;
    assert a.Keys == b.Keys;
    forall id | id in a ensures a[id] == b[id] {
      if id !in record {
        RecordedOnce(a[id], b[id], FirstOf(entries, id).value);
      }
    }
  }

  lemma {:induction false} FirstOfSum(a: seq<Entry>, b: seq<Entry>, id: string)
    ensures FirstOf(a + b, id) == if FirstOf(a, id).Some? then FirstOf(a, id) else FirstOf(b, id)
  {
    if a == [] {
      assert a + b == b;
    } else {
      assert (a + b)[1..] == a[1..] + b;
      FirstOfSum(a[1..], b, id);
    }
  }

  /** Ingesting some entries, and later a journal they begin, comes to ingesting that journal. */
  lemma IngestInParts(record: Record, entries: seq<Entry>, more: seq<Entry>)
    requires Ingest(record, entries + more).Ok?
    ensures Ingest(record, entries).Ok?
    ensures var partway := Ingest(record, entries).value.record;
            && Ingest(partway, entries + more).Ok?
            && Ingest(partway, entries + more).value.record == Ingest(record, entries + more).value.record
  {
    hide ExecutionFrom, FirstOf, Ingest, Recorded, Ingestible;
    IngestMeans(record, entries + more);
    forall id ensures FirstOf(entries + more, id) == if FirstOf(entries, id).Some? then FirstOf(entries, id) else FirstOf(more, id) {
      FirstOfSum(entries, more, id);
    }
    IngestMeans(record, entries);
    var partway := Ingest(record, entries).value.record;
    IngestMeans(partway, entries + more);
    var end := Ingest(partway, entries + more).value.record;
    ExtendedIsUnique(record, entries + more, end, Ingest(record, entries + more).value.record);
  }

  /** Replaying a journal ingests none of it and knows all of it. */
  lemma ReplayIngestsNone(record: Record, entries: seq<Entry>)
    requires Ingest(record, entries).Ok?
    ensures var after := Ingest(record, entries).value.record;
            Ingest(after, entries) == Ok(Ingested(after, 0, |entries|))
  {
    hide ExecutionFrom, FirstOf, Ingest, Recorded, Ingestible;
    var after := Ingest(record, entries).value.record;
    IngestMeans(record, entries);
    IngestMeans(after, entries);
    var again := Ingest(after, entries).value;
    assert again.record.Keys == after.Keys;
    assert again.record == after;
  }

  // -- the service -----------------------------------------------------------------------------

  /** Where a run is cut short: with nothing committed, between the commit and the truncation, or not at all. */
  datatype Crash = BeforeCommit | BeforeTruncate | Uninterrupted

  datatype Report = Report(ingested: nat, alreadyKnown: nat, cleared: bool)

  class ReconciliationService {
    var record: Record
    var journal: seq<Entry>

    constructor (record: Record, journal: seq<Entry>)
      ensures this.record == record && this.journal == journal
    {
      this.record := record;
      this.journal := journal;
    }

    method Reconcile(crash: Crash) returns (r: Result<Report, Error>)
      modifies this
      ensures (record, journal) == Reconciled(old(record), old(journal), crash)
      ensures old(journal) == [] ==> r == Ok(Report(0, 0, false))
      ensures old(journal) != [] ==>
                match Ingest(old(record), old(journal))
                case Err(e) => crash.BeforeCommit? || r == Err(e)
                case Ok(done) => r == if crash.Uninterrupted? then Ok(Report(done.added, done.known, true)) else Err(Crashed)
    {
      hide ExecutionFrom;
      var entries := journal;
      if entries == [] {
        return Ok(Report(0, 0, false));
      }
      if crash.BeforeCommit? {
        return Err(Crashed);
      }
      var pending := record;
      var ingested, alreadyKnown := 0, 0;
      assert entries[0..] == entries;
      for i := 0 to |entries|
        invariant ingested >= 0 && alreadyKnown >= 0
        invariant Ingest(record, entries)
               == match Ingest(pending, entries[i..])
                  case Ok(rest) => Ok(Ingested(rest.record, ingested + rest.added, alreadyKnown + rest.known))
                  case Err(e) => Err(e)
      {
        assert entries[i..][0] == entries[i] && entries[i..][1..] == entries[i + 1..];
        if entries[i].id in pending {
          alreadyKnown := alreadyKnown + 1;
        } else {
          var built := ExecutionFrom(entries[i]);
          if built.Err? {
            return Err(built.error);
          }
          pending := pending[entries[i].id := built.value];
          ingested := ingested + 1;
        }
      }
      record := pending;
      if crash.BeforeTruncate? {
        return Err(Crashed);
      }
      journal := [];
      r := Ok(Report(ingested, alreadyKnown, true));
    }
  }

  /** Record and journal after one run. */
  function Reconciled(record: Record, journal: seq<Entry>, crash: Crash): (Record, seq<Entry>) {
    match Ingest(record, journal)
    case Err(_) => (record, journal)
    case Ok(done) =>
      match crash
      case BeforeCommit => (record, journal)
      case BeforeTruncate => (done.record, journal)
      case Uninterrupted => (done.record, [])
  }

  function ReconciledOften(record: Record, journal: seq<Entry>, crashes: seq<Crash>): (Record, seq<Entry>)
    decreases |crashes|
  {
    if crashes == [] then (record, journal)
    else
      var (next, left) := Reconciled(record, journal, crashes[0]);
      ReconciledOften(next, left, crashes[1..])
  }

  /** Interrupted runs, wherever and however often, and then one that completes: each new id once, as first journalled. */
  lemma {:induction false} CrashSafe(record: Record, journal: seq<Entry>, crashes: seq<Crash>)
    requires forall c | c in crashes :: !c.Uninterrupted?
    requires Ingest(record, journal).Ok?
    ensures ReconciledOften(record, journal, crashes + [Uninterrupted]) == (Ingest(record, journal).value.record, [])
    decreases |crashes|
  {
    hide Ingest;
    var all := crashes + [Uninterrupted];
    var done := Ingest(record, journal).value.record;
    if crashes == [] {
      assert all == [Uninterrupted] && all[1..] == [];
    } else {
      assert all[0] == crashes[0] && all[1..] == crashes[1..] + [Uninterrupted];
      assert crashes[0] in crashes;
      if crashes[0].BeforeCommit? {
        CrashSafe(record, journal, crashes[1..]);
      } else {
        ReplayIngestsNone(record, journal);
        CrashSafe(done, journal, crashes[1..]);
      }
    }
  }

  /** A journal that cannot be ingested is never cleared, and nothing of it is recorded. */
  lemma {:induction false} NothingLost(record: Record, journal: seq<Entry>, crashes: seq<Crash>)
    requires !Buildable(record, journal)
    ensures ReconciledOften(record, journal, crashes) == (record, journal)
    decreases |crashes|
  {
    hide Ingest, Buildable;
    IngestMeans(record, journal);
    if crashes != [] {
      NothingLost(record, journal, crashes[1..]);
    }
  }

  // -- an entry that is legal and never taken in -------------------------------------------------

  /** A run that succeeded, explained in as many characters as an execution may have. */
  function LongEntry(id: string): (entry: Entry)
    ensures entry.id == id && |entry.explanation| == MAX_EXPLANATION_LENGTH
  {
    Entry(id, 0, 1, Succeeded, None, seq(MAX_EXPLANATION_LENGTH, _ => 'x'))
  }

  /**
   Its explanation is one an execution may carry; what is added to it makes that too long, and
   blocks all that was journalled after it.
   */
  lemma LegalButNeverTakenIn(id: string, more: seq<Entry>, record: Record, crashes: seq<Crash>)
    requires id !in record
    ensures var entry, journal := LongEntry(id), [LongEntry(id)] + more;
            && Checked(Execution(id, Finished, Some(entry.outcome), entry.reason, entry.explanation, [],
                                 Some(entry.startedAt), Some(entry.finishedAt))).Ok?
            && ReconciledOften(record, journal, crashes) == (record, journal)
  {
    hide Ingest, Matches, ExecutionFrom, ReconciledOften;
    var journal := [LongEntry(id)] + more;
    assert FirstOf(journal, id) == Some(LongEntry(id)) && !Ingestible(LongEntry(id));
    NothingLost(record, journal, crashes);
  }
}
