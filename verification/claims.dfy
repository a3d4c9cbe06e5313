/**
 Durable claims: leases with fencing tokens in one row per subject, taken and kept by processes
 whose statements interleave freely.

 RunsAreExclusive: no two granted claims on one subject are ever both live, over every
 interleaving whose renewals do no harm; ShorteningLetsTwoIn: one that does can be followed by
 a second live claim, and ShorteningIsReachable gives a history that gets there.  Fencing,
 over every history whatever its renewals: TokenCountsGrants, TokensOnlyGrow, SupersededForever.
 */
module Claims {
  import opened Results

  /** The stored row of a subject; releasing lapses it, nothing deletes it. */
  datatype Row = Row(owner: string, acquiredAt: int, expiresAt: int, token: nat)

  type Rows = map<string, Row>

  datatype Claim = Claim(subject: string, owner: string, acquiredAt: int, expiresAt: int, token: nat)

  const MAX_OWNER_LENGTH := 200

  predicate Named(owner: string) {
    (exists c | c in owner :: c != ' ' && !('\t' <= c <= '\r')) && |owner| <= MAX_OWNER_LENGTH
  }

  predicate ValidClaim(c: Claim) {
    Named(c.owner) && c.acquiredAt < c.expiresAt
  }

  datatype ClaimError = NotHeld | Invalid | NotExtended

  /** The claim a renewal hands back: the same acquisition, held longer. */
  function RenewedUntil(c: Claim, expiresAt: int): Result<Claim, ClaimError> {
    if expiresAt <= c.expiresAt then Err(NotExtended)
    else if !ValidClaim(c.(expiresAt := expiresAt)) then Err(Invalid)
    else Ok(c.(expiresAt := expiresAt))
  }

  // -- the statements that decide every race --------------------------------------------------

  /** Whether an acquisition that read `seen` gets the row: nobody inserted it, or it lapsed and no one took it since. */
  predicate Wins(rows: Rows, subject: string, now: int, seen: Option<Row>) {
    match seen
    case None => subject !in rows
    case Some(row) => subject in rows && rows[subject].expiresAt <= now && rows[subject].token == row.token
  }

  function TokenAfter(seen: Option<Row>): nat {
    match seen
    case None => 1
    case Some(row) => row.token + 1
  }

  predicate StillHolds(rows: Rows, c: Claim) {
    c.subject in rows && rows[c.subject].owner == c.owner && rows[c.subject].token == c.token
  }

  predicate CanRenew(rows: Rows, c: Claim, now: int) {
    StillHolds(rows, c) && now < rows[c.subject].expiresAt
  }

  function AfterRenew(rows: Rows, c: Claim, now: int, expiresAt: int): Rows {
    if CanRenew(rows, c, now) then rows[c.subject := rows[c.subject].(expiresAt := expiresAt)] else rows
  }

  function AfterRelease(rows: Rows, c: Claim, now: int): Rows {
    if StillHolds(rows, c) then rows[c.subject := rows[c.subject].(expiresAt := now)] else rows
  }

  /** An acquisition in full: its claim, or None when refused; an invalid claim is rolled back. */
  function Acquired(subject: string, owner: string, now: int, expiresAt: int, seen: Option<Row>): Claim {
    Claim(subject, owner, now, expiresAt, TokenAfter(seen))
  }

  function AfterAcquire(rows: Rows, subject: string, owner: string, now: int, expiresAt: int, seen: Option<Row>): Rows {
    if Wins(rows, subject, now, seen) && ValidClaim(Acquired(subject, owner, now, expiresAt, seen))
    then rows[subject := Row(owner, now, expiresAt, TokenAfter(seen))]
    else rows
  }

  /** The stored row says of a claim what the claim says of itself. */
  predicate Guards(rows: Rows, c: Claim) {
    && c.subject in rows && rows[c.subject].owner == c.owner && rows[c.subject].token == c.token
    && rows[c.subject].expiresAt == c.expiresAt
  }

  /** Nothing differs but the row of one subject. */
  predicate OnlyRow(rows: Rows, rows': Rows, subject: string) {
    rows - {subject} == rows' - {subject}
  }

  /** The store; `now` is when the caller read the clock and `seen` what it read of the row, both possibly stale. */
  class ClaimStore {
    var rows: Rows

    constructor ()
      ensures rows == map[]
    {
      rows := map[];
    }

    method TryAcquire(subject: string, owner: string, lease: int, now: int, seen: Option<Row>)
      returns (r: Result<Option<Claim>, ClaimError>)
      modifies this
      ensures rows == AfterAcquire(old(rows), subject, owner, now, now + lease, seen)
      ensures r.Ok? && r.value.Some? <==>
                Wins(old(rows), subject, now, seen) && ValidClaim(Acquired(subject, owner, now, now + lease, seen))
      ensures r.Ok? && r.value.Some? ==> r.value.value == Acquired(subject, owner, now, now + lease, seen)
      ensures r.Ok? && r.value.Some? ==>
                && r.value.value == Claim(subject, owner, now, now + lease, if seen.None? then 1 else old(rows[subject].token) + 1)
                && Guards(rows, r.value.value) && OnlyRow(old(rows), rows, subject)
                && (if seen.None? then subject !in old(rows) else subject in old(rows) && old(rows[subject].expiresAt) <= now)
      ensures !(r.Ok? && r.value.Some?) ==> rows == old(rows)
      ensures r.Err? ==> Wins(old(rows), subject, now, seen) && r.error == Invalid
    {
      var expiresAt := now + lease;
      var was := rows;
      if seen.None? {
        if subject in rows {
          return Ok(None);
        }
        rows := rows[subject := Row(owner, now, expiresAt, 1)];
      } else {
        var nextToken := seen.value.token + 1;
        if !(subject in rows && rows[subject].expiresAt <= now && rows[subject].token == seen.value.token) {
          return Ok(None);
        }
        rows := rows[subject := Row(owner, now, expiresAt, nextToken)];
      }
      var claim := Claim(subject, owner, now, expiresAt, rows[subject].token);
      if !ValidClaim(claim) {
        rows := was;
        return Err(Invalid);
      }
      r := Ok(Some(claim));
    }

    /** The row is updated and committed before the new expiry is compared with the old. */
    method Renew(claim: Claim, lease: int, now: int) returns (r: Result<Claim, ClaimError>)
      modifies this
      ensures rows == AfterRenew(old(rows), claim, now, now + lease)
      ensures r == if CanRenew(old(rows), claim, now) then RenewedUntil(claim, now + lease) else Err(NotHeld)
      ensures r.Ok? ==> r.value == Claim(claim.subject, claim.owner, claim.acquiredAt, now + lease, claim.token) && Guards(rows, r.value)
      ensures r.Ok? ==> claim.expiresAt < now + lease
      ensures r == Err(NotHeld) <==>
                !(claim.subject in old(rows) && old(rows[claim.subject].owner) == claim.owner
                  && old(rows[claim.subject].token) == claim.token && now < old(rows[claim.subject].expiresAt))
      ensures r == Err(NotHeld) ==> rows == old(rows)
      ensures OnlyRow(old(rows), rows, claim.subject)
    {
      var expiresAt := now + lease;
      if !CanRenew(rows, claim, now) {
        return Err(NotHeld);
      }
      rows := rows[claim.subject := rows[claim.subject].(expiresAt := expiresAt)];
      r := RenewedUntil(claim, expiresAt);
    }

    method Release(claim: Claim, now: int)
      modifies this
      ensures rows == AfterRelease(old(rows), claim, now)
      ensures if claim.subject in old(rows) && old(rows[claim.subject].owner) == claim.owner && old(rows[claim.subject].token) == claim.token
              then rows == old(rows)[claim.subject := old(rows[claim.subject]).(expiresAt := now)]
              else rows == old(rows)
    {
      if StillHolds(rows, claim) {
        rows := rows[claim.subject := rows[claim.subject].(expiresAt := now)];
      }
    }
  }

  // -- the life of a claim ---------------------------------------------------------------------

  /** What an acquisition hands out is what its row now says. */
  lemma GrantedIsGuarded(rows: Rows, subject: string, owner: string, now: int, expiresAt: int, seen: Option<Row>)
    requires Wins(rows, subject, now, seen) && ValidClaim(Acquired(subject, owner, now, expiresAt, seen))
    ensures var c, rows' := Acquired(subject, owner, now, expiresAt, seen), AfterAcquire(rows, subject, owner, now, expiresAt, seen);
            && c.subject == subject && c.owner == owner && c.acquiredAt == now && c.expiresAt == expiresAt
            && Guards(rows', c) && OnlyRow(rows, rows', subject)
            && (subject in rows ==> c.token == rows[subject].token + 1 && rows[subject].expiresAt <= now)
  {
  }

  /**
   A claim its row guards is renewed exactly while it lasts and when that extends it; what is
   handed back is the same acquisition with the new expiry, and its row guards it again.  Its
   release frees the subject at once, for anybody who reads the row after it.
   */
  lemma GuardedUntilReleased(rows: Rows, c: Claim, now: int, expiresAt: int)
    requires Guards(rows, c) && ValidClaim(c)
    ensures CanRenew(rows, c, now) <==> now < c.expiresAt
    ensures RenewedUntil(c, expiresAt).Ok? <==> c.expiresAt < expiresAt
    ensures CanRenew(rows, c, now) && c.expiresAt < expiresAt ==>
              var c' := RenewedUntil(c, expiresAt).value;
              && c' == Claim(c.subject, c.owner, c.acquiredAt, expiresAt, c.token)
              && Guards(AfterRenew(rows, c, now, expiresAt), c') && ValidClaim(c')
              && OnlyRow(rows, AfterRenew(rows, c, now, expiresAt), c.subject)
    ensures !CanRenew(rows, c, now) ==> AfterRenew(rows, c, now, expiresAt) == rows
    ensures var rows' := AfterRelease(rows, c, now);
            && OnlyRow(rows, rows', c.subject) && c.subject in rows' && rows'[c.subject] == rows[c.subject].(expiresAt := now)
            && !CanRenew(rows', c, now) && Wins(rows', c.subject, now, Some(rows'[c.subject]))
  {
  }

  // -- interleaved processes -------------------------------------------------------------------

  /** Where a process is between two of its statements. */
  datatype Pending =
    | Acquiring(subject: string, owner: string, now: int, expiresAt: int)
    | Seen(subject: string, owner: string, now: int, expiresAt: int, seen: Option<Row>)
    | Renewing(claim: Claim, now: int, expiresAt: int)
    | Releasing(claim: Claim, now: int)

  /** What the holder of one acquisition may rely on: the latest expiry it was given, until it releases. */
  datatype Grant = Grant(owner: string, expiresAt: int, released: bool)

  /** Rows, the shared clock, who is where, and every grant of a subject in token order. */
  datatype State = State(rows: Rows, clock: int, pending: map<nat, Pending>, grants: map<string, seq<Grant>>)

  datatype Step =
    | Tick(to: int)
    | ReadClockToAcquire(process: nat, subject: string, owner: string, lease: int)
    | ReadRow(process: nat)
    | InsertOrTakeOver(process: nat)
    | ReadClockToRenew(process: nat, claim: Claim, lease: int)
    | UpdateToRenew(process: nat)
    | ReadClockToRelease(process: nat, claim: Claim)
    | UpdateToRelease(process: nat)
    | Die(process: nat)

  predicate Enabled(s: State, step: Step) {
    match step
    case Tick(to) => s.clock <= to
    case ReadClockToAcquire(p, _, _, _) => p !in s.pending
    case ReadRow(p) => p in s.pending && s.pending[p].Acquiring?
    case InsertOrTakeOver(p) => p in s.pending && s.pending[p].Seen?
    case ReadClockToRenew(p, _, _) => p !in s.pending
    case UpdateToRenew(p) => p in s.pending && s.pending[p].Renewing?
    case ReadClockToRelease(p, _) => p !in s.pending
    case UpdateToRelease(p) => p in s.pending && s.pending[p].Releasing?
    case Die(p) => p in s.pending
  }

  function GrantsOf(s: State, subject: string): seq<Grant> {
    if subject in s.grants then s.grants[subject] else []
  }

  /** The last grant of a subject after a renewal: only a claim that is handed back promises anything new. */
  function RenewedGrant(g: Grant, claim: Claim, expiresAt: int): Grant {
    if RenewedUntil(claim, expiresAt).Err? then g
    else if g.released || g.expiresAt < expiresAt then Grant(g.owner, expiresAt, false)
    else g
  }

  function Next(s: State, step: Step): State
    requires Enabled(s, step)
  {
    match step
    case Tick(to) => s.(clock := to)
    case ReadClockToAcquire(p, subject, owner, lease) =>
      s.(pending := s.pending[p := Acquiring(subject, owner, s.clock, s.clock + lease)])
    case ReadRow(p) =>
      var a := s.pending[p];
      var seen := if a.subject in s.rows then Some(s.rows[a.subject]) else None;
      s.(pending := s.pending[p := Seen(a.subject, a.owner, a.now, a.expiresAt, seen)])
    case InsertOrTakeOver(p) =>
      var a := s.pending[p];
      State(AfterAcquire(s.rows, a.subject, a.owner, a.now, a.expiresAt, a.seen), s.clock, s.pending - {p},
            if Wins(s.rows, a.subject, a.now, a.seen) && ValidClaim(Acquired(a.subject, a.owner, a.now, a.expiresAt, a.seen))
            then s.grants[a.subject := GrantsOf(s, a.subject) + [Grant(a.owner, a.expiresAt, false)]]
            else s.grants)
    case ReadClockToRenew(p, claim, lease) =>
      s.(pending := s.pending[p := Renewing(claim, s.clock, s.clock + lease)])
    case UpdateToRenew(p) =>
      var a := s.pending[p];
      var gs := GrantsOf(s, a.claim.subject);
      State(AfterRenew(s.rows, a.claim, a.now, a.expiresAt), s.clock, s.pending - {p},
            if CanRenew(s.rows, a.claim, a.now) && gs != []
            then s.grants[a.claim.subject := gs[|gs| - 1 := RenewedGrant(gs[|gs| - 1], a.claim, a.expiresAt)]]
            else s.grants)
    case ReadClockToRelease(p, claim) =>
      s.(pending := s.pending[p := Releasing(claim, s.clock)])
    case UpdateToRelease(p) =>
      var a := s.pending[p];
      var gs := GrantsOf(s, a.claim.subject);
      State(AfterRelease(s.rows, a.claim, a.now), s.clock, s.pending - {p},
            if StillHolds(s.rows, a.claim) && gs != []
            then s.grants[a.claim.subject := gs[|gs| - 1 := gs[|gs| - 1].(released := true)]]
            else s.grants)
    case Die(p) => s.(pending := s.pending - {p})
  }

  function Initial(clock: int): State {
    State(map[], clock, map[], map[])
  }

  predicate Live(g: Grant, clock: int) {
    !g.released && clock < g.expiresAt
  }

  /** At most one grant of any subject is live. */
  ghost predicate Exclusive(s: State) {
    forall subject, i, j | subject in s.grants && 0 <= i < j < |s.grants[subject]| ::
      !(Live(s.grants[subject][i], s.clock) && Live(s.grants[subject][j], s.clock))
  }

  /** A renewal that ends no live promise of its holder early. */
  predicate Harmless(s: State, step: Step) {
    step.UpdateToRenew? && Enabled(s, step) && CanRenew(s.rows, s.pending[step.process].claim, s.pending[step.process].now) ==>
      var a := s.pending[step.process];
      var gs := GrantsOf(s, a.claim.subject);
      gs != [] && Live(gs[|gs| - 1], s.clock) ==> gs[|gs| - 1].expiresAt <= a.expiresAt
  }

  predicate ReadBefore(p: Pending, clock: int) {
    p.now <= clock
  }

  /** A subject's row counts its grants, is owned by the last, and outlasts it while it is live; earlier ones are dead. */
  predicate Covers(row: Row, gs: seq<Grant>, clock: int) {
    && row.token == |gs| >= 1
    && row.owner == gs[|gs| - 1].owner
    && (Live(gs[|gs| - 1], clock) ==> gs[|gs| - 1].expiresAt <= row.expiresAt)
    && (forall i | 0 <= i < |gs| - 1 :: !Live(gs[i], clock))
  }

  ghost predicate Inv(s: State) {
    && s.rows.Keys == s.grants.Keys
    && (forall subject | subject in s.rows :: Covers(s.rows[subject], s.grants[subject], s.clock))
    && (forall p | p in s.pending :: ReadBefore(s.pending[p], s.clock))
  }

  lemma InvIsExclusive(s: State)
    requires Inv(s)
    ensures Exclusive(s)
  {
    forall subject, i, j | subject in s.grants && 0 <= i < j < |s.grants[subject]|
      ensures !(Live(s.grants[subject][i], s.clock) && Live(s.grants[subject][j], s.clock))
    {
      assert Covers(s.rows[subject], s.grants[subject], s.clock);
    }
  }

  lemma InvIsKept(s: State, step: Step)
    requires Inv(s) && Enabled(s, step) && Harmless(s, step)
    ensures Inv(Next(s, step))
  {
    var s' := Next(s, step);
    forall p | p in s'.pending ensures ReadBefore(s'.pending[p], s'.clock) {
      assert p in s.pending ==> ReadBefore(s.pending[p], s.clock);
    }
    forall subject | subject in s'.rows ensures subject in s'.grants && Covers(s'.rows[subject], s'.grants[subject], s'.clock) {
      assert subject in s.rows ==> Covers(s.rows[subject], s.grants[subject], s.clock);
      assert step.InsertOrTakeOver? ==> ReadBefore(s.pending[step.process], s.clock);
    }
  }

  /** Enabled steps one after another: any history at all. */
  ghost predicate Runs(s: State, steps: seq<Step>)
    decreases |steps|
  {
    steps != [] ==> Enabled(s, steps[0]) && Runs(Next(s, steps[0]), steps[1..])
  }

  /** A history in which no renewal ends a live promise early. */
  ghost predicate AllHarmless(s: State, steps: seq<Step>)
    requires Runs(s, steps)
    decreases |steps|
  {
    steps != [] ==> Harmless(s, steps[0]) && AllHarmless(Next(s, steps[0]), steps[1..])
  }

  function After(s: State, steps: seq<Step>): State
    requires Runs(s, steps)
    decreases |steps|
  {
    if steps == [] then s else After(Next(s, steps[0]), steps[1..])
  }

  lemma {:induction false} RunsKeepInv(s: State, steps: seq<Step>)
    requires Inv(s) && Runs(s, steps) && AllHarmless(s, steps)
    ensures Inv(After(s, steps))
    decreases |steps|
  {
    hide Inv, Next, Enabled, Harmless;
    if steps != [] {
      InvIsKept(s, steps[0]);
      RunsKeepInv(Next(s, steps[0]), steps[1..]);
    }
  }

  /** No two granted claims on one subject are ever both unreleased and unexpired. */
  lemma RunsAreExclusive(clock: int, steps: seq<Step>)
    requires Runs(Initial(clock), steps) && AllHarmless(Initial(clock), steps)
    ensures Exclusive(After(Initial(clock), steps))
  {
    hide Next, Enabled, Harmless, Exclusive;
    RunsKeepInv(Initial(clock), steps);
    InvIsExclusive(After(Initial(clock), steps));
  }

  // -- a harmful renewal -----------------------------------------------------------------------

  /**
   Whatever was reached before, a renewal that ends its holder's live promise early lets
   another process in while the first still has its promise.
   */
  lemma ShorteningLetsTwoIn(s: State, p: nat, q: nat)
    requires Inv(s) && Enabled(s, UpdateToRenew(p)) && !Harmless(s, UpdateToRenew(p))
    requires q !in s.pending
    ensures var s1 := Next(s, UpdateToRenew(p));
            var subject := s.pending[p].claim.subject;
            var late := if s.clock < s.pending[p].expiresAt then s.pending[p].expiresAt else s.clock;
            var s2 := Next(s1, Tick(late));
            var s3 := Next(s2, ReadClockToAcquire(q, subject, "q", 1));
            var s4 := Next(s3, ReadRow(q));
            var s5 := Next(s4, InsertOrTakeOver(q));
            !Exclusive(s5)
  {
    var a := s.pending[p];
    var subject := a.claim.subject;
    var gs := GrantsOf(s, subject);
    var n := |gs|;
    assert Covers(s.rows[subject], gs, s.clock);
    var late := if s.clock < a.expiresAt then a.expiresAt else s.clock;
    var s1 := Next(s, UpdateToRenew(p));
    var s2 := Next(s1, Tick(late));
    var s3 := Next(s2, ReadClockToAcquire(q, subject, "q", 1));
    var s4 := Next(s3, ReadRow(q));
    assert "q"[0] in "q" && Named("q");
    var s5 := Next(s4, InsertOrTakeOver(q));
    assert |s5.grants[subject]| == n + 1;
    assert Live(s5.grants[subject][n - 1], s5.clock) && Live(s5.grants[subject][n], s5.clock);
  }

  lemma NoSteps(s: State)
    ensures Runs(s, []) && AllHarmless(s, []) && After(s, []) == s
  {
  }

  lemma OneStepFirst(s: State, step: Step, rest: seq<Step>)
    requires Enabled(s, step) && Harmless(s, step) && Runs(Next(s, step), rest) && AllHarmless(Next(s, step), rest)
    ensures Runs(s, [step] + rest) && AllHarmless(s, [step] + rest)
    ensures After(s, [step] + rest) == After(Next(s, step), rest)
  {
    hide Enabled, Harmless, Next;
    assert ([step] + rest)[1..] == rest;
  }

  /** An owner that acquires for ten and at once renews for five. */
  const OWN_CLAIM := Claim("s", "o", 0, 10, 1)
  const SHORTENING := [
    ReadClockToAcquire(0, "s", "o", 10), ReadRow(0), InsertOrTakeOver(0), ReadClockToRenew(0, OWN_CLAIM, 5)
  ]

  /** A history of four steps, taken one by one. */
  lemma FourSteps(s: State, a: Step, b: Step, c: Step, d: Step)
    requires Enabled(s, a) && Harmless(s, a)
    requires var s1 := Next(s, a); Enabled(s1, b) && Harmless(s1, b)
    requires var s2 := Next(Next(s, a), b); Enabled(s2, c) && Harmless(s2, c)
    requires var s3 := Next(Next(Next(s, a), b), c); Enabled(s3, d) && Harmless(s3, d)
    ensures Runs(s, [a, b, c, d]) && AllHarmless(s, [a, b, c, d])
    ensures After(s, [a, b, c, d]) == Next(Next(Next(Next(s, a), b), c), d)
  {
    hide Enabled, Harmless, Next, Runs, AllHarmless, After;
    var s1, s2, s3 := Next(s, a), Next(Next(s, a), b), Next(Next(Next(s, a), b), c);
    NoSteps(Next(s3, d));
    OneStepFirst(s3, d, []);
    assert [d] + [] == [d];
    OneStepFirst(s2, c, [d]);
    assert [c] + [d] == [c, d];
    OneStepFirst(s1, b, [c, d]);
    assert [b] + [c, d] == [b, c, d];
    OneStepFirst(s, a, [b, c, d]);
    assert [a] + [b, c, d] == [a, b, c, d];
  }

  /** A harmless history from nothing after which the next renewal does harm. */
  lemma ShorteningIsReachable()
    ensures Runs(Initial(0), SHORTENING) && AllHarmless(Initial(0), SHORTENING)
    ensures var s := After(Initial(0), SHORTENING);
            Inv(s) && Enabled(s, UpdateToRenew(0)) && !Harmless(s, UpdateToRenew(0))
  {
    hide Runs, AllHarmless, After, Inv, Covers;
    assert "o"[0] in "o" && Named("o");
    var s3 := Next(Next(Next(Initial(0), SHORTENING[0]), SHORTENING[1]), SHORTENING[2]);
    assert s3.grants["s"] == [Grant("o", 10, false)];
    FourSteps(Initial(0), SHORTENING[0], SHORTENING[1], SHORTENING[2], SHORTENING[3]);
    InitialInv(0);
    RunsKeepInv(Initial(0), SHORTENING);
  }

  lemma InitialInv(clock: int)
    ensures Inv(Initial(clock))
  {
  }

  // -- fencing ---------------------------------------------------------------------------------

  /** A subject's row counts its grants. */
  ghost predicate Counts(s: State) {
    && s.rows.Keys == s.grants.Keys
    && (forall subject | subject in s.rows :: s.rows[subject].token == |s.grants[subject]| >= 1)
  }

  lemma CountsIsKept(s: State, step: Step)
    requires Counts(s) && Enabled(s, step)
    ensures Counts(Next(s, step))
  {
  }

  lemma {:induction false} RunsKeepCounts(s: State, steps: seq<Step>)
    requires Counts(s) && Runs(s, steps)
    ensures Counts(After(s, steps))
    decreases |steps|
  {
    hide Counts, Next, Enabled;
    if steps != [] {
      CountsIsKept(s, steps[0]);
      RunsKeepCounts(Next(s, steps[0]), steps[1..]);
    }
  }

  /** Over every history a subject's stored token is the number of acquisitions ever granted on it. */
  lemma TokenCountsGrants(clock: int, steps: seq<Step>, subject: string)
    requires Runs(Initial(clock), steps)
    ensures var s := After(Initial(clock), steps);
            (if subject in s.rows then s.rows[subject].token else 0) == |GrantsOf(s, subject)|
  {
    hide Next, Enabled;
    RunsKeepCounts(Initial(clock), steps);
  }

  /** One step never takes a grant back or lowers a token, and a grant it adds has the next token. */
  lemma StepGrows(s: State, step: Step, subject: string)
    requires Counts(s) && Enabled(s, step)
    ensures var s' := Next(s, step);
            && |GrantsOf(s, subject)| <= |GrantsOf(s', subject)| <= |GrantsOf(s, subject)| + 1
            && (subject in s.rows ==> subject in s'.rows && s.rows[subject].token <= s'.rows[subject].token)
            && (|GrantsOf(s', subject)| > |GrantsOf(s, subject)| ==>
                  subject in s'.rows && s'.rows[subject].token == |GrantsOf(s, subject)| + 1)
  {
  }

  lemma {:induction false} AfterMore(s: State, steps: seq<Step>, more: seq<Step>)
    requires Runs(s, steps + more)
    ensures Runs(s, steps) && Runs(After(s, steps), more)
    ensures After(s, steps + more) == After(After(s, steps), more)
    decreases |steps|
  {
    hide Next, Enabled;
    if steps == [] {
      assert steps + more == more;
    } else {
      assert (steps + more)[1..] == steps[1..] + more;
      AfterMore(Next(s, steps[0]), steps[1..], more);
    }
  }

  lemma {:induction false} TokensFrom(s: State, steps: seq<Step>, subject: string)
    requires Counts(s) && Runs(s, steps)
    ensures |GrantsOf(s, subject)| <= |GrantsOf(After(s, steps), subject)|
    ensures subject in s.rows ==> subject in After(s, steps).rows && s.rows[subject].token <= After(s, steps).rows[subject].token
    decreases |steps|
  {
    hide Counts, Next, Enabled, GrantsOf;
    if steps != [] {
      StepGrows(s, steps[0], subject);
      CountsIsKept(s, steps[0]);
      TokensFrom(Next(s, steps[0]), steps[1..], subject);
    }
  }

  /** From any point of any history on, tokens and grants only grow, and a grant has the token of its place. */
  lemma TokensOnlyGrow(clock: int, steps: seq<Step>, more: seq<Step>, subject: string)
    requires Runs(Initial(clock), steps + more)
    ensures Runs(Initial(clock), steps)
    ensures var s, later := After(Initial(clock), steps), After(Initial(clock), steps + more);
            && |GrantsOf(s, subject)| <= |GrantsOf(later, subject)|
            && (subject in s.rows ==> subject in later.rows && s.rows[subject].token <= later.rows[subject].token)
            && (|GrantsOf(s, subject)| < |GrantsOf(later, subject)| ==>
                  subject in later.rows && (subject in s.rows ==> s.rows[subject].token < later.rows[subject].token))
  {
    hide Next, Enabled;
    AfterMore(Initial(clock), steps, more);
    RunsKeepCounts(Initial(clock), steps);
    RunsKeepCounts(Initial(clock), steps + more);
    TokensFrom(After(Initial(clock), steps), more, subject);
  }

  /** Once superseded, a claim matches its subject's row never again: it can renew and release nothing. */
  lemma SupersededForever(clock: int, steps: seq<Step>, more: seq<Step>, claim: Claim, now: int, expiresAt: int)
    requires Runs(Initial(clock), steps + more) && Runs(Initial(clock), steps)
    requires var rows := After(Initial(clock), steps).rows;
             claim.subject in rows && claim.token < rows[claim.subject].token
    ensures var rows := After(Initial(clock), steps + more).rows;
            AfterRenew(rows, claim, now, expiresAt) == rows && AfterRelease(rows, claim, now) == rows
  {
    hide Next, Enabled, Runs, After;
    TokensOnlyGrow(clock, steps, more, claim.subject);
  }
}
