/**
 Deploying the published estate: manifests first, then artefacts, then the manifests of what
 was removed.

 DesiredArtefacts and InstallManifests see every active capability, however the pages fall.
 Apply: in every state the host and the manifest store go through together, rolled back or half
 rolled back included, whatever the host shows to cron has a manifest installed at that time.
 */
module Deployments {
  import opened Results
  import opened Faults
  import opened Texts
  import opened Crontabs
  import opened Rendering
  import opened Hosts
  import opened Convergence
  import opened WholeApply
  import opened InstalledSlugs
  import opened Disks
  import opened Managers

  datatype Revision = Revision(deployment: Deployment, digest: Option<string>, schedule: Option<string>)

  datatype Task = Task(id: string, slug: string, name: string, description: string, active: bool, activeRevision: Option<string>)

  /** Capabilities in the order they were created, and revisions by identifier. */
  datatype Database = Database(tasks: seq<Task>, revisions: map<string, Revision>)

  const PAGE_SIZE := 200

  function Active(tasks: seq<Task>): seq<Task> {
    if tasks == [] then []
    else (if tasks[0].active then [tasks[0]] else []) + Active(tasks[1..])
  }

  function ListTasks(db: Database, limit: nat, offset: nat): seq<Task> {
    var all := Active(db.tasks);
    if offset >= |all| then []
    else if offset + limit <= |all| then all[offset..offset + limit]
    else all[offset..]
  }

  /** The published revision, unless none was published or storage lacks it. */
  function PublishedRevision(db: Database, t: Task): Option<Revision> {
    if t.activeRevision.Some? && t.activeRevision.value in db.revisions then Some(db.revisions[t.activeRevision.value]) else None
  }

  predicate IsAlphanumeric(c: char) {
    'a' <= c <= 'z' || 'A' <= c <= 'Z' || '0' <= c <= '9'
  }

  /** A name neither run-parts nor cron.d would ignore. */
  predicate FileSafe(slug: string) {
    (exists c | c in slug :: IsAlphanumeric(c)) && (forall c | c in slug :: IsAlphanumeric(c) || c == '-' || c == '_')
  }

  function ArtefactFrom(t: Task, r: Revision, command: string): Result<Artefact, Fault> {
    if WritesAFile(r.deployment.strategy) && !FileSafe(t.slug) then Err(BadFileName)
    else
      Ok(Artefact(t.id, t.slug, r.deployment, command,
                  if r.digest.Some? then r.digest.value else "unpublished",
                  r.schedule,
                  if t.description != "" then t.description else t.name))
  }

  function Estate(db: Database, commandFor: Task -> string, tasks: seq<Task>): Result<seq<Artefact>, Fault> {
    if tasks == [] then Ok([])
    else
      match PublishedRevision(db, tasks[0])
      case None => Estate(db, commandFor, tasks[1..])
      case Some(revision) =>
        match ArtefactFrom(tasks[0], revision, commandFor(tasks[0]))
        case Err(f) => Err(f)
        case Ok(a) => Added([a], Estate(db, commandFor, tasks[1..]))
  }

  function Added(first: seq<Artefact>, rest: Result<seq<Artefact>, Fault>): Result<seq<Artefact>, Fault> {
    match rest
    case Ok(more) => Ok(first + more)
    case Err(f) => Err(f)
  }

  function PublishedSlugs(db: Database, tasks: seq<Task>): set<string> {
    set i | 0 <= i < |tasks| && PublishedRevision(db, tasks[i]).Some? :: tasks[i].slug
  }

  lemma AddedTwice(a: seq<Artefact>, b: seq<Artefact>, rest: Result<seq<Artefact>, Fault>)
    ensures Added(a, Added(b, rest)) == Added(a + b, rest)
  {
    if rest.Ok? {
      assert a + (b + rest.value) == a + b + rest.value;
    }
  }

  lemma AddedEnds(a: seq<Artefact>, rest: Result<seq<Artefact>, Fault>)
    ensures Added([], rest) == rest && Added(a, Ok([])) == Ok(a)
  {
    assert a + [] == a;
    if rest.Ok? {
      assert [] + rest.value == rest.value;
    }
  }

  /** Every desired slug belongs to a capability whose manifest gets installed. */
  lemma {:induction false} DesiredIsPublished(db: Database, commandFor: Task -> string, tasks: seq<Task>)
    requires Estate(db, commandFor, tasks).Ok?
    ensures forall a | a in Estate(db, commandFor, tasks).value :: a.slug in PublishedSlugs(db, tasks)
  {
    if tasks != [] {
      DesiredIsPublished(db, commandFor, tasks[1..]);
      assert PublishedSlugs(db, tasks[1..]) <= PublishedSlugs(db, tasks) by {
        forall slug | slug in PublishedSlugs(db, tasks[1..]) ensures slug in PublishedSlugs(db, tasks) {
          var i :| 0 <= i < |tasks[1..]| && PublishedRevision(db, tasks[1..][i]).Some? && tasks[1..][i].slug == slug;
          assert tasks[i + 1].slug == slug;
        }
      }
    }
  }

  // -- the estate, read off the database -------------------------------------------------------

  /** An active capability whose active revision is stored. */
  predicate Live(db: Database, t: Task) {
    t.active && t.activeRevision.Some? && t.activeRevision.value in db.revisions
  }

  /** The artefact of a live capability: what it is and calls itself, and how its revision says to deploy it. */
  predicate Represents(db: Database, commandFor: Task -> string, t: Task, a: Artefact)
    requires Live(db, t)
  {
    var revision := db.revisions[t.activeRevision.value];
    && a.id == t.id && a.slug == t.slug && a.command == commandFor(t)
    && a.deployment == revision.deployment && a.schedule == revision.schedule
    && (match revision.digest case Some(digest) => a.digest == digest case None => a.digest == "unpublished")
    && (if t.description == "" then a.description == t.name else a.description == t.description)
  }

  /** A live capability whose name cron would ignore as a file. */
  predicate Misnamed(db: Database, t: Task) {
    && Live(db, t)
    && ((exists c | c in t.slug :: !('a' <= c <= 'z' || 'A' <= c <= 'Z' || '0' <= c <= '9' || c == '-' || c == '_'))
        || (forall c | c in t.slug :: c == '-' || c == '_'))
    && var strategy := db.revisions[t.activeRevision.value].deployment.strategy; strategy.CronDFile? || strategy.RunPartsDirectory?
  }

  predicate Ascending(picks: seq<nat>) {
    forall i, j | 0 <= i < j < |picks| :: picks[i] < picks[j]
  }

  /** Every position is a live capability's, and its artefact stands for it. */
  ghost predicate EachStands(db: Database, commandFor: Task -> string, tasks: seq<Task>, picks: seq<nat>, estate: seq<Artefact>) {
    && |picks| == |estate|
    && forall k | 0 <= k < |picks| ::
         picks[k] < |tasks| && Live(db, tasks[picks[k]]) && Represents(db, commandFor, tasks[picks[k]], estate[k])
  }

  ghost predicate NoneMissed(db: Database, tasks: seq<Task>, picks: seq<nat>) {
    forall i | 0 <= i < |tasks| && Live(db, tasks[i]) :: i in picks
  }

  /** Those positions, ascending: every live capability's and no other's, each with its artefact. */
  ghost predicate Picked(db: Database, commandFor: Task -> string, tasks: seq<Task>, picks: seq<nat>, estate: seq<Artefact>) {
    Ascending(picks) && EachStands(db, commandFor, tasks, picks, estate) && NoneMissed(db, tasks, picks)
  }

  /** One artefact for each live capability, in the order of the database, and nothing else. */
  ghost predicate IsEstate(db: Database, commandFor: Task -> string, estate: seq<Artefact>) {
    exists picks :: Picked(db, commandFor, db.tasks, picks, estate)
  }

  function Moved(picks: seq<nat>): seq<nat> {
    seq(|picks|, k requires 0 <= k < |picks| => picks[k] + 1)
  }

  lemma PickedLater(db: Database, commandFor: Task -> string, tasks: seq<Task>, picks: seq<nat>, estate: seq<Artefact>)
    requires tasks != [] && !Live(db, tasks[0]) && Picked(db, commandFor, tasks[1..], picks, estate)
    ensures Picked(db, commandFor, tasks, Moved(picks), estate)
  {
    hide Represents, Live;
    MovedIndices(db, tasks, picks);
  }

  lemma PickedFirst(db: Database, commandFor: Task -> string, tasks: seq<Task>, picks: seq<nat>, a: Artefact, estate: seq<Artefact>)
    requires tasks != [] && Live(db, tasks[0]) && Represents(db, commandFor, tasks[0], a)
    requires Picked(db, commandFor, tasks[1..], picks, estate)
    ensures Picked(db, commandFor, tasks, [0] + Moved(picks), [a] + estate)
  {
    hide Ascending, EachStands, NoneMissed, Represents, Live;
    FirstAscends(picks);
    FirstStands(db, commandFor, tasks, picks, a, estate);
    FirstNotMissed(db, tasks, picks);
  }

  lemma FirstAscends(picks: seq<nat>)
    requires Ascending(picks)
    ensures Ascending([0] + Moved(picks))
  {
  }

  lemma FirstStands(db: Database, commandFor: Task -> string, tasks: seq<Task>, picks: seq<nat>, a: Artefact, estate: seq<Artefact>)
    requires tasks != [] && Live(db, tasks[0]) && Represents(db, commandFor, tasks[0], a)
    requires EachStands(db, commandFor, tasks[1..], picks, estate)
    ensures EachStands(db, commandFor, tasks, [0] + Moved(picks), [a] + estate)
  {
    hide Represents, Live;
    var all, artefacts := [0] + Moved(picks), [a] + estate;
    forall k | 0 <= k < |all|
      ensures all[k] < |tasks| && Live(db, tasks[all[k]]) && Represents(db, commandFor, tasks[all[k]], artefacts[k])
    {
      if k > 0 {
        assert tasks[1..][picks[k - 1]] == tasks[all[k]] && artefacts[k] == estate[k - 1];
      }
    }
  }

  lemma FirstNotMissed(db: Database, tasks: seq<Task>, picks: seq<nat>)
    requires tasks != [] && NoneMissed(db, tasks[1..], picks)
    ensures NoneMissed(db, tasks, [0] + Moved(picks))
  {
    hide Live, Moved;
    MovedIndices(db, tasks, picks);
    var all := [0] + Moved(picks);
    assert all[0] == 0;
    forall i | 0 <= i < |tasks| && Live(db, tasks[i]) ensures i in all {
      assert i > 0 ==> i in Moved(picks);
    }
  }

  lemma MovedIndices(db: Database, tasks: seq<Task>, picks: seq<nat>)
    requires tasks != [] && forall i | 0 <= i < |tasks[1..]| && Live(db, tasks[1..][i]) :: i in picks
    ensures forall i | 0 < i < |tasks| && Live(db, tasks[i]) :: i in Moved(picks)
  {
    hide Live;
    forall i | 0 < i < |tasks| && Live(db, tasks[i]) ensures i in Moved(picks) {
      assert tasks[1..][i - 1] == tasks[i];
      var k :| 0 <= k < |picks| && picks[k] == i - 1;
      assert Moved(picks)[k] == i;
    }
  }

  /** The estate is just that, and is refused exactly for a misnamed file. */
  lemma {:induction false} EstateMeans(db: Database, commandFor: Task -> string, tasks: seq<Task>)
    ensures var estate := Estate(db, commandFor, Active(tasks));
            && (estate.Ok? ==> exists picks :: Picked(db, commandFor, tasks, picks, estate.value))
            && (estate.Err? <==> exists t | t in tasks :: Misnamed(db, t))
            && (estate.Err? ==> estate.error == BadFileName)
  {
    hide Picked, Misnamed, Moved, ArtefactFrom, Represents;
    if tasks == [] {
      NothingPicked(db, commandFor);
    } else {
      var t, rest := tasks[0], Estate(db, commandFor, Active(tasks[1..]));
      EstateMeans(db, commandFor, tasks[1..]);
      FirstOfEstate(db, commandFor, tasks);
      FirstRepresents(db, commandFor, t);
      assert forall u :: u in tasks <==> u == t || u in tasks[1..];
      if Estate(db, commandFor, Active(tasks)).Ok? {
        var picks :| Picked(db, commandFor, tasks[1..], picks, rest.value);
        if Live(db, t) {
          var a := ArtefactFrom(t, db.revisions[t.activeRevision.value], commandFor(t)).value;
          PickedFirst(db, commandFor, tasks, picks, a, rest.value);
        } else {
          PickedLater(db, commandFor, tasks, picks, rest.value);
        }
      }
    }
  }

  lemma WholeEstate(db: Database, commandFor: Task -> string)
    ensures var estate := Estate(db, commandFor, Active(db.tasks));
            && (estate.Ok? ==> IsEstate(db, commandFor, estate.value))
            && (estate.Err? <==> exists t | t in db.tasks :: Misnamed(db, t))
  {
    hide Picked, Misnamed, Estate, Active;
    EstateMeans(db, commandFor, db.tasks);
  }

  lemma FirstRepresents(db: Database, commandFor: Task -> string, t: Task)
    ensures !Live(db, t) ==> !Misnamed(db, t)
    ensures Live(db, t) ==>
              match ArtefactFrom(t, db.revisions[t.activeRevision.value], commandFor(t))
              case Err(f) => f == BadFileName && Misnamed(db, t)
              case Ok(a) => !Misnamed(db, t) && Represents(db, commandFor, t, a)
  {
  }

  lemma NothingPicked(db: Database, commandFor: Task -> string)
    ensures Picked(db, commandFor, [], [], [])
  {
  }

  lemma FirstOfEstate(db: Database, commandFor: Task -> string, tasks: seq<Task>)
    requires tasks != []
    ensures var t, rest := tasks[0], Estate(db, commandFor, Active(tasks[1..]));
            Estate(db, commandFor, Active(tasks))
            == if !Live(db, t) then rest
               else match ArtefactFrom(t, db.revisions[t.activeRevision.value], commandFor(t))
                    case Err(f) => Err(f)
                    case Ok(a) => Added([a], rest)
  {
    hide ArtefactFrom;
    var later := Active(tasks[1..]);
    assert [] + later == later && ([tasks[0]] + later)[1..] == later;
  }

  /** The slugs of the live capabilities. */
  function LiveSlugs(db: Database): set<string> {
    set t | t in db.tasks && Live(db, t) :: t.slug
  }

  lemma {:induction false} ActiveAre(tasks: seq<Task>)
    ensures forall t :: t in Active(tasks) <==> t in tasks && t.active
  {
    if tasks != [] {
      ActiveAre(tasks[1..]);
      assert forall t :: t in tasks <==> t == tasks[0] || t in tasks[1..];
    }
  }

  lemma PublishedIsLive(db: Database)
    ensures PublishedSlugs(db, Active(db.tasks)) == LiveSlugs(db)
  {
    hide Active;
    ActiveAre(db.tasks);
    var active := Active(db.tasks);
    forall slug ensures slug in PublishedSlugs(db, active) <==> slug in LiveSlugs(db) {
      if slug in PublishedSlugs(db, active) {
        var i :| 0 <= i < |active| && PublishedRevision(db, active[i]).Some? && active[i].slug == slug;
        assert active[i] in db.tasks && Live(db, active[i]);
      }
      if slug in LiveSlugs(db) {
        var t :| t in db.tasks && Live(db, t) && t.slug == slug;
        assert t in active;
        var i :| 0 <= i < |active| && active[i] == t;
        assert PublishedRevision(db, active[i]).Some?;
      }
    }
  }

  /** What a call to the manifest store came to: a call that returns took effect. */
  datatype Outcome = Completed | Failed(tookEffect: bool)

  /** A change of the manifest store: what was installed after it, and what the host held and how often it had changed. */
  datatype Moment = Moment(slugs: set<string>, host: Host, changes: nat)

  /** What was installed when the host changed for the k-th time, after those moments. */
  ghost function InForce(first: set<string>, moments: seq<Moment>, k: nat): set<string>
    decreases |moments|
  {
    if moments == [] then first
    else if moments[|moments| - 1].changes <= k then moments[|moments| - 1].slugs
    else InForce(first, moments[..|moments| - 1], k)
  }

  class Manifests {
    var slugs: set<string>
    var calls: nat
    ghost var trace: seq<Moment>
    ghost const host: Disk
    const outcomes: nat -> Outcome

    constructor (slugs: set<string>, outcomes: nat -> Outcome, ghost host: Disk)
      ensures this.slugs == slugs && this.outcomes == outcomes && this.host == host && trace == []
    {
      this.slugs := slugs;
      this.outcomes := outcomes;
      this.host := host;
      calls := 0;
      trace := [];
    }

    method Install(slug: string) returns (r: Result<(), Fault>)
      modifies this
      ensures trace == old(trace) + [Moment(slugs, host.held, |host.trace|)]
      ensures slugs == old(slugs) || slugs == old(slugs) + {slug}
      ensures r.Ok? ==> slug in slugs
    {
      if outcomes(calls) != Failed(false) {
        slugs := slugs + {slug};
      }
      trace := trace + [Moment(slugs, host.held, |host.trace|)];
      r := if outcomes(calls).Completed? then Ok(()) else Err(StoreFailed);
      calls := calls + 1;
    }

    method Remove(slug: string) returns (r: Result<(), Fault>)
      modifies this
      ensures trace == old(trace) + [Moment(slugs, host.held, |host.trace|)]
      ensures slugs == old(slugs) || slugs == old(slugs) - {slug}
      ensures r.Ok? ==> slug !in slugs
    {
      if outcomes(calls) != Failed(false) {
        slugs := slugs - {slug};
      }
      trace := trace + [Moment(slugs, host.held, |host.trace|)];
      r := if outcomes(calls).Completed? then Ok(()) else Err(StoreFailed);
      calls := calls + 1;
    }

    /** The moments since, all of them while the host was as it is now. */
    ghost predicate StillSince(from: nat)
      reads this, host
    {
      forall k | from <= k < |trace| :: trace[k].host == host.held && trace[k].changes == |host.trace|
    }
  }

  /** Every entry writes cleanly for a published slug with a store here; no two entries disturb each other. */
  predicate Deployable(s: Stores, plan: Plan, published: set<string>) {
    && (forall e | e in plan && !e.change.Unchanged? :: Writable(s, e, published))
    && AllIndependent(Changing(plan))
  }

  class DeploymentService {
    const db: Database
    const commandFor: Task -> string
    const manager: Manager
    const manifests: Manifests

    constructor (db: Database, commandFor: Task -> string, manager: Manager, manifests: Manifests)
      requires manifests.host == manager.disk
      ensures this.db == db && this.commandFor == commandFor && this.manager == manager && this.manifests == manifests && Wired()
    {
      this.db := db;
      this.commandFor := commandFor;
      this.manager := manager;
      this.manifests := manifests;
    }

    /** The host whose changes the manifest store is dated by is the one that is deployed to. */
    ghost predicate Wired() {
      manifests.host == manager.disk
    }

    /** The artefact of every active, published capability, page after page. */
    method DesiredArtefacts() returns (r: Result<seq<Artefact>, Fault>)
      ensures r == Estate(db, commandFor, Active(db.tasks))
      ensures r.Ok? ==> IsEstate(db, commandFor, r.value)
      ensures r.Err? <==> exists t | t in db.tasks :: Misnamed(db, t)
    {
      hide ArtefactFrom, PublishedRevision, Active, IsEstate, Misnamed;
      WholeEstate(db, commandFor);
      var artefacts: seq<Artefact> := [];
      var offset := 0;
      ghost var all := Active(db.tasks);
      assert all[0..] == all;
      AddedEnds([], Estate(db, commandFor, all));
      while true
        invariant offset <= |all|
        invariant Estate(db, commandFor, all) == Added(artefacts, Estate(db, commandFor, all[offset..]))
        decreases |all| - offset
      {
        var page := ListTasks(db, PAGE_SIZE, offset);
        if page == [] {
          AddedEnds(artefacts, Ok([]));
          return Ok(artefacts);
        }
        for i := 0 to |page|
          invariant Estate(db, commandFor, all) == Added(artefacts, Estate(db, commandFor, all[offset + i..]))
        {
          assert page[i] == all[offset + i];
          assert all[offset + i..][0] == page[i] && all[offset + i..][1..] == all[offset + i + 1..];
          var revision := PublishedRevision(db, page[i]);
          if revision.Some? {
            var artefact := ArtefactFrom(page[i], revision.value, commandFor(page[i]));
            if artefact.Err? {
              return Err(artefact.error);
            }
            AddedTwice(artefacts, [artefact.value], Estate(db, commandFor, all[offset + i + 1..]));
            artefacts := artefacts + [artefact.value];
          }
        }
        offset := offset + |page|;
      }
    }

    /** A manifest for every active, published capability, page after page. */
    method InstallManifests() returns (r: Result<(), Fault>)
      modifies manifests
      ensures old(manifests.trace) <= manifests.trace && manifests.StillSince(old(|manifests.trace|))
      ensures old(manifests.slugs) <= manifests.slugs
      ensures forall k | |old(manifests.trace)| <= k < |manifests.trace| :: old(manifests.slugs) <= manifests.trace[k].slugs
      ensures manifests.slugs
           == if |manifests.trace| == |old(manifests.trace)| then old(manifests.slugs) else manifests.trace[|manifests.trace| - 1].slugs
      ensures r.Ok? ==> LiveSlugs(db) <= manifests.slugs
      ensures manifests.slugs <= old(manifests.slugs) + LiveSlugs(db)
    {
      PublishedIsLive(db);
      hide PublishedRevision, Active, LiveSlugs;
      var offset := 0;
      ghost var all := Active(db.tasks);
      while true
        invariant offset <= |all|
        invariant old(manifests.trace) <= manifests.trace && manifests.StillSince(old(|manifests.trace|))
        invariant old(manifests.slugs) <= manifests.slugs <= old(manifests.slugs) + PublishedSlugs(db, all)
        invariant forall k | |old(manifests.trace)| <= k < |manifests.trace| :: old(manifests.slugs) <= manifests.trace[k].slugs
        invariant manifests.slugs
               == if |manifests.trace| == |old(manifests.trace)| then old(manifests.slugs) else manifests.trace[|manifests.trace| - 1].slugs
        invariant forall i | 0 <= i < offset && PublishedRevision(db, all[i]).Some? :: all[i].slug in manifests.slugs
        decreases |all| - offset
      {
        var page := ListTasks(db, PAGE_SIZE, offset);
        if page == [] {
          return Ok(());
        }
        for i := 0 to |page|
          invariant old(manifests.trace) <= manifests.trace && manifests.StillSince(old(|manifests.trace|))
          invariant old(manifests.slugs) <= manifests.slugs <= old(manifests.slugs) + PublishedSlugs(db, all)
          invariant forall k | |old(manifests.trace)| <= k < |manifests.trace| :: old(manifests.slugs) <= manifests.trace[k].slugs
          invariant manifests.slugs
                 == if |manifests.trace| == |old(manifests.trace)| then old(manifests.slugs) else manifests.trace[|manifests.trace| - 1].slugs
          invariant forall j | 0 <= j < offset + i && PublishedRevision(db, all[j]).Some? :: all[j].slug in manifests.slugs
        {
          assert page[i] == all[offset + i];
          if PublishedRevision(db, page[i]).Some? {
            assert page[i].slug in PublishedSlugs(db, all);
            r := manifests.Install(page[i].slug);
            if r.Err? {
              return;
            }
          }
        }
        offset := offset + |page|;
      }
    }

    /** Manifests go only after their artefacts have. */
    method UninstallRemoved(plan: Plan) returns (r: Result<(), Fault>)
      modifies manifests
      ensures old(manifests.trace) <= manifests.trace && manifests.StillSince(old(|manifests.trace|))
      ensures old(Undeployed(manager.stores, manifests.host.held, manifests.slugs, plan)) ==>
                && AllInstalled(manager.stores, manifests.host.held, manifests.slugs)
                && (forall k | |old(manifests.trace)| <= k < |manifests.trace| ::
                      AllInstalled(manager.stores, manifests.trace[k].host, manifests.trace[k].slugs))
      ensures r.Ok? ==> forall e | e in plan && e.change.Remove? :: e.slug !in manifests.slugs
      ensures manifests.slugs <= old(manifests.slugs)
      ensures forall slug | slug in old(manifests.slugs) && slug !in manifests.slugs :: exists e | e in plan && e.change.Remove? :: e.slug == slug
    {
      hide HostInOrder, AllInstalled, Managed;
      for i := 0 to |plan|
        invariant old(manifests.trace) <= manifests.trace && manifests.StillSince(old(|manifests.trace|))
        invariant old(Undeployed(manager.stores, manifests.host.held, manifests.slugs, plan)) ==>
                    && AllInstalled(manager.stores, manifests.host.held, manifests.slugs)
                    && (forall k | |old(manifests.trace)| <= k < |manifests.trace| ::
                          AllInstalled(manager.stores, manifests.trace[k].host, manifests.trace[k].slugs))
        invariant forall j | 0 <= j < i && plan[j].change.Remove? :: plan[j].slug !in manifests.slugs
        invariant manifests.slugs <= old(manifests.slugs)
        invariant forall slug | slug in old(manifests.slugs) && slug !in manifests.slugs :: exists e | e in plan && e.change.Remove? :: e.slug == slug
      {
        if plan[i].change.Remove? {
          StillInstalled(manager.stores, manifests.host.held, manifests.slugs, plan[i].slug);
          assert plan[i] in plan;
          r := manifests.Remove(plan[i].slug);
          if r.Err? {
            return;
          }
        }
      }
      r := Ok(());
    }

    /** A given plan writes published slugs only; a computed one is from distinct, clean artefacts. */
    ghost predicate WellGiven(given: Option<Plan>) {
      match given
      case Some(plan) => Deployable(manager.stores, plan, LiveSlugs(db))
      case None =>
        var estate := Estate(db, commandFor, Active(db.tasks));
        estate.Ok? ==> DistinctSlugsIn(estate.value) && AllClean(estate.value)
    }

    /** The plan to apply: the one given, or one computed from the published estate. */
    function Chosen(given: Option<Plan>, h: Host): Result<Plan, Fault> {
      match given
      case Some(plan) => Ok(plan)
      case None =>
        match Estate(db, commandFor, Active(db.tasks))
        case Err(f) => Err(f)
        case Ok(desired) => PlanFor(manager.stores, h, desired)
    }

    method PlanNow(given: Option<Plan>) returns (r: Result<Plan, Fault>)
      modifies manager.disk`calls
      ensures manager.disk.calls >= old(manager.disk.calls)
      ensures r.Ok? ==> r == Chosen(given, manager.disk.held)
    {
      if given.Some? {
        return Ok(given.value);
      }
      var desired := DesiredArtefacts();
      if desired.Err? {
        return Err(desired.error);
      }
      r := manager.ComputePlan(desired.value);
    }

    /** What was installed when the host changed for the k-th time. */
    ghost function InstalledAt(first: set<string>, from: nat, k: nat): set<string>
      requires from <= |manifests.trace|
      reads manifests
    {
      InForce(first, manifests.trace[from..], k)
    }

    /**
     Install manifests, apply, uninstall.  At every change of the manifest store what the host
     then held, and after every change of the host what it then held, shows to cron only what
     was installed at that time.
     */
    method Apply(given: Option<Plan>) returns (r: Result<ApplyResult, Fault>)
      requires Tidy(manager.disk.held) && Wired()
      modifies manager.disk, manifests
      ensures old(manager.disk.trace) <= manager.disk.trace && old(manifests.trace) <= manifests.trace
      ensures old(Inhabited(manager.stores, manager.disk.held, manifests.slugs)) && WellGiven(given)
              && manager.disk.Atomic(old(manager.disk.calls)) ==>
                && (forall k | |old(manifests.trace)| <= k < |manifests.trace| ::
                      AllInstalled(manager.stores, manifests.trace[k].host, manifests.trace[k].slugs))
                && (forall k | |old(manager.disk.trace)| <= k < |manager.disk.trace| ::
                      AllInstalled(manager.stores, manager.disk.trace[k], InstalledAt(old(manifests.slugs), |old(manifests.trace)|, k)))
                && AllInstalled(manager.stores, manager.disk.held, manifests.slugs)
      ensures forall k | |old(manager.disk.trace)| <= k < |manager.disk.trace| ::
                LiveSlugs(db) <= InstalledAt(old(manifests.slugs), |old(manifests.trace)|, k)
      ensures r.Ok? && r.value.failure.Some? ==> old(manifests.slugs) + LiveSlugs(db) == manifests.slugs
      ensures r.Ok? && r.value.failure.None? ==>
                forall slug :: slug in manifests.slugs <==>
                  && slug in old(manifests.slugs) + LiveSlugs(db)
                  && !exists e | e in r.value.applied && e.change.Remove? :: e.slug == slug
      ensures r.Ok? && manager.disk.Honest(old(manager.disk.calls)) ==>
                && Chosen(given, old(manager.disk.held)).Ok?
                && match ApplyPlan(manager.stores, old(manager.disk.held), Chosen(given, old(manager.disk.held)).value)
                   case Ok(h) =>
                     && r.value.failure.None? && manager.disk.held == h
                     && r.value.applied == Changing(Chosen(given, old(manager.disk.held)).value)
                   case Err(_) => r.value.rolledBack && r.value.failure.Some?
    {
      hide HostInOrder, AllInstalled, Managed, Writable, AllIndependent, Changing, Estate, Inhabited, WellGiven, Chosen, ApplyPlan, InForce,
           LiveSlugs;
      ghost var before, kept, from, changes := manager.disk.held, manifests.slugs, |manifests.trace|, |manager.disk.trace|;
      InhabitedShows(manager.stores, before, kept);
      var plan := PlanNow(given);
      if plan.Err? {
        r := Err(plan.error);
        return;
      }
      var ready := InstallManifests();
      ghost var installed, moments := manifests.slugs, manifests.trace[from..];
      if ready.Err? {
        r := Err(ready.error);
        return;
      }
      PlanIsDeployable(given, plan.value, before, kept, installed);
      var result := manager.Apply(plan.value, installed);
      r := Ok(result);
      ChangingIn(plan.value);
      ghost var mid := |manifests.trace|;
      if result.failure.None? && !result.rolledBack {
        var gone := UninstallRemoved(plan.value);
        if gone.Err? {
          r := Err(gone.error);
        }
      }
      assert manifests.trace[from..] == moments + manifests.trace[mid..];
      forall k | changes <= k < |manager.disk.trace| ensures InstalledAt(kept, from, k) == installed {
        InForceBetween(kept, moments, manifests.trace[mid..], k);
      }
    }

    /** What is in force between moments before and moments after. */
    static lemma {:induction false} InForceBetween(first: set<string>, before: seq<Moment>, after: seq<Moment>, k: nat)
      requires (forall m | m in before :: m.changes <= k) && (forall m | m in after :: m.changes > k)
      ensures InForce(first, before + after, k) == if before == [] then first else before[|before| - 1].slugs
      decreases |after|
    {
      if after == [] {
        assert before + after == before;
        if before != [] {
          assert before[|before| - 1] in before;
        }
      } else {
        var rest := after[..|after| - 1];
        assert after[|after| - 1] in after;
        assert (before + after)[..|before + after| - 1] == before + rest;
        InForceBetween(first, before, rest, k);
      }
    }

    lemma PlanIsDeployable(given: Option<Plan>, plan: Plan, before: Host, kept: set<string>, installed: set<string>)
      requires LiveSlugs(db) <= installed
      requires Chosen(given, before) == Ok(plan)
      ensures Inhabited(manager.stores, before, kept) && WellGiven(given) ==> Deployable(manager.stores, plan, installed)
    {
      PublishedIsLive(db);
      hide HostInOrder, Managed, Estate, PlanFor, PlanOne, PlanDesired, PlanRemovals, Clean, Render, PlaceFor, AllIndependent, Active,
           PublishedSlugs, LiveSlugs;
      if Inhabited(manager.stores, before, kept) && WellGiven(given) {
        if given.None? {
          var desired := Estate(db, commandFor, Active(db.tasks)).value;
          DesiredIsPublished(db, commandFor, Active(db.tasks));
          FreshIsDeployable(manager.stores, before, desired, installed);
        }
      }
    }
  }

  /** A host in order whose every managed slug has an installed manifest. */
  ghost predicate Inhabited(s: Stores, h: Host, slugs: set<string>) {
    HostInOrder(s, h) && forall slug | Managed(s, h, slug) :: slug in slugs
  }

  lemma InhabitedShows(s: Stores, h: Host, slugs: set<string>)
    ensures Inhabited(s, h, slugs) ==> forall more: set<string> | slugs <= more :: AllInstalled(s, h, more)
    ensures Inhabited(s, h, slugs) ==> HostInOrder(s, h)
  {
    hide HostInOrder, AllInstalled, Managed;
    forall more: set<string> | Inhabited(s, h, slugs) && slugs <= more ensures AllInstalled(s, h, more) {
      InstalledIsManaged(s, h, more);
    }
  }

  /** A host in order that shows installed slugs only, from which everything the plan removes is gone. */
  ghost predicate Undeployed(s: Stores, h: Host, slugs: set<string>, plan: Plan) {
    && HostInOrder(s, h) && AllInstalled(s, h, slugs)
    && forall e | e in plan && e.change.Remove? :: !Managed(s, h, e.slug)
  }

  lemma FreshIsDeployable(s: Stores, h: Host, desired: seq<Artefact>, installed: set<string>)
    requires HostInOrder(s, h) && DistinctSlugsIn(desired) && AllClean(desired) && PlanFor(s, h, desired).Ok?
    requires forall a | a in desired :: a.slug in installed
    ensures Deployable(s, PlanFor(s, h, desired).value, installed)
  {
    hide HostInOrder, Managed, PlanOne, PlanDesired, PlanRemovals, Clean, Render, PlaceFor, AllIndependent, Changing, Sound, PlanFor, AllManaged;
    var plan := PlanFor(s, h, desired).value;
    PlanParts(s, h, desired);
    PlannedOneByOne(s, h, desired);
    RemovalsPlanned(s, h, Slugs(desired));
    ChangingIsPending(s, h, desired);
    forall e | e in plan ensures Writable(s, e, installed) {
      var j :| 0 <= j < |plan| && plan[j] == e;
      if j < |desired| {
        assert desired[j] in desired;
        PlannedIsSound(s, h, desired[j]);
      } else {
        assert e in PlanRemovals(s, h, Slugs(desired)).value;
      }
    }
  }

  lemma StillInstalled(s: Stores, h: Host, installed: set<string>, slug: string)
    ensures HostInOrder(s, h) && AllInstalled(s, h, installed) && !Managed(s, h, slug) ==> AllInstalled(s, h, installed - {slug})
  {
    hide HostInOrder, AllInstalled, Managed;
    if HostInOrder(s, h) && AllInstalled(s, h, installed) && !Managed(s, h, slug) {
      ManagedIsInstalled(s, h, installed);
      InstalledIsManaged(s, h, installed - {slug});
    }
  }
}
