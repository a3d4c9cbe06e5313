/**
 A whole plan applied to the host it was planned on.

 Converges: once a plan has gone through, planning again finds nothing to change.
 SucceedsWhen: it goes through exactly when no crontab it writes already gives one of the
 written task ids to another slug.  FirstDeployment: an empty host takes every clean estate.
 */
module WholeApply {
  import opened Results
  import opened Faults
  import opened Texts
  import opened Markers
  import opened Regions
  import opened Blocks
  import opened Crontabs
  import opened CrontabRewrites
  import opened Rendering
  import opened Hosts
  import opened Convergence

  // -- one entry of either kind ----------------------------------------------------------------

  /** An entry that planning could have made on this host. */
  ghost predicate Sound(s: Stores, h: Host, e: PlanEntry) {
    e.change.Remove?
    || (e.artefact.Some? && WriteFor(e, e.artefact.value) && Clean(e.artefact.value) && Current(s, h, e.artefact.value).Ok?)
  }

  ghost predicate Done(s: Stores, h: Host, e: PlanEntry) {
    if e.change.Remove? then !Managed(s, h, e.slug)
    else e.artefact.Some? && Current(s, h, e.artefact.value) == Ok(Text(e.after, true))
  }

  /** The crontab an entry writes, if it writes one, gives its task id to no other slug. */
  predicate Unblocked(s: Stores, h: Host, e: PlanEntry) {
    match e.artefact
    case None => true
    case Some(a) =>
      e.change.Remove? || WritesAFile(a.deployment.strategy) || PlaceFor(s, a).Err?
      || Fresh(EntriesFor(a, Read(h, PlaceFor(s, a).value)), MarkFor(a))
  }

  lemma EntryStep(s: Stores, h: Host, e: PlanEntry)
    requires HostInOrder(s, h) && Sound(s, h, e)
    ensures ApplyEntry(s, h, e).Ok? <==> Unblocked(s, h, e)
    ensures ApplyEntry(s, h, e).Ok? ==>
              var h' := ApplyEntry(s, h, e).value;
              HostInOrder(s, h') && SameBut(s, h, h', e.slug) && Kept(s, h, h') && Done(s, h', e)
  {
    hide KindOf, HostInOrder, PlaceFor, Clean, Render, EntriesFor, Fresh, ApplyRemoval, Managed, ApplyWrite, CurrentFile,
         CurrentEntry, Unmanaged, RegionMap, MemberMap, OtherEntries;
    if e.change.Remove? {
      RemovalStep(s, h, e.slug);
    } else {
      var a := e.artefact.value;
      if WritesAFile(a.deployment.strategy) {
        TabOrFile(s, a);
        FileWriteStep(s, h, e, a);
        WrittenFileIsOurs(s, h, a);
        OnlyThere(s, h, ApplyEntry(s, h, e).value, PlaceFor(s, a).value);
      } else {
        TabWriteStep(s, h, e, a);
        TabOrFile(s, a);
      }
    }
  }

  lemma WrittenFileIsOurs(s: Stores, h: Host, a: Artefact)
    requires WritesAFile(a.deployment.strategy) && Current(s, h, a).Ok?
    ensures PlaceFor(s, a).Ok? && !Foreign(Read(h, PlaceFor(s, a).value))
  {
    hide KindOf, PlaceFor, FindRegions;
  }

  lemma OnlyThere(s: Stores, h: Host, h': Host, at: Place)
    requires at.File? && h' == h[at := Read(h', at)] && !Foreign(Read(h, at))
    ensures Kept(s, h, h')
  {
    hide KindOf, Unmanaged, MarkedFile, Tabs;
    TabsAreTabs(s);
    forall tab | tab in Tabs(s) ensures Read(h', tab) == Read(h, tab) {
    }
  }

  // -- entries do not disturb each other -------------------------------------------------------

  predicate Independent(e: PlanEntry, f: PlanEntry) {
    (e.change.Remove? && f.change.Remove?) || e.slug != f.slug
  }

  predicate AllIndependent(es: Plan) {
    forall i, j | 0 <= i < j < |es| :: Independent(es[i], es[j])
  }

  ghost predicate Pending(s: Stores, h: Host, es: Plan) {
    AllIndependent(es) && forall e | e in es :: Sound(s, h, e)
  }

  lemma SoundIsKept(s: Stores, h: Host, h': Host, e: PlanEntry, slug: string)
    requires HostInOrder(s, h) && HostInOrder(s, h') && SameBut(s, h, h', slug)
    requires Sound(s, h, e) && (e.change.Remove? || e.slug != slug)
    ensures Sound(s, h', e)
  {
    hide HostInOrder, SameBut, Clean, Current, Render;
    if !e.change.Remove? {
      CurrentIsKept(s, h, h', e.artefact.value, slug);
    }
  }

  lemma DoneIsKept(s: Stores, h: Host, h': Host, e: PlanEntry, slug: string)
    requires HostInOrder(s, h) && HostInOrder(s, h') && SameBut(s, h, h', slug)
    requires Done(s, h, e) && e.slug != slug
    requires e.artefact.Some? ==> e.artefact.value.slug == e.slug
    ensures Done(s, h', e)
  {
    hide HostInOrder, SameBut, Current, Managed;
    if e.change.Remove? {
      ManagedIsKept(s, h, h', slug, e.slug);
    } else {
      CurrentIsKept(s, h, h', e.artefact.value, slug);
    }
  }

  lemma NextPending(s: Stores, h: Host, es: Plan)
    requires HostInOrder(s, h) && es != [] && Pending(s, h, es) && ApplyEntry(s, h, es[0]).Ok?
    ensures Pending(s, ApplyEntry(s, h, es[0]).value, es[1..])
    ensures HostInOrder(s, ApplyEntry(s, h, es[0]).value)
  {
    hide HostInOrder, SameBut, Sound, Done, Unblocked, ApplyEntry, Kept;
    assert Sound(s, h, es[0]);
    EntryStep(s, h, es[0]);
    var h' := ApplyEntry(s, h, es[0]).value;
    forall e | e in es[1..] ensures Sound(s, h', e) {
      var j :| 0 <= j < |es[1..]| && es[1..][j] == e;
      assert Independent(es[0], es[j + 1]) && es[j + 1] in es;
      SoundOrRemoval(e);
      SoundIsKept(s, h, h', e, es[0].slug);
    }
    assert AllIndependent(es[1..]) by {
      forall i, j | 0 <= i < j < |es[1..]| ensures Independent(es[1..][i], es[1..][j]) {
        assert Independent(es[i + 1], es[j + 1]);
      }
    }
  }

  lemma SoundOrRemoval(e: PlanEntry)
    ensures forall s, h :: e.change.Remove? ==> Sound(s, h, e)
  {
  }

  /** What was done for an entry is still so after every later one. */
  lemma {:induction false} StaysDone(s: Stores, h: Host, es: Plan, e: PlanEntry)
    requires HostInOrder(s, h) && Pending(s, h, es) && ApplyAll(s, h, es).Ok?
    requires Done(s, h, e) && forall f | f in es :: Independent(e, f)
    requires e.artefact.Some? ==> e.artefact.value.slug == e.slug
    ensures Done(s, ApplyAll(s, h, es).value, e)
    decreases |es|
  {
    hide HostInOrder, SameBut, Sound, Done, Unblocked, ApplyEntry, Kept, Pending;
    if es != [] {
      FirstIsSound(s, h, es);
      EntryStep(s, h, es[0]);
      NextPending(s, h, es);
      var h1 := ApplyEntry(s, h, es[0]).value;
      if es[0].slug == e.slug {
        assert es[0] in es && Independent(e, es[0]);
        SameRemoval(s, h1, es[0], e);
      } else {
        DoneIsKept(s, h, h1, e, es[0].slug);
      }
      StaysDone(s, h1, es[1..], e);
    }
  }

  lemma FirstIsSound(s: Stores, h: Host, es: Plan)
    requires Pending(s, h, es) && es != []
    ensures Sound(s, h, es[0])
    ensures es[0].artefact.Some? && !es[0].change.Remove? ==> es[0].artefact.value.slug == es[0].slug
  {
    hide Clean, Current, Render;
    assert es[0] in es;
  }

  lemma SameRemoval(s: Stores, h: Host, e: PlanEntry, f: PlanEntry)
    requires Independent(e, f) && e.slug == f.slug && Done(s, h, e)
    ensures Done(s, h, f)
  {
    hide Managed, Current;
  }

  /** Nothing about a slug changes: what is deployed for it, and whether it is managed. */
  ghost predicate SameFor(s: Stores, h: Host, h': Host, slug: string) {
    && (forall a: Artefact | a.slug == slug :: Current(s, h', a) == Current(s, h, a))
    && (Managed(s, h', slug) <==> Managed(s, h, slug))
  }

  lemma {:induction false} UntouchedSlug(s: Stores, h: Host, es: Plan, slug: string)
    requires HostInOrder(s, h) && Pending(s, h, es) && ApplyAll(s, h, es).Ok?
    requires forall e | e in es :: e.slug != slug
    ensures SameFor(s, h, ApplyAll(s, h, es).value, slug)
    decreases |es|
  {
    hide HostInOrder, SameBut, Sound, Done, Unblocked, ApplyEntry, Kept, Pending, Managed, Current;
    if es != [] {
      FirstIsSound(s, h, es);
      EntryStep(s, h, es[0]);
      NextPending(s, h, es);
      var h1 := ApplyEntry(s, h, es[0]).value;
      assert es[0].slug != slug;
      ManagedIsKept(s, h, h1, es[0].slug, slug);
      forall a: Artefact | a.slug == slug ensures Current(s, h1, a) == Current(s, h, a) {
        CurrentIsKept(s, h, h1, a, es[0].slug);
      }
      UntouchedSlug(s, h1, es[1..], slug);
    }
  }

  /** Everything a plan set out to do is so at the end, and nothing unmanaged was altered. */
  lemma {:induction false} AllDone(s: Stores, h: Host, es: Plan)
    requires HostInOrder(s, h) && Pending(s, h, es) && ApplyAll(s, h, es).Ok?
    requires forall e | e in es && e.artefact.Some? :: e.artefact.value.slug == e.slug
    ensures var h' := ApplyAll(s, h, es).value;
            HostInOrder(s, h') && Kept(s, h, h') && forall e | e in es :: Done(s, h', e)
    decreases |es|
  {
    hide HostInOrder, SameBut, Sound, Done, Unblocked, ApplyEntry, Kept, Pending;
    if es == [] {
      KeptRefl(s, h);
    } else {
      FirstIsSound(s, h, es);
      EntryStep(s, h, es[0]);
      NextPending(s, h, es);
      var h1 := ApplyEntry(s, h, es[0]).value;
      AllDone(s, h1, es[1..]);
      var h' := ApplyAll(s, h1, es[1..]).value;
      KeptTrans(s, h, h1, h');
      FirstIndependent(s, h, es);
      StaysDone(s, h1, es[1..], es[0]);
      forall e | e in es ensures Done(s, h', e) {
        assert e == es[0] || e in es[1..];
      }
    }
  }

  lemma FirstIndependent(s: Stores, h: Host, es: Plan)
    requires Pending(s, h, es) && es != []
    ensures forall f | f in es[1..] :: Independent(es[0], f)
  {
    hide Sound;
    forall f | f in es[1..] ensures Independent(es[0], f) {
      var j :| 0 <= j < |es[1..]| && es[1..][j] == f;
      assert Independent(es[0], es[j + 1]);
    }
  }

  lemma KeptRefl(s: Stores, h: Host)
    ensures Kept(s, h, h)
  {
  }

  // -- what planning proposes ------------------------------------------------------------------

  lemma {:induction false} PlannedOneByOne(s: Stores, h: Host, desired: seq<Artefact>)
    ensures PlanDesired(s, h, desired).Ok? <==> forall a | a in desired :: PlanOne(s, h, a).Ok?
    ensures PlanDesired(s, h, desired).Ok? ==>
              && |PlanDesired(s, h, desired).value| == |desired|
              && forall i | 0 <= i < |desired| :: PlanOne(s, h, desired[i]) == Ok(PlanDesired(s, h, desired).value[i])
  {
    hide PlanOne;
    if desired != [] {
      PlannedOneByOne(s, h, desired[1..]);
      assert forall a | a in desired :: a == desired[0] || a in desired[1..];
    }
  }

  lemma {:induction false} RemovalsMean(es: seq<Entry>, at: Place, wanted: set<string>)
    ensures forall e | e in RemovalsOf(es, at, wanted) :: e.change.Remove? && e.artefact.None? && e.slug !in wanted && Has(es, e.slug)
    ensures forall slug | slug !in wanted && Has(es, slug) :: exists e | e in RemovalsOf(es, at, wanted) :: e.slug == slug
  {
    if es != [] {
      RemovalsMean(es[1..], at, wanted);
      var rest := RemovalsOf(es[1..], at, wanted);
      var all := RemovalsOf(es, at, wanted);
      forall slug | slug !in wanted && Has(es, slug) ensures exists e | e in all :: e.slug == slug {
        if es[0].mark.slug == slug {
          assert all[0].slug == slug;
        } else {
          var e :| e in rest && e.slug == slug;
          assert e in all;
        }
      }
    }
  }

  /** Removal entries for unwanted slugs only, and one at least for each that is managed. */
  ghost predicate Removals(es: Plan, wanted: set<string>, managed: iset<string>) {
    && (forall e | e in es :: e.change.Remove? && e.artefact.None? && e.slug !in wanted && e.slug in managed)
    && (forall slug | slug in managed && slug !in wanted :: exists e | e in es :: e.slug == slug)
  }

  lemma RemovalsJoin(a: Plan, b: Plan, wanted: set<string>, m: iset<string>, n: iset<string>)
    requires Removals(a, wanted, m) && Removals(b, wanted, n)
    ensures Removals(a + b, wanted, m + n)
  {
    forall slug | slug in m + n && slug !in wanted ensures exists e | e in a + b :: e.slug == slug {
      if slug in m {
        var e :| e in a && e.slug == slug;
        assert e in a + b;
      } else {
        var e :| e in b && e.slug == slug;
        assert e in a + b;
      }
    }
  }

  ghost predicate InSomeTab(h: Host, tabs: seq<Place>, slug: string) {
    exists tab | tab in tabs :: InTab(Read(h, tab), slug)
  }

  ghost function ManagedInTabs(h: Host, tabs: seq<Place>): iset<string> {
    iset slug | InSomeTab(h, tabs, slug)
  }

  lemma {:induction false} TabRemovalsPlanned(h: Host, tabs: seq<Place>, wanted: set<string>)
    requires forall tab | tab in tabs :: InOrder(Read(h, tab))
    ensures RemovalsInTabs(h, tabs, wanted).Ok?
    ensures Removals(RemovalsInTabs(h, tabs, wanted).value, wanted, ManagedInTabs(h, tabs))
    decreases |tabs|
  {
    hide KindOf, InOrder, FindRegions, FindMembers, RegionMap, MemberMap, InTab, Has, RemovalsOf;
    if tabs != [] {
      TabRemovalsPlanned(h, tabs[1..], wanted);
      var t := Read(h, tabs[0]);
      OneTabPlanned(t, tabs[0], wanted);
      var here := iset slug | InTab(t, slug);
      RemovalsJoin(RemovalsOf(ManagedIn(t).value, tabs[0], wanted), RemovalsInTabs(h, tabs[1..], wanted).value,
                   wanted, here, ManagedInTabs(h, tabs[1..]));
      assert ManagedInTabs(h, tabs) == here + ManagedInTabs(h, tabs[1..]) by {
        assert forall tab | tab in tabs :: tab == tabs[0] || tab in tabs[1..];
      }
    }
  }

  lemma OneTabPlanned(t: Text, at: Place, wanted: set<string>)
    requires InOrder(t)
    ensures ManagedIn(t).Ok?
    ensures Removals(RemovalsOf(ManagedIn(t).value, at, wanted), wanted, iset slug | InTab(t, slug))
  {
    hide KindOf, InOrder, FindRegions, FindMembers, RegionMap, MemberMap, InTab, Has, RemovalsOf;
    forall slug: string ensures ManagedIn(t).Ok? && (Has(ManagedIn(t).value, slug) <==> InTab(t, slug)) {
      HasMeans(t, slug);
    }
    assert ManagedIn(t).Ok? by { HasMeans(t, ""); }
    RemovalsMean(ManagedIn(t).value, at, wanted);
  }

  ghost function ManagedInDir(h: Host, dir: Dir, names: seq<string>): iset<string> {
    iset slug | slug in names && MarkedFile(Read(h, File(dir, slug)))
  }

  lemma {:induction false} DirRemovalsPlanned(h: Host, dir: Dir, names: seq<string>, wanted: set<string>)
    requires forall name | name in names :: FileInOrder(name, Read(h, File(dir, name)))
    ensures RemovalsInDir(h, dir, names, wanted).Ok?
    ensures Removals(RemovalsInDir(h, dir, names, wanted).value, wanted, ManagedInDir(h, dir, names))
    decreases |names|
  {
    hide KindOf, FindRegions;
    if names != [] {
      DirRemovalsPlanned(h, dir, names[1..], wanted);
      var at := File(dir, names[0]);
      assert FileInOrder(at.name, Read(h, at));
      var here := ManagedInDir(h, dir, [names[0]]);
      var first := RemovalOfFile(h, at, wanted).value;
      assert Removals(first, wanted, here) by {
        if at.name !in wanted && MarkedFile(Read(h, at)) {
          assert first[0].slug == names[0];
        }
      }
      RemovalsJoin(first, RemovalsInDir(h, dir, names[1..], wanted).value, wanted, here, ManagedInDir(h, dir, names[1..]));
      assert ManagedInDir(h, dir, names) == here + ManagedInDir(h, dir, names[1..]);
    }
  }

  ghost predicate InSomeDir(h: Host, dirs: seq<Dir>, slug: string) {
    exists dir | dir in dirs :: MarkedFile(Read(h, File(dir, slug)))
  }

  ghost function ManagedInDirs(h: Host, dirs: seq<Dir>): iset<string> {
    iset slug | InSomeDir(h, dirs, slug)
  }

  lemma WholeListing(h: Host, dir: Dir)
    ensures ManagedInDir(h, dir, Listing(h, dir)) == iset slug | MarkedFile(Read(h, File(dir, slug)))
  {
    hide KindOf, FindRegions, Listing;
    EmptyFindsNothing();
  }

  lemma {:induction false} DirsRemovalsPlanned(h: Host, dirs: seq<Dir>, wanted: set<string>)
    requires forall dir, name | dir in dirs :: FileInOrder(name, Read(h, File(dir, name)))
    ensures RemovalsInDirs(h, dirs, wanted).Ok?
    ensures Removals(RemovalsInDirs(h, dirs, wanted).value, wanted, ManagedInDirs(h, dirs))
    decreases |dirs|
  {
    hide KindOf, MarkedFile, FileInOrder, Listing, RemovalsInDir;
    if dirs != [] {
      DirsRemovalsPlanned(h, dirs[1..], wanted);
      var dir := dirs[0];
      DirRemovalsPlanned(h, dir, Listing(h, dir), wanted);
      WholeListing(h, dir);
      var here := iset slug | MarkedFile(Read(h, File(dir, slug)));
      RemovalsJoin(RemovalsInDir(h, dir, Listing(h, dir), wanted).value, RemovalsInDirs(h, dirs[1..], wanted).value,
                   wanted, here, ManagedInDirs(h, dirs[1..]));
      assert ManagedInDirs(h, dirs) == here + ManagedInDirs(h, dirs[1..]) by {
        assert forall d | d in dirs :: d == dir || d in dirs[1..];
      }
    }
  }

  ghost function AllManaged(s: Stores, h: Host): iset<string> {
    iset slug | Managed(s, h, slug)
  }

  /** A host in order never stops removals being planned, and they are exactly the slugs not wanted. */
  lemma RemovalsPlanned(s: Stores, h: Host, wanted: set<string>)
    requires HostInOrder(s, h)
    ensures PlanRemovals(s, h, wanted).Ok?
    ensures Removals(PlanRemovals(s, h, wanted).value, wanted, AllManaged(s, h))
  {
    hide KindOf, InOrder, FileInOrder, MarkedFile, InTab, RemovalsInTabs, RemovalsInDirs, Tabs, Dirs;
    TabRemovalsPlanned(h, Tabs(s), wanted);
    DirsRemovalsPlanned(h, Dirs(s), wanted);
    RemovalsJoin(RemovalsInTabs(h, Tabs(s), wanted).value, RemovalsInDirs(h, Dirs(s), wanted).value, wanted,
                 ManagedInTabs(h, Tabs(s)), ManagedInDirs(h, Dirs(s)));
    assert AllManaged(s, h) == ManagedInTabs(h, Tabs(s)) + ManagedInDirs(h, Dirs(s));
  }

  lemma {:induction false} ChangingIn(es: Plan)
    ensures forall e :: e in Changing(es) <==> e in es && !e.change.Unchanged?
    ensures AllIndependent(es) ==> AllIndependent(Changing(es))
  {
    if es != [] {
      var rest := Changing(es[1..]);
      ChangingIn(es[1..]);
      assert forall e :: e in es <==> e == es[0] || e in es[1..];
      if AllIndependent(es) {
        TailIndependent(es);
        forall i, j | 0 <= i < j < |Changing(es)| ensures Independent(Changing(es)[i], Changing(es)[j]) {
          if es[0].change.Unchanged? {
            assert Changing(es) == rest;
          } else {
            assert Changing(es) == [es[0]] + rest;
            assert rest[j - 1] in es[1..];
            if i > 0 {
              assert Independent(rest[i - 1], rest[j - 1]);
            }
          }
        }
      }
    }
  }

  lemma TailIndependent(es: Plan)
    requires AllIndependent(es) && es != []
    ensures AllIndependent(es[1..]) && forall f | f in es[1..] :: Independent(es[0], f)
  {
    hide Independent;
    forall f | f in es[1..] ensures Independent(es[0], f) {
      var j :| 0 <= j < |es[1..]| && es[1..][j] == f;
      assert Independent(es[0], es[j + 1]);
    }
    forall i, j | 0 <= i < j < |es[1..]| ensures Independent(es[1..][i], es[1..][j]) {
      assert Independent(es[i + 1], es[j + 1]);
    }
  }

  predicate DistinctSlugsIn(desired: seq<Artefact>) {
    forall i, j | 0 <= i < j < |desired| :: desired[i].slug != desired[j].slug
  }

  predicate AllClean(desired: seq<Artefact>) {
    forall a | a in desired :: Clean(a)
  }

  lemma PlannedIsSound(s: Stores, h: Host, a: Artefact)
    requires PlanOne(s, h, a).Ok?
    ensures var e := PlanOne(s, h, a).value;
            && e.slug == a.slug && WriteFor(e, a) && Current(s, h, a).Ok? && PlaceFor(s, a).Ok?
            && (Clean(a) ==> Sound(s, h, e))
            && (e.change.Unchanged? <==> Current(s, h, a) == Ok(Text(e.after, true)))
  {
    hide KindOf, PlaceFor, Render, CurrentFile, CurrentEntry, Clean;
    RenderedIsNotEmpty(a);
  }

  /** A plan is its writes, one for each desired artefact in order, and then its removals. */
  lemma PlanParts(s: Stores, h: Host, desired: seq<Artefact>)
    requires HostInOrder(s, h)
    ensures PlanFor(s, h, desired).Ok? <==> forall a | a in desired :: PlanOne(s, h, a).Ok?
    ensures PlanFor(s, h, desired).Ok? ==>
              && PlanDesired(s, h, desired).Ok? && PlanRemovals(s, h, Slugs(desired)).Ok?
              && PlanFor(s, h, desired).value == PlanDesired(s, h, desired).value + PlanRemovals(s, h, Slugs(desired)).value
  {
    hide HostInOrder, PlanOne, PlanDesired, PlanRemovals;
    PlannedOneByOne(s, h, desired);
    RemovalsPlanned(s, h, Slugs(desired));
  }

  /** A plan begins with one entry for each desired artefact, at the place its deployment asks for. */
  predicate AtTheirPlaces(s: Stores, desired: seq<Artefact>, plan: Plan) {
    |desired| <= |plan| && forall i | 0 <= i < |desired| ::
      plan[i].artefact == Some(desired[i]) && plan[i].slug == desired[i].slug && BelongsAt(s, desired[i], plan[i].at)
  }

  lemma PlannedAtTheirPlaces(s: Stores, h: Host, desired: seq<Artefact>)
    ensures PlanFor(s, h, desired).Ok? ==> AtTheirPlaces(s, desired, PlanFor(s, h, desired).value)
  {
    hide PlanDesired, PlanRemovals, PlanOne;
    if PlanFor(s, h, desired).Ok? {
      PlannedOneByOne(s, h, desired);
      var plan := PlanFor(s, h, desired).value;
      forall i | 0 <= i < |desired|
        ensures plan[i].artefact == Some(desired[i]) && plan[i].slug == desired[i].slug && BelongsAt(s, desired[i], plan[i].at)
      {
        assert plan[i] == PlanDesired(s, h, desired).value[i];
        PlannedAtItsPlace(s, h, desired[i]);
      }
    }
  }

  lemma PlannedAtItsPlace(s: Stores, h: Host, a: Artefact)
    requires PlanOne(s, h, a).Ok?
    ensures var e := PlanOne(s, h, a).value; e.artefact == Some(a) && e.slug == a.slug && BelongsAt(s, a, e.at)
  {
    hide Render, PlaceFor, CurrentFile, CurrentEntry;
    PlaceMeans(s, a);
  }

  lemma PlanIsPending(s: Stores, h: Host, desired: seq<Artefact>)
    requires HostInOrder(s, h) && DistinctSlugsIn(desired) && AllClean(desired) && PlanFor(s, h, desired).Ok?
    ensures Pending(s, h, PlanFor(s, h, desired).value)
    ensures forall e | e in PlanFor(s, h, desired).value && e.artefact.Some? :: e.artefact.value.slug == e.slug
  {
    hide HostInOrder, PlanOne, PlanDesired, PlanRemovals, PlanFor, Sound, AllManaged, Clean, Render;
    PlanParts(s, h, desired);
    PlannedOneByOne(s, h, desired);
    RemovalsPlanned(s, h, Slugs(desired));
    var writes, removals := PlanDesired(s, h, desired).value, PlanRemovals(s, h, Slugs(desired)).value;
    var plan := writes + removals;
    forall i | 0 <= i < |plan|
      ensures Sound(s, h, plan[i]) && (plan[i].artefact.Some? ==> plan[i].artefact.value.slug == plan[i].slug)
      ensures i < |writes| ==> plan[i].slug == desired[i].slug
      ensures i >= |writes| ==> plan[i].change.Remove? && plan[i].slug !in Slugs(desired)
    {
      if i < |writes| {
        assert desired[i] in desired;
        PlannedIsSound(s, h, desired[i]);
      } else {
        assert plan[i] in removals;
        SoundOrRemoval(plan[i]);
      }
    }
    assert forall i, j | 0 <= i < j < |plan| :: Independent(plan[i], plan[j]);
  }

  // -- the main results ------------------------------------------------------------------------

  lemma ChangingIsPending(s: Stores, h: Host, desired: seq<Artefact>)
    requires HostInOrder(s, h) && DistinctSlugsIn(desired) && AllClean(desired) && PlanFor(s, h, desired).Ok?
    ensures var es := Changing(PlanFor(s, h, desired).value);
            Pending(s, h, es) && forall e | e in es && e.artefact.Some? :: e.artefact.value.slug == e.slug
  {
    hide HostInOrder, PlanFor, Sound, AllClean;
    PlanIsPending(s, h, desired);
    ChangingIn(PlanFor(s, h, desired).value);
  }

  lemma DesiredIsDeployed(s: Stores, h: Host, desired: seq<Artefact>, a: Artefact)
    requires HostInOrder(s, h) && DistinctSlugsIn(desired) && AllClean(desired) && PlanFor(s, h, desired).Ok?
    requires ApplyPlan(s, h, PlanFor(s, h, desired).value).Ok? && a in desired
    ensures var h' := ApplyPlan(s, h, PlanFor(s, h, desired).value).value;
            Render(a).Ok? && Current(s, h', a) == Ok(Text(Render(a).value, true))
  {
    hide HostInOrder, PlanOne, PlanDesired, PlanRemovals, PlanFor, Pending, AllManaged, ApplyAll, Current, Render, Managed;
    var plan := PlanFor(s, h, desired).value;
    PlanParts(s, h, desired);
    PlannedOneByOne(s, h, desired);
    RemovalsPlanned(s, h, Slugs(desired));
    ChangingIsPending(s, h, desired);
    ChangingIn(plan);
    var i :| 0 <= i < |desired| && desired[i] == a;
    PlannedIsSound(s, h, a);
    var e := PlanOne(s, h, a).value;
    assert e == plan[i];
    if e.change.Unchanged? {
      forall f | f in Changing(plan) ensures f.slug != a.slug {
        var j :| 0 <= j < |plan| && plan[j] == f;
        if j < |desired| {
          assert desired[j] in desired;
          PlannedIsSound(s, h, desired[j]);
          assert j != i;
        } else {
          assert f in PlanRemovals(s, h, Slugs(desired)).value;
          assert desired[i].slug in Slugs(desired);
        }
      }
      UntouchedSlug(s, h, Changing(plan), a.slug);
    } else {
      AllDone(s, h, Changing(plan));
      assert Done(s, ApplyPlan(s, h, plan).value, e);
    }
  }

  lemma UndesiredIsGone(s: Stores, h: Host, desired: seq<Artefact>, slug: string)
    requires HostInOrder(s, h) && DistinctSlugsIn(desired) && AllClean(desired) && PlanFor(s, h, desired).Ok?
    requires ApplyPlan(s, h, PlanFor(s, h, desired).value).Ok? && slug !in Slugs(desired)
    ensures !Managed(s, ApplyPlan(s, h, PlanFor(s, h, desired).value).value, slug)
  {
    hide HostInOrder, PlanOne, PlanDesired, PlanRemovals, PlanFor, Pending, ApplyAll, Current, Render, Managed;
    var plan := PlanFor(s, h, desired).value;
    PlanParts(s, h, desired);
    PlannedOneByOne(s, h, desired);
    RemovalsPlanned(s, h, Slugs(desired));
    ChangingIsPending(s, h, desired);
    ChangingIn(plan);
    var h' := ApplyPlan(s, h, plan).value;
    AllDone(s, h, Changing(plan));
    if e :| e in Changing(plan) && e.slug == slug {
      var j :| 0 <= j < |plan| && plan[j] == e;
      if j < |desired| {
        assert desired[j] in desired;
        PlannedIsSound(s, h, desired[j]);
        assert false;
      }
      assert e in PlanRemovals(s, h, Slugs(desired)).value;
      assert Done(s, h', e);
    } else {
      UntouchedSlug(s, h, Changing(plan), slug);
    }
  }

  lemma {:induction false} NothingToChange(es: Plan)
    requires forall e | e in es :: e.change.Unchanged?
    ensures Changing(es) == []
  {
    if es != [] {
      NothingToChange(es[1..]);
    }
  }

  lemma SettledPlansNothing(s: Stores, h: Host, desired: seq<Artefact>)
    requires HostInOrder(s, h)
    requires forall a | a in desired :: Render(a).Ok? && Current(s, h, a) == Ok(Text(Render(a).value, true))
    requires forall slug | slug !in Slugs(desired) :: !Managed(s, h, slug)
    ensures PlanFor(s, h, desired).Ok? && Changing(PlanFor(s, h, desired).value) == []
  {
    hide HostInOrder, PlanDesired, PlanRemovals, PlanFor, Current, Render, Managed;
    forall a | a in desired ensures PlanOne(s, h, a).Ok? && PlanOne(s, h, a).value.change.Unchanged? {
      RenderedIsNotEmpty(a);
    }
    PlanParts(s, h, desired);
    PlannedOneByOne(s, h, desired);
    RemovalsPlanned(s, h, Slugs(desired));
    var plan := PlanFor(s, h, desired).value;
    forall e | e in plan ensures e.change.Unchanged? {
      var j :| 0 <= j < |plan| && plan[j] == e;
      if j < |desired| {
        assert desired[j] in desired;
      }
    }
    NothingToChange(plan);
  }

  /**
   Applying a plan that goes through leaves a host in order where planning finds nothing to
   change and no undesired slug is managed; unmanaged lines and other people's files are kept.
   */
  lemma Converges(s: Stores, h: Host, desired: seq<Artefact>)
    requires HostInOrder(s, h) && DistinctSlugsIn(desired) && AllClean(desired) && PlanFor(s, h, desired).Ok?
    requires ApplyPlan(s, h, PlanFor(s, h, desired).value).Ok?
    ensures var h' := ApplyPlan(s, h, PlanFor(s, h, desired).value).value;
            && HostInOrder(s, h')
            && PlanFor(s, h', desired).Ok? && Changing(PlanFor(s, h', desired).value) == []
            && (forall slug | slug !in Slugs(desired) :: !Managed(s, h', slug))
            && Kept(s, h, h')
  {
    hide HostInOrder, PlanFor, ApplyAll, Current, Render, Managed, AllClean, Kept, Pending, Changing;
    var plan := PlanFor(s, h, desired).value;
    ChangingIsPending(s, h, desired);
    AllDone(s, h, Changing(plan));
    var h' := ApplyPlan(s, h, plan).value;
    forall a | a in desired ensures Render(a).Ok? && Current(s, h', a) == Ok(Text(Render(a).value, true)) {
      DesiredIsDeployed(s, h, desired, a);
    }
    forall slug | slug !in Slugs(desired) ensures !Managed(s, h', slug) {
      UndesiredIsGone(s, h, desired, slug);
    }
    SettledPlansNothing(s, h', desired);
  }

  // -- when a plan goes through ----------------------------------------------------------------

  lemma OwnIdChangesNothing(m: map<string, Entry>, own: Mark, lines: seq<string>, other: Mark)
    requires own.slug != other.slug && own.id != other.id
    requires own.slug in m ==> m[own.slug].mark.id == own.id
    ensures Fresh(m[own.slug := Entry(own, lines)], other) <==> Fresh(m, other)
  {
    var u := m[own.slug := Entry(own, lines)];
    if Fresh(m, other) {
      forall slug | slug in u && slug != other.slug ensures u[slug].mark.id != other.id {
        assert slug == own.slug || slug in m;
      }
    }
    if Fresh(u, other) {
      forall slug | slug in m && slug != other.slug ensures m[slug].mark.id != other.id {
        assert slug in u;
      }
    }
  }

  lemma UnblockedIsKept(s: Stores, h: Host, e: PlanEntry, f: PlanEntry)
    requires HostInOrder(s, h) && Sound(s, h, e) && Sound(s, h, f)
    requires !e.change.Remove? && !f.change.Remove? && e.slug != f.slug && e.artefact.value.id != f.artefact.value.id
    requires ApplyEntry(s, h, e).Ok?
    ensures Unblocked(s, ApplyEntry(s, h, e).value, f) <==> Unblocked(s, h, f)
  {
    hide KindOf, HostInOrder, PlaceFor, Clean, Render, Fresh, CurrentEntry, CurrentFile, RegionMap, MemberMap, ApplyWrite, SameBut, InOrder;
    var a, b := e.artefact.value, f.artefact.value;
    TabOrFile(s, a);
    if PlaceFor(s, b).Ok? {
      TabOrFile(s, b);
    }
    if WritesAFile(a.deployment.strategy) {
      FileWriteStep(s, h, e, a);
    } else if !WritesAFile(b.deployment.strategy) && PlaceFor(s, b) == PlaceFor(s, a) {
      TabWriteStep(s, h, e, a);
      var t := Read(h, PlaceFor(s, a).value);
      InOrderAt(s, h, PlaceFor(s, a).value);
      CurrentMeans(a, t);
      OwnIdChangesNothing(EntriesFor(a, t), MarkFor(a), e.after, MarkFor(b));
    } else {
      TabWriteStep(s, h, e, a);
    }
  }

  lemma InOrderAt(s: Stores, h: Host, tab: Place)
    requires HostInOrder(s, h) && tab in Tabs(s)
    ensures InOrder(Read(h, tab))
  {
    hide InOrder, FileInOrder, Tabs;
  }

  predicate MayPrecede(e: PlanEntry, f: PlanEntry) {
    && (e.change.Remove? ==> f.change.Remove?)
    && (e.artefact.Some? && f.artefact.Some? ==> e.artefact.value.id != f.artefact.value.id)
  }

  /** Writes come first, and no two of them are of one task id. */
  predicate WritesFirst(es: Plan) {
    forall i, j | 0 <= i < j < |es| :: MayPrecede(es[i], es[j])
  }

  lemma {:induction false} AppliesWhen(s: Stores, h: Host, es: Plan)
    requires HostInOrder(s, h) && Pending(s, h, es) && WritesFirst(es)
    ensures ApplyAll(s, h, es).Ok? <==> forall e | e in es :: Unblocked(s, h, e)
    decreases |es|
  {
    hide HostInOrder, SameBut, Sound, Done, Unblocked, ApplyEntry, Kept, Pending;
    if es != [] {
      FirstIsSound(s, h, es);
      EntryStep(s, h, es[0]);
      if ApplyEntry(s, h, es[0]).Ok? {
        NextPending(s, h, es);
        var h1 := ApplyEntry(s, h, es[0]).value;
        TailWritesFirst(es);
        AppliesWhen(s, h1, es[1..]);
        forall e | e in es[1..] ensures Unblocked(s, h1, e) <==> Unblocked(s, h, e) {
          RestIsUnblocked(s, h, es, e);
        }
      }
      assert forall e | e in es :: e == es[0] || e in es[1..];
    }
  }

  lemma TailWritesFirst(es: Plan)
    requires WritesFirst(es) && es != []
    ensures WritesFirst(es[1..])
  {
  }

  lemma RestIsUnblocked(s: Stores, h: Host, es: Plan, e: PlanEntry)
    requires HostInOrder(s, h) && Pending(s, h, es) && WritesFirst(es) && es != [] && e in es[1..]
    requires ApplyEntry(s, h, es[0]).Ok?
    ensures Unblocked(s, ApplyEntry(s, h, es[0]).value, e) <==> Unblocked(s, h, e)
  {
    hide HostInOrder, Clean, Render, Current, Unblocked, ApplyEntry;
    var j :| 0 <= j < |es[1..]| && es[1..][j] == e;
    assert es[j + 1] == e && es[j + 1] in es && es[0] in es;
    assert Independent(es[0], es[j + 1]) && MayPrecede(es[0], es[j + 1]);
    if e.change.Remove? {
      RemovalUnblocked(s, h, e);
      RemovalUnblocked(s, ApplyEntry(s, h, es[0]).value, e);
    } else {
      UnblockedIsKept(s, h, es[0], e);
    }
  }

  lemma RemovalUnblocked(s: Stores, h: Host, e: PlanEntry)
    requires e.change.Remove?
    ensures Unblocked(s, h, e)
  {
  }

  predicate DistinctIdsIn(desired: seq<Artefact>) {
    forall i, j | 0 <= i < j < |desired| :: desired[i].id != desired[j].id
  }

  lemma PlanWritesFirst(s: Stores, h: Host, desired: seq<Artefact>)
    requires HostInOrder(s, h) && DistinctIdsIn(desired) && PlanFor(s, h, desired).Ok?
    ensures WritesFirst(Changing(PlanFor(s, h, desired).value))
  {
    hide HostInOrder, PlanOne, PlanDesired, PlanRemovals, PlanFor, AllManaged, Render;
    PlanParts(s, h, desired);
    PlannedOneByOne(s, h, desired);
    RemovalsPlanned(s, h, Slugs(desired));
    var writes, removals := PlanDesired(s, h, desired).value, PlanRemovals(s, h, Slugs(desired)).value;
    var plan := writes + removals;
    forall i | 0 <= i < |plan|
      ensures i < |writes| ==> !plan[i].change.Remove? && plan[i].artefact == Some(desired[i])
      ensures i >= |writes| ==> plan[i].change.Remove? && plan[i].artefact.None?
    {
      if i < |writes| {
        assert desired[i] in desired;
        PlannedIsSound(s, h, desired[i]);
      } else {
        assert plan[i] in removals;
      }
    }
    ChangingWritesFirst(plan);
  }

  lemma {:induction false} ChangingWritesFirst(es: Plan)
    requires WritesFirst(es)
    ensures WritesFirst(Changing(es))
  {
    hide MayPrecede;
    if es != [] {
      var rest := Changing(es[1..]);
      TailWritesFirst(es);
      ChangingWritesFirst(es[1..]);
      ChangingIn(es[1..]);
      forall j | 0 <= j < |rest| ensures MayPrecede(es[0], rest[j]) {
        assert rest[j] in es[1..];
        var k :| 0 <= k < |es[1..]| && es[1..][k] == rest[j];
        assert es[k + 1] == rest[j];
      }
      if es[0].change.Unchanged? {
        assert Changing(es) == rest;
      } else {
        assert Changing(es) == [es[0]] + rest;
      }
    }
  }

  /** No changing artefact's task id is another slug's in the crontab and the shape it is written in. */
  predicate NoIdElsewhere(s: Stores, h: Host, desired: seq<Artefact>) {
    forall a | a in desired && PlanOne(s, h, a).Ok? && !PlanOne(s, h, a).value.change.Unchanged? ::
      Unblocked(s, h, PlanOne(s, h, a).value)
  }

  /** A plan goes through exactly when no task id it writes to a crontab is there under another slug. */
  lemma SucceedsWhen(s: Stores, h: Host, desired: seq<Artefact>)
    requires HostInOrder(s, h) && DistinctSlugsIn(desired) && DistinctIdsIn(desired) && AllClean(desired)
    requires PlanFor(s, h, desired).Ok?
    ensures ApplyPlan(s, h, PlanFor(s, h, desired).value).Ok? <==> NoIdElsewhere(s, h, desired)
  {
    hide HostInOrder, PlanOne, PlanDesired, PlanRemovals, PlanFor, Pending, AllManaged, ApplyAll, Current, Render, Unblocked, WritesFirst;
    var plan := PlanFor(s, h, desired).value;
    PlanParts(s, h, desired);
    PlannedOneByOne(s, h, desired);
    RemovalsPlanned(s, h, Slugs(desired));
    ChangingIsPending(s, h, desired);
    PlanWritesFirst(s, h, desired);
    AppliesWhen(s, h, Changing(plan));
    ChangingIn(plan);
    forall e | e in plan && NoIdElsewhere(s, h, desired) && !e.change.Unchanged? ensures Unblocked(s, h, e) {
      var j :| 0 <= j < |plan| && plan[j] == e;
      if j < |desired| {
        assert desired[j] in desired;
      } else {
        assert e in PlanRemovals(s, h, Slugs(desired)).value;
        RemovalUnblocked(s, h, e);
      }
    }
    forall a | a in desired ensures PlanOne(s, h, a).Ok? && PlanOne(s, h, a).value in plan {
      var j :| 0 <= j < |desired| && desired[j] == a;
      assert plan[j] == PlanOne(s, h, a).value;
    }
  }

  /** A crontab that gives a desired artefact's id to another slug and has nothing under its own takes no plan. */
  lemma IdElsewhereRollsBack(s: Stores, h: Host, desired: seq<Artefact>, a: Artefact, other: string)
    requires HostInOrder(s, h) && DistinctSlugsIn(desired) && DistinctIdsIn(desired) && AllClean(desired)
    requires PlanFor(s, h, desired).Ok? && a in desired && !WritesAFile(a.deployment.strategy)
    requires PlaceFor(s, a).Ok? && other != a.slug
    requires other in EntriesFor(a, Read(h, PlaceFor(s, a).value))
    requires EntriesFor(a, Read(h, PlaceFor(s, a).value))[other].mark.id == a.id
    requires a.slug !in EntriesFor(a, Read(h, PlaceFor(s, a).value))
    ensures ApplyPlan(s, h, PlanFor(s, h, desired).value).Err?
  {
    hide KindOf, HostInOrder, PlanDesired, PlanRemovals, PlanFor, ApplyPlan, Render, CurrentEntry, RegionMap, MemberMap, PlaceFor, AllClean;
    SucceedsWhen(s, h, desired);
    PlanParts(s, h, desired);
    TabOrFile(s, a);
    InOrderAt(s, h, PlaceFor(s, a).value);
    CurrentMeans(a, Read(h, PlaceFor(s, a).value));
    PlannedIsSound(s, h, a);
    assert PlanOne(s, h, a).value.change.Create?;
    assert !Unblocked(s, h, PlanOne(s, h, a).value);
  }

  // -- a first deployment ----------------------------------------------------------------------

  lemma EmptyIsInOrder()
    ensures InOrder(EMPTY) && RegionMap(EMPTY) == map[] && MemberMap(EMPTY) == map[]
  {
    hide KindOf;
    EmptyFindsNothing();
    BoundsMean([]);
    assert NoBlockEdge([]);
  }

  lemma EmptyHost(s: Stores, a: Artefact)
    ensures HostInOrder(s, map[])
    ensures PlaceFor(s, a).Ok? ==> Current(s, map[], a) == Ok(EMPTY)
    ensures PlaceFor(s, a).Ok? ==> Fresh(EntriesFor(a, Read(map[], PlaceFor(s, a).value)), MarkFor(a))
  {
    hide KindOf, FindRegions, FindMembers, PlaceFor, InOrder, Tabs, Dirs, RegionMap, MemberMap, CurrentEntry;
    EmptyFindsNothing();
    EmptyIsInOrder();
    CurrentMeans(a, EMPTY);
  }

  /** An empty host takes every estate whose artefacts render and have a store. */
  lemma FirstDeployment(s: Stores, desired: seq<Artefact>)
    requires DistinctSlugsIn(desired) && DistinctIdsIn(desired) && AllClean(desired)
    requires forall a | a in desired :: Render(a).Ok? && PlaceFor(s, a).Ok?
    ensures HostInOrder(s, map[]) && PlanFor(s, map[], desired).Ok?
    ensures ApplyPlan(s, map[], PlanFor(s, map[], desired).value).Ok?
  {
    hide HostInOrder, PlanDesired, PlanRemovals, PlanFor, ApplyPlan, Current, Render, PlaceFor, Fresh, EntriesFor, AllClean;
    forall a | a in desired
      ensures HostInOrder(s, map[]) && PlanOne(s, map[], a).Ok? && Unblocked(s, map[], PlanOne(s, map[], a).value)
    {
      EmptyHost(s, a);
    }
    assert HostInOrder(s, map[]) by {
      EmptyHost(s, Artefact("", "", Deployment(CronDFile, CronD, None, None), "", "", None, ""));
    }
    PlanParts(s, map[], desired);
    SucceedsWhen(s, map[], desired);
  }
}
