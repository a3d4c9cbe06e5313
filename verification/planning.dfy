/**
 What a plan and a report say of each artefact, on a host in order.

 PlannedMeans: what the entry of an artefact says.  RefusedWhen: when there is none.
 InspectMeans: what a report finds.  InspectRaises: what it raises instead of reporting.
 */
module Planning {
  import Sequences
  import opened Results
  import opened Faults
  import opened Texts
  import opened Markers
  import opened Regions
  import opened RegionLaws
  import opened Blocks
  import opened BlockLaws
  import opened Crontabs
  import opened CrontabRewrites
  import opened Rendering
  import opened Hosts
  import opened Convergence
  import opened WholeApply
  import opened Placement

  /** The task id under which a spot holds a slug. */
  function Owner(h: Host, spot: Spot, slug: string): Option<string> {
    match spot
    case RegionIn(tab) => IdIn(RegionMap(Read(h, tab)), slug)
    case MemberIn(tab) => IdIn(MemberMap(Read(h, tab)), slug)
    case FileIn(dir) =>
      var file := Read(h, File(dir, slug));
      if MarkedFile(file) then Some(FindRegions(file.lines).value[0].mark.id) else None
  }

  function IdIn(m: map<string, Entry>, slug: string): Option<string> {
    if slug in m then Some(m[slug].mark.id) else None
  }

  lemma OwnedIsHeld(h: Host, spot: Spot, slug: string)
    ensures Owner(h, spot, slug).Some? <==> Held(h, spot, slug).Some?
  {
    hide RegionMap, MemberMap, MarkedFile;
  }

  function PlaceOf(spot: Spot, slug: string): Place {
    match spot
    case RegionIn(tab) => tab
    case MemberIn(tab) => tab
    case FileIn(dir) => File(dir, slug)
  }

  /** Somebody else's: another capability under the same slug, or a file nobody marked. */
  predicate SomebodyElses(h: Host, spot: Spot, a: Artefact) {
    || (Owner(h, spot, a.slug).Some? && Owner(h, spot, a.slug) != Some(a.id))
    || (spot.FileIn? && !MarkedFile(Read(h, File(spot.dir, a.slug))) && !Blank(Read(h, File(spot.dir, a.slug))))
  }

  /** What is current for an artefact, off its own spot. */
  lemma CurrentMeansHeld(s: Stores, h: Host, a: Artefact, spot: Spot)
    requires HostInOrder(s, h) && Belongs(s, a, spot)
    ensures PlaceFor(s, a) == Ok(PlaceOf(spot, a.slug))
    ensures SomebodyElses(h, spot, a) ==> Current(s, h, a).Err? && (Current(s, h, a).error.OtherCapability? || Current(s, h, a).error.UnmarkedFile?)
    ensures !SomebodyElses(h, spot, a) ==>
              Current(s, h, a) == Ok(if Held(h, spot, a.slug).Some? then Held(h, spot, a.slug).value else EMPTY)
  {
    hide KindOf, HostInOrder, FindRegions, RegionMap, MemberMap, CurrentEntry, InOrder, PlaceFor, Tabs, Dirs;
    PlaceMeans(s, a);
    TabOrFile(s, a);
    if spot.FileIn? {
      FileScans(s, h, spot.dir, a.slug);
    } else {
      InOrderAt(s, h, spot.tab);
      CurrentMeans(a, Read(h, spot.tab));
    }
  }

  lemma FileScans(s: Stores, h: Host, dir: Dir, name: string)
    requires HostInOrder(s, h) && dir in Dirs(s)
    ensures FindRegions(Read(h, File(dir, name)).lines).Ok?
  {
    hide FindRegions, InOrder, Tabs, Dirs;
    assert FileInOrder(name, Read(h, File(dir, name)));
  }

  /** The entry planned for an artefact whose spot this is. */
  predicate PlannedFor(h: Host, a: Artefact, spot: Spot, e: PlanEntry) {
    var held := Held(h, spot, a.slug);
    && e.id == a.id && e.slug == a.slug && e.artefact == Some(a) && e.at == PlaceOf(spot, a.slug) && Render(a) == Ok(e.after)
    && e.before == (if held.Some? then held.value else EMPTY)
    && (e.change.Create? <==> held.None?)
    && (e.change.Unchanged? <==> held == Some(Text(e.after, true)))
    && !e.change.Remove?
  }

  lemma HeldIsNotBlank(s: Stores, h: Host, spot: Spot, slug: string)
    requires HostInOrder(s, h) && Configured(s, spot) && Held(h, spot, slug).Some?
    ensures !Blank(Held(h, spot, slug).value)
  {
    hide KindOf, HostInOrder, FindRegions, FindMembers, Tabs, Dirs, RegionMap, MemberMap;
    if spot.FileIn? {
      EmptyFindsNothing();
    } else {
      InOrderAt(s, h, spot.tab);
      EntriesHaveLines(Read(h, spot.tab), slug);
    }
  }

  lemma EntriesHaveLines(t: Text, slug: string)
    requires InOrder(t)
    ensures slug in RegionMap(t) ==> RegionMap(t)[slug].lines != []
    ensures slug in MemberMap(t) ==> MemberMap(t)[slug].lines != []
  {
    hide KindOf, BySlug, FindRegions, BlockBounds, Gather, RegionsOf, OneMember;
    var items := ItemsOf(t);
    RegionsHaveLines(items, 0);
    OneOf(RegionEntries(FindRegions(t.lines).value), slug);
    MembersHaveLines(t);
    OneOf(MemberEntries(FindMembers(t.lines).value), slug);
  }

  lemma MembersHaveLines(t: Text)
    requires FindMembers(t.lines).Ok?
    ensures forall m | m in FindMembers(t.lines).value :: m.lines != []
  {
    hide KindOf, BlockBounds, Gather;
    if BlockBounds(t.lines).value.Some? {
      var (b, e) := BlockBounds(t.lines).value.value;
      var k := GatherMeans(t.lines[b + 1..e]);
    }
  }

  lemma {:induction false} RegionsHaveLines(items: seq<Item>, at: nat)
    ensures forall r | r in RegionsOf(items, at) :: r.lines != []
    decreases |items|
  {
    if items != [] {
      RegionsHaveLines(items[1..], at + |LinesOf(items[0])|);
    }
  }

  lemma {:induction false} OneOf(es: seq<Entry>, slug: string)
    ensures slug in BySlug(es) ==> BySlug(es)[slug] in es
  {
    if es != [] {
      OneOf(es[1..], slug);
    }
  }

  lemma PlannedMeans(s: Stores, h: Host, a: Artefact, spot: Spot)
    requires HostInOrder(s, h) && Belongs(s, a, spot) && PlanOne(s, h, a).Ok?
    ensures PlannedFor(h, a, spot, PlanOne(s, h, a).value)
  {
    hide KindOf, HostInOrder, Render, Current, PlaceFor, Held, SomebodyElses, Belongs, Configured;
    CurrentMeansHeld(s, h, a, spot);
    BelongsIsConfigured(s, a, spot);
    if Held(h, spot, a.slug).Some? {
      HeldIsNotBlank(s, h, spot, a.slug);
    }
    RenderedIsNotEmpty(a);
  }

  lemma BelongsIsConfigured(s: Stores, a: Artefact, spot: Spot)
    requires Belongs(s, a, spot)
    ensures Configured(s, spot)
  {
    hide PlaceFor;
    PlaceMeans(s, a);
    TabOrFile(s, a);
  }

  /** An artefact cannot be planned exactly when it does not render, has no store, or its spot is somebody else's. */
  lemma RefusedWhen(s: Stores, h: Host, a: Artefact)
    requires HostInOrder(s, h)
    ensures PlanOne(s, h, a).Err? <==>
              Render(a).Err? || (forall spot :: !Belongs(s, a, spot)) || exists spot | Belongs(s, a, spot) :: SomebodyElses(h, spot, a)
  {
    hide KindOf, HostInOrder, Render, Current, PlaceFor, Held, SomebodyElses, Belongs, SpotOf;
    SpotMeans(s, a);
    OneSpotEach(s);
    NoSpotNoPlace(s, h, a);
    if SpotOf(s, a).Some? {
      CurrentMeansHeld(s, h, a, SpotOf(s, a).value);
    }
  }

  lemma NoSpotNoPlace(s: Stores, h: Host, a: Artefact)
    ensures SpotOf(s, a).None? ==> Current(s, h, a).Err?
  {
  }

  // -- reports -----------------------------------------------------------------------------------

  /** Only an artefact that does not render or has no store is raised; whatever else is wrong is reported. */
  lemma InspectRaises(s: Stores, h: Host, a: Artefact)
    ensures Inspect(s, h, a).Err? <==> Render(a).Err? || forall at :: !BelongsAt(s, a, at)
  {
    hide Render, PlaceFor, FindRegions, FindMembers, FirstEntry, MemberEntries, RegionEntries;
    PlaceMeans(s, a);
    if PlaceFor(s, a).Ok? {
      ScansFailAmbiguously(s, h, a);
      assert BelongsAt(s, a, PlaceFor(s, a).value);
    }
  }

  /** Every fault of a scan is an ambiguity. */
  lemma FaultsOfScans(lines: seq<string>)
    ensures FindRegions(lines).Err? ==> IsAmbiguity(FindRegions(lines).error)
    ensures FindMembers(lines).Err? ==> IsAmbiguity(FindMembers(lines).error)
  {
    hide KindOf, ScanIdle, BlockBounds, Gather, DistinctIds, DistinctMembers, RegionWise, Flat, NoRegionMarker, Offends;
    if ScanIdle(lines, 0).Err? {
      var f := ScanIdle(lines, 0).error;
      ScanFailsWhen(lines, f);
      var items, rest :| RegionWise(items) && Flat(items) + rest == lines && Breaks(rest, f);
    }
    if BlockBounds(lines).Err? {
      BoundsFailWhen(lines, BlockBounds(lines).error);
      OffencesAre(lines);
    }
  }

  lemma OffencesAre(lines: seq<string>)
    ensures forall i, f | Offends(lines, i, f) :: f == SecondBlock || f == BlockEndWithoutBegin
  {
  }

  lemma ScansFailAmbiguously(s: Stores, h: Host, a: Artefact)
    requires PlaceFor(s, a).Ok?
    ensures Current(s, h, a).Err? ==> IsAmbiguity(Current(s, h, a).error)
  {
    hide KindOf, PlaceFor, FindRegions, FindMembers;
    var at := PlaceFor(s, a).value;
    FaultsOfScans(Read(h, at).lines);
  }

  /** What is found of an artefact at its spot. */
  lemma InspectMeans(s: Stores, h: Host, a: Artefact, spot: Spot)
    requires HostInOrder(s, h) && Belongs(s, a, spot) && Render(a).Ok?
    ensures var at, held := PlaceOf(spot, a.slug), Held(h, spot, a.slug);
            Inspect(s, h, a)
            == Ok(if SomebodyElses(h, spot, a) then [Finding(Ambiguous, at, a.id)]
                  else if held.None? then [Finding(Missing, at, a.id)]
                  else if held != Some(Text(Render(a).value, true)) then [Finding(Modified, at, a.id)]
                  else [])
  {
    hide KindOf, HostInOrder, Render, Current, PlaceFor, Held, SomebodyElses, Belongs, Configured;
    CurrentMeansHeld(s, h, a, spot);
    BelongsIsConfigured(s, a, spot);
    if Held(h, spot, a.slug).Some? {
      HeldIsNotBlank(s, h, spot, a.slug);
    }
  }

  // -- removals ----------------------------------------------------------------------------------

  /** The entry that removes what a crontab holds. */
  function Removal(x: Entry, at: Place): PlanEntry {
    PlanEntry(x.mark.id, x.mark.slug, Remove, at, Text(x.lines, true), [], None)
  }

  /** Of a crontab's entries those not wanted are removed, each as it is and each once, in order. */
  lemma {:induction false} RemovalsAreEntries(es: seq<Entry>, more: seq<Entry>, x: Entry, at: Place, wanted: set<string>)
    ensures RemovalsOf(es + more, at, wanted) == RemovalsOf(es, at, wanted) + RemovalsOf(more, at, wanted)
    ensures RemovalsOf([x], at, wanted) == if x.mark.slug in wanted then [] else [Removal(x, at)]
  {
    assert RemovalsOf([x][1..], at, wanted) == [];
    if es == [] {
      Sequences.NothingFirst(more);
    } else {
      Sequences.HeadOfSum(es, more);
      RemovalsAreEntries(es[1..], more, x, at, wanted);
      Sequences.Assoc(RemovalsOf([es[0]], at, wanted), RemovalsOf(es[1..], at, wanted), RemovalsOf(more, at, wanted));
      assert RemovalsOf([es[0]][1..], at, wanted) == [];
    }
  }
}
