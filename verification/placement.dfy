/**
 Where what is deployed stands after a plan was applied.

 A capability is held at a spot: as a region or as a member of a crontab, or as a file.
 InPlaceWhen: after a successful apply everything held is a desired artefact at its own spot,
 exactly when no desired slug was held at another spot before.  ReshapedIsHeldTwice and
 EditedEntryBlocks are what goes wrong on a host that TaskControl itself deployed.
 */
module Placement {
  import opened Results
  import opened Faults
  import opened Texts
  import opened Markers
  import opened Regions
  import opened Crontabs
  import opened CrontabRewrites
  import opened Rendering
  import opened Hosts
  import opened Convergence
  import opened WholeApply

  datatype Spot = RegionIn(tab: Place) | MemberIn(tab: Place) | FileIn(dir: Dir)

  predicate Configured(s: Stores, spot: Spot) {
    if spot.FileIn? then spot.dir in Dirs(s) else spot.tab in Tabs(s)
  }

  /** Where an artefact is to be held, when its target has a store here. */
  function SpotOf(s: Stores, a: Artefact): Option<Spot> {
    match PlaceFor(s, a)
    case Err(_) => None
    case Ok(at) =>
      if at.File? then Some(FileIn(at.dir))
      else if a.deployment.strategy.CrontabSingleBlock? then Some(MemberIn(at))
      else Some(RegionIn(at))
  }

  /** The spot a deployment asks for: its place, in the shape its strategy asks for. */
  predicate Belongs(s: Stores, a: Artefact, spot: Spot) {
    match spot
    case RegionIn(tab) => a.deployment.strategy.CrontabBlockPerTask? && !tab.File? && BelongsAt(s, a, tab)
    case MemberIn(tab) => a.deployment.strategy.CrontabSingleBlock? && !tab.File? && BelongsAt(s, a, tab)
    case FileIn(dir) => BelongsAt(s, a, File(dir, a.slug))
  }

  lemma SpotMeans(s: Stores, a: Artefact)
    ensures forall spot :: SpotOf(s, a) == Some(spot) <==> Belongs(s, a, spot)
  {
    hide PlaceFor;
    PlaceMeans(s, a);
    forall spot ensures SpotOf(s, a) == Some(spot) <==> Belongs(s, a, spot) {
      match spot {
        case RegionIn(tab) =>
        case MemberIn(tab) =>
        case FileIn(dir) =>
      }
    }
  }

  function LinesFor(m: map<string, Entry>, slug: string): Option<Text> {
    if slug in m then Some(Text(m[slug].lines, true)) else None
  }

  /** What a spot holds of a slug. */
  function Held(h: Host, spot: Spot, slug: string): Option<Text> {
    match spot
    case RegionIn(tab) => LinesFor(RegionMap(Read(h, tab)), slug)
    case MemberIn(tab) => LinesFor(MemberMap(Read(h, tab)), slug)
    case FileIn(dir) =>
      var file := Read(h, File(dir, slug));
      if MarkedFile(file) then Some(file) else None
  }

  lemma HeldIsManaged(s: Stores, h: Host, spot: Spot, slug: string)
    requires Configured(s, spot) && Held(h, spot, slug).Some?
    ensures Managed(s, h, slug)
  {
    hide RegionMap, MemberMap, MarkedFile, Tabs, Dirs;
    if !spot.FileIn? {
      assert InTab(Read(h, spot.tab), slug);
    }
  }

  // -- what applying leaves alone --------------------------------------------------------------

  lemma OthersStay(s: Stores, h: Host, h': Host, spot: Spot, slug: string, other: string)
    requires SameBut(s, h, h', slug) && slug != other && Configured(s, spot)
    ensures Held(h', spot, other) == Held(h, spot, other)
  {
    hide RegionMap, MemberMap, Unmanaged, Tabs, Dirs, MarkedFile;
    if !spot.FileIn? {
      KeptEntry(RegionMap(Read(h, spot.tab)), RegionMap(Read(h', spot.tab)), slug, other);
      KeptEntry(MemberMap(Read(h, spot.tab)), MemberMap(Read(h', spot.tab)), slug, other);
    }
  }

  lemma ElsewhereStays(s: Stores, h: Host, e: PlanEntry, a: Artefact, spot: Spot)
    requires HostInOrder(s, h) && Sound(s, h, e) && ApplyEntry(s, h, e).Ok? && PlaceFor(s, a).Ok?
    requires e.artefact == Some(a) && !e.change.Remove? && Configured(s, spot) && SpotOf(s, a) != Some(spot)
    ensures Held(ApplyEntry(s, h, e).value, spot, a.slug) == Held(h, spot, a.slug)
  {
    hide KindOf, HostInOrder, PlaceFor, Clean, Render, RegionMap, MemberMap, MarkedFile, Current, Tabs, Dirs, ApplyEntry, Fresh, SameBut;
    TabOrFile(s, a);
    if WritesAFile(a.deployment.strategy) {
      FileWriteStep(s, h, e, a);
    } else {
      TabWriteStep(s, h, e, a);
    }
  }

  lemma {:induction false} SpotStays(s: Stores, h: Host, es: Plan, a: Artefact, spot: Spot)
    requires HostInOrder(s, h) && Pending(s, h, es) && ApplyAll(s, h, es).Ok? && PlaceFor(s, a).Ok?
    requires Configured(s, spot) && SpotOf(s, a) != Some(spot)
    requires forall e | e in es && e.slug == a.slug :: e.artefact == Some(a) && !e.change.Remove?
    ensures Held(ApplyAll(s, h, es).value, spot, a.slug) == Held(h, spot, a.slug)
    decreases |es|
  {
    hide HostInOrder, SameBut, Sound, Done, Unblocked, ApplyEntry, Kept, Pending, SpotOf, Configured, Held;
    if es != [] {
      FirstIsSound(s, h, es);
      EntryStep(s, h, es[0]);
      NextPending(s, h, es);
      var h1 := ApplyEntry(s, h, es[0]).value;
      if es[0].slug == a.slug {
        assert es[0] in es;
        ElsewhereStays(s, h, es[0], a, spot);
      } else {
        OthersStay(s, h, h1, spot, es[0].slug, a.slug);
      }
      SpotStays(s, h1, es[1..], a, spot);
    }
  }

  /** What a desired slug is held as at any spot but its own is left exactly as it was. */
  lemma OtherSpotsStay(s: Stores, h: Host, desired: seq<Artefact>, a: Artefact, spot: Spot)
    requires HostInOrder(s, h) && DistinctSlugsIn(desired) && AllClean(desired) && PlanFor(s, h, desired).Ok?
    requires ApplyPlan(s, h, PlanFor(s, h, desired).value).Ok? && a in desired
    requires Configured(s, spot) && SpotOf(s, a) != Some(spot)
    ensures Held(ApplyPlan(s, h, PlanFor(s, h, desired).value).value, spot, a.slug) == Held(h, spot, a.slug)
  {
    hide HostInOrder, PlanOne, PlanDesired, PlanRemovals, PlanFor, Pending, ApplyAll, Current, Render, SpotOf, Configured, Held;
    var plan := PlanFor(s, h, desired).value;
    PlanParts(s, h, desired);
    PlannedOneByOne(s, h, desired);
    RemovalsPlanned(s, h, Slugs(desired));
    ChangingIsPending(s, h, desired);
    ChangingIn(plan);
    PlannedIsSound(s, h, a);
    forall e | e in Changing(plan) && e.slug == a.slug ensures e.artefact == Some(a) && !e.change.Remove? {
      var i :| 0 <= i < |desired| && desired[i] == a;
      var j :| 0 <= j < |plan| && plan[j] == e;
      assert desired[i].slug in Slugs(desired);
      if j < |desired| {
        PlannedIsSound(s, h, desired[j]);
        assert i == j;
      }
    }
    SpotStays(s, h, Changing(plan), a, spot);
  }

  /** What is deployed for an artefact is what its own spot holds. */
  lemma HeldAsDeployed(s: Stores, h: Host, a: Artefact)
    requires HostInOrder(s, h) && Render(a).Ok? && Current(s, h, a) == Ok(Text(Render(a).value, true))
    ensures PlaceFor(s, a).Ok? && Configured(s, SpotOf(s, a).value)
    ensures Held(h, SpotOf(s, a).value, a.slug) == Some(Text(Render(a).value, true))
  {
    hide KindOf, HostInOrder, PlaceFor, Render, FindRegions, RegionMap, MemberMap, Tabs, Dirs, CurrentEntry, InOrder;
    RenderedIsNotEmpty(a);
    TabOrFile(s, a);
    var at := PlaceFor(s, a).value;
    if !WritesAFile(a.deployment.strategy) {
      InOrderAt(s, h, at);
      CurrentMeans(a, Read(h, at));
    }
  }

  // -- when everything is in place -------------------------------------------------------------

  /** Everything held anywhere is a desired artefact at its own spot. */
  ghost predicate InPlace(s: Stores, h: Host, desired: seq<Artefact>) {
    forall slug, spot | Configured(s, spot) && Held(h, spot, slug).Some? ::
      exists a | a in desired :: a.slug == slug && Belongs(s, a, spot)
  }

  /** No desired slug is held at any spot but its own. */
  ghost predicate HeldNowhereElse(s: Stores, h: Host, desired: seq<Artefact>) {
    forall a, spot | a in desired && Configured(s, spot) && !Belongs(s, a, spot) :: Held(h, spot, a.slug).None?
  }

  /**
   After a successful apply every desired artefact is held at its spot as rendered.  Nothing
   else is held exactly when no desired slug was held at another spot before.
   */
  lemma InPlaceWhen(s: Stores, h: Host, desired: seq<Artefact>)
    requires HostInOrder(s, h) && DistinctSlugsIn(desired) && AllClean(desired) && PlanFor(s, h, desired).Ok?
    requires ApplyPlan(s, h, PlanFor(s, h, desired).value).Ok?
    ensures var h' := ApplyPlan(s, h, PlanFor(s, h, desired).value).value;
            && (forall a | a in desired :: Render(a).Ok? && exists spot | Belongs(s, a, spot) && Configured(s, spot) ::
                  Held(h', spot, a.slug) == Some(Text(Render(a).value, true)))
            && (InPlace(s, h', desired) <==> HeldNowhereElse(s, h, desired))
  {
    hide HostInOrder, PlanFor, ApplyPlan, AllClean, Current, Render, Managed, Held, SpotOf, Belongs, Configured, Kept, Changing;
    var h' := ApplyPlan(s, h, PlanFor(s, h, desired).value).value;
    Converges(s, h, desired);
    forall a | a in desired
      ensures Render(a).Ok? && exists spot | Belongs(s, a, spot) && Configured(s, spot) ::
                Held(h', spot, a.slug) == Some(Text(Render(a).value, true))
    {
      DesiredIsDeployed(s, h, desired, a);
      HeldAsDeployed(s, h', a);
      PlacedHasSpot(s, a);
      SpotMeans(s, a);
      assert Belongs(s, a, SpotOf(s, a).value);
    }
    forall a, spot | a in desired && Configured(s, spot) && !Belongs(s, a, spot)
      ensures Held(h', spot, a.slug) == Held(h, spot, a.slug)
    {
      SpotMeans(s, a);
      OtherSpotsStay(s, h, desired, a, spot);
    }
    OneSpotEach(s);
    forall slug, spot | Configured(s, spot) && Held(h', spot, slug).Some? ensures exists a | a in desired :: a.slug == slug {
      HeldIsManaged(s, h', spot, slug);
      var i :| 0 <= i < |desired| && desired[i].slug == slug;
      assert desired[i] in desired;
    }
    SlugsTell(desired);
  }

  lemma PlacedHasSpot(s: Stores, a: Artefact)
    requires PlaceFor(s, a).Ok?
    ensures SpotOf(s, a).Some?
  {
  }

  lemma OneSpotEach(s: Stores)
    ensures forall a, spot, other | Belongs(s, a, spot) && Belongs(s, a, other) :: spot == other
  {
    hide Belongs, SpotOf;
    forall a, spot, other | Belongs(s, a, spot) && Belongs(s, a, other) ensures spot == other {
      SpotMeans(s, a);
    }
  }

  lemma SlugsTell(desired: seq<Artefact>)
    requires DistinctSlugsIn(desired)
    ensures forall a, b | a in desired && b in desired && a.slug == b.slug :: a == b
  {
  }

  // -- two hosts TaskControl deployed itself -----------------------------------------------------

  /** Planning and applying in one. */
  function Deployed(s: Stores, h: Host, desired: seq<Artefact>): Result<Host, Fault> {
    match PlanFor(s, h, desired)
    case Err(e) => Err(e)
    case Ok(plan) => ApplyPlan(s, h, plan)
  }

  /** After the first deployment of one artefact it is all that is managed, and it stands as rendered. */
  lemma AfterFirst(s: Stores, a: Artefact)
    requires Clean(a) && Render(a).Ok? && PlaceFor(s, a).Ok?
    ensures HostInOrder(s, map[]) && PlanFor(s, map[], [a]).Ok? && Deployed(s, map[], [a]).Ok?
    ensures var h := Deployed(s, map[], [a]).value;
            && HostInOrder(s, h) && Current(s, h, a) == Ok(Text(Render(a).value, true))
            && (forall slug | slug != a.slug :: !Managed(s, h, slug))
  {
    hide HostInOrder, PlanFor, ApplyPlan, Clean, Current, Render, Managed, Kept, Changing;
    FirstDeployment(s, [a]);
    Converges(s, map[], [a]);
    DesiredIsDeployed(s, map[], [a], a);
  }

  /** Where one slug is all that is managed, no id is another slug's, and another slug finds nothing of its own. */
  lemma OneSlugThere(s: Stores, h: Host, a: Artefact, slug: string)
    requires HostInOrder(s, h) && forall other | other != slug :: !Managed(s, h, other)
    requires PlaceFor(s, a).Ok? && !WritesAFile(a.deployment.strategy)
    ensures forall other | other in EntriesFor(a, Read(h, PlaceFor(s, a).value)) :: other == slug
    ensures a.slug !in EntriesFor(a, Read(h, PlaceFor(s, a).value)) ==> Current(s, h, a) == Ok(EMPTY)
  {
    hide KindOf, HostInOrder, PlaceFor, Render, RegionMap, MemberMap, Tabs, Dirs, CurrentEntry, InOrder, MarkedFile;
    TabOrFile(s, a);
    var at := PlaceFor(s, a).value;
    InOrderAt(s, h, at);
    CurrentMeans(a, Read(h, at));
    forall other | other in EntriesFor(a, Read(h, at)) ensures other == slug {
      assert InTab(Read(h, at), other);
      assert Managed(s, h, other);
    }
  }

  /** What blocks nothing and has nothing there yet is deployed. */
  lemma AddsToOne(s: Stores, h: Host, a: Artefact)
    requires HostInOrder(s, h) && (forall other | other != a.slug :: !Managed(s, h, other))
    requires Clean(a) && Render(a).Ok? && PlaceFor(s, a).Ok? && !WritesAFile(a.deployment.strategy)
    requires a.slug !in EntriesFor(a, Read(h, PlaceFor(s, a).value))
    ensures PlanFor(s, h, [a]).Ok? && Deployed(s, h, [a]).Ok?
  {
    hide KindOf, HostInOrder, PlanFor, ApplyPlan, Clean, Managed, EntriesFor, PlaceFor, Render, Current;
    OneSlugThere(s, h, a, a.slug);
    assert PlanOne(s, h, a).Ok?;
    PlanParts(s, h, [a]);
    SucceedsWhen(s, h, [a]);
  }

  /** The same capability, in the shared block of its crontab. */
  function Reshaped(a: Artefact): Artefact {
    a.(deployment := a.deployment.(strategy := CrontabSingleBlock))
  }

  lemma ReshapedRenders(s: Stores, a: Artefact)
    requires a.deployment.strategy.CrontabBlockPerTask?
    ensures Render(Reshaped(a)).Ok? <==> Render(a).Ok?
    ensures PlaceFor(s, Reshaped(a)) == PlaceFor(s, a)
  {
    hide DescriptionLines, Physical, BeginMarker, EndMarker, MemberMarker;
  }

  /**
   A capability deployed with a region of its own and then given a place in the shared block
   of the same crontab: both deployments go through, and cron has it twice.
   */
  lemma ReshapedIsHeldTwice(s: Stores, a: Artefact)
    requires a.deployment.strategy.CrontabBlockPerTask? && Clean(a) && Clean(Reshaped(a)) && Render(a).Ok? && PlaceFor(s, a).Ok?
    ensures Deployed(s, map[], [a]).Ok? && Deployed(s, Deployed(s, map[], [a]).value, [Reshaped(a)]).Ok?
    ensures var tab := Read(Deployed(s, Deployed(s, map[], [a]).value, [Reshaped(a)]).value, PlaceFor(s, a).value);
            a.slug in RegionMap(tab) && a.slug in MemberMap(tab)
  {
    hide KindOf, HostInOrder, PlanFor, ApplyPlan, Clean, Current, Managed, RegionMap, MemberMap, PlaceFor, Tabs, Render, CurrentEntry, Kept,
         Changing;
    var b := Reshaped(a);
    AfterFirst(s, a);
    var h := Deployed(s, map[], [a]).value;
    ReshapedRenders(s, a);
    TabOrFile(s, a);
    EmptyIsInOrder();
    OtherSpotsStay(s, map[], [a], a, MemberIn(PlaceFor(s, a).value));
    AddsToOne(s, h, b);
    var h' := Deployed(s, h, [b]).value;
    HeldAsDeployed(s, h, a);
    DesiredIsDeployed(s, h, [b], b);
    Converges(s, h, [b]);
    HeldAsDeployed(s, h', b);
    OtherSpotsStay(s, h, [b], b, RegionIn(PlaceFor(s, a).value));
    assert b in [b];
  }

  /**
   A crontab entry whose slug was edited by hand, read as what deploying that slug leaves: the
   capability it belongs to can be planned there and not applied.
   */
  lemma EditedEntryBlocks(s: Stores, a: Artefact, edited: string)
    requires !WritesAFile(a.deployment.strategy) && edited != a.slug && Clean(a) && Clean(a.(slug := edited))
    requires Render(a).Ok? && Render(a.(slug := edited)).Ok? && PlaceFor(s, a).Ok? && PlaceFor(s, a.(slug := edited)) == PlaceFor(s, a)
    ensures Deployed(s, map[], [a.(slug := edited)]).Ok?
    ensures var h := Deployed(s, map[], [a.(slug := edited)]).value;
            PlanFor(s, h, [a]).Ok? && ApplyPlan(s, h, PlanFor(s, h, [a]).value).Err?
  {
    hide KindOf, HostInOrder, PlanFor, ApplyPlan, Clean, Managed, EntriesFor, PlaceFor, Render, Current;
    var b := a.(slug := edited);
    AfterFirst(s, b);
    var h := Deployed(s, map[], [b]).value;
    OneSlugThere(s, h, a, edited);
    EditedIsThere(s, h, a, b);
    assert PlanOne(s, h, a).Ok?;
    PlanParts(s, h, [a]);
    IdElsewhereRollsBack(s, h, [a], a, edited);
  }

  lemma EditedIsThere(s: Stores, h: Host, a: Artefact, b: Artefact)
    requires HostInOrder(s, h) && b == a.(slug := b.slug) && PlaceFor(s, b).Ok? && PlaceFor(s, b) == PlaceFor(s, a)
    requires !WritesAFile(a.deployment.strategy) && Render(b).Ok? && Current(s, h, b) == Ok(Text(Render(b).value, true))
    ensures var entries := EntriesFor(a, Read(h, PlaceFor(s, a).value)); b.slug in entries && entries[b.slug].mark.id == a.id
  {
    hide KindOf, HostInOrder, PlaceFor, Render, RegionMap, MemberMap, Tabs, CurrentEntry, InOrder;
    TabOrFile(s, b);
    InOrderAt(s, h, PlaceFor(s, b).value);
    CurrentMeans(b, Read(h, PlaceFor(s, b).value));
    RenderedIsNotEmpty(b);
  }

  // -- an ordinary capability --------------------------------------------------------------------

  function Example(slug: string): Artefact {
    Artefact("1", slug, Deployment(CrontabBlockPerTask, UserCrontab, None, None), "true", "d", Some("* * * * *"), "")
  }

  lemma ExampleIsClean(slug: string)
    requires IsToken(slug)
    ensures Clean(Example(slug)) && Clean(Reshaped(Example(slug))) && Render(Example(slug)).Ok?
    ensures PlaceFor(Stores(true, false, false, []), Example(slug)) == Ok(UserTab)
  {
    hide Clean;
    OrdinaryIsClean(Example(slug));
    OrdinaryIsClean(Reshaped(Example(slug)));
  }

  /** Both happen to an ordinary capability in a user's crontab. */
  lemma OrdinaryInstances()
    ensures var s, a := Stores(true, false, false, []), Example("nightly");
            && Deployed(s, map[], [a]).Ok? && Deployed(s, Deployed(s, map[], [a]).value, [Reshaped(a)]).Ok?
            && var tab := Read(Deployed(s, Deployed(s, map[], [a]).value, [Reshaped(a)]).value, UserTab);
               "nightly" in RegionMap(tab) && "nightly" in MemberMap(tab)
    ensures var s, a := Stores(true, false, false, []), Example("nightly");
            && Deployed(s, map[], [Example("weekly")]).Ok?
            && var h := Deployed(s, map[], [Example("weekly")]).value; PlanFor(s, h, [a]).Ok? && Deployed(s, h, [a]).Err?
  {
    hide Clean, Render, PlanFor, ApplyPlan, RegionMap, MemberMap;
    ExampleIsClean("nightly");
    ExampleIsClean("weekly");
    ReshapedIsHeldTwice(Stores(true, false, false, []), Example("nightly"));
    EditedEntryBlocks(Stores(true, false, false, []), Example("nightly"), "weekly");
  }
}
