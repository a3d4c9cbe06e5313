/**
 Which slugs a host shows to cron, in any state a deployment passes through.

 Unlike the maps of a crontab in order, these are read off the bare scans: a crontab that
 repeats a task id still runs its lines.  Every rewrite shows only slugs that were there
 before and the slug it writes.
 */
module InstalledSlugs {
  import opened Results
  import opened Faults
  import opened Texts
  import opened Markers
  import opened Regions
  import opened RegionLaws
  import opened Blocks
  import opened BlockLaws
  import opened Crontabs
  import opened CrontabRewrites
  import opened Rendering
  import opened Hosts
  import opened Convergence

  /** The regions of a text, whether or not their ids are distinct. */
  function ScannedIn(lines: seq<string>): seq<Region> {
    match ScanIdle(lines, 0)
    case Ok(rs) => rs
    case Err(_) => []
  }

  /** The slugs of every region and every block member of a crontab. */
  function Shown(t: Text): set<string> {
    BySlug(RegionEntries(ScannedIn(t.lines))).Keys + BySlug(MemberEntries(GatheredIn(t.lines))).Keys
  }

  /** What a place shows is among the installed slugs; a file with a region shows its own name. */
  predicate PlaceInstalled(at: Place, t: Text, installed: set<string>) {
    if at.File? then ScannedIn(t.lines) != [] ==> at.name in installed
    else Shown(t) <= installed
  }

  ghost predicate AllInstalled(s: Stores, h: Host, installed: set<string>) {
    && (forall tab | tab in Tabs(s) :: PlaceInstalled(tab, Read(h, tab), installed))
    && (forall dir, name | dir in Dirs(s) :: PlaceInstalled(File(dir, name), Read(h, File(dir, name)), installed))
  }

  lemma ShownInOrder(t: Text)
    requires InOrder(t)
    ensures Shown(t) == RegionMap(t).Keys + MemberMap(t).Keys
  {
    hide KindOf, BySlug, Gather;
  }

  /** On a host in order, every managed slug is installed. */
  lemma ManagedIsInstalled(s: Stores, h: Host, installed: set<string>)
    requires HostInOrder(s, h) && AllInstalled(s, h, installed)
    ensures forall slug | Managed(s, h, slug) :: slug in installed
  {
    hide KindOf, RegionMap, MemberMap, Tabs, Dirs, InOrder, Shown, ScanIdle;
    forall tab | tab in Tabs(s) ensures Shown(Read(h, tab)) == RegionMap(Read(h, tab)).Keys + MemberMap(Read(h, tab)).Keys {
      ShownInOrder(Read(h, tab));
    }
    TabsAreTabs(s);
  }

  /** Managed slugs that are all installed make every place so. */
  lemma InstalledIsManaged(s: Stores, h: Host, installed: set<string>)
    requires HostInOrder(s, h) && forall slug | Managed(s, h, slug) :: slug in installed
    ensures AllInstalled(s, h, installed)
  {
    hide KindOf, RegionMap, MemberMap, Tabs, Dirs, InOrder, Shown, ScanIdle;
    TabsAreTabs(s);
    forall tab | tab in Tabs(s) ensures PlaceInstalled(tab, Read(h, tab), installed) {
      ShownInOrder(Read(h, tab));
      forall slug | slug in Shown(Read(h, tab)) ensures slug in installed {
        assert InTab(Read(h, tab), slug);
        assert Managed(s, h, slug);
      }
    }
    forall dir, name | dir in Dirs(s) ensures PlaceInstalled(File(dir, name), Read(h, File(dir, name)), installed) {
      assert FileInOrder(name, Read(h, File(dir, name)));
      if ScannedIn(Read(h, File(dir, name)).lines) != [] {
        assert MarkedFile(Read(h, File(dir, name)));
        assert Managed(s, h, name);
      }
    }
  }

  lemma EmptyShowsNothing(at: Place, installed: set<string>)
    ensures PlaceInstalled(at, EMPTY, installed)
  {
    EmptyFindsNothing();
    assert NoBlockEdge([]);
    BoundsMean([]);
  }

  // -- writes ----------------------------------------------------------------------------------

  lemma ReplaceShows(t: Text, mark: Mark, lines: seq<string>)
    requires InOrder(t) && IsRegionText(mark, lines) && NoBlockEdge(lines)
    ensures Shown(ReplaceRegion(t, mark.slug, lines).value) <= Shown(t) + {mark.slug}
  {
    hide KindOf, BySlug, Gather, FindRegions, IsRegionText, NoBlockEdge, Updated, BlockBounds, Put, RegionsOf, Flat, ReplaceRegion;
    RegionWritten(t, mark, lines);
    var u := ReplaceRegion(t, mark.slug, lines).value;
    var items := ItemsOf(t);
    ReplaceOnItems(t, items, mark, lines);
    PutIsWise(items, mark, lines);
    PutRegions(items, mark, lines) by { RegionIsSomething(mark, lines); }
    ScannerIsGrammar(u.lines);
    ReadsAgree(t, items);
    ScannedAs(u, Put(items, mark, lines));
    UpdatedEntries(RegionsOf(items, 0), |t.lines|, mark, lines);
    PutIsUpdate(RegionEntries(RegionsOf(items, 0)), Entry(mark, lines));
    ShownInOrder(t);
    SameGathered(t, u);
    RegionMapIs(t);
  }

  lemma ScannedAs(t: Text, items: seq<Item>)
    requires RegionWise(items) && Flat(items) == t.lines
    ensures ScannedIn(t.lines) == RegionsOf(items, 0)
  {
    hide KindOf, Flat, RegionsOf;
    ScanOfItems(items, [], 0);
    assert Flat(items) + [] == t.lines;
    assert RegionsOf(items, 0) + [] == RegionsOf(items, 0);
  }

  lemma SameGathered(t: Text, u: Text)
    requires InOrder(t) && FindMembers(u.lines) == FindMembers(t.lines)
    ensures GatheredIn(u.lines) == GatheredIn(t.lines) == FindMembers(t.lines).value
  {
    hide KindOf, Gather, BlockBounds, FindRegions;
  }

  lemma UpsertShows(t: Text, mark: Mark, lines: seq<string>)
    requires InOrder(t) && IsMemberText(mark, lines) && NoRegionMarker(lines)
    ensures Shown(UpsertMember(t, mark.slug, lines).value) <= Shown(t) + {mark.slug}
  {
    hide KindOf, BySlug, Gather, FindRegions, FindMembers, IsMemberText, NoRegionMarker, Upserted, BlockBounds, UpsertMember,
         RegionMap, MemberMap, InOrder, GatheredIn, ScannedIn;
    MembersFound(t);
    FoundDistinct(t);
    MemberWritten(t, mark, lines);
    var u := UpsertMember(t, mark.slug, lines).value;
    UpsertThenGather(t, mark, lines);
    UpsertedEntries(FindMembers(t.lines).value, mark, lines);
    PutIsUpdate(MemberEntries(FindMembers(t.lines).value), Entry(mark, lines));
    ShownInOrder(t);
    RegionMapIs(t);
    ScannedKeys(u);
  }

  lemma ScannedKeys(t: Text)
    requires FindRegions(t.lines).Ok?
    ensures BySlug(RegionEntries(ScannedIn(t.lines))) == RegionMap(t)
  {
    hide KindOf, BySlug;
  }

  /** An entry that can be written here: rendered cleanly for an installed slug whose target has a store. */
  predicate Writable(s: Stores, e: PlanEntry, installed: set<string>) {
    e.change.Remove?
    || (&& e.artefact.Some? && WriteFor(e, e.artefact.value) && Clean(e.artefact.value)
        && PlaceFor(s, e.artefact.value).Ok? && e.slug in installed)
  }

  lemma WriteShows(s: Stores, h: Host, e: PlanEntry, installed: set<string>)
    requires HostInOrder(s, h) && AllInstalled(s, h, installed) && Writable(s, e, installed) && !e.change.Remove?
    ensures var a := e.artefact.value;
            var at := PlaceFor(s, a).value;
            Rewritten(a, Read(h, at), e.after).Ok? && PlaceInstalled(at, Rewritten(a, Read(h, at), e.after).value, installed)
  {
    hide KindOf, HostInOrder, InOrder, PlaceFor, Clean, Render, Shown, ReplaceRegion, UpsertMember, IsRegionText, IsMemberText,
         NoBlockEdge, NoRegionMarker, Tabs, Dirs, ScannedIn, Tokens;
    var a := e.artefact.value;
    var at := PlaceFor(s, a).value;
    TabOrFile(s, a);
    if !WritesAFile(a.deployment.strategy) {
      HostTab(s, h, at);
      var t := Read(h, at);
      if a.deployment.strategy.CrontabSingleBlock? {
        CleanMember(a);
        MemberWritten(t, MarkFor(a), e.after);
        UpsertShows(t, MarkFor(a), e.after);
      } else {
        CleanRegion(a);
        RegionWritten(t, MarkFor(a), e.after);
        ReplaceShows(t, MarkFor(a), e.after);
      }
    }
  }

  lemma HostTab(s: Stores, h: Host, tab: Place)
    requires HostInOrder(s, h) && tab in Tabs(s)
    ensures InOrder(Read(h, tab)) && !tab.File?
  {
    hide InOrder, FileInOrder;
  }

  lemma TakeOutShows(t: Text, slug: string)
    requires InOrder(t)
    ensures TakeOut(t, slug, slug in RegionMap(t), slug in MemberMap(t)).Ok?
    ensures Shown(TakeOut(t, slug, slug in RegionMap(t), slug in MemberMap(t)).value) <= Shown(t)
  {
    hide KindOf, InOrder, RegionMap, MemberMap, Shown, TakeOut;
    TabRemovalStep(t, slug);
    ShownInOrder(t);
    ShownInOrder(TakeOut(t, slug, slug in RegionMap(t), slug in MemberMap(t)).value);
  }
}
