/**
 Applying a plan on stores that hold what was last written: it converges, it keeps every
 unmanaged line and every unmarked file, and when it goes through at all.
 */
module Convergence {
  import opened Results
  import opened Faults
  import opened Texts
  import opened Markers
  import opened Regions
  import opened RegionLaws
  import opened Blocks
  import opened BlockLaws
  import opened Crontabs
  import opened CrontabRewrites
  import opened Rendering
  import opened Hosts

  // -- hosts in order --------------------------------------------------------------------------

  /** A file with managed content holds one region, named after the file. */
  predicate FileInOrder(name: string, t: Text) {
    match FindRegions(t.lines)
    case Err(_) => false
    case Ok(rs) => rs == [] || (|rs| == 1 && rs[0].mark.slug == name)
  }

  ghost predicate HostInOrder(s: Stores, h: Host) {
    && (forall tab | tab in Tabs(s) :: InOrder(Read(h, tab)))
    && (forall dir, name | dir in Dirs(s) :: FileInOrder(name, Read(h, File(dir, name))))
  }

  predicate MarkedFile(t: Text) {
    FindRegions(t.lines).Ok? && FindRegions(t.lines).value != []
  }

  predicate InTab(t: Text, slug: string) {
    slug in RegionMap(t) || slug in MemberMap(t)
  }

  /** The slug is managed somewhere on the host. */
  ghost predicate Managed(s: Stores, h: Host, slug: string) {
    || (exists tab | tab in Tabs(s) :: InTab(Read(h, tab), slug))
    || (exists dir | dir in Dirs(s) :: MarkedFile(Read(h, File(dir, slug))))
  }

  /** Nothing differs but what one slug manages: no other entry, no unmanaged line, no other file. */
  ghost predicate SameBut(s: Stores, h: Host, h': Host, slug: string) {
    && (forall tab | tab in Tabs(s) ::
          && RegionMap(Read(h', tab)) - {slug} == RegionMap(Read(h, tab)) - {slug}
          && MemberMap(Read(h', tab)) - {slug} == MemberMap(Read(h, tab)) - {slug}
          && Unmanaged(Read(h', tab)) == Unmanaged(Read(h, tab)))
    && (forall dir, name | name != slug :: Read(h', File(dir, name)) == Read(h, File(dir, name)))
  }

  lemma SameButTrans(s: Stores, h: Host, h1: Host, h2: Host, slug: string)
    requires SameBut(s, h, h1, slug) && SameBut(s, h1, h2, slug)
    ensures SameBut(s, h, h2, slug)
  {
    hide RegionMap, MemberMap, Unmanaged, Tabs;
  }

  lemma {:induction false} FirstIsBySlug(es: seq<Entry>, slug: string)
    ensures FirstEntry(es, slug) == if slug in BySlug(es) then Some(BySlug(es)[slug]) else None
  {
    if es != [] {
      FirstIsBySlug(es[1..], slug);
    }
  }

  /** The entry an artefact is compared with, out of the map of its shape. */
  function EntriesFor(a: Artefact, t: Text): map<string, Entry> {
    if a.deployment.strategy.CrontabSingleBlock? then MemberMap(t) else RegionMap(t)
  }

  function OtherEntries(a: Artefact, t: Text): map<string, Entry> {
    if a.deployment.strategy.CrontabSingleBlock? then RegionMap(t) else MemberMap(t)
  }

  lemma CurrentMeans(a: Artefact, t: Text)
    requires InOrder(t)
    ensures CurrentEntry(a, t)
         == if a.slug in EntriesFor(a, t) then SameCapability(a, EntriesFor(a, t)[a.slug]) else Ok(EMPTY)
  {
    hide KindOf, FindRegions, FindMembers, BySlug, FirstEntry;
    FirstIsBySlug(RegionEntries(FindRegions(t.lines).value), a.slug);
    FirstIsBySlug(MemberEntries(FindMembers(t.lines).value), a.slug);
  }

  lemma TabOrFile(s: Stores, a: Artefact)
    requires PlaceFor(s, a).Ok?
    ensures WritesAFile(a.deployment.strategy) ==>
              PlaceFor(s, a).value.File? && PlaceFor(s, a).value.dir in Dirs(s) && PlaceFor(s, a).value.name == a.slug
    ensures !WritesAFile(a.deployment.strategy) ==> PlaceFor(s, a).value in Tabs(s)
    ensures forall tab | tab in Tabs(s) :: !tab.File?
  {
  }

  /** What another slug changes does not show in what is deployed for this one. */
  lemma CurrentIsKept(s: Stores, h: Host, h': Host, a: Artefact, slug: string)
    requires HostInOrder(s, h) && HostInOrder(s, h') && SameBut(s, h, h', slug)
    requires a.slug != slug
    ensures Current(s, h', a) == Current(s, h, a)
  {
    hide KindOf, InOrder, FindRegions, FindMembers, RegionMap, MemberMap, Unmanaged, CurrentEntry, CurrentFile, PlaceFor, Tabs, Dirs;
    if PlaceFor(s, a).Ok? {
      TabOrFile(s, a);
      var at := PlaceFor(s, a).value;
      if !WritesAFile(a.deployment.strategy) {
        var t, u := Read(h, at), Read(h', at);
        CurrentMeans(a, t);
        CurrentMeans(a, u);
        KeptEntry(RegionMap(t), RegionMap(u), slug, a.slug);
        KeptEntry(MemberMap(t), MemberMap(u), slug, a.slug);
      }
    }
  }

  lemma KeptEntry(m: map<string, Entry>, m': map<string, Entry>, slug: string, other: string)
    requires m - {slug} == m' - {slug} && other != slug
    ensures other in m <==> other in m'
    ensures other in m ==> m[other] == m'[other]
  {
    assert other in m <==> other in m - {slug};
    assert other in m' <==> other in m' - {slug};
    if other in m {
      assert (m - {slug})[other] == m[other];
      assert (m' - {slug})[other] == m'[other];
    }
  }

  lemma ManagedIsKept(s: Stores, h: Host, h': Host, slug: string, other: string)
    requires SameBut(s, h, h', slug) && other != slug
    ensures Managed(s, h', other) <==> Managed(s, h, other)
  {
    hide KindOf, InOrder, FindRegions, FindMembers, RegionMap, MemberMap, Unmanaged, Tabs, Dirs;
    forall tab | tab in Tabs(s) ensures InTab(Read(h', tab), other) <==> InTab(Read(h, tab), other) {
      KeptEntry(RegionMap(Read(h, tab)), RegionMap(Read(h', tab)), slug, other);
      KeptEntry(MemberMap(Read(h, tab)), MemberMap(Read(h', tab)), slug, other);
    }
  }

  // -- one entry at a time ---------------------------------------------------------------------

  /** A write entry as planning makes it. */
  predicate WriteFor(e: PlanEntry, a: Artefact) {
    && !e.change.Remove? && e.artefact == Some(a) && e.slug == a.slug
    && Render(a) == Ok(e.after)
  }

  lemma FileWriteStep(s: Stores, h: Host, e: PlanEntry, a: Artefact)
    requires HostInOrder(s, h) && Clean(a) && WriteFor(e, a) && WritesAFile(a.deployment.strategy)
    requires PlaceFor(s, a).Ok?
    ensures ApplyEntry(s, h, e) == Ok(h[PlaceFor(s, a).value := Text(e.after, true)])
    ensures var h' := ApplyEntry(s, h, e).value;
            && HostInOrder(s, h') && SameBut(s, h, h', e.slug)
            && Current(s, h', a) == Ok(Text(e.after, true))
  {
    hide KindOf, InOrder, FindRegions, FindMembers, RegionMap, MemberMap, Unmanaged, PlaceFor, Strip, Content, Clean, Dirs, Render, Tabs;
    TabOrFile(s, a);
    CleanFile(a);
    RenderedIsNotEmpty(a);
    var at := PlaceFor(s, a).value;
    var h' := h[at := Text(e.after, true)];
    forall dir, name | dir in Dirs(s) ensures FileInOrder(name, Read(h', File(dir, name))) {
      assert FileInOrder(name, Read(h, File(dir, name)));
    }
    forall tab | tab in Tabs(s) ensures Read(h', tab) == Read(h, tab) {
    }
  }

  lemma TabWriteStep(s: Stores, h: Host, e: PlanEntry, a: Artefact)
    requires HostInOrder(s, h) && Clean(a) && WriteFor(e, a) && !WritesAFile(a.deployment.strategy)
    requires PlaceFor(s, a).Ok?
    ensures ApplyEntry(s, h, e).Ok? <==> Fresh(EntriesFor(a, Read(h, PlaceFor(s, a).value)), MarkFor(a))
    ensures ApplyEntry(s, h, e).Ok? ==>
              var h', at := ApplyEntry(s, h, e).value, PlaceFor(s, a).value;
              && HostInOrder(s, h') && SameBut(s, h, h', e.slug) && h' == h[at := Read(h', at)]
              && EntriesFor(a, Read(h', at)) == EntriesFor(a, Read(h, at))[e.slug := Entry(MarkFor(a), e.after)]
              && OtherEntries(a, Read(h', at)) == OtherEntries(a, Read(h, at))
              && Current(s, h', a) == Ok(Text(e.after, true))
  {
    hide KindOf, InOrder, FindRegions, FindMembers, RegionMap, MemberMap, Unmanaged, PlaceFor, Strip, Content, Clean,
         Dirs, Render, Tabs, ReplaceRegion, UpsertMember, CurrentEntry, Fresh, IsRegionText, IsMemberText, NoBlockEdge, NoRegionMarker;
    TabOrFile(s, a);
    var at := PlaceFor(s, a).value;
    var t := Read(h, at);
    if a.deployment.strategy.CrontabSingleBlock? {
      CleanMember(a);
      MemberWritten(t, MarkFor(a), e.after);
    } else {
      CleanRegion(a);
      RegionWritten(t, MarkFor(a), e.after);
    }
    var u := Rewritten(a, t, e.after).value;
    var h' := h[at := u];
    assert Read(h', at) == u;
    Unscanned(a, u);
    if Fresh(EntriesFor(a, t), MarkFor(a)) {
      UnchangedMembers(t, u);
      CurrentMeans(a, u);
      forall tab | tab in Tabs(s) && tab != at ensures Read(h', tab) == Read(h, tab) {
      }
      forall dir, name ensures Read(h', File(dir, name)) == Read(h, File(dir, name)) {
      }
    }
  }

  /** Reading back fails with the scan of the artefact's own shape. */
  lemma Unscanned(a: Artefact, u: Text)
    ensures a.deployment.strategy.CrontabSingleBlock? && FindMembers(u.lines).Err? ==> CurrentEntry(a, u).Err?
    ensures !a.deployment.strategy.CrontabSingleBlock? && FindRegions(u.lines).Err? ==> CurrentEntry(a, u).Err?
  {
    hide KindOf, FindRegions, FindMembers;
  }

  lemma UnchangedMembers(t: Text, u: Text)
    ensures FindMembers(t.lines) == FindMembers(u.lines) ==> MemberMap(t) == MemberMap(u)
  {
    hide KindOf, FindMembers;
  }

  lemma TabRemovalStep(t: Text, slug: string)
    requires InOrder(t)
    ensures TakeOut(t, slug, slug in RegionMap(t), slug in MemberMap(t)).Ok?
    ensures var u := TakeOut(t, slug, slug in RegionMap(t), slug in MemberMap(t)).value;
            && InOrder(u)
            && RegionMap(u) == RegionMap(t) - {slug}
            && MemberMap(u) == MemberMap(t) - {slug}
            && Unmanaged(u) == Unmanaged(t)
  {
    hide KindOf, InOrder, FindRegions, FindMembers, RegionMap, MemberMap, Unmanaged, RemoveRegion, RemoveMember;
    RegionRemoved(t, slug);
    var u := if slug in RegionMap(t) then RemoveRegion(t, slug).value else t;
    UnchangedMembers(t, u);
    MemberRemoved(u, slug);
  }

  lemma RemoveFromTabStep(h: Host, at: Place, slug: string)
    requires InOrder(Read(h, at))
    ensures RemoveFromTab(h, at, slug).Ok?
    ensures var h', t := RemoveFromTab(h, at, slug).value, Read(h, at);
            && (h' == h || h' == h[at := Read(h', at)])
            && InOrder(Read(h', at))
            && RegionMap(Read(h', at)) == RegionMap(t) - {slug}
            && MemberMap(Read(h', at)) == MemberMap(t) - {slug}
            && Unmanaged(Read(h', at)) == Unmanaged(t)
  {
    hide KindOf, FindRegions, FindMembers, BySlug, Unmanaged, TakeOut, FirstEntry, Apart;
    var t := Read(h, at);
    HasMeans(t, slug);
    TabRemovalStep(t, slug);
    var u := TakeOut(t, slug, slug in RegionMap(t), slug in MemberMap(t)).value;
    HasMeans(u, slug);
    assert slug !in RegionMap(u) && slug !in MemberMap(u);
    if !InTab(t, slug) {
      assert RegionMap(t) == RegionMap(t) - {slug} && MemberMap(t) == MemberMap(t) - {slug};
    }
  }

  lemma HasMeans(t: Text, slug: string)
    requires InOrder(t)
    ensures ManagedIn(t).Ok? && FindRegions(t.lines).Ok? && FindMembers(t.lines).Ok?
    ensures Has(RegionEntries(FindRegions(t.lines).value), slug) <==> slug in RegionMap(t)
    ensures Has(MemberEntries(FindMembers(t.lines).value), slug) <==> slug in MemberMap(t)
    ensures Has(ManagedIn(t).value, slug) <==> InTab(t, slug)
  {
    hide KindOf, FindRegions, FindMembers, BySlug, FirstEntry;
    var res, mes := RegionEntries(FindRegions(t.lines).value), MemberEntries(FindMembers(t.lines).value);
    FirstIsBySlug(res, slug);
    FirstIsBySlug(mes, slug);
    FirstOfSum(res, mes, slug);
  }

  lemma {:induction false} FirstOfSum(a: seq<Entry>, b: seq<Entry>, slug: string)
    ensures FirstEntry(a + b, slug) == if FirstEntry(a, slug).Some? then FirstEntry(a, slug) else FirstEntry(b, slug)
  {
    if a == [] {
      assert a + b == b;
    } else {
      assert (a + b)[1..] == a[1..] + b;
      FirstOfSum(a[1..], b, slug);
    }
  }

  // -- removing a slug from the whole host -----------------------------------------------------

  predicate Foreign(t: Text) {
    !Blank(t) && !MarkedFile(t)
  }

  /** No unmanaged line of a crontab and no file of somebody else's is altered. */
  ghost predicate Kept(s: Stores, h: Host, h': Host) {
    && (forall tab | tab in Tabs(s) :: Unmanaged(Read(h', tab)) == Unmanaged(Read(h, tab)))
    && (forall dir, name | Foreign(Read(h, File(dir, name))) :: Read(h', File(dir, name)) == Read(h, File(dir, name)))
  }

  lemma KeptTrans(s: Stores, h: Host, h1: Host, h2: Host)
    requires Kept(s, h, h1) && Kept(s, h1, h2)
    ensures Kept(s, h, h2)
  {
    hide Unmanaged, Tabs, MarkedFile;
  }

  ghost predicate SameFiles(h: Host, h': Host) {
    forall dir, name :: Read(h', File(dir, name)) == Read(h, File(dir, name))
  }

  lemma OneTabRemoved(s: Stores, h: Host, at: Place, slug: string)
    requires HostInOrder(s, h) && at in Tabs(s)
    ensures RemoveFromTab(h, at, slug).Ok?
    ensures var h' := RemoveFromTab(h, at, slug).value;
            && HostInOrder(s, h') && SameBut(s, h, h', slug) && SameFiles(h, h')
            && !InTab(Read(h', at), slug)
            && (forall tab | tab in Tabs(s) && tab != at :: Read(h', tab) == Read(h, tab))
  {
    hide KindOf, InOrder, RegionMap, MemberMap, Unmanaged, FileInOrder, RemoveFromTab;
    RemoveFromTabStep(h, at, slug);
    var h' := RemoveFromTab(h, at, slug).value;
    TabsAreTabs(s);
    forall tab | tab in Tabs(s) && tab != at ensures Read(h', tab) == Read(h, tab) {
    }
    forall dir, name ensures Read(h', File(dir, name)) == Read(h, File(dir, name)) {
    }
  }

  lemma TabsAreTabs(s: Stores)
    ensures forall tab | tab in Tabs(s) :: !tab.File?
  {
  }

  lemma {:induction false} TabsRemoved(s: Stores, h: Host, tabs: seq<Place>, slug: string)
    requires HostInOrder(s, h) && forall tab | tab in tabs :: tab in Tabs(s)
    ensures RemoveFromTabs(h, tabs, slug).Ok?
    ensures var h' := RemoveFromTabs(h, tabs, slug).value;
            && HostInOrder(s, h') && SameBut(s, h, h', slug) && SameFiles(h, h')
            && (forall tab | tab in Tabs(s) && (tab in tabs || !InTab(Read(h, tab), slug)) :: !InTab(Read(h', tab), slug))
    decreases |tabs|
  {
    hide KindOf, HostInOrder, RegionMap, MemberMap, Unmanaged, RemoveFromTab, Tabs;
    if tabs != [] {
      OneTabRemoved(s, h, tabs[0], slug);
      var h1 := RemoveFromTab(h, tabs[0], slug).value;
      TabsRemoved(s, h1, tabs[1..], slug);
      SameButTrans(s, h, h1, RemoveFromTabs(h1, tabs[1..], slug).value, slug);
    }
  }

  lemma OneDirRemoved(s: Stores, h: Host, at: Place)
    requires HostInOrder(s, h) && at.File? && at.dir in Dirs(s)
    ensures RemoveFromDir(h, at).Ok?
    ensures var h' := RemoveFromDir(h, at).value;
            && HostInOrder(s, h') && SameBut(s, h, h', at.name) && Kept(s, h, h')
            && !MarkedFile(Read(h', at))
            && (forall p | p != at :: Read(h', p) == Read(h, p))
  {
    hide KindOf, InOrder, RegionMap, MemberMap, Unmanaged, FindRegions, Dirs, Tabs;
    TabsAreTabs(s);
    EmptyFindsNothing();
    assert FileInOrder(at.name, Read(h, at));
    var h' := RemoveFromDir(h, at).value;
    forall p | p != at ensures Read(h', p) == Read(h, p) {
    }
    forall tab | tab in Tabs(s) ensures Read(h', tab) == Read(h, tab) {
    }
    forall dir, name | dir in Dirs(s) ensures FileInOrder(name, Read(h', File(dir, name))) {
      assert FileInOrder(name, Read(h, File(dir, name)));
    }
  }

  lemma EmptyFindsNothing()
    ensures FindRegions([]) == Ok([])
  {
    ReadsAgree(EMPTY, []);
    OneIsDistinct([]);
  }

  lemma {:induction false} DirsRemoved(s: Stores, h: Host, dirs: seq<Dir>, slug: string)
    requires HostInOrder(s, h) && forall dir | dir in dirs :: dir in Dirs(s)
    ensures RemoveFromDirs(h, dirs, slug).Ok?
    ensures var h' := RemoveFromDirs(h, dirs, slug).value;
            && HostInOrder(s, h') && SameBut(s, h, h', slug) && Kept(s, h, h')
            && (forall p: Place | !p.File? :: Read(h', p) == Read(h, p))
            && (forall dir | dir in dirs || !MarkedFile(Read(h, File(dir, slug))) :: !MarkedFile(Read(h', File(dir, slug))))
    decreases |dirs|
  {
    hide KindOf, HostInOrder, RegionMap, MemberMap, Unmanaged, RemoveFromDir, Tabs, Dirs, MarkedFile;
    if dirs != [] {
      OneDirRemoved(s, h, File(dirs[0], slug));
      var h1 := RemoveFromDir(h, File(dirs[0], slug)).value;
      DirsRemoved(s, h1, dirs[1..], slug);
      var h2 := RemoveFromDirs(h1, dirs[1..], slug).value;
      SameButTrans(s, h, h1, h2, slug);
      KeptTrans(s, h, h1, h2);
    }
  }

  /** A removal always goes through on a host in order, and leaves the slug managed nowhere. */
  lemma RemovalStep(s: Stores, h: Host, slug: string)
    requires HostInOrder(s, h)
    ensures ApplyRemoval(s, h, slug).Ok?
    ensures var h' := ApplyRemoval(s, h, slug).value;
            HostInOrder(s, h') && SameBut(s, h, h', slug) && Kept(s, h, h') && !Managed(s, h', slug)
  {
    hide KindOf, HostInOrder, RegionMap, MemberMap, Unmanaged, Tabs, Dirs, MarkedFile, RemoveFromTabs, RemoveFromDirs;
    TabsRemoved(s, h, Tabs(s), slug);
    var h1 := RemoveFromTabs(h, Tabs(s), slug).value;
    DirsRemoved(s, h1, Dirs(s), slug);
    var h2 := RemoveFromDirs(h1, Dirs(s), slug).value;
    TabsAreTabs(s);
    SameButTrans(s, h, h1, h2, slug);
    KeptTrans(s, h, h1, h2);
  }
}
