/**
 The cron adapter's decisions as functions of what the stores hold: planning, applying one
 entry on stores that do what they are told, and verifying.
 */
module Hosts {
  import opened Results
  import opened Faults
  import opened Texts
  import opened Markers
  import opened Regions
  import opened Blocks
  import opened Crontabs
  import opened Rendering
  import opened Names

  datatype Dir = CronDDir | PartsDir(classification: Classification)
  datatype Place = UserTab | SystemTab | File(dir: Dir, name: string)

  /** What every place holds; a place that is absent reads as empty. */
  type Host = map<Place, Text>

  function Read(h: Host, at: Place): Text {
    if at in h then h[at] else EMPTY
  }

  predicate Blank(t: Text) {
    t.lines == []
  }

  /** Which stores this host has. */
  datatype Stores = Stores(user: bool, system: bool, cronD: bool, parts: seq<Classification>)

  function Tabs(s: Stores): seq<Place> {
    (if s.user then [UserTab] else []) + (if s.system then [SystemTab] else [])
  }

  function Dirs(s: Stores): seq<Dir> {
    (if s.cronD then [CronDDir] else [])
    + seq(|s.parts|, i requires 0 <= i < |s.parts| => PartsDir(s.parts[i]))
  }

  lemma PartsAreDirs(s: Stores, c: Classification)
    requires c in s.parts
    ensures PartsDir(c) in Dirs(s)
  {
    var i :| 0 <= i < |s.parts| && s.parts[i] == c;
    assert Dirs(s)[|Dirs(s)| - |s.parts| + i] == PartsDir(c);
  }

  function Listing(h: Host, dir: Dir): (names: seq<string>)
    ensures forall n :: n in names <==> File(dir, n) in h
  {
    Sorted(set p | p in h.Keys && p.File? && p.dir == dir :: p.name)
  }

  /** Where an artefact goes, when its target has a store here. */
  function PlaceFor(s: Stores, a: Artefact): (r: Result<Place, Fault>)
    ensures r.Ok? ==> r.value in Tabs(s) || (r.value.File? && r.value.dir in Dirs(s) && r.value.name == a.slug)
  {
    var d := a.deployment;
    if WritesAFile(d.strategy) then
      match d.target
      case CronD => if s.cronD then Ok(File(CronDDir, a.slug)) else Err(NoStore)
      case RunParts =>
        if d.classification.Some? && d.classification.value in s.parts then
          PartsAreDirs(s, d.classification.value);
          Ok(File(PartsDir(d.classification.value), a.slug))
        else Err(NoStore)
      case _ => Err(NoStore)
    else
      match d.target
      case UserCrontab => if s.user then Ok(UserTab) else Err(NoStore)
      case SystemCrontab => if s.system then Ok(SystemTab) else Err(NoStore)
      case _ => Err(NoStore)
  }

  /**
   Where a deployment says its artefact goes: an entry to the crontab of its target, a cron.d
   file to that directory, a run-parts script to the directory of its own classification.
   */
  predicate BelongsAt(s: Stores, a: Artefact, at: Place) {
    var d := a.deployment;
    match at
    case UserTab => s.user && d.target.UserCrontab? && (d.strategy.CrontabBlockPerTask? || d.strategy.CrontabSingleBlock?)
    case SystemTab => s.system && d.target.SystemCrontab? && (d.strategy.CrontabBlockPerTask? || d.strategy.CrontabSingleBlock?)
    case File(CronDDir, name) =>
      s.cronD && d.target.CronD? && (d.strategy.CronDFile? || d.strategy.RunPartsDirectory?) && name == a.slug
    case File(PartsDir(c), name) =>
      && c in s.parts && d.target.RunParts? && d.classification == Some(c)
      && (d.strategy.CronDFile? || d.strategy.RunPartsDirectory?) && name == a.slug
  }

  /** That is where it goes, and without such a store it goes nowhere. */
  lemma PlaceMeans(s: Stores, a: Artefact)
    ensures forall at :: PlaceFor(s, a) == Ok(at) <==> BelongsAt(s, a, at)
    ensures PlaceFor(s, a) == Err(NoStore) <==> forall at :: !BelongsAt(s, a, at)
    ensures PlaceFor(s, a).Err? ==> PlaceFor(s, a).error == NoStore
  {
    forall at ensures PlaceFor(s, a) == Ok(at) <==> BelongsAt(s, a, at) {
    }
    if PlaceFor(s, a).Ok? {
      assert BelongsAt(s, a, PlaceFor(s, a).value);
    }
  }

  // -- what is deployed now --------------------------------------------------------------------

  function SameCapability(a: Artefact, found: Entry): Result<Text, Fault> {
    if found.mark.id == a.id then Ok(Text(found.lines, true)) else Err(OtherCapability)
  }

  function FirstEntry(es: seq<Entry>, slug: string): Option<Entry> {
    if es == [] then None
    else if es[0].mark.slug == slug then Some(es[0])
    else FirstEntry(es[1..], slug)
  }

  function CurrentFile(a: Artefact, content: Text): Result<Text, Fault> {
    if Blank(content) then Ok(EMPTY)
    else
      match FindRegions(content.lines)
      case Err(e) => Err(e)
      case Ok(rs) =>
        if rs == [] then Err(UnmarkedFile)
        else if rs[0].mark.id == a.id then Ok(content)
        else Err(OtherCapability)
  }

  function CurrentEntry(a: Artefact, content: Text): Result<Text, Fault> {
    var found: Result<Option<Entry>, Fault> :=
      if a.deployment.strategy.CrontabSingleBlock? then
        match FindMembers(content.lines)
        case Err(e) => Err(e)
        case Ok(ms) => Ok(FirstEntry(MemberEntries(ms), a.slug))
      else
        match FindRegions(content.lines)
        case Err(e) => Err(e)
        case Ok(rs) => Ok(FirstEntry(RegionEntries(rs), a.slug));
    match found
    case Err(e) => Err(e)
    case Ok(None) => Ok(EMPTY)
    case Ok(Some(entry)) => SameCapability(a, entry)
  }

  /** What is deployed for an artefact; blank when nothing is. */
  function Current(s: Stores, h: Host, a: Artefact): Result<Text, Fault> {
    match PlaceFor(s, a)
    case Err(e) => Err(e)
    case Ok(at) => if WritesAFile(a.deployment.strategy) then CurrentFile(a, Read(h, at)) else CurrentEntry(a, Read(h, at))
  }

  // -- planning --------------------------------------------------------------------------------

  datatype Change = Create | Update | Remove | Unchanged

  /** `after` is complete lines, none for a removal; `artefact` is None for a removal. */
  datatype PlanEntry = PlanEntry(
    id: string, slug: string, change: Change, at: Place, before: Text, after: seq<string>, artefact: Option<Artefact>)

  type Plan = seq<PlanEntry>

  function Join(first: seq<PlanEntry>, rest: Result<Plan, Fault>): Result<Plan, Fault> {
    match rest
    case Ok(more) => Ok(first + more)
    case Err(e) => Err(e)
  }

  function PlanOne(s: Stores, h: Host, a: Artefact): Result<PlanEntry, Fault> {
    match Render(a)
    case Err(e) => Err(e)
    case Ok(rendered) =>
      match Current(s, h, a)
      case Err(e) => Err(e)
      case Ok(current) =>
        var at := PlaceFor(s, a).value;
        var change := if Blank(current) then Create else if current == Text(rendered, true) then Unchanged else Update;
        Ok(PlanEntry(a.id, a.slug, change, at, current, rendered, Some(a)))
  }

  function PlanDesired(s: Stores, h: Host, desired: seq<Artefact>): Result<Plan, Fault> {
    if desired == [] then Ok([])
    else
      match PlanOne(s, h, desired[0])
      case Err(e) => Err(e)
      case Ok(entry) => Join([entry], PlanDesired(s, h, desired[1..]))
  }

  function Slugs(desired: seq<Artefact>): set<string> {
    set i | 0 <= i < |desired| :: desired[i].slug
  }

  function RemovalsOf(es: seq<Entry>, at: Place, wanted: set<string>): Plan {
    if es == [] then []
    else
      (if es[0].mark.slug in wanted then []
       else [PlanEntry(es[0].mark.id, es[0].mark.slug, Remove, at, Text(es[0].lines, true), [], None)])
      + RemovalsOf(es[1..], at, wanted)
  }

  /** Everything managed in a crontab, regions before members. */
  function ManagedIn(t: Text): Result<seq<Entry>, Fault> {
    match FindRegions(t.lines)
    case Err(e) => Err(e)
    case Ok(rs) =>
      match FindMembers(t.lines)
      case Err(e) => Err(e)
      case Ok(ms) => Ok(RegionEntries(rs) + MemberEntries(ms))
  }

  function RemovalsInTabs(h: Host, tabs: seq<Place>, wanted: set<string>): Result<Plan, Fault> {
    if tabs == [] then Ok([])
    else
      match ManagedIn(Read(h, tabs[0]))
      case Err(e) => Err(e)
      case Ok(es) => Join(RemovalsOf(es, tabs[0], wanted), RemovalsInTabs(h, tabs[1..], wanted))
  }

  function RemovalOfFile(h: Host, at: Place, wanted: set<string>): Result<Plan, Fault>
    requires at.File?
  {
    if at.name in wanted then Ok([])
    else
      match FindRegions(Read(h, at).lines)
      case Err(e) => Err(e)
      case Ok(rs) =>
        Ok(if rs == [] then [] else [PlanEntry(rs[0].mark.id, rs[0].mark.slug, Remove, at, Read(h, at), [], None)])
  }

  function RemovalsInDir(h: Host, dir: Dir, names: seq<string>, wanted: set<string>): Result<Plan, Fault> {
    if names == [] then Ok([])
    else
      match RemovalOfFile(h, File(dir, names[0]), wanted)
      case Err(e) => Err(e)
      case Ok(entries) => Join(entries, RemovalsInDir(h, dir, names[1..], wanted))
  }

  function RemovalsInDirs(h: Host, dirs: seq<Dir>, wanted: set<string>): Result<Plan, Fault> {
    if dirs == [] then Ok([])
    else
      match RemovalsInDir(h, dirs[0], Listing(h, dirs[0]), wanted)
      case Err(e) => Err(e)
      case Ok(entries) => Join(entries, RemovalsInDirs(h, dirs[1..], wanted))
  }

  function PlanRemovals(s: Stores, h: Host, wanted: set<string>): Result<Plan, Fault> {
    match RemovalsInTabs(h, Tabs(s), wanted)
    case Err(e) => Err(e)
    case Ok(entries) => Join(entries, RemovalsInDirs(h, Dirs(s), wanted))
  }

  /** What applying the complete desired estate would change. */
  function PlanFor(s: Stores, h: Host, desired: seq<Artefact>): Result<Plan, Fault> {
    match PlanDesired(s, h, desired)
    case Err(e) => Err(e)
    case Ok(entries) => Join(entries, PlanRemovals(s, h, Slugs(desired)))
  }

  function Changing(plan: Plan): Plan {
    if plan == [] then []
    else (if plan[0].change.Unchanged? then [] else [plan[0]]) + Changing(plan[1..])
  }

  // -- applying, on stores that do what they are told ------------------------------------------

  predicate ReadsAs(written: Text, rendered: seq<string>) {
    Strip(Content(written)) == Strip(Content(Text(rendered, true)))
  }

  /** Read back means: the same characters, but for space at either end. */
  lemma ReadsAsMeans(written: Text, rendered: seq<string>)
    ensures ReadsAs(written, rendered) <==> AgreeInside(Content(written), Content(Text(rendered, true)))
  {
    hide Content, Strip, AgreeInside;
    StripMeans(Content(written), Content(Text(rendered, true)));
  }

  /** What a write leaves at the artefact's place. */
  function Rewritten(a: Artefact, original: Text, after: seq<string>): Result<Text, Fault> {
    if WritesAFile(a.deployment.strategy) then Ok(Text(after, true))
    else if a.deployment.strategy.CrontabSingleBlock? then UpsertMember(original, a.slug, after)
    else ReplaceRegion(original, a.slug, after)
  }

  /** What the verification of a write reads back. */
  function ReadBack(s: Stores, h: Host, a: Artefact, at: Place): Result<Text, Fault> {
    if WritesAFile(a.deployment.strategy) then Ok(Read(h, at)) else Current(s, h, a)
  }

  function ApplyWrite(s: Stores, h: Host, e: PlanEntry): Result<Host, Fault> {
    match e.artefact
    case None => Err(NoArtefact)
    case Some(a) =>
      match PlaceFor(s, a)
      case Err(f) => Err(f)
      case Ok(at) =>
        match Rewritten(a, Read(h, at), e.after)
        case Err(f) => Err(f)
        case Ok(text) =>
          var h' := h[at := text];
          match ReadBack(s, h', a, at)
          case Err(f) => Err(f)
          case Ok(written) => if ReadsAs(written, e.after) then Ok(h') else Err(NotAsWritten)
  }

  predicate Has(es: seq<Entry>, slug: string) {
    FirstEntry(es, slug).Some?
  }

  /** A crontab with one slug taken out, whichever shapes it is in. */
  function TakeOut(t: Text, slug: string, inRegion: bool, inBlock: bool): Result<Text, Fault> {
    match if inRegion then RemoveRegion(t, slug) else Ok(t)
    case Err(f) => Err(f)
    case Ok(u) => if inBlock then RemoveMember(u, slug) else Ok(u)
  }

  /** Whether a crontab read back still has the slug; its members matter only when no region has it. */
  function StillThere(t: Text, slug: string): Result<bool, Fault> {
    match FindRegions(t.lines)
    case Err(f) => Err(f)
    case Ok(rs) =>
      if Has(RegionEntries(rs), slug) then Ok(true)
      else
        match FindMembers(t.lines)
        case Err(f) => Err(f)
        case Ok(ms) => Ok(Has(MemberEntries(ms), slug))
  }

  /** What a crontab becomes without the slug, or None when it has it in neither shape. */
  function Cleared(t: Text, slug: string): Result<Option<Text>, Fault> {
    match FindRegions(t.lines)
    case Err(f) => Err(f)
    case Ok(rs) =>
      match FindMembers(t.lines)
      case Err(f) => Err(f)
      case Ok(ms) =>
        var inRegion, inBlock := Has(RegionEntries(rs), slug), Has(MemberEntries(ms), slug);
        if !inRegion && !inBlock then Ok(None)
        else
          match TakeOut(t, slug, inRegion, inBlock)
          case Err(f) => Err(f)
          case Ok(u) => Ok(Some(u))
  }

  function RemoveFromTab(h: Host, at: Place, slug: string): Result<Host, Fault> {
    match Cleared(Read(h, at), slug)
    case Err(f) => Err(f)
    case Ok(None) => Ok(h)
    case Ok(Some(u)) =>
      match StillThere(u, slug)
      case Err(f) => Err(f)
      case Ok(there) => if there then Err(StillPresent) else Ok(h[at := u])
  }

  function RemoveFromTabs(h: Host, tabs: seq<Place>, slug: string): Result<Host, Fault>
    decreases |tabs|
  {
    if tabs == [] then Ok(h)
    else
      match RemoveFromTab(h, tabs[0], slug)
      case Err(f) => Err(f)
      case Ok(h') => RemoveFromTabs(h', tabs[1..], slug)
  }

  function RemoveFromDir(h: Host, at: Place): Result<Host, Fault> {
    var content := Read(h, at);
    if Blank(content) then Ok(h)
    else
      match FindRegions(content.lines)
      case Err(f) => Err(f)
      case Ok(rs) => if rs == [] then Ok(h) else Ok(h - {at})
  }

  function RemoveFromDirs(h: Host, dirs: seq<Dir>, slug: string): Result<Host, Fault>
    decreases |dirs|
  {
    if dirs == [] then Ok(h)
    else
      match RemoveFromDir(h, File(dirs[0], slug))
      case Err(f) => Err(f)
      case Ok(h') => RemoveFromDirs(h', dirs[1..], slug)
  }

  function ApplyRemoval(s: Stores, h: Host, slug: string): Result<Host, Fault> {
    match RemoveFromTabs(h, Tabs(s), slug)
    case Err(f) => Err(f)
    case Ok(h') => RemoveFromDirs(h', Dirs(s), slug)
  }

  function ApplyEntry(s: Stores, h: Host, e: PlanEntry): Result<Host, Fault> {
    if e.change.Remove? then ApplyRemoval(s, h, e.slug) else ApplyWrite(s, h, e)
  }

  function ApplyAll(s: Stores, h: Host, entries: Plan): Result<Host, Fault>
    decreases |entries|
  {
    if entries == [] then Ok(h)
    else
      match ApplyEntry(s, h, entries[0])
      case Err(f) => Err(f)
      case Ok(h') => ApplyAll(s, h', entries[1..])
  }

  /** The host after applying a plan, or why it is rolled back. */
  function ApplyPlan(s: Stores, h: Host, plan: Plan): Result<Host, Fault> {
    ApplyAll(s, h, Changing(plan))
  }

  // -- verifying -------------------------------------------------------------------------------

  datatype Drift = Missing | Modified | Unexpected | Ambiguous

  datatype Finding = Finding(kind: Drift, at: Place, id: string)

  predicate IsAmbiguity(f: Fault) {
    && !f.NoStore? && !f.NeedsSchedule? && !f.ForbidsSchedule? && !f.NoArtefact?
    && !f.NotAsWritten? && !f.StillPresent? && !f.StoreFailed? && !f.BadFileName?
  }

  function JoinFindings(first: seq<Finding>, rest: Result<seq<Finding>, Fault>): Result<seq<Finding>, Fault> {
    match rest
    case Ok(more) => Ok(first + more)
    case Err(e) => Err(e)
  }

  /** One artefact's findings: ambiguity is reported, anything else raised. */
  function Inspect(s: Stores, h: Host, a: Artefact): Result<seq<Finding>, Fault> {
    match Render(a)
    case Err(e) => Err(e)
    case Ok(rendered) =>
      match PlaceFor(s, a)
      case Err(e) => Err(e)
      case Ok(at) =>
        match Current(s, h, a)
        case Err(e) => if IsAmbiguity(e) then Ok([Finding(Ambiguous, at, a.id)]) else Err(e)
        case Ok(current) =>
          Ok(if Blank(current) then [Finding(Missing, at, a.id)]
             else if current != Text(rendered, true) then [Finding(Modified, at, a.id)]
             else [])
  }

  function InspectAll(s: Stores, h: Host, desired: seq<Artefact>): Result<seq<Finding>, Fault> {
    if desired == [] then Ok([])
    else
      match Inspect(s, h, desired[0])
      case Err(e) => Err(e)
      case Ok(findings) => JoinFindings(findings, InspectAll(s, h, desired[1..]))
  }

  function UnexpectedOf(es: seq<Entry>, at: Place, wanted: set<string>): seq<Finding> {
    if es == [] then []
    else
      (if es[0].mark.slug in wanted then [] else [Finding(Unexpected, at, es[0].mark.id)])
      + UnexpectedOf(es[1..], at, wanted)
  }

  function UnexpectedInTabs(h: Host, tabs: seq<Place>, wanted: set<string>): Result<seq<Finding>, Fault> {
    if tabs == [] then Ok([])
    else
      match ManagedIn(Read(h, tabs[0]))
      case Err(e) => Err(e)
      case Ok(es) => JoinFindings(UnexpectedOf(es, tabs[0], wanted), UnexpectedInTabs(h, tabs[1..], wanted))
  }

  function UnexpectedFile(h: Host, at: Place, wanted: set<string>): Result<seq<Finding>, Fault>
    requires at.File?
  {
    if at.name in wanted then Ok([])
    else
      match FindRegions(Read(h, at).lines)
      case Err(e) => Err(e)
      case Ok(rs) => Ok(if rs == [] then [] else [Finding(Unexpected, at, rs[0].mark.id)])
  }

  function UnexpectedInDir(h: Host, dir: Dir, names: seq<string>, wanted: set<string>): Result<seq<Finding>, Fault> {
    if names == [] then Ok([])
    else
      match UnexpectedFile(h, File(dir, names[0]), wanted)
      case Err(e) => Err(e)
      case Ok(findings) => JoinFindings(findings, UnexpectedInDir(h, dir, names[1..], wanted))
  }

  function UnexpectedInDirs(h: Host, dirs: seq<Dir>, wanted: set<string>): Result<seq<Finding>, Fault> {
    if dirs == [] then Ok([])
    else
      match UnexpectedInDir(h, dirs[0], Listing(h, dirs[0]), wanted)
      case Err(e) => Err(e)
      case Ok(findings) => JoinFindings(findings, UnexpectedInDirs(h, dirs[1..], wanted))
  }

  function FindUnexpected(s: Stores, h: Host, wanted: set<string>): Result<seq<Finding>, Fault> {
    match UnexpectedInTabs(h, Tabs(s), wanted)
    case Err(e) => Err(e)
    case Ok(findings) => JoinFindings(findings, UnexpectedInDirs(h, Dirs(s), wanted))
  }

  function VerifyHost(s: Stores, h: Host, desired: seq<Artefact>): Result<seq<Finding>, Fault> {
    match InspectAll(s, h, desired)
    case Err(e) => Err(e)
    case Ok(findings) => JoinFindings(findings, FindUnexpected(s, h, Slugs(desired)))
  }
}
