/**
 The cron manager over stores that may fail: planning, verifying, applying and rolling back.

 Apply: with stores that work it does what ApplyPlan says; whatever fails, a result that
 reports a rollback means every place reads as it did before, but for one that was put back by
 a call which returned without doing so; and every state on the way shows installed slugs only.
 */
module Managers {
  import opened Results
  import opened Faults
  import opened Texts
  import opened Markers
  import opened Regions
  import opened Blocks
  import opened Crontabs
  import opened Rendering
  import opened Hosts
  import opened Convergence
  import opened WholeApply
  import opened InstalledSlugs
  import opened Disks

  datatype ApplyResult = ApplyResult(applied: Plan, rolledBack: bool, failure: Option<(string, Fault)>)

  /** Neither shape of the slug is in the crontab. */
  predicate GoneFromTab(h: Host, tab: Place, slug: string) {
    StillThere(Read(h, tab), slug) == Ok(false)
  }

  predicate GoneFromDir(h: Host, dir: Dir, slug: string) {
    var content := Read(h, File(dir, slug));
    Blank(content) || FindRegions(content.lines) == Ok([])
  }

  /** What is read back of a write is what was rendered, character for character but for space at either end. */
  ghost predicate LeftAsRendered(s: Stores, h: Host, e: PlanEntry) {
    && e.artefact.Some? && PlaceFor(s, e.artefact.value).Ok?
    && var read := ReadBack(s, h, e.artefact.value, PlaceFor(s, e.artefact.value).value);
       read.Ok? && AgreeInside(Content(read.value), Content(Text(e.after, true)))
  }

  lemma ReadsRight(s: Stores, h: Host, e: PlanEntry, written: Text)
    requires e.artefact.Some? && PlaceFor(s, e.artefact.value).Ok?
    requires ReadBack(s, h, e.artefact.value, PlaceFor(s, e.artefact.value).value) == Ok(written)
    ensures ReadsAs(written, e.after) <==> LeftAsRendered(s, h, e)
  {
    hide PlaceFor, ReadBack, ReadsAs, AgreeInside, Content;
    ReadsAsMeans(written, e.after);
  }

  class Manager {
    const stores: Stores
    const disk: Disk

    constructor (stores: Stores, disk: Disk)
      ensures this.stores == stores && this.disk == disk
    {
      this.stores := stores;
      this.disk := disk;
    }

    /** What is deployed for an artefact, read from the stores now. */
    method CurrentContent(a: Artefact) returns (r: Result<Text, Fault>)
      modifies disk`calls
      ensures disk.calls >= old(disk.calls)
      ensures r == Current(stores, disk.held, a) || (r == Err(StoreFailed) && disk.Raised(old(disk.calls)))
    {
      hide CurrentFile, CurrentEntry, PlaceFor;
      match PlaceFor(stores, a) {
        case Err(f) =>
          r := Err(f);
        case Ok(at) =>
          var content := disk.Read(at);
          if content.Err? {
            return content;
          }
          r := if WritesAFile(a.deployment.strategy) then CurrentFile(a, content.value) else CurrentEntry(a, content.value);
      }
    }

    method PlanArtefact(a: Artefact) returns (r: Result<PlanEntry, Fault>)
      modifies disk`calls
      ensures disk.calls >= old(disk.calls)
      ensures r.Ok? || disk.Honest(old(disk.calls)) ==> r == PlanOne(stores, disk.held, a)
    {
      hide Render, Current, PlaceFor;
      var rendered := Render(a);
      if rendered.Err? {
        return Err(rendered.error);
      }
      var current := CurrentContent(a);
      if current.Err? {
        return Err(current.error);
      }
      HasPlace(stores, disk.held, a);
      var at := PlaceFor(stores, a).value;
      if Blank(current.value) {
        return Ok(PlanEntry(a.id, a.slug, Create, at, current.value, rendered.value, Some(a)));
      }
      if current.value == Text(rendered.value, true) {
        return Ok(PlanEntry(a.id, a.slug, Unchanged, at, current.value, rendered.value, Some(a)));
      }
      r := Ok(PlanEntry(a.id, a.slug, Update, at, current.value, rendered.value, Some(a)));
    }

    /** Removals for whatever is managed here and not wanted: crontabs first, then files by name. */
    method PlanUnwanted(wanted: set<string>) returns (r: Result<Plan, Fault>)
      modifies disk`calls
      ensures disk.calls >= old(disk.calls)
      ensures r.Ok? || disk.Honest(old(disk.calls)) ==> r == PlanRemovals(stores, disk.held, wanted)
    {
      hide ManagedIn, Tabs, Dirs, FindRegions, Listing, RemovalsOf, RemovalsInDir;
      var entries: Plan := [];
      var tabs, dirs := Tabs(stores), Dirs(stores);
      assert tabs[0..] == tabs && dirs[0..] == dirs;
      JoinNothing(RemovalsInTabs(disk.held, tabs, wanted));
      for i := 0 to |tabs|
        invariant disk.calls >= old(disk.calls)
        invariant RemovalsInTabs(disk.held, tabs, wanted) == Join(entries, RemovalsInTabs(disk.held, tabs[i..], wanted))
      {
        assert tabs[i..][0] == tabs[i] && tabs[i..][1..] == tabs[i + 1..];
        var content := disk.Read(tabs[i]);
        if content.Err? {
          return Err(content.error);
        }
        var managed := ManagedIn(content.value);
        if managed.Err? {
          return Err(managed.error);
        }
        var here := PlanUnwantedEntries(managed.value, tabs[i], wanted);
        JoinTwice(entries, here, RemovalsInTabs(disk.held, tabs[i + 1..], wanted));
        entries := entries + here;
      }
      JoinEnd(entries);
      ghost var inTabs := entries;
      JoinNothing(RemovalsInDirs(disk.held, dirs, wanted));
      for i := 0 to |dirs|
        invariant disk.calls >= old(disk.calls)
        invariant Join(inTabs, RemovalsInDirs(disk.held, dirs, wanted)) == Join(entries, RemovalsInDirs(disk.held, dirs[i..], wanted))
      {
        assert dirs[i..][0] == dirs[i] && dirs[i..][1..] == dirs[i + 1..];
        var listed := disk.Names(dirs[i]);
        if listed.Err? {
          return Err(listed.error);
        }
        var names := listed.value;
        var found := PlanUnwantedFiles(dirs[i], names, wanted);
        if found.Err? {
          return found;
        }
        JoinTwice(entries, found.value, RemovalsInDirs(disk.held, dirs[i + 1..], wanted));
        entries := entries + found.value;
      }
      JoinEnd(entries);
      r := Ok(entries);
    }

    method PlanUnwantedEntries(es: seq<Entry>, at: Place, wanted: set<string>) returns (entries: Plan)
      ensures entries == RemovalsOf(es, at, wanted)
    {
      entries := [];
      assert es[0..] == es;
      for j := 0 to |es|
        invariant RemovalsOf(es, at, wanted) == entries + RemovalsOf(es[j..], at, wanted)
      {
        assert es[j..][0] == es[j] && es[j..][1..] == es[j + 1..];
        if es[j].mark.slug !in wanted {
          entries := entries + [PlanEntry(es[j].mark.id, es[j].mark.slug, Remove, at, Text(es[j].lines, true), [], None)];
        }
      }
    }

    method PlanUnwantedFiles(dir: Dir, names: seq<string>, wanted: set<string>) returns (r: Result<Plan, Fault>)
      modifies disk`calls
      ensures disk.calls >= old(disk.calls)
      ensures r.Ok? || disk.Honest(old(disk.calls)) ==> r == RemovalsInDir(disk.held, dir, names, wanted)
    {
      hide FindRegions;
      var entries: Plan := [];
      assert names[0..] == names;
      JoinNothing(RemovalsInDir(disk.held, dir, names, wanted));
      for i := 0 to |names|
        invariant disk.calls >= old(disk.calls)
        invariant RemovalsInDir(disk.held, dir, names, wanted) == Join(entries, RemovalsInDir(disk.held, dir, names[i..], wanted))
      {
        assert names[i..][0] == names[i] && names[i..][1..] == names[i + 1..];
        var at := File(dir, names[i]);
        ghost var removal := RemovalOfFile(disk.held, at, wanted);
        if removal.Ok? {
          JoinTwice(entries, removal.value, RemovalsInDir(disk.held, dir, names[i + 1..], wanted));
          assert entries + [] == entries;
        }
        if names[i] in wanted {
          continue;
        }
        var content := disk.Read(at);
        if content.Err? {
          return Err(content.error);
        }
        var regions := FindRegions(content.value.lines);
        if regions.Err? {
          return Err(regions.error);
        }
        if regions.value != [] {
          var again := disk.Read(at);
          if again.Err? {
            return Err(again.error);
          }
          var mark := regions.value[0].mark;
          entries := entries + [PlanEntry(mark.id, mark.slug, Remove, at, again.value, [], None)];
        }
      }
      JoinEnd(entries);
      r := Ok(entries);
    }

    /** What applying the complete desired estate would change; nothing on the host is. */
    method ComputePlan(desired: seq<Artefact>) returns (r: Result<Plan, Fault>)
      modifies disk`calls
      ensures disk.calls >= old(disk.calls)
      ensures r.Ok? || disk.Honest(old(disk.calls)) ==> r == PlanFor(stores, disk.held, desired)
      ensures r.Ok? ==> AtTheirPlaces(stores, desired, r.value)
    {
      hide PlanOne, PlanRemovals, AtTheirPlaces;
      PlannedAtTheirPlaces(stores, disk.held, desired);
      var entries: Plan := [];
      assert desired[0..] == desired;
      JoinNothing(PlanDesired(stores, disk.held, desired));
      for i := 0 to |desired|
        invariant disk.calls >= old(disk.calls)
        invariant PlanDesired(stores, disk.held, desired) == Join(entries, PlanDesired(stores, disk.held, desired[i..]))
      {
        assert desired[i..][0] == desired[i] && desired[i..][1..] == desired[i + 1..];
        var entry := PlanArtefact(desired[i]);
        if entry.Err? {
          return Err(entry.error);
        }
        JoinTwice(entries, [entry.value], PlanDesired(stores, disk.held, desired[i + 1..]));
        entries := entries + [entry.value];
      }
      JoinEnd(entries);
      var removals := PlanUnwanted(Slugs(desired));
      if removals.Err? {
        return removals;
      }
      r := Ok(entries + removals.value);
    }

    /** One artefact's findings: ambiguity is reported, any other failure raised. */
    method InspectArtefact(a: Artefact) returns (r: Result<seq<Finding>, Fault>)
      modifies disk`calls
      ensures disk.calls >= old(disk.calls)
      ensures r.Ok? || disk.Honest(old(disk.calls)) ==> r == Inspect(stores, disk.held, a)
    {
      hide Render, Current, PlaceFor;
      var rendered := Render(a);
      if rendered.Err? {
        return Err(rendered.error);
      }
      var current := CurrentContent(a);
      HasPlace(stores, disk.held, a);
      if current.Err? {
        if !IsAmbiguity(current.error) {
          return Err(current.error);
        }
        return Ok([Finding(Ambiguous, PlaceFor(stores, a).value, a.id)]);
      }
      var at := PlaceFor(stores, a).value;
      if Blank(current.value) {
        return Ok([Finding(Missing, at, a.id)]);
      }
      if current.value != Text(rendered.value, true) {
        return Ok([Finding(Modified, at, a.id)]);
      }
      r := Ok([]);
    }

    method UnexpectedEntries(es: seq<Entry>, at: Place, wanted: set<string>) returns (findings: seq<Finding>)
      ensures findings == UnexpectedOf(es, at, wanted)
    {
      findings := [];
      assert es[0..] == es;
      for j := 0 to |es|
        invariant UnexpectedOf(es, at, wanted) == findings + UnexpectedOf(es[j..], at, wanted)
      {
        assert es[j..][0] == es[j] && es[j..][1..] == es[j + 1..];
        ghost var rest := UnexpectedOf(es[j + 1..], at, wanted);
        assert es[j].mark.slug in wanted ==> UnexpectedOf(es[j..], at, wanted) == rest;
        if es[j].mark.slug !in wanted {
          assert findings + ([Finding(Unexpected, at, es[j].mark.id)] + rest) == findings + [Finding(Unexpected, at, es[j].mark.id)] + rest;
          findings := findings + [Finding(Unexpected, at, es[j].mark.id)];
        }
      }
    }

    method UnexpectedFiles(dir: Dir, names: seq<string>, wanted: set<string>) returns (r: Result<seq<Finding>, Fault>)
      modifies disk`calls
      ensures disk.calls >= old(disk.calls)
      ensures r.Ok? || disk.Honest(old(disk.calls)) ==> r == UnexpectedInDir(disk.held, dir, names, wanted)
    {
      hide FindRegions;
      var findings: seq<Finding> := [];
      assert names[0..] == names;
      FindingsNothing(UnexpectedInDir(disk.held, dir, names, wanted));
      for i := 0 to |names|
        invariant disk.calls >= old(disk.calls)
        invariant UnexpectedInDir(disk.held, dir, names, wanted)
               == JoinFindings(findings, UnexpectedInDir(disk.held, dir, names[i..], wanted))
      {
        assert names[i..][0] == names[i] && names[i..][1..] == names[i + 1..];
        var at := File(dir, names[i]);
        ghost var here := UnexpectedFile(disk.held, at, wanted);
        if here.Ok? {
          FindingsTwice(findings, here.value, UnexpectedInDir(disk.held, dir, names[i + 1..], wanted));
          assert findings + [] == findings;
        }
        if names[i] in wanted {
          continue;
        }
        var content := disk.Read(at);
        if content.Err? {
          return Err(content.error);
        }
        var regions := FindRegions(content.value.lines);
        if regions.Err? {
          return Err(regions.error);
        }
        if regions.value != [] {
          findings := findings + [Finding(Unexpected, at, regions.value[0].mark.id)];
        }
      }
      FindingsEnd(findings);
      r := Ok(findings);
    }

    /** Managed content belonging to nothing wanted: crontabs first, then files by name. */
    method FindUnexpectedContent(wanted: set<string>) returns (r: Result<seq<Finding>, Fault>)
      modifies disk`calls
      ensures disk.calls >= old(disk.calls)
      ensures r.Ok? || disk.Honest(old(disk.calls)) ==> r == FindUnexpected(stores, disk.held, wanted)
    {
      hide ManagedIn, Tabs, Dirs, FindRegions, Listing, UnexpectedOf, UnexpectedInDir;
      var findings: seq<Finding> := [];
      var tabs, dirs := Tabs(stores), Dirs(stores);
      assert tabs[0..] == tabs && dirs[0..] == dirs;
      FindingsNothing(UnexpectedInTabs(disk.held, tabs, wanted));
      for i := 0 to |tabs|
        invariant disk.calls >= old(disk.calls)
        invariant UnexpectedInTabs(disk.held, tabs, wanted)
               == JoinFindings(findings, UnexpectedInTabs(disk.held, tabs[i..], wanted))
      {
        assert tabs[i..][0] == tabs[i] && tabs[i..][1..] == tabs[i + 1..];
        var content := disk.Read(tabs[i]);
        if content.Err? {
          return Err(content.error);
        }
        var managed := ManagedIn(content.value);
        if managed.Err? {
          return Err(managed.error);
        }
        var here := UnexpectedEntries(managed.value, tabs[i], wanted);
        FindingsTwice(findings, here, UnexpectedInTabs(disk.held, tabs[i + 1..], wanted));
        findings := findings + here;
      }
      FindingsEnd(findings);
      ghost var inTabs := findings;
      FindingsNothing(UnexpectedInDirs(disk.held, dirs, wanted));
      for i := 0 to |dirs|
        invariant disk.calls >= old(disk.calls)
        invariant JoinFindings(inTabs, UnexpectedInDirs(disk.held, dirs, wanted))
               == JoinFindings(findings, UnexpectedInDirs(disk.held, dirs[i..], wanted))
      {
        assert dirs[i..][0] == dirs[i] && dirs[i..][1..] == dirs[i + 1..];
        var listed := disk.Names(dirs[i]);
        if listed.Err? {
          return Err(listed.error);
        }
        var found := UnexpectedFiles(dirs[i], listed.value, wanted);
        if found.Err? {
          return found;
        }
        FindingsTwice(findings, found.value, UnexpectedInDirs(disk.held, dirs[i + 1..], wanted));
        findings := findings + found.value;
      }
      FindingsEnd(findings);
      r := Ok(findings);
    }

    /** Read the host back and report how it differs from the desired estate. */
    method Verify(desired: seq<Artefact>) returns (r: Result<seq<Finding>, Fault>)
      modifies disk`calls
      ensures disk.calls >= old(disk.calls)
      ensures r.Ok? || disk.Honest(old(disk.calls)) ==> r == VerifyHost(stores, disk.held, desired)
    {
      hide Inspect, FindUnexpected;
      var findings: seq<Finding> := [];
      assert desired[0..] == desired;
      FindingsNothing(InspectAll(stores, disk.held, desired));
      for i := 0 to |desired|
        invariant disk.calls >= old(disk.calls)
        invariant InspectAll(stores, disk.held, desired) == JoinFindings(findings, InspectAll(stores, disk.held, desired[i..]))
      {
        assert desired[i..][0] == desired[i] && desired[i..][1..] == desired[i + 1..];
        var found := InspectArtefact(desired[i]);
        if found.Err? {
          return found;
        }
        FindingsTwice(findings, found.value, InspectAll(stores, disk.held, desired[i + 1..]));
        findings := findings + found.value;
      }
      FindingsEnd(findings);
      var unexpected := FindUnexpectedContent(Slugs(desired));
      if unexpected.Err? {
        return unexpected;
      }
      r := Ok(findings + unexpected.value);
    }

    /** Write one artefact and read it back. */
    method ApplyWrite(e: PlanEntry, snapshot: Snapshot, ghost before: Host, ghost installed: set<string>) returns (r: Result<(), Fault>)
      requires snapshot.Holds(before, disk.held)
      modifies disk, snapshot
      ensures disk.calls >= old(disk.calls) && disk.Extends(old(disk.trace))
      ensures snapshot.Holds(before, disk.held)
      ensures disk.Honest(old(disk.calls)) ==>
                match Hosts.ApplyWrite(stores, old(disk.held), e)
                case Ok(h) => r.Ok? && disk.held == h
                case Err(f) => r == Err(f)
      ensures r.Ok? ==> LeftAsRendered(stores, disk.held, e)
      ensures old(HostInOrder(stores, disk.held) && AllInstalled(stores, disk.held, installed)) && disk.Atomic(old(disk.calls))
              && Writable(stores, e, installed) && !e.change.Remove? ==>
                && disk.Safe(stores, installed, old(|disk.trace|))
                && (r.Ok? ==> HostInOrder(stores, disk.held) && SameBut(stores, old(disk.held), disk.held, e.slug))
    {
      hide SameBut, PlaceFor, Current, HostInOrder, AllInstalled, Writable, Rewritten, ReadsAs, Snapshot.Holds, Snapshot.Has,
           LeftAsRendered;
      if e.artefact.None? {
        return Err(NoArtefact);
      }
      var a := e.artefact.value;
      var place := PlaceFor(stores, a);
      if place.Err? {
        return Err(place.error);
      }
      var at := place.value;
      var original := disk.Read(at);
      if original.Err? {
        return Err(original.error);
      }
      ghost var was, callsBefore := disk.held, disk.calls;
      PlaceIsATab(stores, a);
      if WritesAFile(a.deployment.strategy) {
        snapshot.CaptureFile(at, original.value, before, was);
      } else {
        snapshot.CaptureCrontab(at, original.value, before, was);
      }
      var text := Rewritten(a, original.value, e.after);
      if text.Err? {
        return Err(text.error);
      }
      var put := disk.Put(at, Some(text.value));
      ghost var effect := disk.faults(callsBefore).effect;
      snapshot.WriteKeepsHolding(before, was, at, Some(text.value), effect);
      WrittenSafely(stores, was, e, effect, installed);
      if put.Err? {
        return put;
      }
      var written: Result<Text, Fault>;
      if WritesAFile(a.deployment.strategy) {
        written := disk.Read(at);
      } else {
        written := CurrentContent(a);
      }
      if written.Err? {
        return Err(written.error);
      }
      ReadsRight(stores, disk.held, e, written.value);
      r := if ReadsAs(written.value, e.after) then Ok(()) else Err(NotAsWritten);
    }

    /** A crontab without the slug, in whichever of the two shapes it is there. */
    method ClearedOf(content: Text, slug: string) returns (r: Result<Option<Text>, Fault>)
      ensures r == Cleared(content, slug)
    {
      hide TakeOut, FindRegions, FindMembers, FirstEntry;
      var regions := FindRegions(content.lines);
      if regions.Err? {
        return Err(regions.error);
      }
      var members := FindMembers(content.lines);
      if members.Err? {
        return Err(members.error);
      }
      var inRegion := Hosts.Has(RegionEntries(regions.value), slug);
      var inBlock := Hosts.Has(MemberEntries(members.value), slug);
      if !inRegion && !inBlock {
        return Ok(None);
      }
      var text := TakeOut(content, slug, inRegion, inBlock);
      r := if text.Ok? then Ok(Some(text.value)) else Err(text.error);
    }

    /** Write a crontab without the slug, and read it back: neither shape may show. */
    method RewriteWithout(at: Place, text: Text, cleared: Text, slug: string, snapshot: Snapshot, ghost before: Host, ghost installed: set<string>)
      returns (r: Result<(), Fault>)
      requires snapshot.Holds(before, disk.held) && at in Tabs(stores) && !at.File?
      requires text == Read(disk.held, at) && Cleared(text, slug) == Ok(Some(cleared))
      modifies disk, snapshot
      ensures disk.calls >= old(disk.calls) && disk.Extends(old(disk.trace))
      ensures snapshot.Holds(before, disk.held)
      ensures disk.Honest(old(disk.calls)) ==>
                match RemoveFromTab(old(disk.held), at, slug)
                case Ok(h) => r.Ok? && disk.held == h
                case Err(f) => r == Err(f)
      ensures r.Ok? ==> GoneFromTab(disk.held, at, slug)
      ensures forall p | p != at :: Read(disk.held, p) == old(Read(disk.held, p))
      ensures disk.Atomic(old(disk.calls)) ==>
                Careful(stores, old(disk.held), disk.held, disk.trace[|old(disk.trace)|..], slug, installed)
    {
      hide Careful, Cleared, StillThere, Snapshot.Holds, Snapshot.Has, Tabs;
      ghost var was, callsBefore := disk.held, disk.calls;
      snapshot.CaptureCrontab(at, text, before, was);
      var put := disk.Put(at, Some(cleared));
      ghost var effect := disk.faults(callsBefore).effect;
      snapshot.WriteKeepsHolding(before, was, at, Some(cleared), effect);
      ElsewhereUntouched(was, at, Some(cleared), effect);
      TakenSafely(stores, was, at, slug, effect, installed);
      assert disk.trace[|old(disk.trace)|..] == [disk.held];
      if put.Err? {
        return put;
      }
      var after := disk.Read(at);
      if after.Err? {
        return Err(after.error);
      }
      var there := StillThere(after.value, slug);
      match there {
        case Err(f) => r := Err(f);
        case Ok(still) => r := if still then Err(StillPresent) else Ok(());
      }
    }

    /** One crontab's part of a removal: both shapes of the slug go. */
    method RemoveFromCrontab(at: Place, slug: string, snapshot: Snapshot, ghost before: Host, ghost installed: set<string>)
      returns (r: Result<(), Fault>)
      requires snapshot.Holds(before, disk.held) && at in Tabs(stores) && !at.File?
      modifies disk, snapshot
      ensures disk.calls >= old(disk.calls) && disk.Extends(old(disk.trace))
      ensures snapshot.Holds(before, disk.held)
      ensures disk.Honest(old(disk.calls)) ==>
                match RemoveFromTab(old(disk.held), at, slug)
                case Ok(h) => r.Ok? && disk.held == h
                case Err(f) => r == Err(f)
      ensures r.Ok? ==> GoneFromTab(disk.held, at, slug)
      ensures forall p | p != at :: Read(disk.held, p) == old(Read(disk.held, p))
      ensures disk.Atomic(old(disk.calls)) ==>
                Careful(stores, old(disk.held), disk.held, disk.trace[|old(disk.trace)|..], slug, installed)
    {
      StandingStill(stores, disk.held, slug, installed);
      hide Careful, Cleared, StillThere, Snapshot.Holds, Snapshot.Has, Tabs;
      assert disk.trace[|old(disk.trace)|..] == [];
      var original := disk.Read(at);
      if original.Err? {
        return Err(original.error);
      }
      var cleared := ClearedOf(original.value, slug);
      if cleared.Err? {
        return Err(cleared.error);
      }
      if cleared.value.None? {
        NothingThere(original.value, slug);
        return Ok(());
      }
      r := RewriteWithout(at, original.value, cleared.value.value, slug, snapshot, before, installed);
    }

    /** One directory's part of a removal: a file of that name goes when it holds anything managed. */
    method RemoveFromDirectory(dir: Dir, slug: string, snapshot: Snapshot, ghost before: Host, ghost installed: set<string>)
      returns (r: Result<(), Fault>)
      requires snapshot.Holds(before, disk.held) && dir in Dirs(stores)
      modifies disk, snapshot
      ensures disk.calls >= old(disk.calls) && disk.Extends(old(disk.trace))
      ensures snapshot.Holds(before, disk.held)
      ensures disk.Honest(old(disk.calls)) ==>
                match RemoveFromDir(old(disk.held), File(dir, slug))
                case Ok(h) => r.Ok? && disk.held == h
                case Err(f) => r == Err(f)
      ensures r.Ok? ==> GoneFromDir(disk.held, dir, slug)
      ensures forall p | p != File(dir, slug) :: Read(disk.held, p) == old(Read(disk.held, p))
      ensures disk.Atomic(old(disk.calls)) ==>
                Careful(stores, old(disk.held), disk.held, disk.trace[|old(disk.trace)|..], slug, installed)
    {
      StandingStill(stores, disk.held, slug, installed);
      hide Careful, FindRegions, Snapshot.Holds, Snapshot.Has;
      var at := File(dir, slug);
      var content := disk.Read(at);
      if content.Err? {
        return Err(content.error);
      }
      ghost var was, callsBefore := disk.held, disk.calls;
      if Blank(content.value) {
        return Ok(());
      }
      var regions := FindRegions(content.value.lines);
      if regions.Err? {
        return Err(regions.error);
      }
      if regions.value == [] {
        return Ok(());
      }
      snapshot.CaptureFile(at, content.value, before, was);
      var gone := disk.Put(at, None);
      ghost var effect := disk.faults(callsBefore).effect;
      snapshot.WriteKeepsHolding(before, was, at, None, effect);
      ElsewhereUntouched(was, at, None, effect);
      RemovedSafely(stores, was, at, effect, installed);
      if gone.Err? {
        return gone;
      }
      var after := disk.Read(at);
      if after.Err? {
        return Err(after.error);
      }
      r := if Blank(after.value) then Ok(()) else Err(StillPresent);
    }

    method RemoveFromCrontabs(slug: string, snapshot: Snapshot, ghost before: Host, ghost installed: set<string>) returns (r: Result<(), Fault>)
      requires snapshot.Holds(before, disk.held)
      modifies disk, snapshot
      ensures disk.calls >= old(disk.calls) && disk.Extends(old(disk.trace))
      ensures snapshot.Holds(before, disk.held)
      ensures disk.Honest(old(disk.calls)) ==>
                match RemoveFromTabs(old(disk.held), Tabs(stores), slug)
                case Ok(h) => r.Ok? && disk.held == h
                case Err(f) => r == Err(f)
      ensures r.Ok? ==> forall tab | tab in Tabs(stores) :: GoneFromTab(disk.held, tab, slug)
      ensures disk.Atomic(old(disk.calls)) ==>
                Careful(stores, old(disk.held), disk.held, disk.trace[|old(disk.trace)|..], slug, installed)
    {
      StandingStill(stores, disk.held, slug, installed);
      TabsAreTabs(stores);
      hide Careful, Tabs, RemoveFromTab, RemoveFromTabs, TabsLeft, GoneFromTab, Snapshot.Holds, CarefulSince, SameTabs;
      var tabs := Tabs(stores);
      TabsBegin(disk.held, tabs, slug);
      SinceNow(stores, disk.held, disk.trace, slug, installed);
      for i := 0 to |tabs|
        invariant disk.calls >= old(disk.calls) && disk.Extends(old(disk.trace))
        invariant snapshot.Holds(before, disk.held)
        invariant disk.Honest(old(disk.calls)) ==> TabsLeft(old(disk.held), disk.held, tabs, i, slug)
        invariant forall j | 0 <= j < i :: GoneFromTab(disk.held, tabs[j], slug)
        invariant disk.Atomic(old(disk.calls)) ==> CarefulSince(stores, old(disk.held), old(disk.trace), disk.held, disk.trace, slug, installed)
      {
        ghost var was, trail := disk.held, disk.trace;
        r := RemoveFromCrontab(tabs[i], slug, snapshot, before, installed);
        if disk.Honest(old(disk.calls)) {
          NextTab(old(disk.held), was, tabs, i, slug);
        }
        if disk.Atomic(old(disk.calls)) {
          SinceThen(stores, old(disk.held), was, disk.held, old(disk.trace), trail, disk.trace, slug, installed);
        }
        if r.Err? {
          SinceMeans(stores, old(disk.held), old(disk.trace), disk.held, disk.trace, slug, installed);
          return;
        }
        StillGone(was, disk.held, tabs, i, slug);
      }
      if disk.Honest(old(disk.calls)) {
        NoTabLeft(old(disk.held), disk.held, tabs, slug);
      }
      SinceMeans(stores, old(disk.held), old(disk.trace), disk.held, disk.trace, slug, installed);
      r := Ok(());
    }

    method RemoveFromDirectories(slug: string, snapshot: Snapshot, ghost before: Host, ghost installed: set<string>) returns (r: Result<(), Fault>)
      requires snapshot.Holds(before, disk.held)
      modifies disk, snapshot
      ensures disk.calls >= old(disk.calls) && disk.Extends(old(disk.trace))
      ensures snapshot.Holds(before, disk.held)
      ensures disk.Honest(old(disk.calls)) ==>
                match RemoveFromDirs(old(disk.held), Dirs(stores), slug)
                case Ok(h) => r.Ok? && disk.held == h
                case Err(f) => r == Err(f)
      ensures SameTabs(old(disk.held), disk.held)
      ensures r.Ok? ==> forall dir | dir in Dirs(stores) :: GoneFromDir(disk.held, dir, slug)
      ensures disk.Atomic(old(disk.calls)) ==>
                Careful(stores, old(disk.held), disk.held, disk.trace[|old(disk.trace)|..], slug, installed)
    {
      StandingStill(stores, disk.held, slug, installed);
      hide Careful, Dirs, RemoveFromDir, RemoveFromDirs, DirsLeft, GoneFromDir, Snapshot.Holds, SameTabs, CarefulSince;
      var dirs := Dirs(stores);
      DirsBegin(disk.held, dirs, slug);
      SinceNow(stores, disk.held, disk.trace, slug, installed);
      for i := 0 to |dirs|
        invariant disk.calls >= old(disk.calls) && disk.Extends(old(disk.trace))
        invariant snapshot.Holds(before, disk.held)
        invariant disk.Honest(old(disk.calls)) ==> DirsLeft(old(disk.held), disk.held, dirs, i, slug)
        invariant SameTabs(old(disk.held), disk.held)
        invariant forall j | 0 <= j < i :: GoneFromDir(disk.held, dirs[j], slug)
        invariant disk.Atomic(old(disk.calls)) ==> CarefulSince(stores, old(disk.held), old(disk.trace), disk.held, disk.trace, slug, installed)
      {
        ghost var was, trail := disk.held, disk.trace;
        r := RemoveFromDirectory(dirs[i], slug, snapshot, before, installed);
        if disk.Honest(old(disk.calls)) {
          NextDir(old(disk.held), was, dirs, i, slug);
        }
        if disk.Atomic(old(disk.calls)) {
          SinceThen(stores, old(disk.held), was, disk.held, old(disk.trace), trail, disk.trace, slug, installed);
        }
        TabsStillSame(old(disk.held), was, disk.held, File(dirs[i], slug));
        if r.Err? {
          SinceMeans(stores, old(disk.held), old(disk.trace), disk.held, disk.trace, slug, installed);
          return;
        }
        StillGoneFrom(was, disk.held, dirs, i, slug);
      }
      if disk.Honest(old(disk.calls)) {
        NoDirLeft(old(disk.held), disk.held, dirs, slug);
      }
      SinceMeans(stores, old(disk.held), old(disk.trace), disk.held, disk.trace, slug, installed);
      r := Ok(());
    }

    /** Remove one managed slug, wherever on the host it is now. */
    method ApplyRemoval(e: PlanEntry, snapshot: Snapshot, ghost before: Host, ghost installed: set<string>) returns (r: Result<(), Fault>)
      requires snapshot.Holds(before, disk.held)
      modifies disk, snapshot
      ensures disk.calls >= old(disk.calls) && disk.Extends(old(disk.trace))
      ensures snapshot.Holds(before, disk.held)
      ensures disk.Honest(old(disk.calls)) ==>
                match Hosts.ApplyRemoval(stores, old(disk.held), e.slug)
                case Ok(h) => r.Ok? && disk.held == h
                case Err(f) => r == Err(f)
      ensures r.Ok? ==> forall tab | tab in Tabs(stores) :: GoneFromTab(disk.held, tab, e.slug)
      ensures r.Ok? ==> forall dir | dir in Dirs(stores) :: GoneFromDir(disk.held, dir, e.slug)
      ensures disk.Atomic(old(disk.calls)) ==>
                Careful(stores, old(disk.held), disk.held, disk.trace[|old(disk.trace)|..], e.slug, installed)
    {
      TabsAreTabs(stores);
      hide Careful, Tabs, Dirs, RemoveFromTabs, RemoveFromDirs, StillThere, GoneFromDir, Snapshot.Holds;
      r := RemoveFromCrontabs(e.slug, snapshot, before, installed);
      if r.Err? {
        return;
      }
      ghost var was, trail := disk.held, disk.trace;
      r := RemoveFromDirectories(e.slug, snapshot, before, installed);
      Onward(stores, old(disk.held), was, disk.held, old(disk.trace), trail, disk.trace, e.slug, installed);
    }

    /** Undo everything the snapshot recorded, and report why. */
    method RollBack(snapshot: Snapshot, slug: string, fault: Fault, ghost before: Host, ghost installed: set<string>)
      returns (result: ApplyResult)
      requires snapshot.Holds(before, disk.held) && Tidy(before)
      modifies disk
      ensures disk.calls >= old(disk.calls) && disk.Extends(old(disk.trace))
      ensures result.failure == Some((slug, fault)) && result.applied == []
      ensures result.rolledBack ==> forall p: Place :: disk.Restored(p, before, old(disk.calls))
      ensures !result.rolledBack ==> disk.RaisedPuttingBack(before, old(disk.calls))
      ensures old(AllInstalled(stores, disk.held, installed)) && AllInstalled(stores, before, installed) && disk.Atomic(old(disk.calls)) ==>
                disk.Safe(stores, installed, old(|disk.trace|))
    {
      hide AllInstalled, Snapshot.Holds;
      var restored := snapshot.Restore(disk, before, stores, installed);
      result := ApplyResult([], restored.Ok?, Some((slug, fault)));
    }

    method ApplyOne(e: PlanEntry, snapshot: Snapshot, ghost before: Host, ghost installed: set<string>) returns (r: Result<(), Fault>)
      requires snapshot.Holds(before, disk.held)
      modifies disk, snapshot
      ensures disk.calls >= old(disk.calls) && disk.Extends(old(disk.trace))
      ensures snapshot.Holds(before, disk.held)
      ensures disk.Honest(old(disk.calls)) ==>
                match ApplyEntry(stores, old(disk.held), e)
                case Ok(h) => r.Ok? && disk.held == h
                case Err(f) => r == Err(f)
      ensures old(HostInOrder(stores, disk.held) && AllInstalled(stores, disk.held, installed)) && disk.Atomic(old(disk.calls))
              && Writable(stores, e, installed) ==>
                && disk.Safe(stores, installed, old(|disk.trace|))
                && (r.Ok? ==> HostInOrder(stores, disk.held) && SameBut(stores, old(disk.held), disk.held, e.slug))
                && (r.Ok? && e.change.Remove? ==> !Managed(stores, disk.held, e.slug))
    {
      hide SameBut, Managed, HostInOrder, AllInstalled, Snapshot.Holds, Writable, Hosts.ApplyWrite, Hosts.ApplyRemoval, GoneFromTab, GoneFromDir, LeftAsRendered, Tabs, Dirs;
      if e.change.Remove? {
        ghost var trail := disk.trace;
        r := ApplyRemoval(e, snapshot, before, installed);
        assert forall k | |trail| <= k < |disk.trace| :: disk.trace[k] == disk.trace[|trail|..][k - |trail|];
        if r.Ok? {
          GoneIsUnmanaged(stores, disk.held, e.slug);
        }
      } else {
        r := ApplyWrite(e, snapshot, before, installed);
      }
    }

    /** Apply a plan entry by entry, undoing everything on the first failure of any kind. */
    method Apply(plan: Plan, ghost installed: set<string>) returns (result: ApplyResult)
      requires Tidy(disk.held)
      modifies disk
      ensures disk.calls >= old(disk.calls) && disk.Extends(old(disk.trace))
      ensures result.failure.None? ==> !result.rolledBack && result.applied == Changing(plan)
      ensures result.rolledBack ==> forall p: Place :: disk.Restored(p, old(disk.held), old(disk.calls))
      ensures result.failure.Some? && !result.rolledBack ==> disk.RaisedPuttingBack(old(disk.held), old(disk.calls))
      ensures result.failure.Some? ==>
                result.applied == [] && exists e | e in plan && !e.change.Unchanged? :: e.slug == result.failure.value.0
      ensures disk.Honest(old(disk.calls)) ==>
                match ApplyPlan(stores, old(disk.held), plan)
                case Ok(h) => result.failure.None? && disk.held == h
                case Err(f) => result.rolledBack && result.failure.Some? && result.failure.value.1 == f
      ensures old(HostInOrder(stores, disk.held) && AllInstalled(stores, disk.held, installed)) && disk.Atomic(old(disk.calls))
              && (forall e | e in plan && !e.change.Unchanged? :: Writable(stores, e, installed)) ==>
                && disk.Safe(stores, installed, old(|disk.trace|))
                && (result.failure.None? ==> HostInOrder(stores, disk.held))
                && (result.failure.None? && AllIndependent(Changing(plan)) ==>
                      forall e | e in plan && e.change.Remove? :: !Managed(stores, disk.held, e.slug))
    {
      hide SameBut, Managed, AllIndependent, HostInOrder, AllInstalled, Snapshot.Holds, Writable, ApplyEntry, Changing;
      var snapshot := new Snapshot();
      assert snapshot.Holds(disk.held, disk.held) by { FreshHolds(snapshot, disk.held); }
      var applied: Plan := [];
      var entries := Changing(plan);
      ChangingIn(plan);
      assert entries[0..] == entries;
      for i := 0 to |entries|
        invariant fresh(snapshot)
        invariant disk.calls >= old(disk.calls) && disk.Extends(old(disk.trace))
        invariant snapshot.Holds(old(disk.held), disk.held)
        invariant applied == entries[..i]
        invariant disk.Honest(old(disk.calls)) ==>
                    ApplyPlan(stores, old(disk.held), plan) == ApplyAll(stores, disk.held, entries[i..])
        invariant old(HostInOrder(stores, disk.held) && AllInstalled(stores, disk.held, installed)) && disk.Atomic(old(disk.calls))
                  && (forall e | e in entries :: Writable(stores, e, installed)) ==>
                    && disk.Safe(stores, installed, old(|disk.trace|)) && HostInOrder(stores, disk.held)
                    && (AllIndependent(entries) ==> RemovedAreGone(stores, disk.held, entries[..i]))
      {
        ghost var was := disk.held;
        var entry := entries[i];
        assert entries[i..][0] == entry && entries[i..][1..] == entries[i + 1..];
        var done := ApplyOne(entry, snapshot, old(disk.held), installed);
        if done.Err? {
          ghost var undoing := disk.calls;
          result := RollBack(snapshot, entry.slug, done.error, old(disk.held), installed);
          forall p: Place | result.rolledBack ensures disk.Restored(p, old(disk.held), old(disk.calls)) {
            assert disk.Restored(p, old(disk.held), undoing);
          }
          return;
        }
        applied := applied + [entry];
        OneMoreGone(stores, was, disk.held, entries, i);
      }
      result := ApplyResult(applied, false, None);
    }
  }

  /** No removed slug is managed any more. */
  ghost predicate RemovedAreGone(s: Stores, h: Host, es: Plan) {
    forall e | e in es && e.change.Remove? :: !Managed(s, h, e.slug)
  }

  lemma OneMoreGone(s: Stores, h: Host, h': Host, es: Plan, i: nat)
    requires i < |es|
    ensures AllIndependent(es) && RemovedAreGone(s, h, es[..i]) && SameBut(s, h, h', es[i].slug)
            && (es[i].change.Remove? ==> !Managed(s, h', es[i].slug)) ==>
              RemovedAreGone(s, h', es[..i + 1])
  {
    hide SameBut, Managed;
    if AllIndependent(es) && RemovedAreGone(s, h, es[..i]) && SameBut(s, h, h', es[i].slug)
       && (es[i].change.Remove? ==> !Managed(s, h', es[i].slug)) {
      forall e | e in es[..i + 1] && e.change.Remove? ensures !Managed(s, h', e.slug) {
        var j :| 0 <= j <= i && es[j] == e;
        if j < i && e.slug != es[i].slug {
          assert e in es[..i];
          ManagedIsKept(s, h, h', es[i].slug, e.slug);
        } else if j < i {
          assert Independent(es[j], es[i]);
        }
      }
    }
  }

  /** From a host in order that shows installed slugs only, through such states to such a host, changing one slug. */
  ghost predicate Careful(s: Stores, h: Host, h': Host, trail: seq<Host>, slug: string, installed: set<string>) {
    HostInOrder(s, h) && AllInstalled(s, h, installed) ==>
      && HostInOrder(s, h') && AllInstalled(s, h', installed) && SameBut(s, h, h', slug)
      && (forall k | 0 <= k < |trail| :: AllInstalled(s, trail[k], installed))
  }

  lemma StandingStill(s: Stores, h: Host, slug: string, installed: set<string>)
    ensures Careful(s, h, h, [], slug, installed)
  {
    hide HostInOrder, AllInstalled;
  }

  lemma CarefulSteps(s: Stores, h: Host, h1: Host, h2: Host, first: seq<Host>, rest: seq<Host>, slug: string, installed: set<string>)
    ensures Careful(s, h, h1, first, slug, installed) && Careful(s, h1, h2, rest, slug, installed) ==>
              Careful(s, h, h2, first + rest, slug, installed)
  {
    hide HostInOrder, AllInstalled, SameBut;
    if SameBut(s, h, h1, slug) && SameBut(s, h1, h2, slug) {
      SameButTrans(s, h, h1, h2, slug);
    }
  }

  /** Two careful stretches of a disk's trace make one. */
  lemma Onward(s: Stores, h: Host, h1: Host, h2: Host, t: seq<Host>, t1: seq<Host>, t2: seq<Host>, slug: string, installed: set<string>)
    requires t <= t1 <= t2
    ensures t <= t2
    ensures Careful(s, h, h1, t1[|t|..], slug, installed) && Careful(s, h1, h2, t2[|t1|..], slug, installed) ==>
              Careful(s, h, h2, t2[|t|..], slug, installed)
  {
    hide Careful;
    assert t2 == t1 + t2[|t1|..];
    assert t2[|t|..] == t1[|t|..] + t2[|t1|..];
    CarefulSteps(s, h, h1, h2, t1[|t|..], t2[|t1|..], slug, installed);
  }

  lemma GoneIsUnmanaged(s: Stores, h: Host, slug: string)
    requires forall tab | tab in Tabs(s) :: GoneFromTab(h, tab, slug)
    requires forall dir | dir in Dirs(s) :: GoneFromDir(h, dir, slug)
    ensures HostInOrder(s, h) ==> !Managed(s, h, slug)
  {
    hide KindOf, InOrder, FindRegions, FindMembers, RegionMap, MemberMap, Tabs, Dirs, FirstEntry, RegionEntries, MemberEntries, FileInOrder;
    if HostInOrder(s, h) {
      forall tab | tab in Tabs(s) ensures !InTab(Read(h, tab), slug) {
        HasMeans(Read(h, tab), slug);
        assert GoneFromTab(h, tab, slug);
      }
      EmptyFindsNothing();
    }
  }

  lemma SameGoneTab(h: Host, h': Host, tab: Place, touched: Place, slug: string)
    requires forall p | p != touched :: Read(h', p) == Read(h, p)
    requires GoneFromTab(h, tab, slug) && GoneFromTab(h', touched, slug)
    ensures GoneFromTab(h', tab, slug)
  {
    hide StillThere;
  }

  lemma SameGone(h: Host, h': Host, dir: Dir, touched: Dir, slug: string)
    requires forall p | p != File(touched, slug) :: Read(h', p) == Read(h, p)
    requires GoneFromDir(h, dir, slug) && GoneFromDir(h', touched, slug)
    ensures GoneFromDir(h', dir, slug)
  {
    hide FindRegions;
  }

  /** What a removal leaves in a crontab, taking effect or not, shows installed slugs only and is in order. */
  lemma TakenSafely(s: Stores, h: Host, at: Place, slug: string, effect: Effect, installed: set<string>)
    requires at in Tabs(s) && Cleared(Read(h, at), slug).Ok? && Cleared(Read(h, at), slug).value.Some?
    ensures var h' := Effected(h, at, Cleared(Read(h, at), slug).value, effect);
            !effect.Garbled? ==> Careful(s, h, h', [h'], slug, installed)
  {
    hide KindOf, AllInstalled, TakeOut, FindRegions, FindMembers, FirstEntry, InOrder, RegionMap, MemberMap, FileInOrder, Shown,
         RegionEntries, MemberEntries, Effected, HostInOrder, Unmanaged, SameBut;
    if HostInOrder(s, h) && AllInstalled(s, h, installed) && !effect.Garbled? {
      TabsAreTabs(s);
      HostTab(s, h, at);
      HasMeans(Read(h, at), slug);
      TakeOutShows(Read(h, at), slug);
      TabRemovalStep(Read(h, at), slug);
      var u := Cleared(Read(h, at), slug).value.value;
      PlaceShows(s, h, at, installed);
      PutKeepsInstalled(s, h, at, Some(u), effect, installed);
      TabChanged(s, h, at, u, effect, slug);
    }
  }

  lemma NothingThere(t: Text, slug: string)
    requires Cleared(t, slug) == Ok(None)
    ensures StillThere(t, slug) == Ok(false)
  {
    hide FindRegions, FindMembers, FirstEntry, TakeOut;
  }

  lemma TabChanged(s: Stores, h: Host, at: Place, u: Text, effect: Effect, slug: string)
    requires HostInOrder(s, h) && at in Tabs(s) && !at.File? && !effect.Garbled?
    requires InOrder(u) && Crontabs.Unmanaged(u) == Crontabs.Unmanaged(Read(h, at))
    requires RegionMap(u) == RegionMap(Read(h, at)) - {slug} && MemberMap(u) == MemberMap(Read(h, at)) - {slug}
    ensures HostInOrder(s, Effected(h, at, Some(u), effect)) && SameBut(s, h, Effected(h, at, Some(u), effect), slug)
  {
    hide KindOf, InOrder, RegionMap, MemberMap, FileInOrder, Unmanaged, Tabs, Dirs;
    var h' := Effected(h, at, Some(u), effect);
    ElsewhereUntouched(h, at, Some(u), effect);
    WholeIsRead(h, at, Some(u));
    forall tab | tab in Tabs(s) && tab != at ensures Read(h', tab) == Read(h, tab) {
    }
  }

  lemma PlaceShows(s: Stores, h: Host, at: Place, installed: set<string>)
    requires AllInstalled(s, h, installed) && at in Tabs(s)
    ensures Shown(Read(h, at)) <= installed
  {
    hide Shown;
    TabsAreTabs(s);
  }

  lemma RemovedSafely(s: Stores, h: Host, at: Place, effect: Effect, installed: set<string>)
    requires at.File? && at.dir in Dirs(s)
    ensures var h' := Effected(h, at, None, effect);
            !effect.Garbled? ==> Careful(s, h, h', [h'], at.name, installed)
  {
    hide KindOf, AllInstalled, InOrder, FindRegions;
    if HostInOrder(s, h) && AllInstalled(s, h, installed) && !effect.Garbled? {
      TabsAreTabs(s);
      PutKeepsInstalled(s, h, at, None, effect, installed);
      ElsewhereUntouched(h, at, None, effect);
      WholeIsRead(h, at, None);
      EmptyFindsNothing();
      var h' := Effected(h, at, None, effect);
      forall dir, name | dir in Dirs(s) ensures FileInOrder(name, Read(h', File(dir, name))) {
        assert FileInOrder(name, Read(h, File(dir, name)));
      }
    }
  }

  /** What was gone before the next crontab was gone through still is. */
  lemma StillGone(h: Host, h': Host, tabs: seq<Place>, i: nat, slug: string)
    requires i < |tabs| && GoneFromTab(h', tabs[i], slug) && forall p | p != tabs[i] :: Read(h', p) == Read(h, p)
    requires forall j | 0 <= j < i :: GoneFromTab(h, tabs[j], slug)
    ensures forall j | 0 <= j < i + 1 :: GoneFromTab(h', tabs[j], slug)
  {
    hide GoneFromTab, Read;
    forall j | 0 <= j < i ensures GoneFromTab(h', tabs[j], slug) {
      SameGoneTab(h, h', tabs[j], tabs[i], slug);
    }
  }

  /** What is left to do once i crontabs are through comes to what there was to do at the start. */
  predicate TabsLeft(start: Host, h: Host, tabs: seq<Place>, i: nat, slug: string)
    requires i <= |tabs|
  {
    RemoveFromTabs(start, tabs, slug) == RemoveFromTabs(h, tabs[i..], slug)
  }

  lemma TabsBegin(h: Host, tabs: seq<Place>, slug: string)
    ensures TabsLeft(h, h, tabs, 0, slug)
  {
    assert tabs[0..] == tabs;
  }

  lemma NextTab(start: Host, h: Host, tabs: seq<Place>, i: nat, slug: string)
    requires i < |tabs| && TabsLeft(start, h, tabs, i, slug)
    ensures match RemoveFromTab(h, tabs[i], slug)
            case Ok(next) => TabsLeft(start, next, tabs, i + 1, slug)
            case Err(f) => RemoveFromTabs(start, tabs, slug) == Err(f)
  {
    hide RemoveFromTab;
    assert tabs[i..][0] == tabs[i] && tabs[i..][1..] == tabs[i + 1..];
  }

  lemma NoTabLeft(start: Host, h: Host, tabs: seq<Place>, slug: string)
    requires TabsLeft(start, h, tabs, |tabs|, slug)
    ensures RemoveFromTabs(start, tabs, slug) == Ok(h)
  {
  }

  ghost predicate SameTabs(h: Host, h': Host) {
    forall p: Place | !p.File? :: Read(h', p) == Read(h, p)
  }

  lemma TabsStillSame(start: Host, h: Host, h': Host, at: Place)
    requires SameTabs(start, h) && at.File? && forall p | p != at :: Read(h', p) == Read(h, p)
    ensures SameTabs(start, h')
  {
    hide Read;
  }

  /** Careful all the way since the host and its trace were as at the start. */
  ghost predicate CarefulSince(s: Stores, start: Host, begun: seq<Host>, h: Host, trace: seq<Host>, slug: string, installed: set<string>) {
    begun <= trace && Careful(s, start, h, trace[|begun|..], slug, installed)
  }

  lemma SinceNow(s: Stores, h: Host, trace: seq<Host>, slug: string, installed: set<string>)
    ensures CarefulSince(s, h, trace, h, trace, slug, installed) && SameTabs(h, h)
  {
    hide Careful;
    StandingStill(s, h, slug, installed);
    assert trace[|trace|..] == [];
  }

  lemma SinceThen(s: Stores, h: Host, h1: Host, h2: Host, t: seq<Host>, t1: seq<Host>, t2: seq<Host>, slug: string, installed: set<string>)
    requires CarefulSince(s, h, t, h1, t1, slug, installed) && t1 <= t2 && Careful(s, h1, h2, t2[|t1|..], slug, installed)
    ensures CarefulSince(s, h, t, h2, t2, slug, installed)
  {
    hide Careful;
    Onward(s, h, h1, h2, t, t1, t2, slug, installed);
  }

  lemma SinceMeans(s: Stores, start: Host, begun: seq<Host>, h: Host, trace: seq<Host>, slug: string, installed: set<string>)
    ensures CarefulSince(s, start, begun, h, trace, slug, installed) ==>
              begun <= trace && Careful(s, start, h, trace[|begun|..], slug, installed)
  {
    hide Careful;
  }

  predicate DirsLeft(start: Host, h: Host, dirs: seq<Dir>, i: nat, slug: string)
    requires i <= |dirs|
  {
    RemoveFromDirs(start, dirs, slug) == RemoveFromDirs(h, dirs[i..], slug)
  }

  lemma DirsBegin(h: Host, dirs: seq<Dir>, slug: string)
    ensures DirsLeft(h, h, dirs, 0, slug)
  {
    assert dirs[0..] == dirs;
  }

  lemma NextDir(start: Host, h: Host, dirs: seq<Dir>, i: nat, slug: string)
    requires i < |dirs| && DirsLeft(start, h, dirs, i, slug)
    ensures match RemoveFromDir(h, File(dirs[i], slug))
            case Ok(next) => DirsLeft(start, next, dirs, i + 1, slug)
            case Err(f) => RemoveFromDirs(start, dirs, slug) == Err(f)
  {
    hide RemoveFromDir;
    assert dirs[i..][0] == dirs[i] && dirs[i..][1..] == dirs[i + 1..];
  }

  lemma NoDirLeft(start: Host, h: Host, dirs: seq<Dir>, slug: string)
    requires DirsLeft(start, h, dirs, |dirs|, slug)
    ensures RemoveFromDirs(start, dirs, slug) == Ok(h)
  {
  }

  lemma StillGoneFrom(h: Host, h': Host, dirs: seq<Dir>, i: nat, slug: string)
    requires i < |dirs| && GoneFromDir(h', dirs[i], slug) && forall p | p != File(dirs[i], slug) :: Read(h', p) == Read(h, p)
    requires forall j | 0 <= j < i :: GoneFromDir(h, dirs[j], slug)
    ensures forall j | 0 <= j < i + 1 :: GoneFromDir(h', dirs[j], slug)
  {
    hide GoneFromDir, Read;
    forall j | 0 <= j < i ensures GoneFromDir(h', dirs[j], slug) {
      SameGone(h, h', dirs[j], dirs[i], slug);
    }
  }

  lemma PlaceIsATab(s: Stores, a: Artefact)
    requires PlaceFor(s, a).Ok?
    ensures PlaceFor(s, a).value.File? <==> WritesAFile(a.deployment.strategy)
  {
    TabOrFile(s, a);
  }

  /** What a write leaves, taking effect or not, shows installed slugs only; if it reads back, it is in order. */
  lemma WrittenSafely(s: Stores, h: Host, e: PlanEntry, effect: Effect, installed: set<string>)
    requires e.artefact.Some? && PlaceFor(s, e.artefact.value).Ok?
    requires Rewritten(e.artefact.value, Read(h, PlaceFor(s, e.artefact.value).value), e.after).Ok?
    ensures var a := e.artefact.value;
            var at := PlaceFor(s, a).value;
            var h' := Effected(h, at, Some(Rewritten(a, Read(h, at), e.after).value), effect);
            HostInOrder(s, h) && AllInstalled(s, h, installed) && Writable(s, e, installed) && !e.change.Remove? && !effect.Garbled? ==>
              && AllInstalled(s, h', installed)
              && (ReadBack(s, h', a, at).Ok? && ReadsAs(ReadBack(s, h', a, at).value, e.after) ==>
                    HostInOrder(s, h') && SameBut(s, h, h', e.slug))
  {
    hide KindOf, PlaceFor, HostInOrder, AllInstalled, ReadsAs, Clean, Render, ReplaceRegion, UpsertMember, Current;
    if HostInOrder(s, h) && AllInstalled(s, h, installed) && Writable(s, e, installed) && !e.change.Remove? && !effect.Garbled? {
      var a := e.artefact.value;
      var at := PlaceFor(s, a).value;
      WriteShows(s, h, e, installed);
      PutKeepsInstalled(s, h, at, Some(Rewritten(a, Read(h, at), e.after).value), effect, installed);
      if WritesAFile(a.deployment.strategy) {
        FileWriteStep(s, h, e, a);
      } else {
        TabWriteStep(s, h, e, a);
      }
    }
  }

  lemma FreshHolds(snapshot: Snapshot, h: Host)
    requires snapshot.crontabs == [] && snapshot.files == []
    ensures snapshot.Holds(h, h)
  {
  }

  /** Once something deployed has been read, the artefact has a place here. */
  lemma HasPlace(s: Stores, h: Host, a: Artefact)
    ensures Current(s, h, a).Ok? || IsAmbiguity(Current(s, h, a).error) ==> PlaceFor(s, a).Ok?
    ensures PlaceFor(s, a).Err? ==> Current(s, h, a) == Err(PlaceFor(s, a).error)
  {
    hide CurrentFile, CurrentEntry;
  }

  lemma JoinNothing(rest: Result<Plan, Fault>)
    ensures Join([], rest) == rest
  {
    if rest.Ok? {
      assert [] + rest.value == rest.value;
    }
  }

  lemma JoinTwice(a: Plan, b: Plan, rest: Result<Plan, Fault>)
    ensures Join(a, Join(b, rest)) == Join(a + b, rest)
  {
    if rest.Ok? {
      assert a + (b + rest.value) == a + b + rest.value;
    }
  }

  lemma JoinEnd(a: Plan)
    ensures Join(a, Ok([])) == Ok(a)
  {
    assert a + [] == a;
  }

  lemma FindingsNothing(rest: Result<seq<Finding>, Fault>)
    ensures JoinFindings([], rest) == rest
  {
    if rest.Ok? {
      assert [] + rest.value == rest.value;
    }
  }

  lemma FindingsTwice(a: seq<Finding>, b: seq<Finding>, rest: Result<seq<Finding>, Fault>)
    ensures JoinFindings(a, JoinFindings(b, rest)) == JoinFindings(a + b, rest)
  {
    if rest.Ok? {
      assert a + (b + rest.value) == a + b + rest.value;
    }
  }

  lemma FindingsEnd(a: seq<Finding>)
    ensures JoinFindings(a, Ok([])) == Ok(a)
  {
    assert a + [] == a;
  }
}
