/**
 Verifying a host says what planning would change.

 VerifyAgrees: when planning does not raise, the findings are the changing entries, one by
 one and in order, so the report matches exactly when there is nothing to apply.
 PlansWhenUnambiguous: planning raises exactly when verifying raises or finds an ambiguity.
 */
module DriftReports {
  import Sequences
  import opened Results
  import opened Faults
  import opened Texts
  import opened Regions
  import opened Crontabs
  import opened Rendering
  import opened Hosts

  function DriftOf(c: Change): Drift
    requires !c.Unchanged?
  {
    match c
    case Create => Missing
    case Update => Modified
    case Remove => Unexpected
  }

  function FindingsOf(es: Plan): seq<Finding> {
    if es == [] then []
    else
      (if es[0].change.Unchanged? then [] else [Finding(DriftOf(es[0].change), es[0].at, es[0].id)])
      + FindingsOf(es[1..])
  }

  lemma OneFinding(e: PlanEntry)
    ensures FindingsOf([e]) == if e.change.Unchanged? then [] else [Finding(DriftOf(e.change), e.at, e.id)]
  {
    assert FindingsOf([e][1..]) == [];
  }

  lemma {:induction false} FindingsSum(a: Plan, b: Plan)
    ensures FindingsOf(a + b) == FindingsOf(a) + FindingsOf(b)
  {
    if a == [] {
      Sequences.NothingFirst(b);
    } else {
      FindingsSum(a[1..], b);
      Sequences.HeadOfSum(a, b);
      Sequences.Assoc(FindingsOf([a[0]]), FindingsOf(a[1..]), FindingsOf(b));
      OneFinding(a[0]);
    }
  }

  /** The findings are those of the plan, or both fail, the one with the other's fault. */
  predicate Agree(plan: Result<Plan, Fault>, found: Result<seq<Finding>, Fault>) {
    match plan
    case Ok(es) => found == Ok(FindingsOf(es))
    case Err(f) => found == Err(f)
  }

  lemma JoinsAgree(a: Plan, b: Result<Plan, Fault>, found: Result<seq<Finding>, Fault>)
    requires Agree(b, found)
    ensures Agree(Join(a, b), JoinFindings(FindingsOf(a), found))
  {
    if b.Ok? {
      FindingsSum(a, b.value);
    }
  }

  // -- removals and unexpected content ---------------------------------------------------------

  lemma {:induction false} EntriesAgree(es: seq<Entry>, at: Place, wanted: set<string>)
    ensures UnexpectedOf(es, at, wanted) == FindingsOf(RemovalsOf(es, at, wanted))
  {
    if es != [] {
      EntriesAgree(es[1..], at, wanted);
      var first := if es[0].mark.slug in wanted then []
        else [PlanEntry(es[0].mark.id, es[0].mark.slug, Remove, at, Text(es[0].lines, true), [], None)];
      FindingsSum(first, RemovalsOf(es[1..], at, wanted));
    }
  }

  lemma {:induction false} TabsAgree(h: Host, tabs: seq<Place>, wanted: set<string>)
    ensures Agree(RemovalsInTabs(h, tabs, wanted), UnexpectedInTabs(h, tabs, wanted))
  {
    hide ManagedIn, RemovalsOf, UnexpectedOf;
    if tabs != [] {
      TabsAgree(h, tabs[1..], wanted);
      match ManagedIn(Read(h, tabs[0])) {
        case Err(_) =>
        case Ok(es) =>
          EntriesAgree(es, tabs[0], wanted);
          JoinsAgree(RemovalsOf(es, tabs[0], wanted), RemovalsInTabs(h, tabs[1..], wanted), UnexpectedInTabs(h, tabs[1..], wanted));
      }
    }
  }

  lemma {:induction false} DirAgrees(h: Host, dir: Dir, names: seq<string>, wanted: set<string>)
    ensures Agree(RemovalsInDir(h, dir, names, wanted), UnexpectedInDir(h, dir, names, wanted))
  {
    hide FindRegions;
    if names != [] {
      DirAgrees(h, dir, names[1..], wanted);
      var removal := RemovalOfFile(h, File(dir, names[0]), wanted);
      if removal.Ok? && removal.value != [] {
        OneFinding(removal.value[0]);
      }
      assert Agree(removal, UnexpectedFile(h, File(dir, names[0]), wanted));
      if removal.Ok? {
        JoinsAgree(removal.value, RemovalsInDir(h, dir, names[1..], wanted), UnexpectedInDir(h, dir, names[1..], wanted));
      }
    }
  }

  lemma {:induction false} DirsAgree(h: Host, dirs: seq<Dir>, wanted: set<string>)
    ensures Agree(RemovalsInDirs(h, dirs, wanted), UnexpectedInDirs(h, dirs, wanted))
  {
    hide RemovalsInDir, UnexpectedInDir, Listing;
    if dirs != [] {
      DirsAgree(h, dirs[1..], wanted);
      DirAgrees(h, dirs[0], Listing(h, dirs[0]), wanted);
      var first := RemovalsInDir(h, dirs[0], Listing(h, dirs[0]), wanted);
      if first.Ok? {
        JoinsAgree(first.value, RemovalsInDirs(h, dirs[1..], wanted), UnexpectedInDirs(h, dirs[1..], wanted));
      }
    }
  }

  lemma RemovalsAgree(s: Stores, h: Host, wanted: set<string>)
    ensures Agree(PlanRemovals(s, h, wanted), FindUnexpected(s, h, wanted))
  {
    hide RemovalsInTabs, RemovalsInDirs, UnexpectedInTabs, UnexpectedInDirs, Tabs, Dirs;
    TabsAgree(h, Tabs(s), wanted);
    DirsAgree(h, Dirs(s), wanted);
    if RemovalsInTabs(h, Tabs(s), wanted).Ok? {
      JoinsAgree(RemovalsInTabs(h, Tabs(s), wanted).value, RemovalsInDirs(h, Dirs(s), wanted), UnexpectedInDirs(h, Dirs(s), wanted));
    }
  }

  // -- desired artefacts -----------------------------------------------------------------------

  predicate Unambiguous(fs: seq<Finding>) {
    forall f | f in fs :: !f.kind.Ambiguous?
  }

  lemma OneAgrees(s: Stores, h: Host, a: Artefact)
    ensures PlanOne(s, h, a).Ok? ==> Inspect(s, h, a) == Ok(FindingsOf([PlanOne(s, h, a).value]))
    ensures PlanOne(s, h, a).Err? ==> Inspect(s, h, a).Err? || !Unambiguous(Inspect(s, h, a).value)
  {
    hide Render, PlaceFor, CurrentFile, CurrentEntry;
    match PlanOne(s, h, a) {
      case Ok(e) =>
        OneFinding(e);
      case Err(_) =>
        if Inspect(s, h, a).Ok? {
          assert Inspect(s, h, a).value[0].kind.Ambiguous?;
        }
    }
  }

  lemma {:induction false} DesiredAgrees(s: Stores, h: Host, desired: seq<Artefact>)
    ensures PlanDesired(s, h, desired).Ok? ==> InspectAll(s, h, desired) == Ok(FindingsOf(PlanDesired(s, h, desired).value))
    ensures PlanDesired(s, h, desired).Err? ==>
              InspectAll(s, h, desired).Err? || !Unambiguous(InspectAll(s, h, desired).value)
  {
    hide PlanOne, Inspect;
    if desired != [] {
      OneAgrees(s, h, desired[0]);
      DesiredAgrees(s, h, desired[1..]);
      var one, rest := PlanOne(s, h, desired[0]), PlanDesired(s, h, desired[1..]);
      if one.Ok? && rest.Ok? {
        FindingsSum([one.value], rest.value);
      } else if InspectAll(s, h, desired).Ok? {
        var first, more := Inspect(s, h, desired[0]).value, InspectAll(s, h, desired[1..]).value;
        var all := InspectAll(s, h, desired).value;
        assert forall f | f in first || f in more :: f in all;
      }
    }
  }

  lemma {:induction false} FindingsAreKnown(es: Plan)
    ensures Unambiguous(FindingsOf(es))
  {
    if es != [] {
      FindingsAreKnown(es[1..]);
    }
  }

  // -- the main results ------------------------------------------------------------------------

  /** One finding for each changing entry of the plan, in its order, with its place and task id. */
  lemma VerifyAgrees(s: Stores, h: Host, desired: seq<Artefact>)
    requires PlanFor(s, h, desired).Ok?
    ensures VerifyHost(s, h, desired) == Ok(FindingsOf(PlanFor(s, h, desired).value))
  {
    hide PlanDesired, InspectAll, PlanRemovals, FindUnexpected;
    DesiredAgrees(s, h, desired);
    RemovalsAgree(s, h, Slugs(desired));
    FindingsSum(PlanDesired(s, h, desired).value, PlanRemovals(s, h, Slugs(desired)).value);
  }

  lemma PlansWhenUnambiguous(s: Stores, h: Host, desired: seq<Artefact>)
    ensures PlanFor(s, h, desired).Ok? <==>
              VerifyHost(s, h, desired).Ok? && Unambiguous(VerifyHost(s, h, desired).value)
  {
    hide PlanDesired, InspectAll, PlanRemovals, FindUnexpected, Unambiguous;
    DesiredAgrees(s, h, desired);
    RemovalsAgree(s, h, Slugs(desired));
    if PlanFor(s, h, desired).Ok? {
      VerifyAgrees(s, h, desired);
      FindingsAreKnown(PlanFor(s, h, desired).value);
    } else if VerifyHost(s, h, desired).Ok? {
      MoreAmbiguity(InspectAll(s, h, desired).value, FindUnexpected(s, h, Slugs(desired)).value);
    }
  }

  lemma MoreAmbiguity(a: seq<Finding>, b: seq<Finding>)
    ensures Unambiguous(a + b) ==> Unambiguous(a)
  {
    assert forall f | f in a :: f in a + b;
  }

  function ChangesOf(es: Plan, c: Change): nat {
    if es == [] then 0 else (if es[0].change == c then 1 else 0) + ChangesOf(es[1..], c)
  }

  function DriftsOf(fs: seq<Finding>, d: Drift): nat {
    if fs == [] then 0 else (if fs[0].kind == d then 1 else 0) + DriftsOf(fs[1..], d)
  }

  lemma {:induction false} CountsAgree(es: Plan)
    ensures FindingsOf(es) == [] <==> Changing(es) == []
    ensures DriftsOf(FindingsOf(es), Missing) == ChangesOf(es, Create)
    ensures DriftsOf(FindingsOf(es), Modified) == ChangesOf(es, Update)
    ensures DriftsOf(FindingsOf(es), Unexpected) == ChangesOf(es, Remove)
  {
    if es != [] {
      CountsAgree(es[1..]);
      var fs := FindingsOf(es);
      if !es[0].change.Unchanged? {
        assert fs[1..] == FindingsOf(es[1..]);
      } else {
        assert fs == FindingsOf(es[1..]);
      }
    }
  }

  /** The report matches exactly when the plan is empty, and the counts of either kind are equal. */
  lemma MatchesWhenEmpty(s: Stores, h: Host, desired: seq<Artefact>)
    requires PlanFor(s, h, desired).Ok?
    ensures VerifyHost(s, h, desired).Ok?
    ensures var fs, es := VerifyHost(s, h, desired).value, PlanFor(s, h, desired).value;
            && (fs == [] <==> Changing(es) == [])
            && DriftsOf(fs, Missing) == ChangesOf(es, Create)
            && DriftsOf(fs, Modified) == ChangesOf(es, Update)
            && DriftsOf(fs, Unexpected) == ChangesOf(es, Remove)
  {
    hide PlanFor, VerifyHost;
    VerifyAgrees(s, h, desired);
    CountsAgree(PlanFor(s, h, desired).value);
  }
}
