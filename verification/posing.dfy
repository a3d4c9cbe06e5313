/**
 What becomes of a rendering with a line that poses as a marker.

 AnyFileIsWritten: a file is written whatever its lines say, and is in order afterwards exactly
 when its artefact is clean.  PosedRegionIsRefused: reading back a crontab region refuses one
 with a region marker in its body.  PoserBlocksItself: a file after which planning raises.
 */
module Posing {
  import Sequences
  import opened Results
  import opened Faults
  import opened Texts
  import opened Markers
  import opened Regions
  import opened RegionLaws
  import opened Crontabs
  import opened Rendering
  import opened Hosts
  import opened Convergence
  import opened WholeApply

  // -- files -----------------------------------------------------------------------------------

  lemma AnyFileIsWritten(s: Stores, h: Host, e: PlanEntry, a: Artefact)
    requires Tokens(MarkFor(a)) && WriteFor(e, a) && WritesAFile(a.deployment.strategy) && PlaceFor(s, a).Ok?
    ensures ApplyEntry(s, h, e) == Ok(h[PlaceFor(s, a).value := Text(e.after, true)])
    ensures FileInOrder(a.slug, Text(e.after, true)) <==> Clean(a)
  {
    hide KindOf, PlaceFor, Strip, Content, Body, Render, Tokens, FindRegions, NoRegionMarker;
    BodyOfRender(a);
    RenderedFile(a);
    FileNamesItself(a);
  }

  /** A rendered file that scans and has one region has its own. */
  lemma FileNamesItself(a: Artefact)
    requires Tokens(MarkFor(a)) && WritesAFile(a.deployment.strategy) && Render(a).Ok?
    ensures var found := FindRegions(Render(a).value);
            found.Ok? && |found.value| == 1 ==> NoRegionMarker(Body(a).value)
  {
    hide KindOf, Body, Marked, Tokens, FindRegions, NoRegionMarker;
    var shebang, body := a.deployment.strategy.RunPartsDirectory?, [NOTICE] + Body(a).value;
    assert Render(a).value == FileLines(a, body, shebang);
    NoticeIsNoMarker(Body(a).value);
    FileHasRegion(a, body, shebang);
  }

  // -- crontab regions -------------------------------------------------------------------------

  /** A scanner that opens a posed region closes it early, or not at all. */
  lemma {:induction false} ClosesEarly(mark: Mark, held: seq<string>, body: seq<string>, rest: seq<string>, at: nat) returns (j: nat)
    requires |held| <= at && !NoRegionMarker(body)
    ensures var found := ScanOpen(mark, held, body + rest, at);
            found.Ok? ==>
              && j < |body| && found.value != []
              && found.value[0].mark == mark && found.value[0].lines == held + body[..j + 1]
    decreases |body|
  {
    hide KindOf, ScanIdle;
    assert (body + rest)[0] == body[0] && (body + rest)[1..] == body[1..] + rest;
    j := 0;
    if KindOf(body[0]).RegionEnd? {
      assert body[..1] == [body[0]];
    } else if !KindOf(body[0]).RegionBegin? {
      assert !NoRegionMarker(body[1..]) by {
        var l :| l in body && IsRegionMarker(l);
        assert l in body[1..];
      }
      j := ClosesEarly(mark, held + [body[0]], body[1..], rest, at + 1);
      j := j + 1;
      if j < |body| {
        assert held + [body[0]] + body[1..][..j] == held + body[..j + 1];
      }
    }
  }

  /** Lines cut off before a comment are fewer characters, however both are stripped. */
  lemma CutReadsShorter(lines: seq<string>, k: nat)
    requires 0 < k < |lines| && IsComment(lines[0]) && IsComment(lines[|lines| - 1])
    ensures !ReadsAs(Text(lines[..k], true), lines)
  {
    hide IsSpace, Strip;
    var front, back := lines[..k], Text(lines[k..], true);
    ContentOfEnded(front, back);
    ContentOfEnded(front, EMPTY);
    assert front + back.lines == lines && front + EMPTY.lines == front;
    assert Content(EMPTY) == "";
    var whole, cut := Content(Text(lines, true)), Content(Text(front, true));
    assert whole == cut + Content(back) && cut + "" == cut;
    var i := HashIn(back.lines);
    StartsWithHash(lines);
    HashIsSolid();
    assert whole[|cut| + i] == Content(back)[i];
    StripKeeps(whole, |cut| + i);
    StripShortens(cut);
  }

  lemma HashIsSolid()
    ensures !IsSpace('#')
  {
  }

  lemma StartsWithHash(lines: seq<string>)
    requires lines != [] && IsComment(lines[0])
    ensures Content(Text(lines, true)) != "" && Content(Text(lines, true))[0] == '#'
  {
  }

  lemma {:induction false} HashIn(lines: seq<string>) returns (i: nat)
    requires lines != [] && IsComment(lines[|lines| - 1])
    ensures i < |Content(Text(lines, true))| && Content(Text(lines, true))[i] == '#'
    decreases |lines|
  {
    if |lines| == 1 {
      i := 0;
    } else {
      i := HashIn(lines[1..]);
      i := |lines[0]| + 1 + i;
    }
  }

  /** What an idle scanner finds first in such a region. */
  lemma FirstIsCut(a: Artefact, body: seq<string>, after: seq<string>, at: nat) returns (k: nat)
    requires Tokens(MarkFor(a)) && !NoRegionMarker(body)
    ensures 0 < k < |Marked(a, body)|
    ensures var found := ScanIdle(Marked(a, body) + after, at);
            found.Ok? ==> found.value != [] && found.value[0].mark == MarkFor(a) && found.value[0].lines == Marked(a, body)[..k]
  {
    hide KindOf, Tokens, NoRegionMarker, BeginMarker, EndMarker, ScanOpen;
    BeginIsRead(MarkFor(a));
    var lines, rest := Marked(a, body), [EndMarker(a.slug)] + after;
    assert (lines + after)[0] == lines[0] && (lines + after)[1..] == body + rest;
    var j := ClosesEarly(MarkFor(a), [lines[0]], body, rest, at + 1);
    k := if j < |body| then j + 2 else 1;
    if j < |body| {
      assert [lines[0]] + body[..j + 1] == lines[..k];
    }
  }

  /** What the scan finds for a slug, in a text where its region was replaced by lines that close early. */
  lemma FoundCut(t: Text, a: Artefact, body: seq<string>) returns (k: nat)
    requires FindRegions(t.lines).Ok? && Tokens(MarkFor(a)) && !NoRegionMarker(body)
    ensures ReplaceRegion(t, a.slug, Marked(a, body)).Ok?
    ensures 0 < k < |Marked(a, body)|
    ensures var found := FindRegions(ReplaceRegion(t, a.slug, Marked(a, body)).value.lines);
            found.Ok? ==> FirstEntry(RegionEntries(found.value), a.slug) == Some(Entry(MarkFor(a), Marked(a, body)[..k]))
  {
    hide KindOf, Tokens, NoRegionMarker, Marked, ScanIdle, Flat, RegionsOf, RegionShaped, IndexOf, FirstEntry, RegionEntries, ReplaceRegion;
    var items := ItemsOf(t);
    var mark, lines := MarkFor(a), Marked(a, body);
    ReplaceOnItems(t, items, mark, lines);
    var put, i := Put(items, mark, lines), IndexOf(items, a.slug);
    FlatAround(put, i);
    var before, after := put[..i], Flat(put[i + 1..]);
    assert before == items[..i];
    ScanOfItems(before, lines + after, 0);
    Sequences.Assoc(Flat(before), lines, after);
    k := FirstIsCut(a, body, after, |Flat(before)|);
    NoneCarries(before, a.slug, 0);
    var rest := ScanIdle(lines + after, |Flat(before)|);
    if rest.Ok? {
      FirstAfter(RegionsOf(before, 0), rest.value, a.slug);
    }
  }

  lemma {:induction false} FirstAfter(before: seq<Region>, found: seq<Region>, slug: string)
    requires (forall r | r in before :: r.mark.slug != slug) && found != [] && found[0].mark.slug == slug
    ensures FirstEntry(RegionEntries(before + found), slug) == Some(Entry(found[0].mark, found[0].lines))
  {
    var all := before + found;
    if before == [] {
      assert all[0] == found[0];
    } else {
      assert before[0] in before;
      assert RegionEntries(all)[1..] == RegionEntries(before[1..] + found);
      FirstAfter(before[1..], found, slug);
    }
  }

  /** Reading back a region whose body holds a region marker finds less than was written, or nothing readable. */
  lemma PosedRegionIsRefused(s: Stores, h: Host, e: PlanEntry, a: Artefact)
    requires HostInOrder(s, h) && Tokens(MarkFor(a)) && WriteFor(e, a) && a.deployment.strategy.CrontabBlockPerTask?
    requires PlaceFor(s, a).Ok? && !NoRegionMarker(Body(a).value)
    ensures ApplyEntry(s, h, e).Err?
  {
    hide KindOf, HostInOrder, PlaceFor, Body, Tokens, FindRegions, ReplaceRegion, NoRegionMarker, Strip, Content, FirstEntry, IsComment,
         BeginMarker, EndMarker, ReadsAs, Tabs;
    TabOrFile(s, a);
    var at := PlaceFor(s, a).value;
    ScansAt(s, h, at);
    var k := FoundCut(Read(h, at), a, Body(a).value);
    MarkersAreComments(MarkFor(a));
    CutReadsShorter(e.after, k);
    var u := ReplaceRegion(Read(h, at), a.slug, e.after).value;
    assert Read(h[at := u], at) == u;
  }

  lemma ScansAt(s: Stores, h: Host, tab: Place)
    requires HostInOrder(s, h) && tab in Tabs(s)
    ensures FindRegions(Read(h, tab).lines).Ok?
  {
    hide FindRegions, FileInOrder, Tabs;
  }

  // -- a file that blocks itself ---------------------------------------------------------------

  lemma NothingOnEmpty(s: Stores, slug: string)
    ensures HostInOrder(s, map[]) && !Managed(s, map[], slug)
  {
    hide KindOf, FindRegions, InOrder, RegionMap, MemberMap, Tabs, Dirs;
    EmptyFindsNothing();
    EmptyIsInOrder();
  }

  /** A file whose rendering cannot be scanned is deployed, and then nothing of the estate can be planned. */
  lemma UnscannedFileBlocks(s: Stores, a: Artefact)
    requires WritesAFile(a.deployment.strategy) && Tokens(MarkFor(a)) && Render(a).Ok? && PlaceFor(s, a).Ok?
    requires FindRegions(Render(a).value).Err?
    ensures PlanFor(s, map[], [a]).Ok? && ApplyPlan(s, map[], PlanFor(s, map[], [a]).value).Ok?
    ensures PlanFor(s, ApplyPlan(s, map[], PlanFor(s, map[], [a]).value).value, [a]).Err?
  {
    hide KindOf, PlaceFor, Render, FindRegions, HostInOrder, Managed, PlanRemovals, Tabs, Dirs, ApplyEntry, Strip, Content, Tokens;
    NothingOnEmpty(s, a.slug);
    EmptyHost(s, a);
    RenderedIsNotEmpty(a);
    PlanParts(s, map[], [a]);
    NoRemovals(s, Slugs([a]));
    var e := PlanOne(s, map[], a).value;
    assert PlanDesired(s, map[], [a]).value == [e];
    assert PlanFor(s, map[], [a]).value == [e];
    AnyFileIsWritten(s, map[], e, a);
    assert Changing([e]) == [e];
    var h := ApplyEntry(s, map[], e).value;
    assert ApplyAll(s, h, []) == Ok(h);
    assert Current(s, h, a).Err?;
  }

  lemma NoRemovals(s: Stores, wanted: set<string>)
    ensures PlanRemovals(s, map[], wanted) == Ok([])
  {
    hide HostInOrder, PlanRemovals, Managed;
    NothingOnEmpty(s, "");
    RemovalsPlanned(s, map[], wanted);
    var removals := PlanRemovals(s, map[], wanted).value;
    if removals != [] {
      assert removals[0] in removals;
      NothingOnEmpty(s, removals[0].slug);
      assert false;
    }
  }

  /** An end marker in front of the end marker closes the region, and the last one has nothing to close. */
  lemma EndsTwice(a: Artefact, front: seq<string>, back: seq<string>, shebang: bool)
    requires Tokens(MarkFor(a)) && NoRegionMarker(front) && NoRegionMarker(back)
    ensures FindRegions(FileLines(a, front + [EndMarker(a.slug)] + back, shebang)).Err?
  {
    hide KindOf, IsToken, NoRegionMarker, BeginMarker, EndMarker, ScanOpen;
    FixedLinesArePlain();
    BeginIsRead(MarkFor(a));
    EndIsRead(a.slug);
    var end, at := [EndMarker(a.slug)], if shebang then 1 else 0;
    var body := front + end + back;
    var lines, marked := FileLines(a, body, shebang), Marked(a, body);
    assert marked[1..] == front + end + (back + end);
    if shebang {
      assert lines[0] == SHEBANG && lines[1..] == marked;
    } else {
      assert lines == marked;
    }
    ScanCollects(MarkFor(a), [marked[0]], front, EndMarker(a.slug), back + end, at + 1);
    ScanSkips(back, end, at + |front| + 2);
    assert ScanIdle(end, at + |front| + 2 + |back|) == Err(EndWithoutBegin);
    assert ScanIdle(lines, 0) == ScanIdle(marked, at) == ScanOpen(MarkFor(a), [marked[0]], front + end + (back + end), at + 1);
  }

  /** A file with a posing description and an ordinary entry cannot be scanned. */
  lemma PosedFileIsUnscanned(a: Artefact)
    requires WritesAFile(a.deployment.strategy) && Tokens(MarkFor(a)) && Render(a).Ok?
    requires a.description == PosingDescription(a.slug) && NoRegionMarker(Physical(Directive(a)))
    ensures FindRegions(Render(a).value).Err?
  {
    hide KindOf, EndMarker, BeginMarker, FindRegions, Physical, DescriptionLines, Directive, PosingDescription, IsToken;
    var shebang := a.deployment.strategy.RunPartsDirectory?;
    var strict := if shebang then [STRICT] else [];
    FixedLinesArePlain();
    DescriptionPoses(a.slug);
    BodyIsDirective(a);
    var back := strict + Physical(Directive(a));
    assert [NOTICE] + Body(a).value == [NOTICE] + [EndMarker(a.slug)] + back;
    assert Render(a).value == FileLines(a, [NOTICE] + [EndMarker(a.slug)] + back, shebang);
    EndsTwice(a, [NOTICE], back, shebang);
  }

  /** A capability as the product wires it, described in words that pose as its end marker. */
  function PosingFile(): Artefact {
    Artefact("1", "s", Deployment(CronDFile, CronD, None, None), "taskctl activate s", "d", Some("* * * * *"), PosingDescription("s"))
  }

  lemma PosingEntry()
    ensures Render(PosingFile()).Ok? && OneLine(Directive(PosingFile())) && Directive(PosingFile())[0] == '*'
  {
    hide DescriptionLines, Physical, PosingDescription, BeginMarker, EndMarker;
    var a, lead := PosingFile(), "* * * * *" + " root" + " ";
    DirectiveLeads(a);
    assert Lead(a) == lead;
    forall c | c in Directive(a) ensures c != '\n' {
      assert c in lead || c in a.command;
    }
  }

  lemma PosingFileRenders()
    ensures Tokens(MarkFor(PosingFile())) && Render(PosingFile()).Ok?
    ensures FindRegions(Render(PosingFile()).value).Err?
  {
    hide KindOf, FindRegions, Physical, PosingDescription, DescriptionLines, Directive, Render;
    PosingEntry();
    OnePhysicalLine(Directive(PosingFile()));
    HashlessIsPlain(Directive(PosingFile()));
    PosedFileIsUnscanned(PosingFile());
  }

  /** On a host with a cron.d directory and nothing in it, deploying that file succeeds, and planning it again raises. */
  lemma PoserBlocksItself()
    ensures var s, desired := Stores(false, false, true, []), [PosingFile()];
            && PlanFor(s, map[], desired).Ok? && ApplyPlan(s, map[], PlanFor(s, map[], desired).value).Ok?
            && PlanFor(s, ApplyPlan(s, map[], PlanFor(s, map[], desired).value).value, desired).Err?
  {
    hide Render, PlanFor, ApplyPlan, FindRegions, Tokens, PosingDescription;
    PosingFileRenders();
    UnscannedFileBlocks(Stores(false, false, true, []), PosingFile());
  }
}
